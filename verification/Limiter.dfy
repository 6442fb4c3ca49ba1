/**
 * The connection limiter as a concurrent protocol. Per-address semaphores are created on
 * demand and removed by check, lock, re-check on the reference count. Each client runs its
 * acquire and its drop one atomic access at a time; the clients interleave freely.
 */
module Limiter {
  import opened Wrappers
  import opened Planning

  /** `None` stands for an unlimited cap, for which the source keeps no semaphore. */
  datatype Config = Config(perAddress: Option<nat>, total: Option<nat>, shard: Address -> nat)

  /** A semaphore, named by the address it was made for and a number of its own. */
  datatype Sem = Sem(key: Address, number: nat)

  type Client = nat

  /**
   * Where a client is. `a` is its address and `m` the semaphore it has a handle to;
   * `owesGlobal` says that a global permit must still be returned.
   */
  datatype Pc =
    | Holding(a: Address, m: Sem)
    | Refused(a: Address, m: Sem)
    | Slotted(a: Address, slot: Option<Sem>)
    | Live(a: Address, slot: Option<Sem>)
    | Returned(a: Address, m: Sem, owesGlobal: bool)
    | SawFull(a: Address, m: Sem, owesGlobal: bool)
    | SawTwo(a: Address, m: Sem, owesGlobal: bool)
    | Locked(a: Address, m: Sem, owesGlobal: bool)
    | LockedSame(a: Address, m: Sem, owesGlobal: bool)
    | LockedFull(a: Address, m: Sem, owesGlobal: bool)
    | Removing(a: Address, m: Sem, owesGlobal: bool)
    | Unlocking(a: Address, m: Sem, owesGlobal: bool, removed: bool)
    | Closing(a: Address, m: Sem, owesGlobal: bool, removed: bool)
    | GlobalDue

  /** A client that is not in `pcs` is idle. */
  datatype State = State(
    entry: map<Address, Sem>,
    available: map<Sem, nat>,
    globalAvailable: nat,
    pcs: map<Client, Pc>)

  function Initial(cfg: Config): State {
    State(map[], map[], if cfg.total.Some? then cfg.total.value else 0, map[])
  }

  // ------------------------------------------------------------ reading program counters

  function Handle(p: Pc): Option<Sem> {
    match p
    case Slotted(_, slot) => slot
    case Live(_, slot) => slot
    case GlobalDue => None
    case _ => Some(p.m)
  }

  predicate HasPermit(p: Pc, m: Sem) {
    (p.Slotted? || p.Live?) && p.slot == Some(m)
  }

  predicate HasGlobal(p: Pc) {
    match p
    case Holding(_, _) => false
    case Refused(_, _) => false
    case Slotted(_, _) => false
    case Live(_, _) => true
    case GlobalDue => true
    case _ => p.owesGlobal
  }

  predicate HoldsLock(p: Pc) {
    p.Locked? || p.LockedSame? || p.LockedFull? || p.Removing? || p.Unlocking?
  }

  /** The handle may still be used to take or to return a permit, or to remove the entry. */
  predicate Usable(p: Pc) {
    Handle(p).Some? && !((p.Unlocking? || p.Closing?) && p.removed)
  }

  function Holders(s: State, m: Sem): set<Client> {
    set c | c in s.pcs && Handle(s.pcs[c]) == Some(m)
  }

  function PermitHolders(s: State, m: Sem): set<Client> {
    set c | c in s.pcs && HasPermit(s.pcs[c], m)
  }

  function GlobalHolders(s: State): set<Client> {
    set c | c in s.pcs && HasGlobal(s.pcs[c])
  }

  /** `Arc::strong_count`: one for each map entry and one for each client's handle. */
  function StrongCount(s: State, m: Sem): nat {
    |set a | a in s.entry && s.entry[a] == m| + |Holders(s, m)|
  }

  predicate LockFree(cfg: Config, s: State, a: Address) {
    forall c :: c in s.pcs && HoldsLock(s.pcs[c]) ==> cfg.shard(s.pcs[c].a) != cfg.shard(a)
  }

  // ------------------------------------------------------------------------- steps

  /** `semaphore_for`: get or insert under the shard lock, and clone the handle. */
  function Lookup(cfg: Config, s: State, c: Client, a: Address, created: Sem): State {
    if cfg.perAddress.None? then s.(pcs := s.pcs[c := Slotted(a, None)])
    else if a in s.entry then s.(pcs := s.pcs[c := Holding(a, s.entry[a])])
    else s.(entry := s.entry[a := created],
            available := s.available[created := cfg.perAddress.value],
            pcs := s.pcs[c := Holding(a, created)])
  }

  function Goto(s: State, c: Client, p: Pc): State {
    s.(pcs := s.pcs[c := p])
  }

  function Finish(s: State, c: Client, owesGlobal: bool): State {
    if owesGlobal then Goto(s, c, GlobalDue) else s.(pcs := s.pcs - {c})
  }

  /** Drops the inner permit of an address permit: the slot goes back to its semaphore. */
  function GiveBack(s: State, c: Client, a: Address, slot: Option<Sem>, owesGlobal: bool): State
    requires slot.Some? ==> slot.value in s.available
  {
    if slot.None? then Finish(s, c, owesGlobal)
    else Goto(s, c, Returned(a, slot.value, owesGlobal)).(available := s.available[slot.value := s.available[slot.value] + 1])
  }

  function Limit(cfg: Config): nat {
    if cfg.perAddress.Some? then cfg.perAddress.value else 0
  }

  /** The next atomic access of a client that is under way. */
  function Proceed(cfg: Config, s: State, c: Client): State
    requires c in s.pcs && (Handle(s.pcs[c]).Some? ==> Handle(s.pcs[c]).value in s.available)
  {
    match s.pcs[c]
    case Holding(a, m) =>
      if s.available[m] > 0 then
        Goto(s, c, Slotted(a, Some(m))).(available := s.available[m := s.available[m] - 1])
      else Goto(s, c, Refused(a, m))
    case Refused(_, _) => s.(pcs := s.pcs - {c})
    case Slotted(a, slot) =>
      if cfg.total.None? then Goto(s, c, Live(a, slot))
      else if s.globalAvailable > 0 then Goto(s, c, Live(a, slot)).(globalAvailable := s.globalAvailable - 1)
      else GiveBack(s, c, a, slot, false)
    case Live(a, slot) => GiveBack(s, c, a, slot, cfg.total.Some?)
    case Returned(a, m, g) => Goto(s, c, if s.available[m] == Limit(cfg) then SawFull(a, m, g) else Closing(a, m, g, false))
    case SawFull(a, m, g) => Goto(s, c, if StrongCount(s, m) == 2 then SawTwo(a, m, g) else Closing(a, m, g, false))
    case SawTwo(a, m, g) => Goto(s, c, Locked(a, m, g))
    case Locked(a, m, g) =>
      Goto(s, c, if a in s.entry && s.entry[a] == m then LockedSame(a, m, g) else Unlocking(a, m, g, false))
    case LockedSame(a, m, g) =>
      Goto(s, c, if s.available[m] == Limit(cfg) then LockedFull(a, m, g) else Unlocking(a, m, g, false))
    case LockedFull(a, m, g) =>
      Goto(s, c, if StrongCount(s, m) == 2 then Removing(a, m, g) else Unlocking(a, m, g, false))
    case Removing(a, m, g) => Goto(s, c, Unlocking(a, m, g, true)).(entry := s.entry - {a})
    case Unlocking(a, m, g, removed) => Goto(s, c, Closing(a, m, g, removed))
    case Closing(_, _, g, _) => Finish(s, c, g)
    case GlobalDue =>
      s.(pcs := s.pcs - {c}, globalAvailable := s.globalAvailable + if cfg.total.Some? then 1 else 0)
  }

  datatype Action = Start(c: Client, a: Address, created: Sem) | Continue(c: Client)

  predicate Enabled(cfg: Config, s: State, x: Action) {
    match x
    case Start(c, a, created) => c !in s.pcs && created !in s.available && created.key == a && LockFree(cfg, s, a)
    case Continue(c) => c in s.pcs && (s.pcs[c].SawTwo? ==> LockFree(cfg, s, s.pcs[c].a))
  }

  // --------------------------------------------------------------------- invariants

  /** Every handle and entry names an allocated semaphore, made for its address. */
  ghost predicate WellFormed(cfg: Config, s: State) {
    && (forall c :: c in s.pcs && Handle(s.pcs[c]).Some? ==>
          Handle(s.pcs[c]).value in s.available && Handle(s.pcs[c]).value.key == s.pcs[c].a)
    && (forall a :: a in s.entry ==> s.entry[a] in s.available && s.entry[a].key == a)
    && (forall c :: c in s.pcs && (s.pcs[c].Slotted? || s.pcs[c].Live?) ==> (s.pcs[c].slot.Some? <==> cfg.perAddress.Some?))
    && (forall c :: c in s.pcs && HasGlobal(s.pcs[c]) && !s.pcs[c].Live? ==> cfg.total.Some?)
    && (cfg.perAddress.None? ==> s.available == map[])
  }

  /** A usable handle is to the semaphore the map has for that address now. */
  ghost predicate HandlesCurrent(s: State) {
    forall c :: c in s.pcs && Usable(s.pcs[c]) ==>
      s.pcs[c].a in s.entry && s.entry[s.pcs[c].a] == Handle(s.pcs[c]).value
  }

  ghost predicate Mutex(cfg: Config, s: State) {
    forall c, d :: c in s.pcs && d in s.pcs && c != d && HoldsLock(s.pcs[c]) && HoldsLock(s.pcs[d]) ==>
      cfg.shard(s.pcs[c].a) != cfg.shard(s.pcs[d].a)
  }

  /** A client that has decided to remove an entry is the only one with a handle. */
  ghost predicate RemoverAlone(s: State) {
    forall c, d :: c in s.pcs && d in s.pcs && s.pcs[c].Removing? && Handle(s.pcs[d]) == Some(s.pcs[c].m) ==> d == c
  }

  /** Permits are neither lost nor made up. */
  ghost predicate Accounted(cfg: Config, s: State) {
    && (forall m :: m in s.available ==> s.available[m] + |PermitHolders(s, m)| == Limit(cfg))
    && (cfg.total.Some? ==> s.globalAvailable + |GlobalHolders(s)| == cfg.total.value)
  }

  ghost predicate Inv(cfg: Config, s: State) {
    WellFormed(cfg, s) && HandlesCurrent(s) && Mutex(cfg, s) && RemoverAlone(s) && Accounted(cfg, s)
  }

  function Apply(cfg: Config, s: State, x: Action): State
    requires WellFormed(cfg, s) && Enabled(cfg, s, x)
  {
    match x
    case Start(c, a, created) => Lookup(cfg, s, c, a, created)
    case Continue(c) => Proceed(cfg, s, c)
  }

  // ------------------------------------------------------------------------ preservation

  /** A step moves one client, and every other client stays where it is. */
  ghost predicate MovesOnly(s: State, s': State, c: Client) {
    s'.pcs.Keys - {c} == s.pcs.Keys - {c} && forall d :: d in s'.pcs && d != c ==> d in s.pcs && s'.pcs[d] == s.pcs[d]
  }

  lemma StepMovesOne(cfg: Config, s: State, x: Action)
    requires WellFormed(cfg, s) && Enabled(cfg, s, x)
    ensures MovesOnly(s, Apply(cfg, s, x), x.c)
  {
    hide StrongCount;
  }

  /** What a client's next access may do to the map and the semaphores. */
  ghost predicate SharedMoves(s: State, s': State, c: Client)
    requires c in s.pcs
  {
    var p := s.pcs[c];
    && s'.available.Keys == s.available.Keys
    && s'.entry == (if p.Removing? then s.entry - {p.a} else s.entry)
    && (p.Removing? ==> c in s'.pcs && !Usable(s'.pcs[c]))
  }

  /** What it may do to the client's own program counter. */
  ghost predicate PcMoves(s: State, s': State, c: Client)
    requires c in s.pcs
  {
    var p := s.pcs[c];
    c in s'.pcs ==>
      && (Handle(s'.pcs[c]).None? || (Handle(s'.pcs[c]) == Handle(p) && s'.pcs[c].a == p.a))
      && (HoldsLock(s'.pcs[c]) ==> s'.pcs[c].a == p.a && (HoldsLock(p) || p.SawTwo?))
      && (Usable(s'.pcs[c]) ==> Usable(p))
      && (s'.pcs[c].Removing? ==> p.LockedFull? && StrongCount(s, p.m) == 2)
  }

  lemma ProceedShared(cfg: Config, s: State, c: Client)
    requires c in s.pcs && (Handle(s.pcs[c]).Some? ==> Handle(s.pcs[c]).value in s.available)
    ensures SharedMoves(s, Proceed(cfg, s, c), c)
  {
    hide StrongCount;
  }

  lemma ProceedPc(cfg: Config, s: State, c: Client)
    requires c in s.pcs && (Handle(s.pcs[c]).Some? ==> Handle(s.pcs[c]).value in s.available)
    ensures PcMoves(s, Proceed(cfg, s, c), c)
  {
    hide StrongCount;
    match s.pcs[c] {
      case Holding(_, _) =>
      case Slotted(_, _) =>
      case Live(_, _) =>
      case Locked(_, _, _) =>
      case LockedFull(_, _, _) =>
      case _ =>
    }
  }

  function One(b: bool): nat {
    if b then 1 else 0
  }

  lemma ProceedPermits(cfg: Config, s: State, c: Client, m: Sem)
    requires c in s.pcs && (Handle(s.pcs[c]).Some? ==> Handle(s.pcs[c]).value in s.available)
    requires m in s.available
    ensures var s' := Proceed(cfg, s, c);
            m in s'.available && s'.available[m] + One(c in PermitHolders(s', m)) == s.available[m] + One(c in PermitHolders(s, m))
  {
    hide StrongCount;
  }

  lemma ProceedGlobal(cfg: Config, s: State, c: Client)
    requires c in s.pcs && (Handle(s.pcs[c]).Some? ==> Handle(s.pcs[c]).value in s.available) && cfg.total.Some?
    ensures var s' := Proceed(cfg, s, c);
            s'.globalAvailable + One(c in GlobalHolders(s')) == s.globalAvailable + One(c in GlobalHolders(s))
  {
    hide StrongCount;
    match s.pcs[c] {
      case Slotted(_, _) =>
      case Live(_, _) =>
      case Closing(_, _, _, _) =>
      case GlobalDue =>
      case _ =>
    }
  }

  lemma StepKeepsMutex(cfg: Config, s: State, x: Action)
    requires WellFormed(cfg, s) && Mutex(cfg, s) && Enabled(cfg, s, x)
    ensures Mutex(cfg, Apply(cfg, s, x))
  {
    StepMovesOne(cfg, s, x);
    if x.Continue? {
      ProceedShared(cfg, s, x.c);
      ProceedPc(cfg, s, x.c);
      hide Proceed, WellFormed;
    }
  }

  lemma StartKeepsWellFormed(cfg: Config, s: State, x: Action)
    requires WellFormed(cfg, s) && Enabled(cfg, s, x) && x.Start?
    ensures WellFormed(cfg, Apply(cfg, s, x))
  {
    hide LockFree;
    if cfg.perAddress.None? {
    } else if x.a in s.entry {
    } else {
    }
  }

  lemma ProceedFitsSlots(cfg: Config, s: State, c: Client)
    requires WellFormed(cfg, s) && c in s.pcs
    ensures var s' := Proceed(cfg, s, c);
            c in s'.pcs && (s'.pcs[c].Slotted? || s'.pcs[c].Live?) ==> (s'.pcs[c].slot.Some? <==> cfg.perAddress.Some?)
    ensures cfg.perAddress.None? ==> Proceed(cfg, s, c).available == map[]
  {
    hide StrongCount;
    match s.pcs[c] {
      case Holding(_, _) =>
      case Slotted(_, _) =>
      case Live(_, _) =>
      case _ =>
    }
  }

  lemma ProceedFitsGlobal(cfg: Config, s: State, c: Client)
    requires WellFormed(cfg, s) && c in s.pcs
    ensures var s' := Proceed(cfg, s, c);
            c in s'.pcs && HasGlobal(s'.pcs[c]) && !s'.pcs[c].Live? ==> cfg.total.Some?
  {
    hide StrongCount;
    match s.pcs[c] {
      case Live(_, _) =>
      case Closing(_, _, _, _) =>
      case _ =>
    }
  }

  lemma ContinueKeepsWellFormed(cfg: Config, s: State, x: Action)
    requires WellFormed(cfg, s) && Enabled(cfg, s, x) && x.Continue?
    ensures WellFormed(cfg, Apply(cfg, s, x))
  {
    StepMovesOne(cfg, s, x);
    ProceedShared(cfg, s, x.c);
    ProceedPc(cfg, s, x.c);
    ProceedFitsSlots(cfg, s, x.c);
    ProceedFitsGlobal(cfg, s, x.c);
    hide Proceed, LockFree;
  }

  lemma StepKeepsHandlesCurrent(cfg: Config, s: State, x: Action)
    requires WellFormed(cfg, s) && HandlesCurrent(s) && RemoverAlone(s) && Enabled(cfg, s, x)
    ensures HandlesCurrent(Apply(cfg, s, x))
  {
    if x.Continue? {
      StepMovesOne(cfg, s, x);
      ProceedShared(cfg, s, x.c);
      ProceedPc(cfg, s, x.c);
      hide Proceed, WellFormed;
    }
  }

  lemma TwoMembers(h: set<Client>, c: Client, d: Client)
    requires c in h && d in h && c != d
    ensures |h| >= 2
  {
    assert h == (h - {c, d}) + {c, d};
  }

  /** A strong count of two is the map entry and the client itself: nobody else has a handle. */
  lemma CountTwoMeansAlone(s: State, c: Client, d: Client)
    requires c in s.pcs && Usable(s.pcs[c]) && HandlesCurrent(s)
    requires StrongCount(s, Handle(s.pcs[c]).value) == 2
    requires d in s.pcs && Handle(s.pcs[d]) == Handle(s.pcs[c])
    ensures d == c
  {
    var m := Handle(s.pcs[c]).value;
    var homes := set a | a in s.entry && s.entry[a] == m;
    assert homes == (homes - {s.pcs[c].a}) + {s.pcs[c].a};
    if d != c {
      TwoMembers(Holders(s, m), c, d);
    }
  }

  /** While a remover holds the shard lock no lookup can clone a handle from the map. */
  lemma LookupMeetsNoRemover(cfg: Config, s: State, x: Action)
    requires WellFormed(cfg, s) && HandlesCurrent(s) && Enabled(cfg, s, x) && x.Start?
    ensures var s' := Apply(cfg, s, x);
            x.c in s'.pcs && !s'.pcs[x.c].Removing? &&
            forall c :: c in s.pcs && s.pcs[c].Removing? ==> Handle(s'.pcs[x.c]) != Some(s.pcs[c].m)
  {
    forall c | c in s.pcs && s.pcs[c].Removing? ensures Handle(Apply(cfg, s, x).pcs[x.c]) != Some(s.pcs[c].m) {
      assert HoldsLock(s.pcs[c]) && Usable(s.pcs[c]);
    }
  }

  lemma StepKeepsRemoverAlone(cfg: Config, s: State, x: Action)
    requires WellFormed(cfg, s) && HandlesCurrent(s) && RemoverAlone(s) && Enabled(cfg, s, x)
    ensures RemoverAlone(Apply(cfg, s, x))
  {
    var s' := Apply(cfg, s, x);
    StepMovesOne(cfg, s, x);
    if x.Continue? {
      ProceedShared(cfg, s, x.c);
      ProceedPc(cfg, s, x.c);
      hide Proceed, StrongCount, WellFormed;
      forall c, d | c in s'.pcs && d in s'.pcs && s'.pcs[c].Removing? && Handle(s'.pcs[d]) == Some(s'.pcs[c].m) ensures d == c {
        if c == x.c {
          CountTwoMeansAlone(s, c, d);
        }
      }
    } else {
      LookupMeetsNoRemover(cfg, s, x);
      hide Apply, StrongCount;
    }
  }

  lemma CountMoves(h: set<Client>, h': set<Client>, c: Client)
    requires h - {c} == h' - {c}
    ensures |h'| + One(c in h) == |h| + One(c in h')
  {
    assert h == (h - {c}) + if c in h then {c} else {};
    assert h' == (h' - {c}) + if c in h' then {c} else {};
  }

  lemma PermitsMove(s: State, s': State, c: Client, m: Sem)
    requires MovesOnly(s, s', c)
    ensures |PermitHolders(s', m)| + One(c in PermitHolders(s, m)) == |PermitHolders(s, m)| + One(c in PermitHolders(s', m))
  {
    assert forall d :: d != c ==> (d in s.pcs <==> d in s.pcs.Keys - {c}) && (d in s'.pcs <==> d in s'.pcs.Keys - {c});
    assert PermitHolders(s, m) - {c} == PermitHolders(s', m) - {c};
    CountMoves(PermitHolders(s, m), PermitHolders(s', m), c);
  }

  lemma GlobalsMove(s: State, s': State, c: Client)
    requires MovesOnly(s, s', c)
    ensures |GlobalHolders(s')| + One(c in GlobalHolders(s)) == |GlobalHolders(s)| + One(c in GlobalHolders(s'))
  {
    assert forall d :: d != c ==> (d in s.pcs <==> d in s.pcs.Keys - {c}) && (d in s'.pcs <==> d in s'.pcs.Keys - {c});
    assert GlobalHolders(s) - {c} == GlobalHolders(s') - {c};
    CountMoves(GlobalHolders(s), GlobalHolders(s'), c);
  }

  lemma ContinueKeepsAccounted(cfg: Config, s: State, x: Action)
    requires WellFormed(cfg, s) && Accounted(cfg, s) && Enabled(cfg, s, x) && x.Continue?
    ensures Accounted(cfg, Apply(cfg, s, x))
  {
    var s' := Apply(cfg, s, x);
    StepMovesOne(cfg, s, x);
    ProceedShared(cfg, s, x.c);
    ProceedPc(cfg, s, x.c);
    if cfg.total.Some? {
      ProceedGlobal(cfg, s, x.c);
    }
    hide Proceed, PermitHolders, GlobalHolders, MovesOnly;
    GlobalsMove(s, s', x.c);
    forall m | m in s'.available ensures s'.available[m] + |PermitHolders(s', m)| == Limit(cfg) {
      ProceedPermits(cfg, s, x.c, m);
      PermitsMove(s, s', x.c, m);
    }
  }

  lemma StartKeepsHolders(cfg: Config, s: State, x: Action, m: Sem)
    requires WellFormed(cfg, s) && Enabled(cfg, s, x) && x.Start?
    ensures PermitHolders(Apply(cfg, s, x), m) == PermitHolders(s, m) && GlobalHolders(Apply(cfg, s, x)) == GlobalHolders(s)
    ensures m !in s.available ==> PermitHolders(s, m) == {}
  {
    hide LockFree;
  }

  lemma StartKeepsAccounted(cfg: Config, s: State, x: Action)
    requires WellFormed(cfg, s) && Accounted(cfg, s) && Enabled(cfg, s, x) && x.Start?
    ensures Accounted(cfg, Apply(cfg, s, x))
  {
    var s' := Apply(cfg, s, x);
    hide LockFree, PermitHolders, GlobalHolders;
    StartKeepsHolders(cfg, s, x, x.created);
    forall m | m in s'.available ensures s'.available[m] + |PermitHolders(s', m)| == Limit(cfg) {
      StartKeepsHolders(cfg, s, x, m);
    }
  }

  lemma StepKeepsInv(cfg: Config, s: State, x: Action)
    requires Inv(cfg, s) && Enabled(cfg, s, x)
    ensures Inv(cfg, Apply(cfg, s, x))
  {
    hide WellFormed, HandlesCurrent, Mutex, RemoverAlone, Accounted, Enabled;
    StepKeepsMutex(cfg, s, x);
    StepKeepsHandlesCurrent(cfg, s, x);
    StepKeepsRemoverAlone(cfg, s, x);
    if x.Start? {
      StartKeepsWellFormed(cfg, s, x);
      StartKeepsAccounted(cfg, s, x);
    } else {
      ContinueKeepsWellFormed(cfg, s, x);
      ContinueKeepsAccounted(cfg, s, x);
    }
  }

  // ------------------------------------------------------------------------ whole runs

  datatype Run = Run(states: seq<State>, actions: seq<Action>)

  ghost predicate Step(cfg: Config, s: State, x: Action, s': State) {
    WellFormed(cfg, s) && Enabled(cfg, s, x) && s' == Apply(cfg, s, x)
  }

  /** Any interleaving of the clients' steps. */
  ghost predicate IsRun(cfg: Config, r: Run) {
    && |r.states| == |r.actions| + 1
    && r.states[0] == Initial(cfg)
    && forall k :: 0 <= k < |r.actions| ==> Step(cfg, r.states[k], r.actions[k], r.states[k + 1])
  }

  lemma {:induction false} EveryRunKeepsInv(cfg: Config, r: Run, k: nat)
    requires IsRun(cfg, r) && k < |r.states|
    ensures Inv(cfg, r.states[k])
  {
    hide Apply;
    if k == 0 {
      assert GlobalHolders(Initial(cfg)) == {};
    } else {
      EveryRunKeepsInv(cfg, r, k - 1);
      hide Inv;
      assert Step(cfg, r.states[k - 1], r.actions[k - 1], r.states[k]);
      StepKeepsInv(cfg, r.states[k - 1], r.actions[k - 1]);
    }
  }

  function LiveAt(s: State, a: Address): set<Client> {
    set c | c in s.pcs && s.pcs[c].Live? && s.pcs[c].a == a
  }

  function LiveClients(s: State): set<Client> {
    set c | c in s.pcs && s.pcs[c].Live?
  }

  lemma SubsetSize(x: set<Client>, y: set<Client>)
    requires x <= y
    ensures |x| <= |y|
  {
    assert y == x + (y - x);
  }

  /** Two usable handles for one address are handles to one semaphore. */
  lemma OneSemaphorePerAddress(cfg: Config, r: Run, k: nat, c: Client, d: Client)
    requires IsRun(cfg, r) && k < |r.states|
    requires c in r.states[k].pcs && d in r.states[k].pcs
    requires Usable(r.states[k].pcs[c]) && Usable(r.states[k].pcs[d]) && r.states[k].pcs[c].a == r.states[k].pcs[d].a
    ensures Handle(r.states[k].pcs[c]) == Handle(r.states[k].pcs[d])
  {
    hide IsRun;
    EveryRunKeepsInv(cfg, r, k);
  }

  lemma LiveShareSemaphore(cfg: Config, s: State, a: Address, m: Sem)
    requires WellFormed(cfg, s) && HandlesCurrent(s) && cfg.perAddress.Some? && a in s.entry && s.entry[a] == m
    ensures LiveAt(s, a) <= PermitHolders(s, m)
  {
    hide StrongCount;
    forall c | c in LiveAt(s, a) ensures c in PermitHolders(s, m) {
      assert s.pcs[c].slot.Some? && Usable(s.pcs[c]);
    }
  }

  lemma AddressCapHolds(cfg: Config, s: State, a: Address)
    requires WellFormed(cfg, s) && HandlesCurrent(s) && Accounted(cfg, s) && cfg.perAddress.Some?
    ensures |LiveAt(s, a)| <= cfg.perAddress.value
  {
    if LiveAt(s, a) != {} {
      var c :| c in LiveAt(s, a);
      assert s.pcs[c].slot.Some? && Usable(s.pcs[c]);
      var m := s.entry[a];
      assert m in s.available;
      LiveShareSemaphore(cfg, s, a, m);
      hide LiveAt, PermitHolders, WellFormed, HandlesCurrent;
      SubsetSize(LiveAt(s, a), PermitHolders(s, m));
    }
  }

  lemma TotalCapHolds(cfg: Config, s: State)
    requires Accounted(cfg, s) && cfg.total.Some?
    ensures |LiveClients(s)| <= cfg.total.value
  {
    SubsetSize(LiveClients(s), GlobalHolders(s));
  }

  /** Under every interleaving, live connection permits stay within both caps. */
  lemma CapsHold(cfg: Config, r: Run, k: nat, a: Address)
    requires IsRun(cfg, r) && k < |r.states|
    ensures cfg.perAddress.Some? ==> |LiveAt(r.states[k], a)| <= cfg.perAddress.value
    ensures cfg.total.Some? ==> |LiveClients(r.states[k])| <= cfg.total.value
  {
    hide IsRun, WellFormed, HandlesCurrent, Mutex, RemoverAlone, Accounted, LiveAt, LiveClients;
    EveryRunKeepsInv(cfg, r, k);
    if cfg.perAddress.Some? {
      AddressCapHolds(cfg, r.states[k], a);
    }
    if cfg.total.Some? {
      TotalCapHolds(cfg, r.states[k]);
    }
  }

  /** A client refused by a semaphore meets a cap that is really used up at that moment. */
  lemma RefusalMeansFull(cfg: Config, r: Run, k: nat, c: Client)
    requires IsRun(cfg, r) && k < |r.actions| && r.actions[k] == Continue(c)
    requires c in r.states[k].pcs && !(c in r.states[k + 1].pcs && r.states[k + 1].pcs[c].Slotted?)
    ensures r.states[k].pcs[c].Holding? ==> |PermitHolders(r.states[k], r.states[k].pcs[c].m)| == Limit(cfg)
    ensures r.states[k].pcs[c].Slotted? && !(c in r.states[k + 1].pcs && r.states[k + 1].pcs[c].Live?) ==>
              cfg.total.Some? && |GlobalHolders(r.states[k])| == cfg.total.value
  {
    EveryRunKeepsInv(cfg, r, k);
    assert Step(cfg, r.states[k], r.actions[k], r.states[k + 1]);
    hide IsRun, StrongCount;
  }

  /** When every client is done, each semaphore in the map and the global one are full again. */
  lemma NothingLeaks(cfg: Config, r: Run, k: nat)
    requires IsRun(cfg, r) && k < |r.states| && r.states[k].pcs == map[]
    ensures forall a :: a in r.states[k].entry ==>
              r.states[k].entry[a] in r.states[k].available && r.states[k].available[r.states[k].entry[a]] == Limit(cfg)
    ensures cfg.total.Some? ==> r.states[k].globalAvailable == cfg.total.value
  {
    hide IsRun;
    var s := r.states[k];
    EveryRunKeepsInv(cfg, r, k);
    assert GlobalHolders(s) == {};
    assert forall m :: PermitHolders(s, m) == {};
  }
}
