/**
 * When the limiter reclaims a semaphore nobody uses any more: exactly when the last client to
 * leave it removed its map entry, and not if that client had given up before.
 */
module LimiterReclaim {
  import opened Wrappers
  import opened Planning
  import opened Limiter

  // ---------------------------------------------------------------- what a client reads

  /**
   * The client's next access makes it leave the entry alone: it is refused, or it reads that
   * permits are out, or it reads a reference count other than two.
   */
  predicate Declines(cfg: Config, s: State, c: Client)
    requires c in s.pcs && (Handle(s.pcs[c]).Some? ==> Handle(s.pcs[c]).value in s.available)
  {
    match s.pcs[c]
    case Holding(_, m) => s.available[m] == 0
    case Returned(_, m, _) => s.available[m] != Limit(cfg)
    case LockedSame(_, m, _) => s.available[m] != Limit(cfg)
    case SawFull(_, m, _) => StrongCount(s, m) != 2
    case LockedFull(_, m, _) => StrongCount(s, m) != 2
    case _ => false
  }

  /** `c` declines at step `k` of the run. */
  ghost predicate DeclinesAt(cfg: Config, r: Run, k: nat, c: Client)
    requires IsRun(cfg, r) && k < |r.actions|
  {
    assert Step(cfg, r.states[k], r.actions[k], r.states[k + 1]);
    c in r.states[k].pcs && Declines(cfg, r.states[k], c)
  }

  /** Has `c` declined since it last started, by state `k`? */
  ghost predicate GaveUp(cfg: Config, r: Run, k: nat, c: Client)
    requires IsRun(cfg, r) && k < |r.states|
  {
    k > 0 && !(r.actions[k - 1].Start? && r.actions[k - 1].c == c) &&
    (GaveUp(cfg, r, k - 1, c) || (r.actions[k - 1] == Continue(c) && DeclinesAt(cfg, r, k - 1, c)))
  }

  /** Had the last client to drop its handle to `m` given up? */
  ghost predicate LastLeaverGaveUp(cfg: Config, r: Run, k: nat, m: Sem)
    requires IsRun(cfg, r) && k < |r.states|
  {
    k > 0 &&
    var c := r.actions[k - 1].c;
    if c in Holders(r.states[k - 1], m) && c !in Holders(r.states[k], m) then GaveUp(cfg, r, k - 1, c)
    else LastLeaverGaveUp(cfg, r, k - 1, m)
  }

  // --------------------------------------------------- program counters tell the history

  /** Where a client is after it gave up, and where it is before. */
  predicate OnTheWayOut(p: Pc) {
    p.Refused? || ((p.Unlocking? || p.Closing?) && !p.removed)
  }

  lemma ProceedTells(cfg: Config, s: State, c: Client)
    requires WellFormed(cfg, s) && HandlesCurrent(s) && c in s.pcs
    ensures var s', p := Proceed(cfg, s, c), s.pcs[c];
            c in s'.pcs && Handle(s'.pcs[c]).Some? ==>
              && Handle(p).Some?
              && (OnTheWayOut(s'.pcs[c]) <==> OnTheWayOut(p) || Declines(cfg, s, c))
  {
    hide StrongCount;
  }

  predicate HasRemoved(p: Pc) {
    (p.Unlocking? || p.Closing?) && p.removed
  }

  lemma StartIsInterested(cfg: Config, s: State, x: Action)
    requires WellFormed(cfg, s) && Enabled(cfg, s, x) && x.Start?
    ensures var s' := Apply(cfg, s, x); x.c in s'.pcs && !OnTheWayOut(s'.pcs[x.c]) && !HasRemoved(s'.pcs[x.c])
  {
    hide LockFree;
  }

  /** With a handle in hand, a client is on its way out exactly if it gave up. */
  lemma {:induction false} PcTellsHistory(cfg: Config, r: Run, k: nat, c: Client)
    requires IsRun(cfg, r) && k < |r.states| && c in r.states[k].pcs && Handle(r.states[k].pcs[c]).Some?
    ensures OnTheWayOut(r.states[k].pcs[c]) <==> GaveUp(cfg, r, k, c)
  {
    hide Proceed, StrongCount, Declines, WellFormed, HandlesCurrent, Mutex, RemoverAlone, Accounted;
    if k == 0 {
    } else {
      var s, x, s' := r.states[k - 1], r.actions[k - 1], r.states[k];
      EveryRunKeepsInv(cfg, r, k - 1);
      assert Step(cfg, s, x, r.states[k - 1 + 1]);
      StepMovesOne(cfg, s, x);
      if x.c != c {
        PcTellsHistory(cfg, r, k - 1, c);
      } else if x.Continue? {
        ProceedTells(cfg, s, c);
        PcTellsHistory(cfg, r, k - 1, c);
      } else {
        StartIsInterested(cfg, s, x);
      }
    }
  }

  // -------------------------------------------------------------------- the exact theorem

  predicate InMap(s: State, m: Sem) {
    m.key in s.entry && s.entry[m.key] == m
  }

  /** A semaphore whose entry was removed has one handle left; without handles `left` says where it stands. */
  ghost predicate Resolved(s: State, m: Sem, left: bool) {
    && (forall c :: c in Holders(s, m) && HasRemoved(s.pcs[c]) ==> !InMap(s, m) && Holders(s, m) == {c})
    && (Holders(s, m) == {} ==> (InMap(s, m) <==> left))
  }

  predicate Leaves(s: State, s': State, c: Client, m: Sem) {
    c in Holders(s, m) && c !in Holders(s', m)
  }

  lemma HandleIsAllocated(cfg: Config, s: State, c: Client)
    requires WellFormed(cfg, s) && c in s.pcs
    ensures Handle(s.pcs[c]).Some? ==> Handle(s.pcs[c]).value in s.available
  {
  }

  /** A handle is dropped in two places only, and `Continue` never clones one. */
  lemma ProceedLeaves(cfg: Config, s: State, c: Client, m: Sem)
    requires WellFormed(cfg, s) && c in s.pcs
    ensures Leaves(s, Proceed(cfg, s, c), c, m) ==> s.pcs[c].Refused? || s.pcs[c].Closing?
  {
    hide StrongCount, WellFormed;
    assert Handle(s.pcs[c]).Some? ==> Handle(s.pcs[c]).value in s.available by { HandleIsAllocated(cfg, s, c); }
  }

  lemma ProceedNeverClones(cfg: Config, s: State, c: Client, m: Sem)
    requires c in s.pcs && (Handle(s.pcs[c]).Some? ==> Handle(s.pcs[c]).value in s.available)
    ensures c in Holders(Proceed(cfg, s, c), m) ==> c in Holders(s, m)
  {
    hide Proceed, StrongCount;
    ProceedPc(cfg, s, c);
  }

  lemma ProceedRemovedBefore(cfg: Config, s: State, c: Client)
    requires c in s.pcs && (Handle(s.pcs[c]).Some? ==> Handle(s.pcs[c]).value in s.available)
    ensures var s' := Proceed(cfg, s, c);
            c in s'.pcs && HasRemoved(s'.pcs[c]) ==> HasRemoved(s.pcs[c]) || s.pcs[c].Removing?
  {
    hide StrongCount;
  }

  lemma HoldersMove(s: State, s': State, c: Client, m: Sem)
    requires MovesOnly(s, s', c)
    ensures Holders(s', m) == if c in Holders(s', m) then Holders(s, m) + {c} else Holders(s, m) - {c}
    ensures forall d :: d in Holders(s', m) && d != c ==> s'.pcs[d] == s.pcs[d]
  {
    assert forall d :: d != c ==> (d in s.pcs <==> d in s.pcs.Keys - {c}) && (d in s'.pcs <==> d in s'.pcs.Keys - {c});
  }

  lemma LeavingResolves(s: State, s': State, c: Client, m: Sem, left: bool)
    requires Resolved(s, m, left) && c in Holders(s, m) && Holders(s', m) == Holders(s, m) - {c}
    requires forall d :: d in Holders(s', m) ==> s'.pcs[d] == s.pcs[d]
    requires InMap(s', m) <==> InMap(s, m)
    requires OnTheWayOut(s.pcs[c]) <==> !HasRemoved(s.pcs[c])
    requires OnTheWayOut(s.pcs[c]) ==> InMap(s, m)
    ensures Resolved(s', m, OnTheWayOut(s.pcs[c]))
  {
    hide Holders, InMap, OnTheWayOut;
  }

  lemma JoiningResolves(s: State, s': State, c: Client, m: Sem, left: bool)
    requires Resolved(s, m, left) && c in Holders(s', m) && Holders(s', m) == Holders(s, m) + {c} && !HasRemoved(s'.pcs[c])
    requires forall d :: d in Holders(s', m) && d != c ==> s'.pcs[d] == s.pcs[d]
    requires InMap(s, m)
    ensures Resolved(s', m, left)
  {
    hide Holders, InMap, HasRemoved;
  }

  lemma StayingResolves(s: State, s': State, m: Sem, left: bool)
    requires Resolved(s, m, left) && Holders(s', m) == Holders(s, m)
    requires forall d :: d in Holders(s', m) && HasRemoved(s'.pcs[d]) ==> HasRemoved(s.pcs[d])
    requires InMap(s', m) <==> InMap(s, m)
    ensures Resolved(s', m, left)
  {
    hide InMap;
  }

  /** Removing the entry of a semaphore nobody else has a handle to leaves its remover alone with it. */
  lemma RemovalResolves(cfg: Config, s: State, c: Client, left: bool)
    requires WellFormed(cfg, s) && RemoverAlone(s) && c in s.pcs && s.pcs[c].Removing?
    ensures Resolved(Proceed(cfg, s, c), s.pcs[c].m, left) && !Leaves(s, Proceed(cfg, s, c), c, s.pcs[c].m)
  {
    var s', m := Proceed(cfg, s, c), s.pcs[c].m;
    assert s'.pcs == s.pcs[c := s'.pcs[c]] && s'.entry == s.entry - {s.pcs[c].a};
    assert forall d :: d in Holders(s, m) ==> d == c;
    assert Holders(s', m) == {c};
  }

  lemma EntriesStay(cfg: Config, s: State, s': State, c: Client, m: Sem)
    requires WellFormed(cfg, s) && HandlesCurrent(s) && c in s.pcs && SharedMoves(s, s', c)
    requires !(s.pcs[c].Removing? && s.pcs[c].m == m)
    ensures InMap(s', m) <==> InMap(s, m)
  {
    if s.pcs[c].Removing? {
      assert Usable(s.pcs[c]);
    }
  }

  /** A client about to drop its handle has removed the entry, or finds it in place. */
  lemma LeaverStands(cfg: Config, s: State, c: Client, m: Sem)
    requires WellFormed(cfg, s) && HandlesCurrent(s) && c in Holders(s, m) && (s.pcs[c].Refused? || s.pcs[c].Closing?)
    ensures OnTheWayOut(s.pcs[c]) <==> !HasRemoved(s.pcs[c])
    ensures OnTheWayOut(s.pcs[c]) ==> InMap(s, m)
  {
  }

  lemma HolderHasHandle(s: State, c: Client, m: Sem)
    requires c in Holders(s, m)
    ensures c in s.pcs && Handle(s.pcs[c]) == Some(m)
  {
  }

  lemma ContinueResolves(cfg: Config, s: State, x: Action, m: Sem, left: bool)
    requires Inv(cfg, s) && Enabled(cfg, s, x) && x.Continue? && m in s.available && Resolved(s, m, left)
    ensures var s' := Apply(cfg, s, x);
            Resolved(s', m, if Leaves(s, s', x.c, m) then OnTheWayOut(s.pcs[x.c]) else left)
  {
    hide WellFormed, HandlesCurrent, RemoverAlone, Mutex, Accounted, MovesOnly, StrongCount, Resolved, InMap, OnTheWayOut, HasRemoved, Proceed, Holders;
    var s', p, c := Apply(cfg, s, x), s.pcs[x.c], x.c;
    StepMovesOne(cfg, s, x);
    HoldersMove(s, s', c, m);
    if p.Removing? && p.m == m {
      RemovalResolves(cfg, s, c, left);
    } else {
      HandleIsAllocated(cfg, s, c);
      ProceedShared(cfg, s, c);
      EntriesStay(cfg, s, s', c, m);
      hide SharedMoves;
      if Leaves(s, s', c, m) {
        ProceedLeaves(cfg, s, c, m);
        LeaverStands(cfg, s, c, m);
        LeavingResolves(s, s', c, m, left);
      } else {
        ProceedNeverClones(cfg, s, c, m);
        assert Holders(s', m) == Holders(s, m);
        ProceedRemovedBefore(cfg, s, c);
        if c in Holders(s', m) {
          HolderHasHandle(s, c, m);
          HolderHasHandle(s', c, m);
        }
        StayingResolves(s, s', m, left);
      }
    }
  }

  lemma NewResolves(s: State, c: Client, m: Sem, left: bool)
    requires Holders(s, m) == {c} && !HasRemoved(s.pcs[c])
    ensures Resolved(s, m, left)
  {
  }

  /** A lookup keeps the entries there are, and clones a handle only from the map. */
  lemma StartKeepsEntries(cfg: Config, s: State, x: Action, m: Sem)
    requires WellFormed(cfg, s) && Enabled(cfg, s, x) && x.Start? && m in s.available
    ensures var s' := Apply(cfg, s, x); (InMap(s', m) <==> InMap(s, m)) && (x.c in Holders(s', m) ==> InMap(s, m))
  {
    hide LockFree;
  }

  lemma NewIsHeld(cfg: Config, s: State, x: Action, m: Sem)
    requires WellFormed(cfg, s) && Enabled(cfg, s, x) && x.Start? && m !in s.available && m in Apply(cfg, s, x).available
    ensures x.c in Holders(Apply(cfg, s, x), m) && Holders(s, m) == {}
  {
    hide LockFree;
  }

  lemma StartNeverLeaves(cfg: Config, s: State, x: Action, m: Sem)
    requires Inv(cfg, s) && Enabled(cfg, s, x) && x.Start?
    ensures !Leaves(s, Apply(cfg, s, x), x.c, m)
  {
  }

  lemma StartResolves(cfg: Config, s: State, x: Action, m: Sem, left: bool)
    requires Inv(cfg, s) && Enabled(cfg, s, x) && x.Start? && (m in s.available ==> Resolved(s, m, left))
    requires m in Apply(cfg, s, x).available
    ensures Resolved(Apply(cfg, s, x), m, left)
  {
    hide WellFormed, HandlesCurrent, RemoverAlone, Mutex, Accounted, Enabled, MovesOnly, Apply, InMap, Resolved, HasRemoved, Holders, OnTheWayOut;
    var s', c := Apply(cfg, s, x), x.c;
    StepMovesOne(cfg, s, x);
    HoldersMove(s, s', c, m);
    StartIsInterested(cfg, s, x);
    if m in s.available {
      StartKeepsEntries(cfg, s, x, m);
      if c in Holders(s', m) {
        JoiningResolves(s, s', c, m, left);
      } else {
        StartNeverLeaves(cfg, s, x, m);
        StayingResolves(s, s', m, left);
      }
    } else {
      NewIsHeld(cfg, s, x, m);
      NewResolves(s', c, m, left);
    }
  }

  lemma ContinueKeepsSemaphores(cfg: Config, s: State, x: Action)
    requires Inv(cfg, s) && Enabled(cfg, s, x) && x.Continue?
    ensures Apply(cfg, s, x).available.Keys == s.available.Keys && x.c in s.pcs
  {
    ProceedShared(cfg, s, x.c);
  }

  lemma {:induction false} EveryRunResolves(cfg: Config, r: Run, k: nat, m: Sem)
    requires IsRun(cfg, r) && k < |r.states| && m in r.states[k].available
    ensures Resolved(r.states[k], m, LastLeaverGaveUp(cfg, r, k, m))
  {
    hide Apply, Resolved, Holders, GaveUp, OnTheWayOut, Enabled, WellFormed;
    if k == 0 {
    } else {
      var s, x, s' := r.states[k - 1], r.actions[k - 1], r.states[k];
      EveryRunKeepsInv(cfg, r, k - 1);
      hide Inv;
      assert Step(cfg, s, x, r.states[k - 1 + 1]);
      if m in s.available {
        EveryRunResolves(cfg, r, k - 1, m);
      }
      if x.Start? {
        StartNeverLeaves(cfg, s, x, m);
        StartResolves(cfg, s, x, m, LastLeaverGaveUp(cfg, r, k - 1, m));
      } else {
        ContinueKeepsSemaphores(cfg, s, x);
        ContinueResolves(cfg, s, x, m, LastLeaverGaveUp(cfg, r, k - 1, m));
        if Leaves(s, s', x.c, m) {
          HolderHasHandle(s, x.c, m);
          PcTellsHistory(cfg, r, k - 1, x.c);
        }
      }
    }
  }

  /**
   * A semaphore that nobody has a handle to is still in the map exactly if the last client to
   * leave it had been refused, or had read that permits were out or that the reference count
   * was not two.
   */
  lemma UnusedEntryStaysExactly(cfg: Config, r: Run, k: nat, m: Sem)
    requires IsRun(cfg, r) && k < |r.states| && m in r.states[k].available && Holders(r.states[k], m) == {}
    ensures InMap(r.states[k], m) <==> LastLeaverGaveUp(cfg, r, k, m)
  {
    hide IsRun;
    EveryRunResolves(cfg, r, k, m);
  }

  // ------------------------------------------------------- when callers can rely on reclaim

  predicate Uses(s: State, c: Client, a: Address) {
    c in s.pcs && Handle(s.pcs[c]).Some? && s.pcs[c].a == a
  }

  /** Up to state `k` no two clients had a use of `a`, from lookup to the end of the drop, at a time. */
  ghost predicate NoOverlap(r: Run, k: nat, a: Address)
    requires k < |r.states|
  {
    forall j, c, d :: 0 <= j <= k && Uses(r.states[j], c, a) && Uses(r.states[j], d, a) ==> c == d
  }

  lemma AloneIsSoleHolder(cfg: Config, s: State, c: Client, a: Address)
    requires WellFormed(cfg, s) && Uses(s, c, a) && forall d :: Uses(s, d, a) ==> d == c
    ensures Holders(s, Handle(s.pcs[c]).value) == {c}
  {
    var m := Handle(s.pcs[c]).value;
    forall d | d in Holders(s, m) ensures d == c {
      assert Uses(s, d, a);
    }
  }

  lemma SoleHolderCountsTwo(cfg: Config, s: State, c: Client, m: Sem)
    requires WellFormed(cfg, s) && HandlesCurrent(s) && Holders(s, m) == {c} && c in s.pcs && Handle(s.pcs[c]) == Some(m) && Usable(s.pcs[c])
    ensures StrongCount(s, m) == 2
  {
    assert (set b | b in s.entry && s.entry[b] == m) == {s.pcs[c].a};
  }

  lemma SoleHolderSeesAll(cfg: Config, s: State, c: Client, m: Sem)
    requires Accounted(cfg, s) && m in s.available && Holders(s, m) == {c} && c in s.pcs && !HasPermit(s.pcs[c], m)
    ensures s.available[m] == Limit(cfg)
  {
    forall d | d in PermitHolders(s, m) ensures d in Holders(s, m) {
    }
    assert PermitHolders(s, m) == {};
  }

  lemma AloneNeverDeclines(cfg: Config, s: State, c: Client, a: Address)
    requires Inv(cfg, s) && Limit(cfg) > 0 && Uses(s, c, a) && forall d :: Uses(s, d, a) ==> d == c
    ensures !Declines(cfg, s, c)
  {
    var p, m := s.pcs[c], Handle(s.pcs[c]).value;
    HandleIsAllocated(cfg, s, c);
    AloneIsSoleHolder(cfg, s, c, a);
    hide WellFormed, HandlesCurrent, Mutex, RemoverAlone, Accounted, Holders, StrongCount;
    if p.SawFull? || p.LockedFull? {
      SoleHolderCountsTwo(cfg, s, c, m);
    } else if p.Holding? || p.Returned? || p.LockedSame? {
      SoleHolderSeesAll(cfg, s, c, m);
    }
  }

  lemma UseGoesOn(cfg: Config, r: Run, k: nat, c: Client, a: Address)
    requires IsRun(cfg, r) && 0 < k < |r.states| && Uses(r.states[k], c, a) && !(r.actions[k - 1].Start? && r.actions[k - 1].c == c)
    ensures Inv(cfg, r.states[k - 1]) && Uses(r.states[k - 1], c, a)
  {
    var s, x := r.states[k - 1], r.actions[k - 1];
    EveryRunKeepsInv(cfg, r, k - 1);
    assert Step(cfg, s, x, r.states[k - 1 + 1]);
    StepMovesOne(cfg, s, x);
    if x.c == c {
      ProceedPc(cfg, s, c);
    }
    hide Proceed, StrongCount, IsRun, Inv;
  }

  lemma {:induction false} LoneClientsNeverGiveUp(cfg: Config, r: Run, k: nat, c: Client, a: Address)
    requires IsRun(cfg, r) && k < |r.states| && Limit(cfg) > 0 && NoOverlap(r, k, a) && Uses(r.states[k], c, a)
    ensures !GaveUp(cfg, r, k, c)
  {
    hide Inv, Uses, Declines;
    if k == 0 || (r.actions[k - 1].Start? && r.actions[k - 1].c == c) {
    } else {
      UseGoesOn(cfg, r, k, c, a);
      LoneClientsNeverGiveUp(cfg, r, k - 1, c, a);
      AloneNeverDeclines(cfg, r.states[k - 1], c, a);
    }
  }

  lemma HolderUses(cfg: Config, s: State, c: Client, m: Sem)
    requires Inv(cfg, s) && c in Holders(s, m)
    ensures Uses(s, c, m.key)
  {
  }

  lemma {:induction false} LoneLeaversNeverGaveUp(cfg: Config, r: Run, k: nat, m: Sem)
    requires IsRun(cfg, r) && k < |r.states| && Limit(cfg) > 0 && NoOverlap(r, k, m.key)
    ensures !LastLeaverGaveUp(cfg, r, k, m)
  {
    hide Inv, GaveUp, Holders, Uses;
    if k == 0 {
    } else {
      LoneLeaversNeverGaveUp(cfg, r, k - 1, m);
      var c := r.actions[k - 1].c;
      if c in Holders(r.states[k - 1], m) {
        EveryRunKeepsInv(cfg, r, k - 1);
        HolderUses(cfg, r.states[k - 1], c, m);
        LoneClientsNeverGiveUp(cfg, r, k - 1, c, m.key);
      }
    }
  }

  lemma EntryIsInMap(s: State, a: Address)
    requires a in s.entry && s.entry[a].key == a
    ensures InMap(s, s.entry[a])
  {
  }

  /** With a positive limit, and uses of an address one after the other, its entry exists only while it is used. */
  lemma SeparateUsesAreReclaimed(cfg: Config, r: Run, k: nat, a: Address)
    requires IsRun(cfg, r) && k < |r.states| && Limit(cfg) > 0 && NoOverlap(r, k, a) && a in r.states[k].entry
    ensures Holders(r.states[k], r.states[k].entry[a]) != {}
  {
    EveryRunKeepsInv(cfg, r, k);
    var m := r.states[k].entry[a];
    assert m in r.states[k].available && m.key == a;
    hide *;
    LoneLeaversNeverGaveUp(cfg, r, k, m);
    if Holders(r.states[k], m) == {} {
      UnusedEntryStaysExactly(cfg, r, k, m);
      EntryIsInMap(r.states[k], a);
    }
  }

  lemma {:induction false} ZeroLimitOnlyRefuses(cfg: Config, r: Run, k: nat)
    requires IsRun(cfg, r) && k < |r.states| && cfg.perAddress == Some(0)
    ensures forall c :: c in r.states[k].pcs ==> r.states[k].pcs[c].Holding? || r.states[k].pcs[c].Refused?
  {
    if k == 0 {
    } else {
      var s, x := r.states[k - 1], r.actions[k - 1];
      ZeroLimitOnlyRefuses(cfg, r, k - 1);
      EveryRunKeepsInv(cfg, r, k - 1);
      assert Step(cfg, s, x, r.states[k - 1 + 1]);
      StepMovesOne(cfg, s, x);
      hide IsRun, StrongCount, Mutex, RemoverAlone, HandlesCurrent, LockFree;
    }
  }

  /** With a limit of zero every use is refused and no entry ever goes. */
  lemma {:induction false} ZeroLimitNeverReclaims(cfg: Config, r: Run, j: nat, k: nat, a: Address)
    requires IsRun(cfg, r) && j <= k < |r.states| && cfg.perAddress == Some(0) && a in r.states[j].entry
    ensures a in r.states[k].entry
    decreases k
  {
    if j == k {
    } else {
      var s, x := r.states[k - 1], r.actions[k - 1];
      ZeroLimitNeverReclaims(cfg, r, j, k - 1, a);
      ZeroLimitOnlyRefuses(cfg, r, k - 1);
      assert Step(cfg, s, x, r.states[k - 1 + 1]);
      if x.Continue? {
        ProceedShared(cfg, s, x.c);
      }
      hide IsRun, Proceed, StrongCount;
    }
  }

  // --------------------------------------------------------------- runs that leave an entry

  function Last(r: Run): State
    requires r.states != []
  {
    r.states[|r.states| - 1]
  }

  /** One more step at the end of a run. */
  lemma Extend(cfg: Config, r: Run, x: Action) returns (r': Run)
    requires IsRun(cfg, r) && Enabled(cfg, Last(r), x)
    ensures IsRun(cfg, r') && r'.states != [] && Inv(cfg, Last(r)) && Last(r') == Apply(cfg, Last(r), x)
    ensures r'.actions == r.actions + [x]
  {
    EveryRunKeepsInv(cfg, r, |r.states| - 1);
    assert WellFormed(cfg, Last(r));
    hide Inv, WellFormed, Apply, Enabled;
    var s' := Apply(cfg, Last(r), x);
    r' := Run(r.states + [s'], r.actions + [x]);
    forall k | 0 <= k < |r'.actions| ensures Step(cfg, r'.states[k], r'.actions[k], r'.states[k + 1]) {
      if k < |r.actions| {
        assert Step(cfg, r.states[k], r.actions[k], r.states[k + 1]);
      }
    }
  }

  /** The last state of a run in which all clients are done and the entry of `a` is left. */
  ghost predicate LeavesEntry(cfg: Config, r: Run, a: Address) {
    IsRun(cfg, r) && r.states != [] && Last(r).pcs == map[] && a in Last(r).entry
  }

  /** A fixed limit and no global cap. */
  function PerAddressOnly(limit: nat): Config {
    Config(Some(limit), None, _ => 0)
  }

  /** Two clients, with handles to the only semaphore. */
  function Two(a: Address, m: Sem, n: nat, p: Pc, q: Pc): State {
    State(map[a := m], map[m := n], 0, map[0 := p, 1 := q])
  }

  lemma TwoCountThree(a: Address, m: Sem, n: nat, p: Pc, q: Pc)
    requires Handle(p) == Handle(q) == Some(m)
    ensures StrongCount(Two(a, m, n, p, q), m) == 3
  {
    var s := Two(a, m, n, p, q);
    assert (set b | b in s.entry && s.entry[b] == m) == {a};
    assert Holders(s, m) == {0, 1};
  }

  /** A client of `a` that has a handle to `m` and has not taken the lock. */
  predicate Early(p: Pc, a: Address, m: Sem) {
    || p == Holding(a, m) || p == Slotted(a, Some(m)) || p == Live(a, Some(m))
    || p == Returned(a, m, false) || p == SawFull(a, m, false)
  }

  /** Its next access while another client has a handle too: what becomes of the permits and of itself. */
  function EarlyStep(limit: nat, a: Address, m: Sem, n: nat, p: Pc): (nat, Pc)
    requires Early(p, a, m)
  {
    match p
    case Holding(_, _) => if n > 0 then (n - 1, Slotted(a, Some(m))) else (n, Refused(a, m))
    case Slotted(_, _) => (n, Live(a, Some(m)))
    case Live(_, _) => (n + 1, Returned(a, m, false))
    case Returned(_, _, _) => (n, if n == limit then SawFull(a, m, false) else Closing(a, m, false, false))
    case SawFull(_, _, _) => (n, Closing(a, m, false, false))
  }

  lemma TwoGoto(a: Address, m: Sem, n: nat, p: Pc, q: Pc, p': Pc, n': nat)
    ensures Goto(Two(a, m, n, p, q), 0, p') == Two(a, m, n, p', q)
    ensures Goto(Two(a, m, n, p, q), 1, p') == Two(a, m, n, p, p')
    ensures Two(a, m, n, p, q).(available := map[m := n][m := n']) == Two(a, m, n', p, q)
  {
    assert map[0 := p, 1 := q][0 := p'] == map[0 := p', 1 := q];
    assert map[0 := p, 1 := q][1 := p'] == map[0 := p, 1 := p'];
    assert map[m := n][m := n'] == map[m := n'];
  }

  lemma FirstProceeds(limit: nat, a: Address, m: Sem, n: nat, p: Pc, q: Pc)
    requires Early(p, a, m) && Handle(q) == Some(m)
    ensures var (n', p') := EarlyStep(limit, a, m, n, p);
            Proceed(PerAddressOnly(limit), Two(a, m, n, p, q), 0) == Two(a, m, n', p', q)
  {
    TwoCountThree(a, m, n, p, q);
    var (n', p') := EarlyStep(limit, a, m, n, p);
    TwoGoto(a, m, n, p, q, p', n');
    TwoGoto(a, m, n, p', q, p', n');
    hide StrongCount, Goto;
  }

  lemma SecondProceeds(limit: nat, a: Address, m: Sem, n: nat, p: Pc, q: Pc)
    requires Early(q, a, m) && Handle(p) == Some(m)
    ensures var (n', q') := EarlyStep(limit, a, m, n, q);
            Proceed(PerAddressOnly(limit), Two(a, m, n, p, q), 1) == Two(a, m, n', p, q')
  {
    TwoCountThree(a, m, n, p, q);
    var (n', q') := EarlyStep(limit, a, m, n, q);
    TwoGoto(a, m, n, p, q, q', n');
    TwoGoto(a, m, n, p, q', q', n');
    hide StrongCount, Goto;
  }

  /** The next access of client 0. */
  lemma FirstMoves(limit: nat, r: Run, a: Address, m: Sem, n: nat, p: Pc, q: Pc) returns (r': Run)
    requires IsRun(PerAddressOnly(limit), r) && Last(r) == Two(a, m, n, p, q) && Early(p, a, m) && Handle(q) == Some(m)
    ensures var (n', p') := EarlyStep(limit, a, m, n, p); IsRun(PerAddressOnly(limit), r') && Last(r') == Two(a, m, n', p', q)
  {
    hide Proceed, IsRun, EarlyStep, Last;
    FirstProceeds(limit, a, m, n, p, q);
    r' := Extend(PerAddressOnly(limit), r, Continue(0));
  }

  /** The next access of client 1. */
  lemma SecondMoves(limit: nat, r: Run, a: Address, m: Sem, n: nat, p: Pc, q: Pc) returns (r': Run)
    requires IsRun(PerAddressOnly(limit), r) && Last(r) == Two(a, m, n, p, q) && Early(q, a, m) && Handle(p) == Some(m)
    ensures var (n', q') := EarlyStep(limit, a, m, n, q); IsRun(PerAddressOnly(limit), r') && Last(r') == Two(a, m, n', p, q')
  {
    hide Proceed, IsRun, EarlyStep, Last;
    SecondProceeds(limit, a, m, n, p, q);
    r' := Extend(PerAddressOnly(limit), r, Continue(1));
  }

  lemma BothStart(limit: nat, a: Address, m: Sem) returns (r: Run)
    requires m == Sem(a, 0)
    ensures IsRun(PerAddressOnly(limit), r) && Last(r) == Two(a, m, limit, Holding(a, m), Holding(a, m))
  {
    var cfg := PerAddressOnly(limit);
    r := Run([Initial(cfg)], []);
    r := Extend(cfg, r, Start(0, a, m));
    r := Extend(cfg, r, Start(1, a, Sem(a, 1)));
    assert map[0 := Holding(a, m)][1 := Holding(a, m)] == map[0 := Holding(a, m), 1 := Holding(a, m)];
  }

  predicate AboutToLeave(p: Pc, a: Address, m: Sem) {
    p == Refused(a, m) || p == Closing(a, m, false, false)
  }

  lemma FirstLeaves(cfg: Config, a: Address, m: Sem, n: nat, p: Pc, q: Pc)
    requires AboutToLeave(p, a, m)
    ensures Proceed(cfg, Two(a, m, n, p, q), 0) == State(map[a := m], map[m := n], 0, map[1 := q])
  {
    hide StrongCount;
    assert map[0 := p, 1 := q] - {0} == map[1 := q];
  }

  lemma SecondLeaves(cfg: Config, a: Address, m: Sem, n: nat, q: Pc)
    requires AboutToLeave(q, a, m)
    ensures Proceed(cfg, State(map[a := m], map[m := n], 0, map[1 := q]), 1) == State(map[a := m], map[m := n], 0, map[])
  {
    hide StrongCount;
    assert map[1 := q] - {1} == map[];
  }

  lemma BothLeave(cfg: Config, r: Run, a: Address, m: Sem, n: nat, p: Pc, q: Pc) returns (r': Run)
    requires IsRun(cfg, r) && Last(r) == Two(a, m, n, p, q) && AboutToLeave(p, a, m) && AboutToLeave(q, a, m)
    ensures LeavesEntry(cfg, r', a)
  {
    hide IsRun, Last, Proceed;
    FirstLeaves(cfg, a, m, n, p, q);
    r' := Extend(cfg, r, Continue(0));
    SecondLeaves(cfg, a, m, n, q);
    r' := Extend(cfg, r', Continue(1));
  }

  /**
   * Two clients whose drops overlap: both find all permits back, both read a count of three,
   * and both leave the entry to the other.
   */
  lemma OverlappingDropsLeaveEntry(a: Address) returns (r: Run)
    ensures LeavesEntry(PerAddressOnly(2), r, a)
  {
    hide IsRun, Two, Last, PerAddressOnly, LeavesEntry;
    var m := Sem(a, 0);
    var held, slotted, live := Holding(a, m), Slotted(a, Some(m)), Live(a, Some(m));
    var back, full, closing := Returned(a, m, false), SawFull(a, m, false), Closing(a, m, false, false);
    r := BothStart(2, a, m);
    r := FirstMoves(2, r, a, m, 2, held, held);
    r := FirstMoves(2, r, a, m, 1, slotted, held);
    r := SecondMoves(2, r, a, m, 1, live, held);
    r := SecondMoves(2, r, a, m, 0, live, slotted);
    r := FirstMoves(2, r, a, m, 0, live, live);
    r := SecondMoves(2, r, a, m, 1, back, live);
    r := FirstMoves(2, r, a, m, 2, back, back);
    r := SecondMoves(2, r, a, m, 2, full, back);
    r := FirstMoves(2, r, a, m, 2, full, full);
    r := SecondMoves(2, r, a, m, 2, closing, full);
    r := BothLeave(PerAddressOnly(2), r, a, m, 2, closing, closing);
  }

  /** A refused client that has yet to drop its handle makes the last holder leave the entry. */
  lemma RefusedHandleLeavesEntry(a: Address) returns (r: Run)
    ensures LeavesEntry(PerAddressOnly(1), r, a)
  {
    hide IsRun, Two, Last, PerAddressOnly, LeavesEntry;
    var m := Sem(a, 0);
    var held, slotted, live, refused := Holding(a, m), Slotted(a, Some(m)), Live(a, Some(m)), Refused(a, m);
    var back, full, closing := Returned(a, m, false), SawFull(a, m, false), Closing(a, m, false, false);
    r := BothStart(1, a, m);
    r := FirstMoves(1, r, a, m, 1, held, held);
    r := FirstMoves(1, r, a, m, 0, slotted, held);
    r := SecondMoves(1, r, a, m, 0, live, held);
    r := FirstMoves(1, r, a, m, 0, live, refused);
    r := FirstMoves(1, r, a, m, 1, back, refused);
    r := FirstMoves(1, r, a, m, 1, full, refused);
    r := BothLeave(PerAddressOnly(1), r, a, m, 1, closing, refused);
  }

  function One(a: Address, m: Sem, pcs: map<Client, Pc>): State {
    State(map[a := m], map[m := 0], 0, pcs)
  }

  lemma ZeroLimitSteps(a: Address, m: Sem)
    ensures var cfg, held, refused := PerAddressOnly(0), map[0 := Holding(a, m)], map[0 := Refused(a, m)];
            && Lookup(cfg, Initial(cfg), 0, a, m) == One(a, m, held)
            && Proceed(cfg, One(a, m, held), 0) == One(a, m, refused)
            && Proceed(cfg, One(a, m, refused), 0) == One(a, m, map[])
  {
    hide StrongCount;
    assert map[0 := Holding(a, m)][0 := Refused(a, m)] == map[0 := Refused(a, m)];
    assert map[0 := Refused(a, m)] - {0} == map[];
  }

  /** With a limit of zero a single client leaves an entry behind. */
  lemma ZeroLimitLeavesEntry(a: Address) returns (r: Run)
    ensures LeavesEntry(PerAddressOnly(0), r, a) && r.actions == [Start(0, a, Sem(a, 0)), Continue(0), Continue(0)]
  {
    hide Proceed, Lookup, WellFormed;
    var cfg := PerAddressOnly(0);
    ZeroLimitSteps(a, Sem(a, 0));
    r := Run([Initial(cfg)], []);
    assert IsRun(cfg, r);
    hide IsRun;
    r := Extend(cfg, r, Start(0, a, Sem(a, 0)));
    r := Extend(cfg, r, Continue(0));
    r := Extend(cfg, r, Continue(0));
  }
}
