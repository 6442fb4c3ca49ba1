/**
 * The client-wide request scheduler as a mathematical machine: one FIFO queue of
 * tickets, the tickets promoted but not yet collected, and the permits in callers'
 * hands. `Scheduler.RequestScheduler` refines it with counters, a slab, an ordered
 * set and a deque.
 */
module SchedulerSpec {
  import opened Wrappers
  import opened Planning

  const HIGH_URGENCY_PROMOTIONS_BEFORE_AGING: nat := 8
  /** Milliseconds after which a waiter is promoted by age. */
  const AGING_WAIT: nat := 250
  const HIGH_URGENCY_MAX: nat := 2
  const U32_MAX: nat := 0xFFFF_FFFF

  datatype Config = Config(maxTotal: nat, maxPerAddress: nat, maxQueued: nat)

  datatype Ticket = Ticket(id: nat, address: Address, urgency: nat, seqNo: nat, enqueuedAt: nat)

  datatype State = State(
    queue: seq<Ticket>,
    ready: map<nat, Address>,
    permits: multiset<Address>,
    streak: nat,
    nextSeq: nat,
    clock: nat)

  const INITIAL: State := State([], map[], multiset{}, 0, 0, 0)

  // ---------------------------------------------------------------- occupancy

  function ReadyAt(s: State, a: Address): set<nat> {
    set id | id in s.ready && s.ready[id] == a
  }

  function RunningAt(s: State, a: Address): nat {
    s.permits[a] + |ReadyAt(s, a)|
  }

  function Running(s: State): nat {
    |s.permits| + |s.ready|
  }

  predicate HasRoom(cfg: Config, s: State, a: Address) {
    Running(s) < cfg.maxTotal && RunningAt(s, a) < cfg.maxPerAddress
  }

  predicate Eligible(cfg: Config, s: State, t: Ticket) {
    RunningAt(s, t.address) < cfg.maxPerAddress
  }

  // ---------------------------------------------------------------- selection

  /** Priority order: urgency first (a small number is urgent), then arrival. */
  predicate Precedes(t: Ticket, u: Ticket) {
    t.urgency < u.urgency || (t.urgency == u.urgency && t.seqNo <= u.seqNo)
  }

  /** Index of the first eligible ticket at or after `from`. */
  function OldestFrom(cfg: Config, s: State, from: nat): (r: Option<nat>)
    requires from <= |s.queue|
    ensures r.None? ==> forall j :: from <= j < |s.queue| ==> !Eligible(cfg, s, s.queue[j])
    ensures r.Some? ==> from <= r.value < |s.queue| && Eligible(cfg, s, s.queue[r.value])
    ensures r.Some? ==> forall j :: from <= j < r.value ==> !Eligible(cfg, s, s.queue[j])
    decreases |s.queue| - from
  {
    if from == |s.queue| then None
    else if Eligible(cfg, s, s.queue[from]) then Some(from)
    else OldestFrom(cfg, s, from + 1)
  }

  /** Index of the eligible ticket among the first `n` that precedes all the others. */
  function BestUpTo(cfg: Config, s: State, n: nat): (r: Option<nat>)
    requires n <= |s.queue|
    ensures r.None? ==> forall j :: 0 <= j < n ==> !Eligible(cfg, s, s.queue[j])
    ensures r.Some? ==> r.value < n && Eligible(cfg, s, s.queue[r.value])
    ensures r.Some? ==> forall j :: 0 <= j < n && Eligible(cfg, s, s.queue[j]) ==> Precedes(s.queue[r.value], s.queue[j])
  {
    if n == 0 then None
    else
      var b := BestUpTo(cfg, s, n - 1);
      var t := s.queue[n - 1];
      if !Eligible(cfg, s, t) then b
      else if b.None? || !Precedes(s.queue[b.value], t) then Some(n - 1)
      else b
  }

  predicate AgedByTime(t: Ticket, now: nat) {
    now >= t.enqueuedAt + AGING_WAIT
  }

  /** The ticket a free slot goes to: the best one, unless the oldest has aged. */
  function Select(cfg: Config, s: State, now: nat): (r: Option<nat>)
    ensures r.Some? ==> r.value < |s.queue| && Eligible(cfg, s, s.queue[r.value])
    ensures r.None? ==> forall j :: 0 <= j < |s.queue| ==> !Eligible(cfg, s, s.queue[j])
  {
    var best := BestUpTo(cfg, s, |s.queue|);
    var oldest := OldestFrom(cfg, s, 0);
    if best.None? || oldest.None? then None
    else if oldest == best then best
    else
      var byCount := s.streak >= HIGH_URGENCY_PROMOTIONS_BEFORE_AGING
                     && s.queue[oldest.value].urgency > s.queue[best.value].urgency;
      if AgedByTime(s.queue[oldest.value], now) || byCount then oldest else best
  }

  lemma SelectIs(cfg: Config, s: State, now: nat, b: nat, o: nat)
    requires BestUpTo(cfg, s, |s.queue|) == Some(b) && OldestFrom(cfg, s, 0) == Some(o)
    ensures Select(cfg, s, now) == Some(
              if o != b && (AgedByTime(s.queue[o], now)
                            || (s.streak >= HIGH_URGENCY_PROMOTIONS_BEFORE_AGING && s.queue[o].urgency > s.queue[b].urgency))
              then o else b)
  {
    hide BestUpTo, OldestFrom, Eligible;
  }

  function NextStreak(streak: nat, urgency: nat): nat {
    if urgency > HIGH_URGENCY_MAX then 0
    else if streak < U32_MAX then streak + 1
    else streak
  }

  function Without(q: seq<Ticket>, i: nat): seq<Ticket>
    requires i < |q|
  {
    q[..i] + q[i + 1..]
  }

  /** The ticket promoted into a free slot, if there is a slot and an eligible ticket. */
  function Promotion(cfg: Config, s: State, now: nat): (r: Option<nat>)
    ensures r.Some? ==> r.value < |s.queue| && Eligible(cfg, s, s.queue[r.value]) && Running(s) < cfg.maxTotal
  {
    if Running(s) < cfg.maxTotal then Select(cfg, s, now) else None
  }

  function Promote(cfg: Config, s: State, now: nat): State {
    var r := Promotion(cfg, s, now);
    if r.None? then s
    else
      var t := s.queue[r.value];
      s.(queue := Without(s.queue, r.value),
         ready := s.ready[t.id := t.address],
         streak := NextStreak(s.streak, t.urgency))
  }

  // ------------------------------------------------------------------- actions

  datatype Action =
    | Poll(address: Address, urgency: nat, id: nat, now: nat)
    | Collect(id: nat, now: nat)
    | Drop(address: Address, now: nat)
    | Cancel(id: nat, now: nat)

  predicate Queued(s: State, id: nat) {
    exists i :: 0 <= i < |s.queue| && s.queue[i].id == id
  }

  /**
   * What callers can do next. Time does not go backwards, a new waiter gets a slab key
   * no live waiter holds, and only a held permit can be dropped.
   */
  predicate Enabled(s: State, x: Action) {
    && s.clock <= x.now
    && match x
       case Poll(_, _, id, _) => id !in s.ready && !Queued(s, id)
       case Drop(a, _) => a in s.permits
       case Collect(_, _) => true
       case Cancel(_, _) => true
  }

  predicate Parks(cfg: Config, s: State, x: Action) {
    x.Poll? && !HasRoom(cfg, s, x.address) && |s.queue| < cfg.maxQueued
  }

  /** The state in which an action decides about a promotion: after it gave its slot back. */
  function Freed(s: State, x: Action): State {
    match x
    case Drop(a, now) => s.(permits := s.permits - multiset{a}, clock := now)
    case Cancel(id, now) => if id in s.ready then s.(ready := s.ready - {id}, clock := now) else s.(clock := now)
    case _ => s.(clock := x.now)
  }

  predicate FreesSlot(s: State, x: Action) {
    x.Drop? || (x.Cancel? && x.id in s.ready)
  }

  function IdsOf(q: seq<Ticket>): (ids: seq<nat>)
    ensures |ids| == |q| && forall i :: 0 <= i < |q| ==> ids[i] == q[i].id
  {
    seq(|q|, i requires 0 <= i < |q| => q[i].id)
  }

  /** Where `id` first comes at or after `from`; the end if it does not. */
  function IndexOf(ids: seq<nat>, id: nat, from: nat): (k: nat)
    requires from <= |ids|
    ensures from <= k <= |ids| && (k < |ids| ==> ids[k] == id)
    ensures forall j :: from <= j < k ==> ids[j] != id
    decreases |ids| - from
  {
    if from == |ids| || ids[from] == id then from else IndexOf(ids, id, from + 1)
  }

  function RemoveId(q: seq<Ticket>, id: nat): seq<Ticket> {
    var k := IndexOf(IdsOf(q), id, 0);
    if k < |q| then Without(q, k) else q
  }

  function Apply(cfg: Config, s: State, x: Action): State {
    if FreesSlot(s, x) then Promote(cfg, Freed(s, x), x.now)
    else
      var s1 := s.(clock := x.now);
      match x
      case Poll(a, u, id, now) =>
        if HasRoom(cfg, s, a) then s1.(permits := s.permits + multiset{a})
        else if |s.queue| < cfg.maxQueued then
          s1.(queue := s.queue + [Ticket(id, a, u, s.nextSeq, now)], nextSeq := s.nextSeq + 1)
        else s1
      case Collect(id, _) =>
        if id in s.ready then
          s1.(ready := s.ready - {id}, permits := s.permits + multiset{s.ready[id]})
        else s1
      case Cancel(id, _) => s1.(queue := RemoveId(s.queue, id))
      case Drop(_, _) => s1
  }

  /** The ticket an action promotes. */
  function Promoted(cfg: Config, s: State, x: Action): (r: Option<Ticket>)
    ensures r.Some? ==> FreesSlot(s, x) && r.value in s.queue
    ensures r.Some? ==> Eligible(cfg, Freed(s, x), r.value) && Running(Freed(s, x)) < cfg.maxTotal
  {
    if !FreesSlot(s, x) then None
    else
      var p := Promotion(cfg, Freed(s, x), x.now);
      if p.None? then None else Some(s.queue[p.value])
  }

  predicate AdmitsAtOnce(cfg: Config, s: State, x: Action) {
    x.Poll? && HasRoom(cfg, s, x.address)
  }

  // ---------------------------------------------------------------- invariants

  predicate InOrder(q: seq<Ticket>) {
    forall i, j :: 0 <= i < j < |q| ==> q[i].seqNo < q[j].seqNo && q[i].enqueuedAt <= q[j].enqueuedAt
  }

  /** Queue order, sequence numbers and enqueue times agree. */
  predicate FifoOrdered(s: State) {
    && InOrder(s.queue)
    && (forall i :: 0 <= i < |s.queue| ==> s.queue[i].seqNo < s.nextSeq && s.queue[i].enqueuedAt <= s.clock)
  }

  /** A slab key names one live waiter. */
  predicate DistinctIds(s: State) {
    && (forall i, j :: 0 <= i < j < |s.queue| ==> s.queue[i].id != s.queue[j].id)
    && (forall i :: 0 <= i < |s.queue| ==> s.queue[i].id !in s.ready)
  }

  ghost predicate WithinCaps(cfg: Config, s: State) {
    && Running(s) <= cfg.maxTotal
    && |s.queue| <= cfg.maxQueued
    && forall a :: RunningAt(s, a) <= cfg.maxPerAddress
  }

  /** A free global slot means nobody in the queue could use it. */
  predicate WorkConserving(cfg: Config, s: State) {
    Running(s) < cfg.maxTotal ==> forall i :: 0 <= i < |s.queue| ==> !Eligible(cfg, s, s.queue[i])
  }

  ghost predicate Inv(cfg: Config, s: State) {
    FifoOrdered(s) && DistinctIds(s) && WithinCaps(cfg, s) && WorkConserving(cfg, s)
  }

  // ------------------------------------------------- how actions move occupancy

  lemma ReadyGrowsAt(s: State, s': State, id: nat, a: Address, b: Address)
    requires id !in s.ready && s'.ready == s.ready[id := a]
    ensures |ReadyAt(s', b)| == |ReadyAt(s, b)| + if a == b then 1 else 0
  {
    assert ReadyAt(s', b) == if a == b then ReadyAt(s, b) + {id} else ReadyAt(s, b);
  }

  lemma ReadyGrows(s: State, s': State, id: nat, a: Address)
    requires id !in s.ready && s'.ready == s.ready[id := a]
    ensures |s'.ready| == |s.ready| + 1
    ensures forall b :: |ReadyAt(s', b)| == |ReadyAt(s, b)| + if a == b then 1 else 0
  {
    hide ReadyAt;
    forall b ensures |ReadyAt(s', b)| == |ReadyAt(s, b)| + if a == b then 1 else 0 {
      ReadyGrowsAt(s, s', id, a, b);
    }
  }

  lemma ReadyShrinks(s: State, s': State, id: nat)
    requires id in s.ready && s'.ready == s.ready - {id}
    ensures |s'.ready| == |s.ready| - 1
    ensures forall b :: |ReadyAt(s', b)| == |ReadyAt(s, b)| - if s.ready[id] == b then 1 else 0
  {
    assert s.ready == s'.ready[id := s.ready[id]];
    ReadyGrows(s', s, id, s.ready[id]);
  }

  /** `s` is `s0` with one slot on `a` given back. */
  ghost predicate OneSlotLess(s0: State, s: State, a: Address) {
    && Running(s) == Running(s0) - 1
    && forall b :: RunningAt(s, b) == RunningAt(s0, b) - if a == b then 1 else 0
  }

  lemma FreedIsOneSlotLess(s: State, x: Action) returns (a: Address)
    requires Enabled(s, x) && FreesSlot(s, x)
    ensures OneSlotLess(s, Freed(s, x), a)
  {
    if x.Drop? {
      a := x.address;
    } else {
      a := s.ready[x.id];
      ReadyShrinks(s, Freed(s, x), x.id);
    }
  }

  lemma PromoteOccupancy(cfg: Config, s: State, now: nat)
    requires DistinctIds(s) && Promotion(cfg, s, now).Some?
    ensures OneSlotLess(Promote(cfg, s, now), s, s.queue[Promotion(cfg, s, now).value].address)
  {
    var t := s.queue[Promotion(cfg, s, now).value];
    ReadyGrows(s, Promote(cfg, s, now), t.id, t.address);
  }

  // --------------------------------------------------------- work conservation

  lemma WithoutAt(q: seq<Ticket>, i: nat)
    requires i < |q|
    ensures |Without(q, i)| == |q| - 1
    ensures forall j :: 0 <= j < |q| - 1 ==> Without(q, i)[j] == q[if j < i then j else j + 1]
  {
  }

  /** Taking tickets out of the queue, or keeping it, keeps it ordered and its keys distinct. */
  lemma ShorterQueueOrdered(s: State, s': State, i: nat)
    requires FifoOrdered(s) && s'.nextSeq == s.nextSeq && s'.clock >= s.clock
    requires i < |s.queue| && s'.queue == Without(s.queue, i)
    ensures FifoOrdered(s')
  {
    WithoutAt(s.queue, i);
  }

  lemma ShorterQueueDistinct(s: State, s': State, i: nat)
    requires DistinctIds(s)
    requires i < |s.queue| && s'.queue == Without(s.queue, i)
    requires s'.ready.Keys <= s.ready.Keys + {s.queue[i].id}
    ensures DistinctIds(s')
  {
    WithoutAt(s.queue, i);
  }

  lemma FreedKeepsOrder(cfg: Config, s: State, x: Action)
    requires FifoOrdered(s) && DistinctIds(s) && Enabled(s, x) && FreesSlot(s, x)
    ensures FifoOrdered(Freed(s, x)) && DistinctIds(Freed(s, x))
    ensures Apply(cfg, s, x) == Promote(cfg, Freed(s, x), x.now)
  {
  }

  lemma PromoteOrder(cfg: Config, s: State, now: nat)
    requires FifoOrdered(s) && DistinctIds(s)
    ensures FifoOrdered(Promote(cfg, s, now)) && DistinctIds(Promote(cfg, s, now))
  {
    var p := Promotion(cfg, s, now);
    if p.Some? {
      ShorterQueueOrdered(s, Promote(cfg, s, now), p.value);
      ShorterQueueDistinct(s, Promote(cfg, s, now), p.value);
    }
  }

  /**
   * One promotion per freed slot is enough: a state that conserved work before a slot was
   * given back does so again after `Promote`.
   */
  lemma PromoteRestores(cfg: Config, s0: State, s: State, a: Address, now: nat)
    requires WithinCaps(cfg, s0) && WorkConserving(cfg, s0) && DistinctIds(s)
    requires OneSlotLess(s0, s, a) && s.queue == s0.queue
    ensures WithinCaps(cfg, Promote(cfg, s, now)) && WorkConserving(cfg, Promote(cfg, s, now))
  {
    hide ReadyAt;
    var s' := Promote(cfg, s, now);
    var p := Promotion(cfg, s, now);
    if p.Some? {
      WithoutAt(s.queue, p.value);
      PromoteOccupancy(cfg, s, now);
      var b := s.queue[p.value].address;
      hide RunningAt, Running, DistinctIds, Promotion, Promote;
      forall c ensures RunningAt(s', c) <= cfg.maxPerAddress {
        assert RunningAt(s, c) == RunningAt(s', c) - if b == c then 1 else 0;
        assert RunningAt(s, c) == RunningAt(s0, c) - if a == c then 1 else 0;
      }
      if Running(s0) < cfg.maxTotal {
        // Only `a` came below its cap, and the promotion fills it up again.
        assert !Eligible(cfg, s0, s0.queue[p.value]);
        assert b == a;
        forall i | 0 <= i < |s'.queue| ensures !Eligible(cfg, s', s'.queue[i]) {
          assert !Eligible(cfg, s0, s0.queue[if i < p.value then i else i + 1]);
        }
      }
    }
  }

  ghost predicate SameSlots(s: State, s': State) {
    Running(s') == Running(s) && forall b :: RunningAt(s', b) == RunningAt(s, b)
  }

  lemma IdleKeepsSlots(s: State, s': State)
    requires s'.ready == s.ready && s'.permits == s.permits
    ensures SameSlots(s, s')
  {
    forall b ensures RunningAt(s', b) == RunningAt(s, b) {
      assert ReadyAt(s', b) == ReadyAt(s, b);
    }
  }

  lemma CollectKeepsSlots(s: State, s': State, id: nat)
    requires id in s.ready && s'.ready == s.ready - {id} && s'.permits == s.permits + multiset{s.ready[id]}
    ensures SameSlots(s, s')
  {
    ReadyShrinks(s, s', id);
  }

  lemma AdmitTakesSlot(s: State, s': State, a: Address)
    requires s'.ready == s.ready && s'.permits == s.permits + multiset{a}
    ensures OneSlotLess(s', s, a)
  {
    forall b ensures RunningAt(s', b) == RunningAt(s, b) + if a == b then 1 else 0 {
      assert ReadyAt(s', b) == ReadyAt(s, b);
    }
  }

  lemma SameOccupancy(cfg: Config, s: State, s': State)
    requires WithinCaps(cfg, s) && WorkConserving(cfg, s) && SameSlots(s, s')
    requires |s'.queue| <= cfg.maxQueued
    requires forall i :: 0 <= i < |s'.queue| ==> s'.queue[i] in s.queue || !HasRoom(cfg, s, s'.queue[i].address)
    ensures WithinCaps(cfg, s') && WorkConserving(cfg, s')
  {
  }

  lemma ParkKeepsOrder(s: State, s': State, t: Ticket)
    requires FifoOrdered(s) && DistinctIds(s)
    requires t.seqNo == s.nextSeq && s.clock <= t.enqueuedAt && t.id !in s.ready && !Queued(s, t.id)
    requires s'.queue == s.queue + [t] && s'.nextSeq == s.nextSeq + 1
    requires s'.clock == t.enqueuedAt && s'.ready == s.ready
    ensures FifoOrdered(s') && DistinctIds(s')
  {
  }

  lemma CancelKeepsOrder(s: State, s': State, id: nat)
    requires FifoOrdered(s) && DistinctIds(s)
    requires s'.queue == RemoveId(s.queue, id) && s'.nextSeq == s.nextSeq
    requires s'.clock >= s.clock && s'.ready == s.ready
    ensures FifoOrdered(s') && DistinctIds(s')
  {
    var i := IndexOf(IdsOf(s.queue), id, 0);
    if i < |s.queue| {
      ShorterQueueOrdered(s, s', i);
      ShorterQueueDistinct(s, s', i);
    }
  }

  lemma ApplyKeepsOrder(cfg: Config, s: State, x: Action)
    requires FifoOrdered(s) && DistinctIds(s) && Enabled(s, x)
    ensures FifoOrdered(Apply(cfg, s, x)) && DistinctIds(Apply(cfg, s, x))
  {
    if FreesSlot(s, x) {
      PromoteOrder(cfg, Freed(s, x), x.now);
    } else if x.Cancel? {
      CancelKeepsOrder(s, Apply(cfg, s, x), x.id);
    } else if Parks(cfg, s, x) {
      ParkKeepsOrder(s, Apply(cfg, s, x), Ticket(x.id, x.address, x.urgency, s.nextSeq, x.now));
    }
  }

  lemma AdmitConservesWork(cfg: Config, s: State, s': State, a: Address)
    requires WithinCaps(cfg, s) && WorkConserving(cfg, s) && HasRoom(cfg, s, a)
    requires s'.queue == s.queue && s'.ready == s.ready && s'.permits == s.permits + multiset{a}
    ensures WithinCaps(cfg, s') && WorkConserving(cfg, s')
  {
    AdmitTakesSlot(s, s', a);
    forall b ensures RunningAt(s', b) <= cfg.maxPerAddress {
      assert RunningAt(s, b) == RunningAt(s', b) - if a == b then 1 else 0;
    }
    forall b ensures RunningAt(s, b) <= RunningAt(s', b) {
      assert RunningAt(s, b) == RunningAt(s', b) - if a == b then 1 else 0;
    }
  }

  lemma CollectConservesWork(cfg: Config, s: State, s': State, id: nat)
    requires WithinCaps(cfg, s) && WorkConserving(cfg, s) && id in s.ready
    requires s'.queue == s.queue && s'.ready == s.ready - {id} && s'.permits == s.permits + multiset{s.ready[id]}
    ensures WithinCaps(cfg, s') && WorkConserving(cfg, s')
  {
    CollectKeepsSlots(s, s', id);
    SameOccupancy(cfg, s, s');
  }

  lemma QueueConservesWork(cfg: Config, s: State, s': State)
    requires WithinCaps(cfg, s) && WorkConserving(cfg, s)
    requires s'.ready == s.ready && s'.permits == s.permits && |s'.queue| <= cfg.maxQueued
    requires forall i :: 0 <= i < |s'.queue| ==> s'.queue[i] in s.queue || !HasRoom(cfg, s, s'.queue[i].address)
    ensures WithinCaps(cfg, s') && WorkConserving(cfg, s')
  {
    IdleKeepsSlots(s, s');
    SameOccupancy(cfg, s, s');
  }

  lemma ApplyConservesWork(cfg: Config, s: State, x: Action)
    requires Inv(cfg, s) && Enabled(s, x)
    ensures WithinCaps(cfg, Apply(cfg, s, x)) && WorkConserving(cfg, Apply(cfg, s, x))
  {
    hide WorkConserving, OneSlotLess, RunningAt, Running;
    if FreesSlot(s, x) {
      FreedKeepsOrder(cfg, s, x);
      var a := FreedIsOneSlotLess(s, x);
      PromoteRestores(cfg, s, Freed(s, x), a, x.now);
    } else if x.Collect? && x.id in s.ready {
      CollectConservesWork(cfg, s, Apply(cfg, s, x), x.id);
    } else if AdmitsAtOnce(cfg, s, x) {
      AdmitConservesWork(cfg, s, Apply(cfg, s, x), x.address);
    } else {
      QueueConservesWork(cfg, s, Apply(cfg, s, x));
    }
  }
}
