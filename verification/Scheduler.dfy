/**
 * The request scheduler as the source keeps it: counters, a slab of waiters whose keys are
 * reused, a set ordered by (urgency, sequence, key) and a FIFO of keys. Every operation is
 * proved to be the corresponding step of `SchedulerSpec`.
 */
module Scheduler {
  import opened Wrappers
  import opened Planning
  import opened SchedulerSpec

  datatype Waiter = Waiter(address: Address, urgency: nat, seqNo: nat, enqueuedAt: nat, admitted: bool)

  datatype Key = Key(urgency: nat, seqNo: nat, id: nat)

  datatype Outcome = Ready | Full | Pending(id: nat)

  /** The derived lexicographic order of the ordered set. */
  predicate KeyLess(k: Key, l: Key) {
    || k.urgency < l.urgency
    || (k.urgency == l.urgency && k.seqNo < l.seqNo)
    || (k.urgency == l.urgency && k.seqNo == l.seqNo && k.id < l.id)
  }

  function SaturatingSub(m: nat, n: nat): nat {
    if m < n then 0 else m - n
  }

  // ------------------------------------------------- abstraction of the structures

  function TicketOf(id: nat, w: Waiter): Ticket {
    Ticket(id, w.address, w.urgency, w.seqNo, w.enqueuedAt)
  }

  function KeyOf(t: Ticket): Key {
    Key(t.urgency, t.seqNo, t.id)
  }

  function QueueOf(fifo: seq<nat>, waiters: map<nat, Waiter>): (q: seq<Ticket>)
    requires forall id :: id in fifo ==> id in waiters
    ensures |q| == |fifo| && forall i :: 0 <= i < |fifo| ==> q[i] == TicketOf(fifo[i], waiters[fifo[i]])
  {
    seq(|fifo|, i requires 0 <= i < |fifo| => TicketOf(fifo[i], waiters[fifo[i]]))
  }

  function ReadyOf(waiters: map<nat, Waiter>): map<nat, Address> {
    map id | id in waiters && waiters[id].admitted :: waiters[id].address
  }

  function RemoveFirst(fifo: seq<nat>, id: nat): seq<nat> {
    var k := IndexOf(fifo, id, 0);
    if k < |fifo| then fifo[..k] + fifo[k + 1..] else fifo
  }

  function RunningIn(counts: map<Address, nat>, a: Address): nat {
    if a in counts then counts[a] else 0
  }

  function Bumped(counts: map<Address, nat>, a: Address): map<Address, nat> {
    counts[a := RunningIn(counts, a) + 1]
  }

  function Dropped(counts: map<Address, nat>, a: Address): map<Address, nat> {
    if a !in counts then counts
    else if counts[a] <= 1 then counts - {a}
    else counts[a := counts[a] - 1]
  }

  /** The ids in the FIFO are exactly the waiters not admitted, and the ordered set has their keys. */
  ghost predicate StructuresAgree(fifo: seq<nat>, ordered: set<Key>, waiters: map<nat, Waiter>) {
    && (forall id :: id in fifo ==> id in waiters && !waiters[id].admitted && KeyOf(TicketOf(id, waiters[id])) in ordered)
    && (forall id :: id in waiters && !waiters[id].admitted ==> id in fifo)
    && (forall k :: k in ordered ==> k.id in fifo && k == KeyOf(TicketOf(k.id, waiters[k.id])))
  }

  /** The counters are the number of permits held plus admitted waiters, in all and per address. */
  ghost predicate CountsMatch(counts: map<Address, nat>, running: nat, s: State) {
    && running == Running(s)
    && forall a :: (a in counts <==> RunningAt(s, a) > 0) && RunningIn(counts, a) == RunningAt(s, a)
  }

  lemma ParkAgrees(fifo: seq<nat>, ordered: set<Key>, waiters: map<nat, Waiter>, id: nat, w: Waiter)
    requires StructuresAgree(fifo, ordered, waiters) && id !in waiters && !w.admitted
    ensures StructuresAgree(fifo + [id], ordered + {KeyOf(TicketOf(id, w))}, waiters[id := w])
    ensures QueueOf(fifo + [id], waiters[id := w]) == QueueOf(fifo, waiters) + [TicketOf(id, w)]
    ensures ReadyOf(waiters[id := w]) == ReadyOf(waiters)
  {
    assert (fifo + [id])[|fifo|] == id;
  }

  predicate Distinct(fifo: seq<nat>) {
    forall j, k :: 0 <= j < k < |fifo| ==> fifo[j] != fifo[k]
  }

  lemma RemoveFirstAt(fifo: seq<nat>, i: nat)
    requires i < |fifo| && Distinct(fifo)
    ensures RemoveFirst(fifo, fifo[i]) == fifo[..i] + fifo[i + 1..]
  {
    assert IndexOf(fifo, fifo[i], 0) == i;
  }

  lemma RemoveFirstMembers(fifo: seq<nat>, i: nat, id: nat)
    requires i < |fifo| && Distinct(fifo)
    ensures id in RemoveFirst(fifo, fifo[i]) <==> id in fifo && id != fifo[i]
  {
    RemoveFirstAt(fifo, i);
    assert fifo == fifo[..i] + [fifo[i]] + fifo[i + 1..];
  }

  /** `waiters'` is `waiters` with the entry of `id` gone or admitted. */
  ghost predicate Departs(waiters: map<nat, Waiter>, waiters': map<nat, Waiter>, id: nat) {
    && waiters'.Keys <= waiters.Keys <= waiters'.Keys + {id}
    && (forall j :: j in waiters' && j != id ==> waiters'[j] == waiters[j])
    && (id in waiters' ==> waiters'[id].admitted)
  }

  lemma LeaveAgrees(fifo: seq<nat>, ordered: set<Key>, waiters: map<nat, Waiter>, waiters': map<nat, Waiter>, i: nat)
    requires StructuresAgree(fifo, ordered, waiters) && i < |fifo| && Distinct(fifo) && Departs(waiters, waiters', fifo[i])
    ensures StructuresAgree(RemoveFirst(fifo, fifo[i]), ordered - {KeyOf(TicketOf(fifo[i], waiters[fifo[i]]))}, waiters')
  {
    var id := fifo[i];
    forall j ensures j in RemoveFirst(fifo, id) <==> j in fifo && j != id {
      RemoveFirstMembers(fifo, i, j);
    }
  }

  lemma LeaveShortensQueue(fifo: seq<nat>, waiters: map<nat, Waiter>, waiters': map<nat, Waiter>, i: nat)
    requires (forall j :: j in fifo ==> j in waiters) && i < |fifo| && Distinct(fifo) && Departs(waiters, waiters', fifo[i])
    ensures forall j :: j in RemoveFirst(fifo, fifo[i]) ==> j in waiters'
    ensures QueueOf(RemoveFirst(fifo, fifo[i]), waiters') == Without(QueueOf(fifo, waiters), i)
  {
    hide RemoveFirst, QueueOf, Without;
    RemoveFirstAt(fifo, i);
    WithoutAt(QueueOf(fifo, waiters), i);
    var fifo' := RemoveFirst(fifo, fifo[i]);
    assert forall j :: 0 <= j < |fifo'| ==> fifo'[j] == fifo[if j < i then j else j + 1];
    forall j | 0 <= j < |fifo'| ensures fifo'[j] in waiters' && waiters'[fifo'[j]] == waiters[fifo'[j]] {
      var k := if j < i then j else j + 1;
      assert fifo[k] in fifo && fifo[k] != fifo[i];
    }
  }

  lemma LeaveStructures(fifo: seq<nat>, ordered: set<Key>, waiters: map<nat, Waiter>, waiters': map<nat, Waiter>, i: nat)
    requires StructuresAgree(fifo, ordered, waiters) && i < |fifo| && Distinct(fifo) && Departs(waiters, waiters', fifo[i])
    ensures StructuresAgree(RemoveFirst(fifo, fifo[i]), ordered - {KeyOf(TicketOf(fifo[i], waiters[fifo[i]]))}, waiters')
    ensures QueueOf(RemoveFirst(fifo, fifo[i]), waiters') == Without(QueueOf(fifo, waiters), i)
    ensures |RemoveFirst(fifo, fifo[i])| == |fifo| - 1
  {
    LeaveAgrees(fifo, ordered, waiters, waiters', i);
    LeaveShortensQueue(fifo, waiters, waiters', i);
    RemoveFirstAt(fifo, i);
  }

  lemma InStructures(fifo: seq<nat>, ordered: set<Key>, waiters: map<nat, Waiter>, i: nat)
    requires StructuresAgree(fifo, ordered, waiters) && i < |fifo|
    ensures fifo[i] in waiters && !waiters[fifo[i]].admitted
  {
  }

  lemma AdmitStructures(fifo: seq<nat>, ordered: set<Key>, waiters: map<nat, Waiter>, i: nat, w: Waiter)
    requires StructuresAgree(fifo, ordered, waiters) && i < |fifo| && Distinct(fifo)
    requires w == waiters[fifo[i]].(admitted := true)
    ensures StructuresAgree(RemoveFirst(fifo, fifo[i]), ordered - {KeyOf(TicketOf(fifo[i], w))}, waiters[fifo[i] := w])
    ensures QueueOf(RemoveFirst(fifo, fifo[i]), waiters[fifo[i] := w]) == Without(QueueOf(fifo, waiters), i)
    ensures ReadyOf(waiters[fifo[i] := w]) == ReadyOf(waiters)[fifo[i] := w.address]
    ensures |RemoveFirst(fifo, fifo[i])| == |fifo| - 1
  {
    hide StructuresAgree, QueueOf;
    LeaveStructures(fifo, ordered, waiters, waiters[fifo[i] := w], i) by { InStructures(fifo, ordered, waiters, i); }
    InStructures(fifo, ordered, waiters, i);
  }

  lemma CancelStructures(fifo: seq<nat>, ordered: set<Key>, waiters: map<nat, Waiter>, i: nat)
    requires StructuresAgree(fifo, ordered, waiters) && i < |fifo| && Distinct(fifo)
    ensures StructuresAgree(RemoveFirst(fifo, fifo[i]), ordered - {KeyOf(TicketOf(fifo[i], waiters[fifo[i]]))}, waiters - {fifo[i]})
    ensures QueueOf(RemoveFirst(fifo, fifo[i]), waiters - {fifo[i]}) == Without(QueueOf(fifo, waiters), i)
    ensures ReadyOf(waiters - {fifo[i]}) == ReadyOf(waiters)
    ensures |RemoveFirst(fifo, fifo[i])| == |fifo| - 1
  {
    LeaveStructures(fifo, ordered, waiters, waiters - {fifo[i]}, i);
  }

  lemma CollectAgrees(fifo: seq<nat>, ordered: set<Key>, waiters: map<nat, Waiter>, id: nat)
    requires StructuresAgree(fifo, ordered, waiters) && id in waiters && waiters[id].admitted
    ensures StructuresAgree(fifo, ordered, waiters - {id})
    ensures QueueOf(fifo, waiters - {id}) == QueueOf(fifo, waiters)
    ensures ReadyOf(waiters - {id}) == ReadyOf(waiters) - {id}
  {
  }

  lemma BumpMatches(counts: map<Address, nat>, running: nat, s: State, s': State, a: Address)
    requires CountsMatch(counts, running, s) && OneSlotLess(s', s, a)
    ensures CountsMatch(Bumped(counts, a), running + 1, s')
  {
    forall b ensures (b in Bumped(counts, a) <==> RunningAt(s', b) > 0) && RunningIn(Bumped(counts, a), b) == RunningAt(s', b) {
      assert RunningAt(s, b) == RunningAt(s', b) - if a == b then 1 else 0;
    }
  }

  lemma KeepsCounts(counts: map<Address, nat>, running: nat, s: State, s': State)
    requires CountsMatch(counts, running, s) && s'.ready == s.ready && s'.permits == s.permits
    ensures CountsMatch(counts, running, s')
  {
    IdleKeepsSlots(s, s');
  }

  lemma CollectKeepsCounts(counts: map<Address, nat>, running: nat, s: State, s': State, id: nat)
    requires CountsMatch(counts, running, s)
    requires id in s.ready && s'.ready == s.ready - {id} && s'.permits == s.permits + multiset{s.ready[id]}
    ensures CountsMatch(counts, running, s')
  {
    CollectKeepsSlots(s, s', id);
  }

  lemma DropMatches(counts: map<Address, nat>, running: nat, s: State, s': State, a: Address)
    requires CountsMatch(counts, running, s) && OneSlotLess(s, s', a)
    ensures a in counts && running > 0 && CountsMatch(Dropped(counts, a), running - 1, s')
  {
    assert RunningAt(s', a) == RunningAt(s, a) - 1;
    forall b ensures (b in Dropped(counts, a) <==> RunningAt(s', b) > 0) && RunningIn(Dropped(counts, a), b) == RunningAt(s', b) {
      assert RunningAt(s', b) == RunningAt(s, b) - if a == b then 1 else 0;
    }
  }

  /** A least key exists in every nonempty finite set. */
  lemma LeastKeyExists(ks: set<Key>) returns (least: Key)
    requires ks != {}
    ensures least in ks && forall k :: k in ks ==> k == least || KeyLess(least, k)
  {
    var k :| k in ks;
    if ks == {k} {
      least := k;
    } else {
      var l := LeastKeyExists(ks - {k});
      assert forall j :: j in ks ==> j == k || j in ks - {k};
      least := if KeyLess(k, l) then k else l;
    }
  }

  class RequestScheduler {
    const cfg: Config
    var globalRunning: nat
    var queued: nat
    var nextSeq: nat
    var highUrgencyPromotions: nat
    var waiters: map<nat, Waiter>
    var ordered: set<Key>
    var fifo: seq<nat>
    var addressRunning: map<Address, nat>
    /** Permits in callers' hands: each will be dropped exactly once. */
    ghost var permits: multiset<Address>
    ghost var clock: nat

    ghost predicate Linked()
      reads this
    {
      StructuresAgree(fifo, ordered, waiters) && queued == |fifo|
    }

    ghost function Abs(): (s: State)
      requires Linked()
      reads this
    {
      State(QueueOf(fifo, waiters), ReadyOf(waiters), permits, highUrgencyPromotions, nextSeq, clock)
    }

    /** Everything but the scheduler's promise to have no usable slot free. */
    ghost predicate Consistent()
      reads this
    {
      Linked() && CountsMatch(addressRunning, globalRunning, Abs()) && FifoOrdered(Abs()) && DistinctIds(Abs())
    }

    ghost predicate Valid()
      reads this
    {
      Consistent() && Inv(cfg, Abs())
    }

    constructor (cfg: Config)
      ensures Valid() && this.cfg == cfg && Abs() == INITIAL
    {
      this.cfg := cfg;
      globalRunning, queued, nextSeq, highUrgencyPromotions := 0, 0, 0, 0;
      waiters, ordered, fifo, addressRunning := map[], {}, [], map[];
      permits, clock := multiset{}, 0;
      new;
      assert forall a :: RunningAt(INITIAL, a) == 0;
    }

    // ------------------------------------------------------------ reading the state

    predicate WaiterIsEligible(id: nat)
      reads this
    {
      id in waiters && RunningIn(addressRunning, waiters[id].address) < cfg.maxPerAddress
    }

    predicate QueueBlocksPriority(urgency: nat)
      reads this
    {
      exists k :: k in ordered && k.urgency <= urgency && WaiterIsEligible(k.id)
    }

    lemma EligibleAgrees(i: nat)
      requires Consistent() && i < |fifo|
      ensures WaiterIsEligible(fifo[i]) <==> Eligible(cfg, Abs(), Abs().queue[i])
    {
    }

    ghost predicate Covers(rest: set<Key>)
      requires Linked()
      reads this
    {
      forall i :: 0 <= i < |fifo| && Eligible(cfg, Abs(), Abs().queue[i]) ==> KeyOf(Abs().queue[i]) in rest
    }

    lemma SkipKeepsCover(rest: set<Key>, k: Key)
      requires Consistent() && Covers(rest) && !WaiterIsEligible(k.id)
      ensures Covers(rest - {k})
    {
      forall i | 0 <= i < |fifo| && Eligible(cfg, Abs(), Abs().queue[i]) ensures KeyOf(Abs().queue[i]) in rest - {k} {
        EligibleAgrees(i);
      }
    }

    lemma LeastIsBest(rest: set<Key>, k: Key)
      requires Consistent() && Covers(rest) && k in ordered && WaiterIsEligible(k.id)
      requires forall j :: j in rest ==> k == j || KeyLess(k, j)
      ensures BestUpTo(cfg, Abs(), |fifo|).Some? && Abs().queue[BestUpTo(cfg, Abs(), |fifo|).value].id == k.id
    {
      var q := Abs().queue;
      var i :| 0 <= i < |fifo| && fifo[i] == k.id;
      EligibleAgrees(i);
      hide Eligible, WaiterIsEligible;
      var b := BestUpTo(cfg, Abs(), |fifo|);
      assert b.Some? && Precedes(q[b.value], q[i]);
      assert KeyOf(q[b.value]) in rest;
    }

    /** Walks the ordered set upwards to the first eligible key. */
    method FindBest() returns (best: Option<nat>)
      requires Consistent()
      ensures best.None? <==> BestUpTo(cfg, Abs(), |fifo|).None?
      ensures best.Some? ==> best.value == Abs().queue[BestUpTo(cfg, Abs(), |fifo|).value].id
    {
      hide WaiterIsEligible;
      var rest := ordered;
      while rest != {}
        invariant rest <= ordered && Covers(rest)
      {
        ghost var l := LeastKeyExists(rest);
        var k :| k in rest && forall j :: j in rest ==> k == j || KeyLess(k, j);
        if WaiterIsEligible(k.id) {
          LeastIsBest(rest, k);
          return Some(k.id);
        }
        SkipKeepsCover(rest, k);
        rest := rest - {k};
      }
      return None;
    }

    /** Walks the FIFO to the first eligible key. */
    method FindOldest() returns (oldest: Option<nat>)
      requires Consistent()
      ensures oldest.None? <==> OldestFrom(cfg, Abs(), 0).None?
      ensures oldest.Some? ==> oldest.value == Abs().queue[OldestFrom(cfg, Abs(), 0).value].id
    {
      var i := 0;
      while i < |fifo|
        invariant i <= |fifo| && Consistent()
        invariant OldestFrom(cfg, Abs(), 0) == OldestFrom(cfg, Abs(), i)
      {
        EligibleAgrees(i);
        if WaiterIsEligible(fifo[i]) {
          return Some(fifo[i]);
        }
        i := i + 1;
      }
      return None;
    }

    lemma InSlab(i: nat)
      requires Linked() && i < |fifo|
      ensures fifo[i] in waiters && !waiters[fifo[i]].admitted && Abs().queue[i] == TicketOf(fifo[i], waiters[fifo[i]])
    {
    }

    method SelectWaiter(now: nat) returns (id: Option<nat>)
      requires Consistent()
      ensures id.None? <==> Select(cfg, Abs(), now).None?
      ensures id.Some? ==> id.value == Abs().queue[Select(cfg, Abs(), now).value].id
    {
      hide Eligible, CountsMatch;
      var best := FindBest();
      var oldest := FindOldest();
      if best.None? || oldest.None? {
        return None;
      }
      ghost var q := Abs().queue;
      ghost var b, o := BestUpTo(cfg, Abs(), |fifo|).value, OldestFrom(cfg, Abs(), 0).value;
      InSlab(b);
      InSlab(o);
      SelectIs(cfg, Abs(), now, b, o);
      hide StructuresAgree, FifoOrdered, BestUpTo, OldestFrom, QueueOf, Select;
      if oldest == best {
        return best;
      }
      var oldestWaiter, bestWaiter := waiters[oldest.value], waiters[best.value];
      var agedByTime := SaturatingSub(now, oldestWaiter.enqueuedAt) >= AGING_WAIT;
      var agedByCount := highUrgencyPromotions >= HIGH_URGENCY_PROMOTIONS_BEFORE_AGING
                         && oldestWaiter.urgency > bestWaiter.urgency;
      if agedByTime || agedByCount {
        return oldest;
      }
      return best;
    }

    // ----------------------------------------------------------- changing the state

    method EnqueueWaiter(urgency: nat, seqNo: nat, id: nat)
      modifies this`ordered, this`fifo, this`queued
      ensures ordered == old(ordered) + {Key(urgency, seqNo, id)}
      ensures fifo == old(fifo) + [id] && queued == old(queued) + 1
    {
      ordered := ordered + {Key(urgency, seqNo, id)};
      fifo := fifo + [id];
      queued := queued + 1;
    }

    method DequeueWaiter(urgency: nat, seqNo: nat, id: nat)
      modifies this`ordered, this`fifo, this`queued
      ensures ordered == old(ordered) - {Key(urgency, seqNo, id)}
      ensures fifo == RemoveFirst(old(fifo), id) && queued == SaturatingSub(old(queued), 1)
    {
      ordered := ordered - {Key(urgency, seqNo, id)};
      var i := 0;
      while i < |fifo| && fifo[i] != id
        invariant i <= |fifo|
        invariant forall j :: 0 <= j < i ==> fifo[j] != id
      {
        i := i + 1;
      }
      assert i == IndexOf(fifo, id, 0);
      if i < |fifo| {
        fifo := fifo[..i] + fifo[i + 1..];
      }
      queued := SaturatingSub(queued, 1);
    }

    method BumpAddressRunning(address: Address)
      modifies this`addressRunning, this`globalRunning
      ensures addressRunning == Bumped(old(addressRunning), address) && globalRunning == old(globalRunning) + 1
    {
      addressRunning := addressRunning[address := RunningIn(addressRunning, address) + 1];
      globalRunning := globalRunning + 1;
    }

    method DropAddressRunning(address: Address)
      modifies this`addressRunning, this`globalRunning
      ensures addressRunning == Dropped(old(addressRunning), address)
      ensures globalRunning == SaturatingSub(old(globalRunning), 1)
    {
      if address !in addressRunning {
        globalRunning := SaturatingSub(globalRunning, 1);
        return;
      }
      addressRunning := addressRunning[address := SaturatingSub(addressRunning[address], 1)];
      if addressRunning[address] == 0 {
        addressRunning := addressRunning - {address};
      }
      globalRunning := SaturatingSub(globalRunning, 1);
    }

    lemma FifoIsDistinct()
      requires Consistent()
      ensures Distinct(fifo)
    {
      assert forall i :: 0 <= i < |fifo| ==> Abs().queue[i].id == fifo[i];
    }

    /** Moves the waiter at FIFO index `i` from the queue to the admitted ones. */
    method AdmitWaiter(id: nat, ghost i: nat)
      requires Consistent() && i < |fifo| && fifo[i] == id
      modifies this`waiters, this`ordered, this`fifo, this`queued, this`highUrgencyPromotions
      ensures Linked()
      ensures var s, t := old(Abs()), old(Abs()).queue[i];
              Abs() == s.(queue := Without(s.queue, i), ready := s.ready[t.id := t.address],
                          streak := NextStreak(s.streak, t.urgency))
    {
      hide CountsMatch, FifoOrdered, DistinctIds, StructuresAgree, QueueOf, ReadyOf, Without;
      FifoIsDistinct();
      InSlab(i);
      var w := waiters[id].(admitted := true);
      AdmitStructures(fifo, ordered, waiters, i, w);
      DequeueWaiter(w.urgency, w.seqNo, id);
      waiters := waiters[id := w];
      if w.urgency <= HIGH_URGENCY_MAX {
        highUrgencyPromotions := if highUrgencyPromotions < U32_MAX then highUrgencyPromotions + 1 else highUrgencyPromotions;
      } else {
        highUrgencyPromotions := 0;
      }
    }

    lemma InFifo(id: nat) returns (i: nat)
      requires Linked() && id in waiters && !waiters[id].admitted
      ensures i < |fifo| && fifo[i] == id && i < |Abs().queue| && Abs().queue[i].id == id
    {
      i :| 0 <= i < |fifo| && fifo[i] == id;
    }

    lemma CountIsRunning()
      requires Consistent()
      ensures globalRunning == Running(Abs())
    {
    }

    /** Gives one free slot to the waiter the selection picks. */
    method TryPromote(now: nat)
      requires Consistent()
      modifies this
      ensures Consistent() && Abs() == Promote(cfg, old(Abs()), now)
    {
      hide Select, CountsMatch, FifoOrdered, DistinctIds, StructuresAgree, QueueOf, ReadyOf, OneSlotLess, RunningAt;
      ghost var s := Abs();
      CountIsRunning();
      if globalRunning >= cfg.maxTotal {
        return;
      }
      var selected := SelectWaiter(now);
      if selected.None? {
        return;
      }
      InSlab(Select(cfg, s, now).value);
      var address := waiters[selected.value].address;
      PromoteOrder(cfg, s, now);
      PromoteOccupancy(cfg, s, now);
      AdmitWaiter(selected.value, Select(cfg, s, now).value);
      BumpAddressRunning(address);
      BumpMatches(old(addressRunning), old(globalRunning), s, Abs(), address);
    }

    /** Turns an admitted waiter's slot into a permit for its caller. */
    method TakeAdmitted(id: nat) returns (outcome: Outcome)
      requires Consistent()
      modifies this`waiters, this`permits
      ensures Consistent() && outcome == if id in old(Abs()).ready then Ready else Pending(id)
      ensures Abs() == Apply(cfg, old(Abs()), Collect(id, clock))
    {
      hide CountsMatch, StructuresAgree, QueueOf;
      if id !in waiters || !waiters[id].admitted {
        return Pending(id);
      }
      ghost var s := Abs();
      CollectAgrees(fifo, ordered, waiters, id);
      permits := permits + multiset{waiters[id].address};
      waiters := waiters - {id};
      CollectKeepsCounts(addressRunning, globalRunning, s, Abs(), id);
      return Ready;
    }

    lemma KeepsInv(s: State, x: Action)
      requires Inv(cfg, s) && Enabled(s, x)
      ensures Inv(cfg, Apply(cfg, s, x)) && FifoOrdered(Apply(cfg, s, x)) && DistinctIds(Apply(cfg, s, x))
    {
      ApplyKeepsOrder(cfg, s, x);
      ApplyConservesWork(cfg, s, x);
    }

    /** A poll by a caller that already waits. */
    method Repoll(id: nat, now: nat) returns (outcome: Outcome)
      requires Valid() && clock <= now
      modifies this
      ensures Valid() && Abs() == Apply(cfg, old(Abs()), Collect(id, now))
      ensures outcome == if id in old(Abs()).ready then Ready else Pending(id)
    {
      ghost var s := Abs();
      KeepsInv(s, Collect(id, now));
      KeepsCounts(addressRunning, globalRunning, s, s.(clock := now));
      clock := now;
      hide Inv, CountsMatch, StructuresAgree, QueueOf, ReadyOf;
      outcome := TakeAdmitted(id);
    }

    method AdmitAtOnce(address: Address, urgency: nat, ghost vacant: nat, ghost now: nat)
      requires Valid() && Enabled(Abs(), Poll(address, urgency, vacant, now)) && HasRoom(cfg, Abs(), address)
      modifies this
      ensures Valid() && Abs() == Apply(cfg, old(Abs()), Poll(address, urgency, vacant, now))
    {
      ghost var s := Abs();
      hide Inv, CountsMatch, FifoOrdered, DistinctIds, StructuresAgree, QueueOf, ReadyOf, HasRoom;
      KeepsInv(s, Poll(address, urgency, vacant, now));
      BumpAddressRunning(address);
      permits, clock := permits + multiset{address}, now;
      AdmitTakesSlot(s, Abs(), address);
      BumpMatches(old(addressRunning), old(globalRunning), s, Abs(), address);
    }

    lemma FreshKeyIsUnused(vacant: nat)
      requires Linked() && vacant !in waiters
      ensures vacant !in Abs().ready && !Queued(Abs(), vacant)
    {
    }

    lemma StillNothingToPromote(now: nat)
      requires Linked() && Inv(cfg, Abs())
      ensures Promote(cfg, Abs(), now) == Abs()
    {
    }

    /** Puts a new waiter into the slab, the ordered set and the FIFO. */
    method Park(address: Address, urgency: nat, vacant: nat, now: nat)
      requires Consistent() && clock <= now && vacant !in waiters
      modifies this
      ensures Consistent()
      ensures Abs() == old(Abs()).(queue := old(Abs()).queue + [Ticket(vacant, address, urgency, old(nextSeq), now)],
                                   nextSeq := old(nextSeq) + 1, clock := now)
    {
      ghost var s := Abs();
      var w := Waiter(address, urgency, nextSeq, now, false);
      ParkAgrees(fifo, ordered, waiters, vacant, w);
      nextSeq := nextSeq + 1;
      waiters := waiters[vacant := w];
      EnqueueWaiter(urgency, w.seqNo, vacant);
      clock := now;
      IdleKeepsSlots(s, Abs());
      ParkKeepsOrder(s, Abs(), TicketOf(vacant, w));
    }

    method Enqueue(address: Address, urgency: nat, vacant: nat, now: nat) returns (outcome: Outcome)
      requires Valid() && clock <= now && vacant !in waiters && Parks(cfg, Abs(), Poll(address, urgency, vacant, now))
      modifies this
      ensures Valid() && Abs() == Apply(cfg, old(Abs()), Poll(address, urgency, vacant, now))
      ensures outcome == Pending(vacant)
    {
      FreshKeyIsUnused(vacant);
      hide Inv, CountsMatch, FifoOrdered, DistinctIds, StructuresAgree, QueueOf, ReadyOf, HasRoom, Promote;
      KeepsInv(Abs(), Poll(address, urgency, vacant, now));
      Park(address, urgency, vacant, now);
      StillNothingToPromote(now);
      TryPromote(now);
      outcome := TakeAdmitted(vacant);
    }

    lemma RoomAgrees(address: Address)
      requires Consistent()
      ensures HasRoom(cfg, Abs(), address) <==>
              globalRunning < cfg.maxTotal && RunningIn(addressRunning, address) < cfg.maxPerAddress
      ensures queued == |Abs().queue|
    {
    }

    lemma NothingBlocks(urgency: nat)
      requires Valid() && globalRunning < cfg.maxTotal
      ensures !QueueBlocksPriority(urgency)
    {
      forall k | k in ordered ensures !WaiterIsEligible(k.id) {
        var i :| 0 <= i < |fifo| && fifo[i] == k.id;
        EligibleAgrees(i);
      }
    }

    /**
     * The first poll of a caller. It gets a permit exactly when there is room, is refused
     * exactly when there is none and the queue is full, and waits otherwise: a queue never
     * holds up a caller with room.
     */
    method PollAcquire(address: Address, urgency: nat, vacant: nat, now: nat) returns (outcome: Outcome)
      requires Valid() && clock <= now && vacant !in waiters
      modifies this
      ensures Valid() && Abs() == Apply(cfg, old(Abs()), Poll(address, urgency, vacant, now))
      ensures outcome == Ready <==> HasRoom(cfg, old(Abs()), address)
      ensures outcome == Full <==> !HasRoom(cfg, old(Abs()), address) && old(queued) >= cfg.maxQueued
    {
      RoomAgrees(address);
      var canRun := globalRunning < cfg.maxTotal && RunningIn(addressRunning, address) < cfg.maxPerAddress;
      var blocked := QueueBlocksPriority(urgency);
      if canRun { NothingBlocks(urgency); }
      FreshKeyIsUnused(vacant);
      hide Inv, CountsMatch, FifoOrdered, DistinctIds, StructuresAgree, QueueOf, ReadyOf, HasRoom, QueueBlocksPriority;
      if canRun && !blocked {
        AdmitAtOnce(address, urgency, vacant, now);
        return Ready;
      }
      if queued >= cfg.maxQueued {
        KeepsInv(Abs(), Poll(address, urgency, vacant, now));
        KeepsCounts(addressRunning, globalRunning, Abs(), Abs().(clock := now));
        clock := now;
        return Full;
      }
      outcome := Enqueue(address, urgency, vacant, now);
    }

    lemma DropFreesSlot(s: State, a: Address, now: nat)
      requires a in s.permits
      ensures OneSlotLess(s, Freed(s, Drop(a, now)), a)
    {
      AdmitTakesSlot(Freed(s, Drop(a, now)), s, a);
    }

    /** Dropping a permit frees its slot and promotes at most one waiter. */
    method Release(address: Address, now: nat)
      requires Valid() && clock <= now && address in permits
      modifies this
      ensures Valid() && Abs() == Apply(cfg, old(Abs()), Drop(address, now))
    {
      hide Inv, CountsMatch, FifoOrdered, DistinctIds, StructuresAgree, QueueOf, ReadyOf, Apply, Without, OneSlotLess;
      ghost var s := Abs();
      ghost var x := Drop(address, now);
      KeepsInv(s, x);
      FreedKeepsOrder(cfg, s, x);
      DropFreesSlot(s, address, now);
      permits, clock := permits - multiset{address}, now;
      DropMatches(addressRunning, globalRunning, s, Abs(), address);
      DropAddressRunning(address);
      TryPromote(now);
    }

    lemma CancelFreesSlot(s: State, id: nat, now: nat)
      requires id in s.ready
      ensures OneSlotLess(s, Freed(s, Cancel(id, now)), s.ready[id])
    {
      ReadyShrinks(s, Freed(s, Cancel(id, now)), id);
    }

    method CancelAdmitted(id: nat, now: nat)
      requires Valid() && clock <= now && id in waiters && waiters[id].admitted
      modifies this
      ensures Valid() && Abs() == Apply(cfg, old(Abs()), Cancel(id, now))
    {
      hide Inv, CountsMatch, FifoOrdered, DistinctIds, StructuresAgree, QueueOf, Apply, Without, OneSlotLess;
      ghost var s := Abs();
      ghost var x := Cancel(id, now);
      KeepsInv(s, x);
      FreedKeepsOrder(cfg, s, x);
      CancelFreesSlot(s, id, now);
      var address := waiters[id].address;
      CollectAgrees(fifo, ordered, waiters, id);
      waiters := waiters - {id};
      clock := now;
      DropMatches(addressRunning, globalRunning, s, Abs(), address);
      DropAddressRunning(address);
      TryPromote(now);
    }

    lemma CancelShortensQueue(s: State, i: nat, now: nat)
      requires DistinctIds(s) && i < |s.queue|
      ensures Apply(cfg, s, Cancel(s.queue[i].id, now)) == s.(clock := now, queue := Without(s.queue, i))
    {
      assert IndexOf(IdsOf(s.queue), s.queue[i].id, 0) == i;
    }

    method CancelQueued(id: nat, now: nat)
      requires Valid() && clock <= now && id in waiters && !waiters[id].admitted
      modifies this
      ensures Valid() && Abs() == Apply(cfg, old(Abs()), Cancel(id, now))
    {
      hide Inv, CountsMatch, FifoOrdered, DistinctIds, StructuresAgree, QueueOf, ReadyOf, Apply, Without, OneSlotLess;
      ghost var s := Abs();
      KeepsInv(s, Cancel(id, now));
      ghost var i := InFifo(id);
      FifoIsDistinct();
      CancelStructures(fifo, ordered, waiters, i);
      CancelShortensQueue(s, i, now);
      KeepsCounts(addressRunning, globalRunning, s, s.(clock := now, queue := Without(s.queue, i)));
      var w := waiters[id];
      waiters := waiters - {id};
      DequeueWaiter(w.urgency, w.seqNo, id);
      clock := now;
    }

    lemma NotQueued(id: nat)
      requires Linked() && id !in waiters
      ensures RemoveId(Abs().queue, id) == Abs().queue
    {
    }

    /** Dropping the guard of a waiter: gives an admitted waiter's slot back, or leaves the queue. */
    method CancelWaiter(id: nat, now: nat)
      requires Valid() && clock <= now
      modifies this
      ensures Valid() && Abs() == Apply(cfg, old(Abs()), Cancel(id, now))
    {
      if id !in waiters {
        KeepsInv(Abs(), Cancel(id, now));
        NotQueued(id);
        IdleKeepsSlots(Abs(), Abs().(clock := now));
        clock := now;
        return;
      }
      if waiters[id].admitted {
        CancelAdmitted(id, now);
      } else {
        CancelQueued(id, now);
      }
    }
  }
}
