/**
 * What the request scheduler guarantees over whole runs: every sequence of polls,
 * collections, permit drops and cancellations from the initial state.
 */
module SchedulerRuns {
  import opened Wrappers
  import opened Planning
  import opened SchedulerSpec

  /** `states[k]` is the state just before `actions[k]`. */
  datatype Run = Run(states: seq<State>, actions: seq<Action>)

  predicate Step(cfg: Config, s: State, x: Action, s': State) {
    Enabled(s, x) && s' == Apply(cfg, s, x)
  }

  predicate IsRun(cfg: Config, r: Run) {
    && |r.states| == |r.actions| + 1
    && r.states[0] == INITIAL
    && forall k :: 0 <= k < |r.actions| ==> Step(cfg, r.states[k], r.actions[k], r.states[k + 1])
  }

  /** Conservation, caps, queue agreement and work conservation hold in every reachable state. */
  lemma {:induction false} EveryRunKeepsInv(cfg: Config, r: Run, k: nat)
    requires IsRun(cfg, r) && k < |r.states|
    ensures Inv(cfg, r.states[k])
  {
    if k == 0 {
      assert forall a :: RunningAt(INITIAL, a) == 0;
    } else {
      EveryRunKeepsInv(cfg, r, k - 1);
      assert Step(cfg, r.states[k - 1], r.actions[k - 1], r.states[k]);
      ApplyKeepsOrder(cfg, r.states[k - 1], r.actions[k - 1]);
      ApplyConservesWork(cfg, r.states[k - 1], r.actions[k - 1]);
    }
  }

  // ---------------------------------------------------------------- overtaking

  lemma ChoiceIsJustified(cfg: Config, s: State, now: nat, i: nat)
    requires InOrder(s.queue) && Select(cfg, s, now).Some?
    requires i < |s.queue| && Eligible(cfg, s, s.queue[i])
    requires s.queue[i].seqNo < s.queue[Select(cfg, s, now).value].seqNo
    ensures s.queue[Select(cfg, s, now).value].urgency < s.queue[i].urgency
    ensures now < s.queue[i].enqueuedAt + 250
    ensures s.streak < 8
  {
    hide Eligible;
    var best := BestUpTo(cfg, s, |s.queue|).value;
    var oldest := OldestFrom(cfg, s, 0).value;
    assert oldest <= i;
    assert Precedes(s.queue[best], s.queue[oldest]);
  }

  /**
   * A promotion passes over an older waiter that could have taken the slot only for a
   * strictly more urgent one, and only while that waiter is young and the streak is short.
   */
  lemma OvertakingIsJustified(cfg: Config, s: State, x: Action, w: Ticket)
    requires FifoOrdered(s) && Promoted(cfg, s, x).Some?
    requires w in s.queue && Eligible(cfg, Freed(s, x), w)
    requires w.seqNo < Promoted(cfg, s, x).value.seqNo
    ensures Promoted(cfg, s, x).value.urgency < w.urgency
    ensures x.now < w.enqueuedAt + 250
    ensures s.streak < 8
  {
    hide Select, Eligible;
    var i :| 0 <= i < |s.queue| && s.queue[i] == w;
    ChoiceIsJustified(cfg, Freed(s, x), x.now, i);
  }

  // ------------------------------------------------------------------- urgency

  /** Of the waiters that could take the slot, none came before `t`. */
  ghost predicate IsOldest(cfg: Config, s: State, t: Ticket) {
    forall v :: v in s.queue && Eligible(cfg, s, v) ==> t.seqNo <= v.seqNo
  }

  lemma ChoicePassesUrgentOnlyForOldest(cfg: Config, s: State, now: nat, i: nat)
    requires InOrder(s.queue) && Select(cfg, s, now).Some? && i < |s.queue| && Eligible(cfg, s, s.queue[i])
    requires s.queue[i].urgency < s.queue[Select(cfg, s, now).value].urgency
    ensures var t := s.queue[Select(cfg, s, now).value];
            IsOldest(cfg, s, t) && (now >= t.enqueuedAt + 250 || s.streak >= 8)
  {
    hide Eligible;
    var c := Select(cfg, s, now).value;
    var best := BestUpTo(cfg, s, |s.queue|).value;
    var oldest := OldestFrom(cfg, s, 0).value;
    assert Precedes(s.queue[best], s.queue[i]);
    assert c == oldest;
    forall v | v in s.queue && Eligible(cfg, s, v) ensures s.queue[c].seqNo <= v.seqNo {
      var j :| 0 <= j < |s.queue| && s.queue[j] == v;
      assert oldest <= j;
    }
  }

  /**
   * A promotion passes over a more urgent waiter that could have taken the slot only for the
   * oldest such waiter, and only if that one has aged, by time or by count.
   */
  lemma UrgencyYieldsOnlyToAge(cfg: Config, s: State, x: Action, w: Ticket)
    requires FifoOrdered(s) && Promoted(cfg, s, x).Some?
    requires w in s.queue && Eligible(cfg, Freed(s, x), w)
    requires w.urgency < Promoted(cfg, s, x).value.urgency
    ensures var t := Promoted(cfg, s, x).value;
            IsOldest(cfg, Freed(s, x), t) && (x.now >= t.enqueuedAt + 250 || s.streak >= 8)
  {
    hide Select, Eligible, IsOldest;
    var i :| 0 <= i < |s.queue| && s.queue[i] == w;
    ChoicePassesUrgentOnlyForOldest(cfg, Freed(s, x), x.now, i);
  }

  /** A slot that is free for somebody in the queue is given to somebody. */
  lemma FreedSlotIsUsed(cfg: Config, s: State, x: Action, w: Ticket)
    requires FreesSlot(s, x) && Running(Freed(s, x)) < cfg.maxTotal && w in s.queue && Eligible(cfg, Freed(s, x), w)
    ensures Promoted(cfg, s, x).Some?
  {
    hide Eligible, Running;
    var i :| 0 <= i < |s.queue| && s.queue[i] == w;
    assert Eligible(cfg, Freed(s, x), Freed(s, x).queue[i]);
  }

  // ------------------------------------------------------------ admissions over runs

  /** Once a waiter has waited 250 milliseconds, no admission it could have had goes to a later one. */
  lemma AgedWaiterIsNotOvertaken(cfg: Config, r: Run, k: nat, w: Ticket)
    requires IsRun(cfg, r) && k < |r.actions| && w in r.states[k].queue
    requires r.actions[k].now >= w.enqueuedAt + 250
    ensures AdmitsAtOnce(cfg, r.states[k], r.actions[k]) ==> !HasRoom(cfg, r.states[k], w.address)
    ensures Promoted(cfg, r.states[k], r.actions[k]).Some? && Eligible(cfg, Freed(r.states[k], r.actions[k]), w) ==>
              Promoted(cfg, r.states[k], r.actions[k]).value.seqNo <= w.seqNo
  {
    var s, x := r.states[k], r.actions[k];
    EveryRunKeepsInv(cfg, r, k);
    if Promoted(cfg, s, x).Some? && Eligible(cfg, Freed(s, x), w) && w.seqNo < Promoted(cfg, s, x).value.seqNo {
      OvertakingIsJustified(cfg, s, x, w);
    }
  }

  // ----------------------------------------------------- how a step moves the queue

  /** A step takes out the ticket it promotes or cancels, or keeps the queue as a prefix. */
  lemma QueueMoves(cfg: Config, s: State, x: Action) returns (i: nat)
    requires Enabled(s, x)
    ensures i <= |s.queue|
    ensures i < |s.queue| ==> Apply(cfg, s, x).queue == Without(s.queue, i)
    ensures i < |s.queue| ==> Promoted(cfg, s, x) == Some(s.queue[i]) || (!FreesSlot(s, x) && x.Cancel? && x.id == s.queue[i].id)
    ensures i == |s.queue| ==> Promoted(cfg, s, x).None? && s.queue <= Apply(cfg, s, x).queue
    ensures i == |s.queue| && !Parks(cfg, s, x) ==> Apply(cfg, s, x).queue == s.queue
    ensures i == |s.queue| && x.Cancel? && !FreesSlot(s, x) ==> forall j :: 0 <= j < |s.queue| ==> s.queue[j].id != x.id
  {
    i := |s.queue|;
    if FreesSlot(s, x) {
      var p := Promotion(cfg, Freed(s, x), x.now);
      if p.Some? { i := p.value; }
    } else if x.Cancel? {
      i := IndexOf(IdsOf(s.queue), x.id, 0);
    }
  }

  lemma CountersMove(cfg: Config, s: State, x: Action, s': State)
    requires Step(cfg, s, x, s')
    ensures s.nextSeq <= s'.nextSeq && s.clock <= x.now && s'.clock == x.now
  {
  }

  lemma NewTicketIsNew(cfg: Config, s: State, x: Action, t: Ticket)
    requires Enabled(s, x) && t in Apply(cfg, s, x).queue && t !in s.queue
    ensures t.seqNo == s.nextSeq
  {
    if !Parks(cfg, s, x) {
      var _ := QueueMoves(cfg, s, x);
    }
  }

  /** Step `k` takes `w` out of the queue: it is admitted, or its caller cancels it. */
  predicate LeavesAt(cfg: Config, r: Run, k: nat, w: Ticket)
    requires k < |r.actions| && k < |r.states|
  {
    Promoted(cfg, r.states[k], r.actions[k]) == Some(w) || (r.actions[k].Cancel? && r.actions[k].id == w.id)
  }

  lemma InWithout(s: State, i: nat, w: Ticket)
    requires DistinctIds(s) && i < |s.queue| && w in s.queue
    ensures w in Without(s.queue, i) <==> w != s.queue[i]
    ensures w.id == s.queue[i].id ==> w == s.queue[i]
  {
    WithoutAt(s.queue, i);
    var j :| 0 <= j < |s.queue| && s.queue[j] == w;
    if j != i {
      assert Without(s.queue, i)[if j < i then j else j - 1] == w;
    }
  }

  lemma StaysUnlessItLeaves(cfg: Config, r: Run, k: nat, w: Ticket)
    requires IsRun(cfg, r) && k < |r.actions| && w in r.states[k].queue
    ensures w in r.states[k + 1].queue <==> !LeavesAt(cfg, r, k, w)
  {
    EveryRunKeepsInv(cfg, r, k);
    assert Step(cfg, r.states[k], r.actions[k], r.states[k + 1]);
    var i := QueueMoves(cfg, r.states[k], r.actions[k]);
    if i < |r.states[k].queue| {
      InWithout(r.states[k], i, w);
    }
  }

  lemma {:induction false} ClockMonotone(cfg: Config, r: Run, from: nat, until: nat)
    requires IsRun(cfg, r) && from <= until < |r.actions|
    ensures r.actions[from].now <= r.actions[until].now
    decreases until - from
  {
    hide Step;
    if from == until {
    } else {
      ClockMonotone(cfg, r, from, until - 1);
      CountersMove(cfg, r.states[until - 1], r.actions[until - 1], r.states[until]);
      CountersMove(cfg, r.states[until], r.actions[until], r.states[until + 1]);
    }
  }

  lemma QueuedIsNumbered(s: State, w: Ticket)
    requires FifoOrdered(s) && w in s.queue
    ensures w.seqNo < s.nextSeq
  {
  }

  lemma {:induction false} SeqNoIsSpent(cfg: Config, r: Run, from: nat, until: nat, w: Ticket)
    requires IsRun(cfg, r) && from <= until < |r.states| && w in r.states[from].queue
    ensures w.seqNo < r.states[until].nextSeq
    decreases until - from
  {
    hide Step;
    if from == until {
      EveryRunKeepsInv(cfg, r, from);
      hide WorkConserving, WithinCaps, DistinctIds;
      QueuedIsNumbered(r.states[from], w);
    } else {
      SeqNoIsSpent(cfg, r, from, until - 1, w);
      CountersMove(cfg, r.states[until - 1], r.actions[until - 1], r.states[until]);
    }
  }

  lemma QueuedJustBefore(cfg: Config, r: Run, from: nat, until: nat, w: Ticket)
    requires IsRun(cfg, r) && from < until < |r.states|
    requires w in r.states[from].queue && w in r.states[until].queue
    ensures w in r.states[until - 1].queue
  {
    hide Apply;
    SeqNoIsSpent(cfg, r, from, until - 1, w);
    assert Step(cfg, r.states[until - 1], r.actions[until - 1], r.states[until]);
    if w !in r.states[until - 1].queue {
      NewTicketIsNew(cfg, r.states[until - 1], r.actions[until - 1], w);
    }
  }

  /** A ticket that has left the queue never comes back: one still queued was queued all along. */
  lemma {:induction false} NeverComesBack(cfg: Config, r: Run, from: nat, k: nat, until: nat, w: Ticket)
    requires IsRun(cfg, r) && from <= k <= until < |r.states|
    requires w in r.states[from].queue && w in r.states[until].queue
    ensures w in r.states[k].queue
    decreases until
  {
    hide Step;
    if k == until {
    } else {
      QueuedJustBefore(cfg, r, from, until, w);
      NeverComesBack(cfg, r, from, k, until - 1, w);
    }
  }

  // --------------------------------------------------------- bounded overtaking

  function Ahead(q: seq<Ticket>, w: Ticket): nat {
    if q == [] || q[0] == w then 0 else 1 + Ahead(q[1..], w)
  }

  /** Does step `k` give a slot that `w` could have had to somebody else? */
  predicate PassesOver(cfg: Config, r: Run, k: nat, w: Ticket)
    requires k < |r.actions| && k < |r.states|
  {
    var s, x := r.states[k], r.actions[k];
    || (AdmitsAtOnce(cfg, s, x) && HasRoom(cfg, s, w.address))
    || (Promoted(cfg, s, x).Some? && Promoted(cfg, s, x).value != w && Eligible(cfg, Freed(s, x), w))
  }

  function PassedOver(cfg: Config, r: Run, from: nat, until: nat, w: Ticket): nat
    requires from <= until <= |r.actions| < |r.states|
  {
    if from == until then 0
    else PassedOver(cfg, r, from, until - 1, w) + if PassesOver(cfg, r, until - 1, w) then 1 else 0
  }

  lemma {:induction false} AheadIsIndex(q: seq<Ticket>, w: Ticket, i: nat)
    requires i < |q| && q[i] == w && forall j :: 0 <= j < i ==> q[j] != w
    ensures Ahead(q, w) == i
  {
    if i == 0 {
    } else {
      AheadIsIndex(q[1..], w, i - 1);
    }
  }

  lemma AheadAfterRemoval(s: State, w: Ticket, p: nat)
    requires FifoOrdered(s) && p < |s.queue| && w in Without(s.queue, p)
    ensures w != s.queue[p]
    ensures Ahead(Without(s.queue, p), w) == Ahead(s.queue, w) - if s.queue[p].seqNo < w.seqNo then 1 else 0
  {
    WithoutAt(s.queue, p);
    var j :| 0 <= j < |s.queue| - 1 && Without(s.queue, p)[j] == w;
    AheadIsIndex(Without(s.queue, p), w, j);
    AheadIsIndex(s.queue, w, if j < p then j else j + 1);
  }

  lemma AheadOfPrefix(q: seq<Ticket>, q': seq<Ticket>, w: Ticket)
    requires q <= q' && w in q
    ensures Ahead(q', w) == Ahead(q, w)
  {
    if q[0] != w {
      AheadOfPrefix(q[1..], q'[1..], w);
    }
  }

  lemma AheadShrinks(cfg: Config, s: State, x: Action, w: Ticket)
    requires FifoOrdered(s) && DistinctIds(s) && Enabled(s, x)
    requires w in s.queue && w in Apply(cfg, s, x).queue
    ensures Ahead(Apply(cfg, s, x).queue, w) <= Ahead(s.queue, w)
    ensures Promoted(cfg, s, x).Some? && Promoted(cfg, s, x).value.seqNo <= w.seqNo ==>
              Ahead(Apply(cfg, s, x).queue, w) < Ahead(s.queue, w)
  {
    var i := QueueMoves(cfg, s, x);
    if i < |s.queue| {
      AheadAfterRemoval(s, w, i);
      var j :| 0 <= j < |s.queue| && s.queue[j] == w;
    } else {
      AheadOfPrefix(s.queue, Apply(cfg, s, x).queue, w);
    }
  }

  /**
   * Bounded overtaking: an aged waiter that is still queued has been passed over, while it
   * could have run, at most as often as there were waiters ahead of it when it aged.
   */
  lemma {:induction false} OvertakingIsBounded(cfg: Config, r: Run, from: nat, until: nat, w: Ticket)
    requires IsRun(cfg, r) && from <= until <= |r.actions|
    requires from < |r.actions| && r.actions[from].now >= w.enqueuedAt + 250
    requires w in r.states[from].queue && w in r.states[until].queue
    ensures PassedOver(cfg, r, from, until, w) + Ahead(r.states[until].queue, w) <= Ahead(r.states[from].queue, w)
    decreases until - from
  {
    if from == until {
    } else {
      var k := until - 1;
      QueuedJustBefore(cfg, r, from, until, w);
      OvertakingIsBounded(cfg, r, from, k, w);
      ClockMonotone(cfg, r, from, k);
      EveryRunKeepsInv(cfg, r, k);
      assert Step(cfg, r.states[k], r.actions[k], r.states[k + 1]);
      AgedWaiterIsNotOvertaken(cfg, r, k, w);
      AheadShrinks(cfg, r.states[k], r.actions[k], w);
    }
  }

  // ------------------------------------------------------------------ dominance

  lemma {:induction false} LeftBetween(cfg: Config, r: Run, from: nat, until: nat, w: Ticket) returns (e: nat)
    requires IsRun(cfg, r) && from <= until < |r.states|
    requires w in r.states[from].queue && w !in r.states[until].queue
    ensures from <= e < until && w in r.states[e].queue && LeavesAt(cfg, r, e, w)
    decreases until - from
  {
    if w in r.states[until - 1].queue {
      e := until - 1;
      StaysUnlessItLeaves(cfg, r, e, w);
    } else {
      e := LeftBetween(cfg, r, from, until - 1, w);
    }
  }

  /** Step `k` admits a request that `w`, queued before it on the same address, dominates. */
  predicate AdmitsDominated(cfg: Config, r: Run, k: nat, w: Ticket)
    requires k < |r.actions| && k < |r.states|
  {
    var s, x := r.states[k], r.actions[k];
    var p := Promoted(cfg, s, x);
    || (AdmitsAtOnce(cfg, s, x) && x.address == w.address)
    || (p.Some? && p.value.address == w.address && w.urgency <= p.value.urgency && w.seqNo < p.value.seqNo)
  }

  /**
   * Dominance: a request that comes later on the same address and is no more urgent is
   * never admitted, by promotion or at once, before the earlier one has left the queue.
   */
  lemma DominatorLeavesFirst(cfg: Config, r: Run, from: nat, k: nat, w: Ticket)
    requires IsRun(cfg, r) && from <= k < |r.actions| && w in r.states[from].queue
    requires AdmitsDominated(cfg, r, k, w)
    ensures exists e :: from <= e < k && w in r.states[e].queue && LeavesAt(cfg, r, e, w)
  {
    var s, x := r.states[k], r.actions[k];
    EveryRunKeepsInv(cfg, r, k);
    if w !in s.queue {
      var e := LeftBetween(cfg, r, from, k, w);
    } else if Promoted(cfg, s, x).Some? {
      OvertakingIsJustified(cfg, s, x, w);
    }
  }

  // ---------------------------------------------------------------- count aging

  /** High-urgency promotions since the last promotion of a lower-urgency request. */
  function HighStreak(cfg: Config, r: Run, k: nat): nat
    requires k <= |r.actions| < |r.states|
  {
    if k == 0 then 0
    else
      var p := Promoted(cfg, r.states[k - 1], r.actions[k - 1]);
      if p.None? then HighStreak(cfg, r, k - 1)
      else if p.value.urgency > 2 then 0
      else HighStreak(cfg, r, k - 1) + 1
  }

  function Min(m: nat, n: nat): nat {
    if m < n then m else n
  }

  lemma PromoteStreak(cfg: Config, s: State, now: nat)
    ensures Promote(cfg, s, now).streak ==
            var p := Promotion(cfg, s, now); if p.None? then s.streak else NextStreak(s.streak, s.queue[p.value].urgency)
  {
    hide Promotion;
  }

  lemma StreakMoves(cfg: Config, s: State, x: Action, s': State)
    requires Step(cfg, s, x, s')
    ensures s'.streak == var p := Promoted(cfg, s, x);
                         if p.None? then s.streak else NextStreak(s.streak, p.value.urgency)
  {
    hide Select, Running, Eligible, HasRoom, Enabled, RemoveId;
    if FreesSlot(s, x) {
      PromoteStreak(cfg, Freed(s, x), x.now);
      hide Promote, Promotion;
    }
  }

  lemma {:induction false} StreakCountsPromotions(cfg: Config, r: Run, k: nat)
    requires IsRun(cfg, r) && k < |r.states|
    ensures r.states[k].streak == Min(HighStreak(cfg, r, k), U32_MAX)
  {
    hide Step, Promoted, Freed, FreesSlot, Eligible, Running;
    if k == 0 {
    } else {
      StreakCountsPromotions(cfg, r, k - 1);
      StreakMoves(cfg, r.states[k - 1], r.actions[k - 1], r.states[k]);
    }
  }

  /** After eight high-urgency promotions in a row every promotion goes to the oldest eligible waiter. */
  lemma StreakServesOldest(cfg: Config, r: Run, k: nat, w: Ticket)
    requires IsRun(cfg, r) && k < |r.actions|
    requires HighStreak(cfg, r, k) >= 8
    requires Promoted(cfg, r.states[k], r.actions[k]).Some?
    requires w in r.states[k].queue && Eligible(cfg, Freed(r.states[k], r.actions[k]), w)
    ensures Promoted(cfg, r.states[k], r.actions[k]).value.seqNo <= w.seqNo
  {
    var s, x := r.states[k], r.actions[k];
    EveryRunKeepsInv(cfg, r, k);
    StreakCountsPromotions(cfg, r, k);
    if w.seqNo < Promoted(cfg, s, x).value.seqNo {
      OvertakingIsJustified(cfg, s, x, w);
    }
  }

  // ----------------------------------------------------------- urgency over whole runs

  /**
   * Who gets a freed slot, over every run: among the waiters that could take it the most urgent,
   * and of those the first to come, unless the oldest is served because it has waited 250
   * milliseconds or because eight high-urgency promotions were made in a row.
   */
  lemma UrgencyIsHonoured(cfg: Config, r: Run, k: nat, w: Ticket)
    requires IsRun(cfg, r) && k < |r.actions| && Promoted(cfg, r.states[k], r.actions[k]).Some?
    requires w in r.states[k].queue && Eligible(cfg, Freed(r.states[k], r.actions[k]), w)
    ensures var s, x, t := r.states[k], r.actions[k], Promoted(cfg, r.states[k], r.actions[k]).value;
            && (w.urgency == t.urgency ==> t.seqNo <= w.seqNo)
            && (w.urgency < t.urgency ==>
                  IsOldest(cfg, Freed(s, x), t) && (x.now >= t.enqueuedAt + 250 || HighStreak(cfg, r, k) >= 8))
  {
    var s, x := r.states[k], r.actions[k];
    EveryRunKeepsInv(cfg, r, k);
    StreakCountsPromotions(cfg, r, k);
    hide IsRun, Promoted, Freed, Eligible, IsOldest, DistinctIds, WithinCaps, WorkConserving, HighStreak;
    var t := Promoted(cfg, s, x).value;
    if w.urgency < t.urgency {
      UrgencyYieldsOnlyToAge(cfg, s, x, w);
    } else if w.urgency == t.urgency && w.seqNo < t.seqNo {
      OvertakingIsJustified(cfg, s, x, w);
    }
  }

  /** A free slot means that every queued waiter's address is at its cap; no cap is ever exceeded. */
  lemma FreeSlotMeansAddressesFull(cfg: Config, r: Run, k: nat, a: Address)
    requires IsRun(cfg, r) && k < |r.states|
    ensures var s := r.states[k];
            var held := s.permits[a] + |set id | id in s.ready && s.ready[id] == a|;
            && |s.permits| + |s.ready| <= cfg.maxTotal && |s.queue| <= cfg.maxQueued && held <= cfg.maxPerAddress
            && (|s.permits| + |s.ready| < cfg.maxTotal && (exists t :: t in s.queue && t.address == a) ==> held == cfg.maxPerAddress)
  {
    EveryRunKeepsInv(cfg, r, k);
    hide IsRun, FifoOrdered, DistinctIds;
    var s := r.states[k];
    assert ReadyAt(s, a) == set id | id in s.ready && s.ready[id] == a;
    assert RunningAt(s, a) <= cfg.maxPerAddress;
    if Running(s) < cfg.maxTotal && exists t :: t in s.queue && t.address == a {
      var i :| 0 <= i < |s.queue| && s.queue[i].address == a;
      assert !Eligible(cfg, s, s.queue[i]);
    }
  }
}
