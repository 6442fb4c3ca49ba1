/**
 * Callers and their guards. A caller that has to wait keeps the slab key of its waiter, polls
 * with it, and cancels it when its future is dropped. Keys are reused, so that a key always
 * names its holder's own waiter is a property of whole runs.
 */
module SchedulerGuards {
  import opened SchedulerSpec
  import opened SchedulerRuns

  type Caller = nat

  /** `callers[k]` takes step `k`; `own[k]` are the tickets of the live guards before it. */
  datatype GuardedRun = GuardedRun(run: Run, callers: seq<Caller>, own: seq<map<Caller, Ticket>>)

  /** A caller without a guard polls afresh; one with a guard uses its key and no other. */
  predicate Allowed(own: map<Caller, Ticket>, c: Caller, x: Action) {
    match x
    case Poll(_, _, _, _) => c !in own
    case Collect(id, _) => c in own && own[c].id == id
    case Cancel(id, _) => c in own && own[c].id == id
    case Drop(_, _) => true
  }

  /** A guard starts when its caller is parked and ends when the permit is collected or the wait canceled. */
  function OwnAfter(cfg: Config, s: State, own: map<Caller, Ticket>, c: Caller, x: Action): map<Caller, Ticket> {
    match x
    case Poll(a, u, id, now) => if Parks(cfg, s, x) then own[c := Ticket(id, a, u, s.nextSeq, now)] else own
    case Collect(id, _) => if id in s.ready then own - {c} else own
    case Cancel(_, _) => own - {c}
    case Drop(_, _) => own
  }

  predicate IsGuardedRun(cfg: Config, g: GuardedRun) {
    && IsRun(cfg, g.run) && |g.callers| == |g.run.actions| && |g.own| == |g.run.states| && g.own[0] == map[]
    && forall k :: 0 <= k < |g.callers| ==>
         && Allowed(g.own[k], g.callers[k], g.run.actions[k])
         && g.own[k + 1] == OwnAfter(cfg, g.run.states[k], g.own[k], g.callers[k], g.run.actions[k])
  }

  /** The ticket is waiting, or it was promoted and its permit not yet collected. */
  predicate Pending(s: State, t: Ticket) {
    if t.id in s.ready then s.ready[t.id] == t.address && t !in s.queue else t in s.queue
  }

  /** Live guards and waiters are in one-to-one correspondence, by slab key. */
  ghost predicate Guarded(s: State, own: map<Caller, Ticket>) {
    && (forall c :: c in own ==> Pending(s, own[c]))
    && (forall c, d :: c in own && d in own && own[c].id == own[d].id ==> c == d)
    && (forall t :: t in s.queue ==> exists c :: c in own && own[c] == t)
    && (forall id :: id in s.ready ==> exists c :: c in own && own[c].id == id)
  }

  // ------------------------------------------------------------------------ every step

  lemma InQueueWithout(q: seq<Ticket>, i: nat, t: Ticket)
    requires i < |q| && forall j, k :: 0 <= j < k < |q| ==> q[j].id != q[k].id
    ensures t in Without(q, i) <==> t in q && t != q[i]
  {
    WithoutAt(q, i);
    if t in q && t != q[i] {
      var j :| 0 <= j < |q| && q[j] == t;
      assert Without(q, i)[if j < i then j else j - 1] == t;
    }
  }

  /** A ticket that moves from the queue to the admitted ones stays its caller's. */
  lemma AdmissionKeepsGuards(s: State, own: map<Caller, Ticket>, t: Ticket, s': State)
    requires Guarded(s, own) && t in s.queue
    requires forall u :: u in s'.queue <==> u in s.queue && u != t
    requires s'.ready == s.ready[t.id := t.address]
    ensures Guarded(s', own)
  {
    var owner :| owner in own && own[owner] == t;
    forall c | c in own ensures Pending(s', own[c]) {
      assert Pending(s, own[c]);
      if own[c].id == t.id {
        assert c == owner;
      }
    }
    forall id | id in s'.ready ensures exists c :: c in own && own[c].id == id {
      if id == t.id {
        assert own[owner].id == id;
      }
    }
  }

  lemma PromoteKeepsGuards(cfg: Config, s: State, own: map<Caller, Ticket>, now: nat)
    requires DistinctIds(s) && Guarded(s, own)
    ensures Guarded(Promote(cfg, s, now), own)
  {
    hide Guarded, Promotion;
    var p := Promotion(cfg, s, now);
    if p.Some? {
      var s' := Promote(cfg, s, now);
      forall u ensures u in s'.queue <==> u in s.queue && u != s.queue[p.value] {
        InQueueWithout(s.queue, p.value, u);
      }
      AdmissionKeepsGuards(s, own, s.queue[p.value], s');
    }
  }

  lemma ParkKeepsGuards(s: State, own: map<Caller, Ticket>, c: Caller, t: Ticket, s': State)
    requires Guarded(s, own) && c !in own && t.id !in s.ready && !Queued(s, t.id)
    requires s'.queue == s.queue + [t] && s'.ready == s.ready
    ensures Guarded(s', own[c := t])
  {
    var own' := own[c := t];
    forall d | d in own ensures own[d].id != t.id {
      if own[d] in s.queue {
        var i :| 0 <= i < |s.queue| && s.queue[i] == own[d];
      }
    }
    forall u | u in s'.queue ensures exists d :: d in own' && own'[d] == u {
      if u != t {
        var d :| d in own && own[d] == u;
        assert own'[d] == u;
      } else {
        assert own'[c] == u;
      }
    }
    forall id | id in s'.ready ensures exists d :: d in own' && own'[d].id == id {
      var d :| d in own && own[d].id == id;
      assert own'[d].id == id;
    }
  }

  lemma OtherStaysPending(s: State, t: Ticket, gone: Ticket, s': State)
    requires Pending(s, t) && t.id != gone.id
    requires forall u :: u in s'.queue <==> u in s.queue && u != gone
    requires s'.ready == s.ready - {gone.id}
    ensures Pending(s', t)
  {
  }

  /** When just the waiter of `c` leaves, ending the guard of `c` keeps the correspondence. */
  lemma DepartureKeepsGuards(s: State, own: map<Caller, Ticket>, c: Caller, s': State)
    requires Guarded(s, own) && c in own
    requires forall t :: t in s'.queue <==> t in s.queue && t != own[c]
    requires s'.ready == s.ready - {own[c].id}
    ensures Guarded(s', own - {c})
  {
    hide Pending;
    var own' := own - {c};
    forall d | d in own' ensures Pending(s', own'[d]) {
      OtherStaysPending(s, own[d], own[c], s');
    }
    forall t | t in s'.queue ensures exists d :: d in own' && own'[d] == t {
      var d :| d in own && own[d] == t;
      assert own'[d] == t;
    }
    forall id | id in s'.ready ensures exists d :: d in own' && own'[d].id == id {
      var d :| d in own && own[d].id == id;
      assert own'[d].id == id;
    }
  }

  lemma QueueLoses(q: seq<Ticket>, t: Ticket, u: Ticket)
    requires t in q && forall j, k :: 0 <= j < k < |q| ==> q[j].id != q[k].id
    ensures u in RemoveId(q, t.id) <==> u in q && u != t
  {
    var i := IndexOf(IdsOf(q), t.id, 0);
    var j :| 0 <= j < |q| && q[j] == t;
    assert i == j;
    InQueueWithout(q, i, u);
  }

  /** The guard of an admitted waiter ends with it. */
  lemma EndAdmitted(s: State, own: map<Caller, Ticket>, c: Caller, s': State)
    requires Guarded(s, own) && c in own && own[c].id in s.ready
    requires s'.queue == s.queue && s'.ready == s.ready - {own[c].id}
    ensures Guarded(s', own - {c})
  {
    assert Pending(s, own[c]);
    hide Guarded;
    DepartureKeepsGuards(s, own, c, s');
  }

  /** The guard of a queued waiter ends with it. */
  lemma EndQueued(s: State, own: map<Caller, Ticket>, c: Caller, s': State)
    requires Guarded(s, own) && DistinctIds(s) && c in own && own[c].id !in s.ready
    requires s'.queue == RemoveId(s.queue, own[c].id) && s'.ready == s.ready
    ensures Guarded(s', own - {c})
  {
    assert Pending(s, own[c]);
    hide Guarded, RemoveId;
    forall t ensures t in s'.queue <==> t in s.queue && t != own[c] {
      QueueLoses(s.queue, own[c], t);
    }
    DepartureKeepsGuards(s, own, c, s');
  }

  lemma SameWaiters(s: State, own: map<Caller, Ticket>, s': State)
    requires Guarded(s, own) && s'.queue == s.queue && s'.ready == s.ready
    ensures Guarded(s', own)
  {
  }

  lemma StepKeepsGuards(cfg: Config, s: State, own: map<Caller, Ticket>, c: Caller, x: Action)
    requires Inv(cfg, s) && Enabled(s, x) && Guarded(s, own) && Allowed(own, c, x)
    ensures Guarded(Apply(cfg, s, x), OwnAfter(cfg, s, own, c, x))
  {
    hide Guarded, Promote, WithinCaps, WorkConserving, FifoOrdered, DistinctIds, HasRoom;
    var s' := Apply(cfg, s, x);
    if FreesSlot(s, x) {
      FreedKeepsOrder(cfg, s, x);
      if x.Drop? {
        SameWaiters(s, own, Freed(s, x));
      } else {
        EndAdmitted(s, own, c, Freed(s, x));
      }
      PromoteKeepsGuards(cfg, Freed(s, x), OwnAfter(cfg, s, own, c, x), x.now);
    } else if Parks(cfg, s, x) {
      ParkKeepsGuards(s, own, c, Ticket(x.id, x.address, x.urgency, s.nextSeq, x.now), s');
    } else if x.Collect? && x.id in s.ready {
      EndAdmitted(s, own, c, s');
    } else if x.Cancel? {
      EndQueued(s, own, c, s');
    } else {
      SameWaiters(s, own, s');
    }
  }

  // -------------------------------------------------------------------------- whole runs

  lemma NoGuards()
    ensures Guarded(INITIAL, map[])
  {
  }

  /** In every reachable state each live guard's key names its own caller's waiter. */
  lemma {:induction false} GuardsNameTheirWaiters(cfg: Config, g: GuardedRun, k: nat)
    requires IsGuardedRun(cfg, g) && k < |g.own|
    ensures Guarded(g.run.states[k], g.own[k])
  {
    hide Guarded, Apply, OwnAfter, Allowed, Inv;
    if k == 0 {
      NoGuards();
    } else {
      GuardsNameTheirWaiters(cfg, g, k - 1);
      EveryRunKeepsInv(cfg, g.run, k - 1);
      assert Step(cfg, g.run.states[k - 1], g.run.actions[k - 1], g.run.states[k - 1 + 1]);
      StepKeepsGuards(cfg, g.run.states[k - 1], g.own[k - 1], g.callers[k - 1], g.run.actions[k - 1]);
    }
  }

  lemma CanceledIsGone(s': State, own: map<Caller, Ticket>, c: Caller, own': map<Caller, Ticket>)
    requires Guarded(s', own') && own' == own - {c} && c in own
    requires forall d, e :: d in own && e in own && own[d].id == own[e].id ==> d == e
    ensures own[c] !in s'.queue
  {
  }

  /**
   * What a caller does through its guard concerns its own waiter alone: it collects a permit for
   * the address it asked for, or ends its own wait, and every other caller still has its waiter.
   */
  lemma CallersTouchOnlyTheirOwn(cfg: Config, g: GuardedRun, k: nat, d: Caller)
    requires IsGuardedRun(cfg, g) && k < |g.callers|
    ensures var s, s', c, x := g.run.states[k], g.run.states[k + 1], g.callers[k], g.run.actions[k];
            && (x.Collect? && x.id in s.ready ==> s'.permits == s.permits + multiset{g.own[k][c].address})
            && (x.Collect? || x.Cancel? ==> c in g.own[k] && Pending(s, g.own[k][c]))
            && (x.Cancel? ==> g.own[k][c] !in s'.queue)
            && (d != c && d in g.own[k] ==> d in g.own[k + 1] && g.own[k + 1][d] == g.own[k][d] && Pending(s', g.own[k][d]))
  {
    GuardsNameTheirWaiters(cfg, g, k);
    GuardsNameTheirWaiters(cfg, g, k + 1);
    var s, s', c, x := g.run.states[k], g.run.states[k + 1], g.callers[k], g.run.actions[k];
    assert Step(cfg, s, x, s');
    assert Allowed(g.own[k], c, x) && g.own[k + 1] == OwnAfter(cfg, s, g.own[k], c, x);
    hide IsRun, Promote, HasRoom;
    if x.Cancel? {
      CanceledIsGone(s', g.own[k], c, g.own[k + 1]);
    }
  }
}
