/**
 * Racing the routes of a plan: route tasks report over one channel, the first success wins,
 * and every route gets its verdict. The channel's contents are an input.
 */
module DialRace {
  import opened Wrappers

  datatype Stage = Tcp | Tls | ProtocolBinding | ProxyTunnel

  /** A route's error: the stage it came from, and whether other routes may still be tried. */
  datatype RouteError = RouteError(stage: Stage, retryable: bool)

  datatype AttemptState = Pending | Running | Won | Failed(stage: Stage) | Lost(winner: nat)

  datatype Message = Started(route: nat) | Finished(route: nat, result: Result<(), RouteError>)

  datatype Reason = Canceled | ConnectFailed | TlsFailed | ProtocolFailed | ProxyFailed

  datatype Event = RaceStart(route: nat) | RaceWon(route: nat) | RaceLost(route: nat, reason: Reason)

  /** `Exhausted(None)` when no route reported an error. */
  datatype Outcome = Connected(winner: nat) | Fatal(error: RouteError) | Exhausted(last: Option<RouteError>)

  function LossReason(stage: Stage): Reason {
    match stage
    case Tcp => ConnectFailed
    case Tls => TlsFailed
    case ProtocolBinding => ProtocolFailed
    case ProxyTunnel => ProxyFailed
  }

  // ---------------------------------------------------------------------- connect plan

  function Promoted(state: AttemptState, i: nat, winner: nat): AttemptState {
    if i == winner then Won else if state.Pending? || state.Running? then Lost(winner) else state
  }

  class ConnectPlan {
    var attempts: seq<AttemptState>

    constructor (routes: nat)
      ensures attempts == seq(routes, _ => Pending)
    {
      attempts := seq(routes, _ => Pending);
    }

    method Transition(index: nat, state: AttemptState) returns (known: bool)
      modifies this
      ensures known == (index < |old(attempts)|)
      ensures attempts == if known then old(attempts)[index := state] else old(attempts)
    {
      if index >= |attempts| {
        return false;
      }
      attempts := attempts[index := state];
      return true;
    }

    /** Everyone still in the race loses it to the winner. */
    method PromoteWinner(winner: nat) returns (known: bool)
      modifies this
      ensures known == (winner < |old(attempts)|) && |attempts| == |old(attempts)|
      ensures !known ==> attempts == old(attempts)
      ensures known ==> forall i :: 0 <= i < |attempts| ==> attempts[i] == Promoted(old(attempts)[i], i, winner)
    {
      known := Transition(winner, Won);
      if !known {
        return;
      }
      for i := 0 to |attempts|
        invariant |attempts| == |old(attempts)|
        invariant forall j :: 0 <= j < i ==> attempts[j] == Promoted(old(attempts)[j], j, winner)
        invariant forall j :: i <= j < |attempts| ==> attempts[j] == if j == winner then Won else old(attempts)[j]
      {
        if i != winner && (attempts[i].Pending? || attempts[i].Running?) {
          attempts := attempts[i := Lost(winner)];
        }
      }
    }
  }

  // -------------------------------------------------------------------- message histories

  /** What the messages so far say about a route. */
  function Heard(messages: seq<Message>, route: nat): AttemptState {
    if messages == [] then Pending
    else
      var last := messages[|messages| - 1];
      if last.route != route then Heard(messages[..|messages| - 1], route)
      else match last
        case Started(_) => Running
        case Finished(_, Success(_)) => Won
        case Finished(_, Failure(e)) => Failed(e.stage)
  }

  lemma HeardSnoc(messages: seq<Message>, k: nat, route: nat)
    requires k < |messages|
    ensures Heard(messages[..k + 1], route) ==
            if messages[k].route != route then Heard(messages[..k], route)
            else if messages[k].Started? then Running
            else if messages[k].result.Success? then Won
            else Failed(messages[k].result.error.stage)
  {
    assert messages[..k + 1][..k] == messages[..k];
  }

  /** A route is pending until its first message; after that its last message says where it stands. */
  lemma {:induction false} HeardIsLast(messages: seq<Message>, route: nat)
    ensures || (Heard(messages, route) == Pending && forall j :: 0 <= j < |messages| ==> messages[j].route != route)
            || exists k ::
                 && 0 <= k < |messages| && messages[k].route == route
                 && (forall j :: k < j < |messages| ==> messages[j].route != route)
                 && (messages[k].Started? ==> Heard(messages, route) == Running)
                 && (messages[k].Finished? && messages[k].result.Success? ==> Heard(messages, route) == Won)
                 && (messages[k].Finished? && messages[k].result.Failure? ==> Heard(messages, route) == Failed(messages[k].result.error.stage))
  {
    if messages == [] || messages[|messages| - 1].route == route {
    } else {
      var p := messages[..|messages| - 1];
      HeardIsLast(p, route);
      assert forall j :: 0 <= j < |p| ==> p[j] == messages[j];
    }
  }

  /** Each route starts at most once and then finishes at most once. */
  predicate WellOrdered(messages: seq<Message>, routes: nat) {
    forall k :: 0 <= k < |messages| ==>
      && messages[k].route < routes
      && Heard(messages[..k], messages[k].route) == if messages[k].Started? then Pending else Running
  }

  predicate Decisive(m: Message) {
    m.Finished? && (m.result.Success? || !m.result.error.retryable)
  }

  predicate IsFailure(m: Message) {
    m.Finished? && m.result.Failure?
  }

  /** The last error among the messages. */
  function LastError(messages: seq<Message>): Option<RouteError> {
    if messages == [] then None
    else if IsFailure(messages[|messages| - 1]) then Some(messages[|messages| - 1].result.error)
    else LastError(messages[..|messages| - 1])
  }

  lemma {:induction false} EarlierIsStart(messages: seq<Message>, routes: nat, j: nat, k: nat)
    requires WellOrdered(messages, routes) && j < k < |messages| && messages[j].route == messages[k].route
    ensures messages[j].Started? && messages[k].Finished?
    decreases k
  {
    hide Heard;
    HeardIsLast(messages[..k], messages[k].route);
    assert messages[..k][j] == messages[j];
    var i :| 0 <= i < k && messages[..k][i].route == messages[k].route
             && (forall x :: i < x < k ==> messages[..k][x].route != messages[k].route)
             && (messages[..k][i].Started? <==> Heard(messages[..k], messages[k].route) == Running);
    assert messages[i] == messages[..k][i];
    if i == j {
    } else {
      assert j < i by { assert messages[..k][j].route == messages[k].route; }
      EarlierIsStart(messages, routes, j, i);
    }
  }

  /** The order of messages, told pair by pair: a finish comes after a start of its route, and nothing else is repeated. */
  lemma OrderIsPairwise(messages: seq<Message>, routes: nat)
    ensures WellOrdered(messages, routes) ==>
            forall j, k :: 0 <= j < k < |messages| && messages[j].route == messages[k].route ==>
              messages[j].Started? && messages[k].Finished?
    ensures WellOrdered(messages, routes) ==>
            forall k :: 0 <= k < |messages| && messages[k].Finished? ==>
              exists j :: 0 <= j < k && messages[j] == Started(messages[k].route)
  {
    if WellOrdered(messages, routes) {
      hide Heard;
      forall j, k | 0 <= j < k < |messages| && messages[j].route == messages[k].route
        ensures messages[j].Started? && messages[k].Finished?
      {
        EarlierIsStart(messages, routes, j, k);
      }
      forall k | 0 <= k < |messages| && messages[k].Finished?
        ensures exists j :: 0 <= j < k && messages[j] == Started(messages[k].route)
      {
        HeardIsLast(messages[..k], messages[k].route);
        var j :| 0 <= j < k && messages[..k][j].route == messages[k].route && messages[..k][j].Started?;
        assert messages[j] == messages[..k][j];
      }
    }
  }

  /** The last error is that of the last failure. */
  lemma {:induction false} LastErrorIs(messages: seq<Message>)
    ensures match LastError(messages)
            case None => forall k :: 0 <= k < |messages| && messages[k].Finished? ==> messages[k].result.Success?
            case Some(e) => exists k ::
              && 0 <= k < |messages| && messages[k].Finished? && messages[k].result == Failure(e)
              && forall j :: k < j < |messages| && messages[j].Finished? ==> messages[j].result.Success?
  {
    if messages == [] || IsFailure(messages[|messages| - 1]) {
    } else {
      var p := messages[..|messages| - 1];
      LastErrorIs(p);
      assert forall j :: 0 <= j < |p| ==> p[j] == messages[j];
    }
  }

  // ------------------------------------------------------------------------------ events

  function Losses(events: seq<Event>, route: nat): nat {
    if events == [] then 0
    else
      var e := events[|events| - 1];
      Losses(events[..|events| - 1], route) + if e.RaceLost? && e.route == route then 1 else 0
  }

  function Starts(events: seq<Event>, route: nat): nat {
    if events == [] then 0
    else
      var e := events[|events| - 1];
      Starts(events[..|events| - 1], route) + if e == RaceStart(route) then 1 else 0
  }

  function Wins(events: seq<Event>): nat {
    if events == [] then 0
    else Wins(events[..|events| - 1]) + if events[|events| - 1].RaceWon? then 1 else 0
  }

  lemma Emit(events: seq<Event>, e: Event)
    ensures forall r :: Losses(events + [e], r) == Losses(events, r) + if e.RaceLost? && e.route == r then 1 else 0
    ensures forall r :: Starts(events + [e], r) == Starts(events, r) + if e == RaceStart(r) then 1 else 0
    ensures Wins(events + [e]) == Wins(events) + if e.RaceWon? then 1 else 0
  {
    assert (events + [e])[..|events|] == events;
  }

  /** The reasons given for losses match the routes' states. */
  predicate ReasonsMatch(events: seq<Event>, attempts: seq<AttemptState>) {
    forall e :: e in events && e.RaceLost? && e.route < |attempts| ==>
      match attempts[e.route]
      case Failed(Tcp) => e.reason == ConnectFailed
      case Failed(Tls) => e.reason == TlsFailed
      case Failed(ProtocolBinding) => e.reason == ProtocolFailed
      case Failed(ProxyTunnel) => e.reason == ProxyFailed
      case Lost(_) => e.reason == Canceled
      case _ => false
  }

  /** While nothing is decided: states and events are what the messages say. */
  predicate Racing(messages: seq<Message>, routes: nat, attempts: seq<AttemptState>, events: seq<Event>) {
    && |attempts| == routes
    && (forall r :: 0 <= r < routes ==> attempts[r] == Heard(messages, r) && !attempts[r].Won? && !attempts[r].Lost?)
    && (forall r :: 0 <= r < routes ==> Losses(events, r) == if attempts[r].Failed? then 1 else 0)
    && (forall r :: 0 <= r < routes ==> Starts(events, r) == if attempts[r].Pending? then 0 else 1)
    && Wins(events) == 0
    && ReasonsMatch(events, attempts)
  }

  /** After a win: one win, one loss for everyone else, nobody left in the race. */
  predicate Settled(messages: seq<Message>, routes: nat, attempts: seq<AttemptState>, events: seq<Event>, winner: nat) {
    && |attempts| == routes && winner < routes && attempts[winner] == Won
    && Wins(events) == 1 && RaceWon(winner) in events && Losses(events, winner) == 0
    && (forall r :: 0 <= r < routes && r != winner ==>
          && Losses(events, r) == 1
          && attempts[r] == if Heard(messages, r).Failed? then Heard(messages, r) else Lost(winner))
    && ReasonsMatch(events, attempts)
  }

  // ---------------------------------------------------------------------- settling a win

  method EmitCanceledLossIfNeeded(plan: ConnectPlan, winner: nat, route: nat, canceled: array<bool>, events: seq<Event>)
    returns (events': seq<Event>)
    requires route < canceled.Length == |plan.attempts|
    modifies plan, canceled
    ensures |plan.attempts| == |old(plan.attempts)|
    ensures var s := old(plan.attempts)[route];
            if route == winner || old(canceled[route]) || !(s.Pending? || s.Running? || s == Lost(winner))
            then events' == events && plan.attempts == old(plan.attempts) && canceled[..] == old(canceled[..])
            else && events' == events + [RaceLost(route, Canceled)]
                 && plan.attempts == old(plan.attempts)[route := Lost(winner)]
                 && canceled[..] == old(canceled[..])[route := true]
  {
    events' := events;
    if route == winner || canceled[route] {
      return;
    }
    var emit := false;
    match plan.attempts[route] {
      case Pending => { var _ := plan.Transition(route, Lost(winner)); emit := true; }
      case Running => { var _ := plan.Transition(route, Lost(winner)); emit := true; }
      case Lost(current) => emit := current == winner;
      case _ =>
    }
    if emit {
      canceled[route] := true;
      events' := events + [RaceLost(route, Canceled)];
    }
  }

  lemma CanceledReasonMatches(events: seq<Event>, attempts: seq<AttemptState>, i: nat)
    requires ReasonsMatch(events, attempts) && i < |attempts| && attempts[i].Lost?
    ensures ReasonsMatch(events + [RaceLost(i, Canceled)], attempts)
  {
  }

  /** One more loss, with a reason, for each route that lost to the winner. */
  method CleanupLosers(plan: ConnectPlan, winner: nat, events: seq<Event>) returns (events': seq<Event>)
    requires forall r :: 0 <= r < |plan.attempts| && r != winner ==> plan.attempts[r].Failed? || plan.attempts[r] == Lost(winner)
    requires forall r :: 0 <= r < |plan.attempts| && plan.attempts[r].Lost? ==> r != winner && Losses(events, r) == 0
    requires ReasonsMatch(events, plan.attempts)
    modifies plan
    ensures plan.attempts == old(plan.attempts)
    ensures Wins(events') == Wins(events) && (forall e :: e in events ==> e in events')
    ensures forall r :: 0 <= r < |plan.attempts| ==>
              Losses(events', r) == if plan.attempts[r].Lost? then 1 else Losses(events, r)
    ensures ReasonsMatch(events', plan.attempts)
  {
    hide Losses, Wins, Starts, ReasonsMatch;
    var routes := |plan.attempts|;
    var canceled := new bool[routes](_ => false);
    events' := events;
    for i := 0 to routes
      invariant plan.attempts == old(plan.attempts)
      invariant forall r :: i <= r < routes ==> !canceled[r]
      invariant Wins(events') == Wins(events) && (forall e :: e in events ==> e in events')
      invariant forall r :: 0 <= r < routes ==>
                  Losses(events', r) == if r < i && plan.attempts[r].Lost? then 1 else Losses(events, r)
      invariant ReasonsMatch(events', plan.attempts)
    {
      Emit(events', RaceLost(i, Canceled));
      if plan.attempts[i].Lost? {
        CanceledReasonMatches(events', plan.attempts, i);
      }
      ghost var before := canceled[..];
      events' := EmitCanceledLossIfNeeded(plan, winner, i, canceled, events');
      assert forall r :: i < r < routes ==> canceled[r] == canceled[..][r] == before[r];
    }
  }

  // --------------------------------------------------------------------------- the race

  /** The position of the first decisive message from `i` on; the end if there is none. */
  function FirstDecisive(messages: seq<Message>, i: nat): (k: nat)
    requires i <= |messages|
    ensures i <= k <= |messages| && (k < |messages| ==> Decisive(messages[k]))
    ensures forall j :: i <= j < k ==> !Decisive(messages[j])
    decreases |messages| - i
  {
    if i == |messages| || Decisive(messages[i]) then i else FirstDecisive(messages, i + 1)
  }

  /** Until `k` nothing finished but with errors after which other routes may be tried. */
  predicate OnlyPassingBefore(messages: seq<Message>, k: nat)
    requires k <= |messages|
  {
    forall j :: 0 <= j < k && messages[j].Finished? ==> messages[j].result.Failure? && messages[j].result.error.retryable
  }

  lemma FirstDecisiveIs(messages: seq<Message>, k: nat)
    requires k <= |messages| && OnlyPassingBefore(messages, k)
    ensures FirstDecisive(messages, 0) >= k
    ensures k < |messages| && messages[k].Finished? && (messages[k].result.Success? || !messages[k].result.error.retryable) ==>
              FirstDecisive(messages, 0) == k
  {
  }

  lemma StartRecorded(messages: seq<Message>, k: nat, routes: nat, attempts: seq<AttemptState>, events: seq<Event>)
    requires WellOrdered(messages, routes) && k < |messages| && messages[k].Started?
    requires Racing(messages[..k], routes, attempts, events)
    ensures Racing(messages[..k + 1], routes, attempts[messages[k].route := Running], events + [RaceStart(messages[k].route)])
  {
    hide Heard, Losses, Starts, Wins;
    var route := messages[k].route;
    var attempts', events' := attempts[route := Running], events + [RaceStart(route)];
    Emit(events, RaceStart(route));
    forall r | 0 <= r < routes ensures attempts'[r] == Heard(messages[..k + 1], r) {
      HeardSnoc(messages, k, r);
    }
  }

  lemma FailureRecorded(messages: seq<Message>, k: nat, routes: nat, attempts: seq<AttemptState>, events: seq<Event>)
    requires WellOrdered(messages, routes) && k < |messages| && IsFailure(messages[k])
    requires Racing(messages[..k], routes, attempts, events)
    ensures var stage := messages[k].result.error.stage;
            Racing(messages[..k + 1], routes, attempts[messages[k].route := Failed(stage)],
                   events + [RaceLost(messages[k].route, LossReason(stage))])
  {
    hide Heard, Losses, Starts, Wins;
    var route, stage := messages[k].route, messages[k].result.error.stage;
    var attempts', events' := attempts[route := Failed(stage)], events + [RaceLost(route, LossReason(stage))];
    Emit(events, RaceLost(route, LossReason(stage)));
    forall r | 0 <= r < routes ensures attempts'[r] == Heard(messages[..k + 1], r) {
      HeardSnoc(messages, k, r);
    }
  }

  lemma NextError(messages: seq<Message>, k: nat)
    requires k < |messages|
    ensures LastError(messages[..k + 1]) == if IsFailure(messages[k]) then Some(messages[k].result.error) else LastError(messages[..k])
  {
    assert messages[..k + 1][..k] == messages[..k];
  }

  /** Settles the race for the route whose success was just received. */
  method Win(plan: ConnectPlan, ghost messages: seq<Message>, winner: nat, events: seq<Event>) returns (events': seq<Event>)
    requires Racing(messages, |plan.attempts|, plan.attempts, events)
    requires winner < |plan.attempts| && Heard(messages, winner).Running?
    modifies plan
    ensures Settled(messages, |old(plan.attempts)|, plan.attempts, events', winner)
  {
    hide Heard, Losses, Starts, Wins;
    var known := plan.PromoteWinner(winner);
    var won := RaceWon(winner);
    Emit(events, won);
    events' := CleanupLosers(plan, winner, events + [won]);
  }

  lemma NothingHeard(routes: nat)
    ensures Racing([], routes, seq(routes, _ => Pending), []) && LastError([]) == None
  {
  }

  lemma AllRoutes(messages: seq<Message>, routes: nat, attempts: seq<AttemptState>, events: seq<Event>)
    requires Racing(messages, routes, attempts, events)
    ensures |attempts| == routes
  {
  }

  /**
   * The receive loop. On success the first decisive message was the winner's, and the race
   * is settled; otherwise nobody won and only failed routes were reported lost.
   */
  method DialRoutePlan(routes: nat, messages: seq<Message>)
    returns (outcome: Outcome, attempts: seq<AttemptState>, events: seq<Event>)
    requires WellOrdered(messages, routes)
    ensures var k := FirstDecisive(messages, 0);
            if k == |messages| then outcome == Exhausted(LastError(messages)) && Racing(messages, routes, attempts, events)
            else match messages[k].result
              case Success(_) =>
                outcome == Connected(messages[k].route) && Settled(messages[..k], routes, attempts, events, messages[k].route)
              case Failure(error) => outcome == Fatal(error) && Racing(messages[..k + 1], routes, attempts, events)
    ensures forall k :: 0 <= k < |messages| && messages[k].Finished? && OnlyPassingBefore(messages, k) ==>
              && (messages[k].result.Success? ==> outcome == Connected(messages[k].route))
              && (messages[k].result.Failure? && !messages[k].result.error.retryable ==> outcome == Fatal(messages[k].result.error))
    ensures OnlyPassingBefore(messages, |messages|) ==> outcome.Exhausted?
  {
    hide Racing, Settled, Heard, LastError;
    forall k | 0 <= k <= |messages| && OnlyPassingBefore(messages, k)
      ensures FirstDecisive(messages, 0) >= k
      ensures k < |messages| && messages[k].Finished? && (messages[k].result.Success? || !messages[k].result.error.retryable) ==>
                FirstDecisive(messages, 0) == k
    {
      FirstDecisiveIs(messages, k);
    }
    var plan := new ConnectPlan(routes);
    events := [];
    NothingHeard(routes);
    assert messages[..0] == [];
    if routes == 0 {
      assert messages == [];
      return Exhausted(None), plan.attempts, events;
    }
    var last: Option<RouteError> := None;
    for i := 0 to |messages|
      invariant FirstDecisive(messages, 0) == FirstDecisive(messages, i)
      invariant last == LastError(messages[..i]) && fresh(plan)
      invariant Racing(messages[..i], routes, plan.attempts, events)
    {
      AllRoutes(messages[..i], routes, plan.attempts, events);
      NextError(messages, i);
      match messages[i] {
        case Started(route) => {
          StartRecorded(messages, i, routes, plan.attempts, events);
          var _ := plan.Transition(route, Running);
          events := events + [RaceStart(route)];
        }
        case Finished(route, Success(_)) => {
          events := Win(plan, messages[..i], route, events);
          return Connected(route), plan.attempts, events;
        }
        case Finished(route, Failure(error)) => {
          FailureRecorded(messages, i, routes, plan.attempts, events);
          var _ := plan.Transition(route, Failed(error.stage));
          events := events + [RaceLost(route, LossReason(error.stage))];
          if !error.retryable {
            return Fatal(error), plan.attempts, events;
          }
          last := Some(error);
        }
      }
    }
    assert messages[..|messages|] == messages;
    return Exhausted(last), plan.attempts, events;
  }
}
