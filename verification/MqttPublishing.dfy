/**
 Publish accounting. Two views of it: whole turns of one publish loop, and single
 steps of any number of loops that share a device's counters, with publishes that
 are still in flight or were cancelled in flight.
 */
module MqttPublishing {
  import opened ProtocolBase

  /** How one attempt to hand a message over ends. */
  datatype Outcome = Delivered | Failed

  /** A message of a turn: whether its topic renders, and how handing it over ends. */
  datatype Message = Message(renders: bool, outcome: Outcome)

  /**
   One turn of a publish loop: dropped by a fault, skipped because the broker is
   not connected, or the messages it sets out to send - one for a batch, one per
   register otherwise, none while the simulation has no values.
   */
  datatype Turn = Dropped | NotConnected | Send(messages: seq<Message>)

  function Refused(s: DeviceStats): DeviceStats {
    s.(requests := s.requests + 1, errors := s.errors + 1)
  }

  /** A failing publish counts twice: in `_publish_one`, and where the loop catches it. */
  function Sent(s: DeviceStats, messages: seq<Message>): DeviceStats
    decreases |messages|
  {
    if messages == [] then s
    else if !messages[0].renders then Refused(s)
    else if messages[0].outcome.Failed? then Refused(Refused(s))
    else Sent(s.(requests := s.requests + 1, successes := s.successes + 1), messages[1..])
  }

  function AfterTurn(s: DeviceStats, turn: Turn): DeviceStats {
    match turn
    case Dropped | NotConnected => Refused(s)
    case Send(messages) => Sent(s, messages)
  }

  /** The messages a turn hands over: those before the first that fails. */
  function HandedOver(messages: seq<Message>): nat {
    if messages == [] || !messages[0].renders || messages[0].outcome.Failed? then 0 else 1 + HandedOver(messages[1..])
  }

  function TurnHandedOver(turn: Turn): nat {
    if turn.Send? then HandedOver(turn.messages) else 0
  }

  function TotalHandedOver(turns: seq<Turn>): nat {
    if turns == [] then 0 else TotalHandedOver(turns[..|turns| - 1]) + TurnHandedOver(turns[|turns| - 1])
  }

  predicate Balanced(s: DeviceStats) {
    s.requests == s.successes + s.errors
  }

  lemma {:induction false} SentBalances(s: DeviceStats, messages: seq<Message>)
    ensures var after := Sent(s, messages);
      && after.requests - s.requests == (after.successes - s.successes) + (after.errors - s.errors)
      && after.successes == s.successes + HandedOver(messages)
    decreases |messages|
  {
    if messages != [] && messages[0].renders && messages[0].outcome.Delivered? {
      SentBalances(s.(requests := s.requests + 1, successes := s.successes + 1), messages[1..]);
    }
  }

  /** The counters of one device, as the adapter stores them. */
  class StatsCell {
    var requests: nat
    var successes: nat
    var errors: nat

    constructor ()
      ensures View() == FRESH_STATS
    {
      requests, successes, errors := 0, 0, 0;
    }

    ghost function View(): DeviceStats
      reads this
    {
      DeviceStats(requests, successes, errors)
    }
  }

  /** `_publish_one`; false stands for the exception it raises. */
  method PublishOne(cell: StatsCell, outcome: Outcome) returns (delivered: bool)
    modifies cell
    ensures delivered <==> outcome.Delivered?
    ensures cell.View() == if delivered
      then old(cell.View()).(requests := old(cell.requests) + 1, successes := old(cell.successes) + 1)
      else Refused(old(cell.View()))
  {
    cell.requests := cell.requests + 1;
    delivered := outcome.Delivered?;
    if delivered {
      cell.successes := cell.successes + 1;
    } else {
      cell.errors := cell.errors + 1;
    }
  }

  method CountRefusal(cell: StatsCell)
    modifies cell
    ensures cell.View() == Refused(old(cell.View()))
  {
    cell.requests := cell.requests + 1;
    cell.errors := cell.errors + 1;
  }

  method TakeTurn(cell: StatsCell, turn: Turn)
    modifies cell
    ensures cell.View() == AfterTurn(old(cell.View()), turn)
  {
    if !turn.Send? {
      CountRefusal(cell);
      return;
    }
    var messages := turn.messages;
    var n := 0;
    while n < |messages|
      invariant n <= |messages|
      invariant Sent(cell.View(), messages[n..]) == Sent(old(cell.View()), messages)
    {
      assert messages[n..][1..] == messages[n + 1..];
      if !messages[n].renders {
        CountRefusal(cell);
        return;
      }
      var delivered := PublishOne(cell, messages[n].outcome);
      if !delivered {
        CountRefusal(cell);
        return;
      }
      n := n + 1;
    }
  }

  /**
   A publish loop that is not cancelled inside a publish: at the head of every
   turn each request has been counted as a success or an error, and the successes
   are the messages handed over.
   */
  method PublishLoop(cell: StatsCell, turns: seq<Turn>)
    requires Balanced(cell.View())
    modifies cell
    ensures Balanced(cell.View())
    ensures cell.successes == old(cell.successes) + TotalHandedOver(turns)
  {
    for n := 0 to |turns|
      invariant Balanced(cell.View())
      invariant cell.successes == old(cell.successes) + TotalHandedOver(turns[..n])
    {
      ghost var before := cell.View();
      TakeTurn(cell, turns[n]);
      if turns[n].Send? {
        SentBalances(before, turns[n].messages);
      }
      assert turns[..n + 1][..n] == turns[..n];
    }
    assert turns[..|turns|] == turns;
  }

  // --- Loops that share a device's counters ---

  type TaskId = int

  datatype Step =
    | Refuse(task: TaskId)
    | Begin(task: TaskId)
    | Deliver(task: TaskId)
    | Fail(task: TaskId)
    | Cancel(task: TaskId)

  /** The shared counters, the publishes in flight, and what became of the others. */
  datatype Ledger = Ledger(stats: DeviceStats, inFlight: set<TaskId>, abandoned: nat, handedOver: nat)

  const OPENING := Ledger(FRESH_STATS, {}, 0, 0)

  /** A task publishes one message at a time, and finishes only what it began. */
  predicate Possible(l: Ledger, s: Step) {
    match s
    case Refuse(t) => t !in l.inFlight
    case Begin(t) => t !in l.inFlight
    case Deliver(t) => t in l.inFlight
    case Fail(t) => t in l.inFlight
    case Cancel(_) => true
  }

  /** A cancelled publish has been counted as a request and will never be counted again. */
  function Stepped(l: Ledger, s: Step): Ledger {
    match s
    case Refuse(_) => l.(stats := Refused(l.stats))
    case Begin(t) => l.(stats := l.stats.(requests := l.stats.requests + 1), inFlight := l.inFlight + {t})
    case Deliver(t) =>
      l.(stats := l.stats.(successes := l.stats.successes + 1),
         inFlight := l.inFlight - {t}, handedOver := l.handedOver + 1)
    case Fail(t) =>
      l.(stats := Refused(l.stats.(errors := l.stats.errors + 1)), inFlight := l.inFlight - {t})
    case Cancel(t) =>
      if t in l.inFlight then l.(inFlight := l.inFlight - {t}, abandoned := l.abandoned + 1) else l
  }

  function Run(steps: seq<Step>): Ledger {
    if steps == [] then OPENING else Stepped(Run(steps[..|steps| - 1]), steps[|steps| - 1])
  }

  ghost predicate PossibleRun(steps: seq<Step>) {
    forall n :: 0 <= n < |steps| ==> Possible(Run(steps[..n]), steps[n])
  }

  /**
   However the loops of a device interleave: every request is a success, an error,
   a publish in flight or one cancelled in flight, and successes are deliveries.
   */
  lemma {:induction false} RequestsAccountedFor(steps: seq<Step>)
    requires PossibleRun(steps)
    ensures var l := Run(steps);
      && l.stats.requests == l.stats.successes + l.stats.errors + |l.inFlight| + l.abandoned
      && l.stats.successes == l.handedOver
  {
    if steps != [] {
      var n := |steps| - 1;
      forall k | 0 <= k < n
        ensures Possible(Run(steps[..n][..k]), steps[..n][k])
      {
        assert steps[..n][..k] == steps[..k];
      }
      RequestsAccountedFor(steps[..n]);
      assert Possible(Run(steps[..n]), steps[n]);
    }
  }

  /** Exactly when the counters of a device balance: nothing is in flight or was abandoned. */
  lemma BalancedExactly(steps: seq<Step>)
    requires PossibleRun(steps)
    ensures Balanced(Run(steps).stats) <==> Run(steps).inFlight == {} && Run(steps).abandoned == 0
  {
    RequestsAccountedFor(steps);
  }

  /** Cancelled in flight, a publish stays counted as a request. */
  lemma CancelledStaysCounted(task: TaskId)
    ensures PossibleRun([Begin(task)] + [Cancel(task)])
    ensures Run([Begin(task)] + [Cancel(task)]).stats == DeviceStats(1, 0, 0)
  {
    var steps := [Begin(task)] + [Cancel(task)];
    assert steps[..0] == [] && steps[..1] == [Begin(task)] && [Begin(task)][..0] == [];
    assert Run(steps[..0]) == OPENING && Run(steps[..1]) == Stepped(OPENING, Begin(task));
  }

  // --- A turn is a run of steps ---

  function StepsOf(task: TaskId, messages: seq<Message>): seq<Step> {
    if messages == [] then []
    else if !messages[0].renders then [Refuse(task)]
    else if messages[0].outcome.Failed? then [Begin(task), Fail(task)]
    else [Begin(task), Deliver(task)] + StepsOf(task, messages[1..])
  }

  function TurnSteps(task: TaskId, turn: Turn): seq<Step> {
    match turn
    case Dropped | NotConnected => [Refuse(task)]
    case Send(messages) => StepsOf(task, messages)
  }

  function RunFrom(l: Ledger, steps: seq<Step>): Ledger
    decreases |steps|
  {
    if steps == [] then l else RunFrom(Stepped(l, steps[0]), steps[1..])
  }

  /** Each step is possible where the steps before it lead. */
  ghost predicate PossibleFrom(l: Ledger, steps: seq<Step>)
    decreases |steps|
  {
    steps != [] ==> Possible(l, steps[0]) && PossibleFrom(Stepped(l, steps[0]), steps[1..])
  }

  /** A turn taken without interruption is its steps, each of them possible. */
  lemma {:induction false} SendIsItsSteps(l: Ledger, task: TaskId, messages: seq<Message>)
    requires task !in l.inFlight
    ensures PossibleFrom(l, StepsOf(task, messages))
    ensures RunFrom(l, StepsOf(task, messages))
         == l.(stats := Sent(l.stats, messages), handedOver := l.handedOver + HandedOver(messages))
    decreases |messages|
  {
    if messages != [] && messages[0].renders {
      var begun := Stepped(l, Begin(task));
      if messages[0].outcome.Failed? {
        assert [Begin(task), Fail(task)][1..] == [Fail(task)];
        assert RunFrom(begun, [Fail(task)]) == Stepped(begun, Fail(task));
      } else {
        var rest := StepsOf(task, messages[1..]);
        var delivered := Stepped(begun, Deliver(task));
        assert delivered == l.(stats := l.stats.(requests := l.stats.requests + 1, successes := l.stats.successes + 1),
          handedOver := l.handedOver + 1);
        SendIsItsSteps(delivered, task, messages[1..]);
        assert ([Begin(task), Deliver(task)] + rest)[1..] == [Deliver(task)] + rest;
        assert ([Deliver(task)] + rest)[1..] == rest;
      }
    }
  }

  lemma TurnIsItsSteps(l: Ledger, task: TaskId, turn: Turn)
    requires task !in l.inFlight
    ensures PossibleFrom(l, TurnSteps(task, turn))
    ensures RunFrom(l, TurnSteps(task, turn))
         == l.(stats := AfterTurn(l.stats, turn), handedOver := l.handedOver + TurnHandedOver(turn))
  {
    if turn.Send? {
      SendIsItsSteps(l, task, turn.messages);
    }
  }
}
