/** What one turn of a publish loop counts, in numbers. */
module PublishCounts {
  import opened ProtocolBase
  import opened MqttPublishing

  /** The message is handed over. */
  predicate Arrives(m: Message) { m.renders && m.outcome.Delivered? }

  /**
   A turn hands over its messages up to the first that does not arrive, each a
   request and a success. A topic that does not render is a request and an error; a
   publish that fails is two of each, as is told twice. The rest is not tried.
   */
  lemma {:induction false} TurnCounts(s: DeviceStats, messages: seq<Message>) returns (k: nat)
    ensures k <= |messages| && forall i :: 0 <= i < k ==> Arrives(messages[i])
    ensures k < |messages| ==> !Arrives(messages[k])
    ensures var after := AfterTurn(s, Send(messages));
      var extra := if k == |messages| then 0 else if !messages[k].renders then 1 else 2;
      after == DeviceStats(s.requests + k + extra, s.successes + k, s.errors + extra)
    decreases |messages|
  {
    k := 0;
    if messages != [] && Arrives(messages[0]) {
      var rest := TurnCounts(s.(requests := s.requests + 1, successes := s.successes + 1), messages[1..]);
      k := rest + 1;
      assert forall i :: 1 <= i < k ==> messages[i] == messages[1..][i - 1];
    }
  }

  /** A dropped or skipped turn is one request and one error. */
  lemma NoTurnCounts(s: DeviceStats, turn: Turn)
    requires !turn.Send?
    ensures AfterTurn(s, turn) == DeviceStats(s.requests + 1, s.successes, s.errors + 1)
  {
  }

  /** The single steps of interleaved loops, in numbers. */
  lemma StepCounts(l: Ledger, step: Step)
    requires Possible(l, step)
    ensures var s, after := l.stats, Stepped(l, step).stats;
      match step
      case Refuse(_) => after == DeviceStats(s.requests + 1, s.successes, s.errors + 1)
      case Begin(_) => after == DeviceStats(s.requests + 1, s.successes, s.errors)
      case Deliver(_) => after == DeviceStats(s.requests, s.successes + 1, s.errors)
      case Fail(_) => after == DeviceStats(s.requests + 1, s.successes, s.errors + 2)
      case Cancel(_) => after == s
    ensures Stepped(l, step).inFlight == if step.Begin? then l.inFlight + {step.task} else l.inFlight - {step.task}
    ensures Stepped(l, step).abandoned
         == l.abandoned + if step.Cancel? && step.task in l.inFlight then 1 else 0
  {
    if step.Cancel? && step.task !in l.inFlight {
      assert l.inFlight - {step.task} == l.inFlight;
    }
    if step.Refuse? {
      assert l.inFlight - {step.task} == l.inFlight;
    }
  }
}
