/** A manager walking the MIB with GETNEXT, one answer after the other. */
module SnmpWalk {
  import opened Prelude
  import opened Oids
  import opened SnmpAgent
  import opened SnmpHistories

  /** What a client collects by asking for the OID after each answer, and the last reply. */
  function Walk(agent: Agent, world: World, oid: Oid): (r: (seq<Reply>, Reply))
    requires StrictlySorted(agent.sortedOids)
    decreases |agent.sortedOids| - FirstAbove(agent.sortedOids, oid)
  {
    var reply := NextReply(agent, world, oid);
    if reply.Value? then
      WalkProgress(agent, world, oid);
      var (rest, end) := Walk(agent, world, reply.oid);
      ([reply] + rest, end)
    else ([], reply)
  }

  lemma WalkProgress(agent: Agent, world: World, oid: Oid)
    requires StrictlySorted(agent.sortedOids)
    requires NextReply(agent, world, oid).Value?
    ensures FirstAbove(agent.sortedOids, NextReply(agent, world, oid).oid) > FirstAbove(agent.sortedOids, oid)
  {
    var s := agent.sortedOids;
    var j :| FirstAbove(s, oid) <= j < |s| && s[j] == NextReply(agent, world, oid).oid;
    FirstAboveMember(s, j);
  }

  /** The replies for all OIDs of the cache from position k on that have a value. */
  function Answers(agent: Agent, world: World, k: nat): seq<Reply>
    requires k <= |agent.sortedOids|
    decreases |agent.sortedOids| - k
  {
    if k == |agent.sortedOids| then []
    else
      match Resolve(agent, world, agent.sortedOids[k])
      case Some((value, dataType)) =>
        [Value(agent.sortedOids[k], value, dataType)] + Answers(agent, world, k + 1)
      case None => Answers(agent, world, k + 1)
  }

  /** Without an `exception` fault, a walk collects the answers in cache order. */
  lemma {:induction false} WalkIsAnswers(agent: Agent, world: World, oid: Oid, k: nat)
    requires StrictlySorted(agent.sortedOids) && k == FirstAbove(agent.sortedOids, oid)
    requires forall o <- agent.sortedOids :: !Faulted(agent, world, o)
    ensures Walk(agent, world, oid) == (Answers(agent, world, k), EndOfMibView)
    decreases |agent.sortedOids| - k
  {
    var j := NextStop(agent, world, k);
    if j < |agent.sortedOids| {
      FirstAboveMember(agent.sortedOids, j);
      WalkIsAnswers(agent, world, agent.sortedOids[j], j + 1);
    }
  }

  /** The scan from k stops at j: the end, or the first OID with a value. */
  ghost predicate StopsAt(agent: Agent, world: World, k: nat, j: nat)
    requires k <= j <= |agent.sortedOids|
  {
    var found := ScanFrom(agent, world, k);
    if j == |agent.sortedOids| then found == EndOfMibView && Answers(agent, world, k) == []
    else
      && found.Value? && found.oid == agent.sortedOids[j]
      && Answers(agent, world, k) == [found] + Answers(agent, world, j + 1)
  }

  lemma {:induction false} NextStop(agent: Agent, world: World, k: nat) returns (j: nat)
    requires k <= |agent.sortedOids|
    requires forall o <- agent.sortedOids :: !Faulted(agent, world, o)
    ensures k <= j <= |agent.sortedOids| && StopsAt(agent, world, k, j)
    decreases |agent.sortedOids| - k
  {
    j := k;
    if k < |agent.sortedOids| {
      assert agent.sortedOids[k] in agent.sortedOids;
      if Resolve(agent, world, agent.sortedOids[k]).None? {
        j := NextStop(agent, world, k + 1);
      }
    }
  }

  ghost predicate AscendingReplies(replies: seq<Reply>) {
    && (forall i :: 0 <= i < |replies| ==> replies[i].Value?)
    && forall i, j :: 0 <= i < j < |replies| ==> Less(replies[i].oid, replies[j].oid)
  }

  /** Each reply is the current value of one of the OIDs. */
  ghost predicate CurrentReplies(agent: Agent, world: World, replies: seq<Reply>, oids: set<Oid>) {
    forall r <- replies :: r.Value? && r.oid in oids && Resolve(agent, world, r.oid) == Some((r.value, r.dataType))
  }

  /** Every one of the OIDs that has a value is answered. */
  ghost predicate AllAnswered(agent: Agent, world: World, replies: seq<Reply>, oids: set<Oid>) {
    forall o <- oids :: Resolve(agent, world, o).Some? ==> exists r :: r in replies && r.Value? && r.oid == o
  }

  lemma {:induction false} AnswersAreCurrent(agent: Agent, world: World, k: nat)
    requires k <= |agent.sortedOids|
    ensures CurrentReplies(agent, world, Answers(agent, world, k), Members(agent.sortedOids[k..]))
    decreases |agent.sortedOids| - k
  {
    if k < |agent.sortedOids| {
      AnswersAreCurrent(agent, world, k + 1);
      assert agent.sortedOids[k..] == [agent.sortedOids[k]] + agent.sortedOids[k + 1..];
    }
  }

  lemma {:induction false} AnswersAscend(agent: Agent, world: World, k: nat)
    requires StrictlySorted(agent.sortedOids) && k <= |agent.sortedOids|
    ensures AscendingReplies(Answers(agent, world, k))
    decreases |agent.sortedOids| - k
  {
    if k < |agent.sortedOids| {
      AnswersAscend(agent, world, k + 1);
      AnswersAreCurrent(agent, world, k + 1);
      var tail := Answers(agent, world, k + 1);
      forall i | 0 <= i < |tail|
        ensures Less(agent.sortedOids[k], tail[i].oid)
      {
        assert tail[i] in tail && tail[i].oid in Members(agent.sortedOids[k + 1..]);
      }
    }
  }

  lemma {:induction false} AnswersAnswerAll(agent: Agent, world: World, k: nat)
    requires k <= |agent.sortedOids|
    ensures AllAnswered(agent, world, Answers(agent, world, k), Members(agent.sortedOids[k..]))
    decreases |agent.sortedOids| - k
  {
    if k < |agent.sortedOids| {
      AnswersAnswerAll(agent, world, k + 1);
      var tail, all := Answers(agent, world, k + 1), Answers(agent, world, k);
      assert agent.sortedOids[k..] == [agent.sortedOids[k]] + agent.sortedOids[k + 1..];
      forall o | o in Members(agent.sortedOids[k..]) && Resolve(agent, world, o).Some?
        ensures exists r :: r in all && r.Value? && r.oid == o
      {
        if o == agent.sortedOids[k] {
          assert all[0] in all;
        } else {
          assert o in Members(agent.sortedOids[k + 1..]);
          var r :| r in tail && r.Value? && r.oid == o;
          assert r in all;
        }
      }
    }
  }

  /** Every registered OID is above the empty one. */
  lemma {:induction false} HistoriesHaveNoEmptyOid(events: seq<Event>)
    ensures [] !in Run(events).oidMap
  {
    if events != [] {
      var n := |events| - 1;
      HistoriesHaveNoEmptyOid(events[..n]);
      match events[n]
      case Add(device, registers) =>
        InsertedMap(Run(events[..n]), device, registers);
        if [] in OwnedOids(registers) {
          OwnedAppears(registers, []);
        }
      case Remove(device) => RemovedMap(Run(events[..n]), device, []);
      case StopAgent =>
    }
  }

  /**
   A GETNEXT walk from the empty OID, after any history whatsoever and with no `exception`
   fault: every registered OID that has a value, exactly once, ascending, with
   its value, and then the end of the MIB view.
   */
  lemma WalkEnumeratesMib(events: seq<Event>, world: World)
    requires forall o <- Run(events).oidMap :: !Faulted(Run(events), world, o)
    ensures StrictlySorted(Run(events).sortedOids)
    ensures var (replies, end) := Walk(Run(events), world, []);
      && end == EndOfMibView
      && AscendingReplies(replies)
      && CurrentReplies(Run(events), world, replies, Run(events).oidMap.Keys)
      && AllAnswered(Run(events), world, replies, Run(events).oidMap.Keys)
  {
    var agent := Run(events);
    CacheEnumeratesMap(events);
    HistoriesHaveNoEmptyOid(events);
    var s := agent.sortedOids;
    assert FirstAbove(s, []) == 0 by {
      if s != [] {
        assert s[0] in s;
      }
    }
    assert s[0..] == s;
    assert Members(s) == agent.oidMap.Keys;
    WalkIsAnswers(agent, world, [], 0);
    AnswersAreCurrent(agent, world, 0);
    AnswersAscend(agent, world, 0);
    AnswersAnswerAll(agent, world, 0);
  }
}
