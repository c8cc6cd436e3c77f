/**
 A worker that asks for the server again before the master has read its reply to an earlier
 connection, which nothing in lib/cluster.js prevents.
 */
module ClusterLimits {
  import opened Prelude
  import opened Cluster
  import opened ClusterSystem

  /** What a sequence of events leads to if workers also ask early. */
  function AfterPossible(es: seq<Event>): Outcome {
    if es == [] then Reached(START)
    else
      match AfterPossible(es[..|es| - 1])
      case Reached(s) =>
        if !Possible(s, es[|es| - 1]) then NotEnabled
        else (match Step(s, es[|es| - 1]) case Some(s') => Reached(s') case None => Throws)
      case outcome => outcome
  }

  /** The runs of the system are among them. */
  lemma {:induction false} AllPossible(es: seq<Event>)
    requires After(es).Reached?
    ensures AfterPossible(es) == After(es)
  {
    if es != [] {
      AllPossible(es[..|es| - 1]);
    }
  }

  lemma NextPossible(es: seq<Event>, e: Event)
    requires AfterPossible(es).Reached? && Possible(AfterPossible(es).s, e)
    ensures AfterPossible(es + [e]) ==
            match Step(AfterPossible(es).s, e) case Some(s') => Reached(s') case None => Throws
  {
    assert (es + [e])[..|es|] == es;
  }

  /** Both workers have the server; `due` are the replies that are due, `free` the ready queue, and `up`
      what worker 0 has said. */
  predicate Both(s: System, all: set<Worker>, free: seq<Worker>, due: map<nat, Pending>, up: seq<Up>) {
    && s.master.live && s.master.all == all && s.master.free == free && s.master.handles == []
    && s.master.wire.callbacks == due && s.master.wire.nextSeq == |due| == s.arrived
    && s.dead == {} && Queue(s.up, 0) == up
  }

  lemma SecondAsks(s: System)
    requires Alone(s, {0}, {0}, [], [])
    ensures var s1 := Say(s, 1, Query);
      && Enabled(s, Listen(1)) && Step(s, Listen(1)) == Some(s1)
      && Enabled(s1, MasterReads(1)) && Step(s1, MasterReads(1)).Some?
      && Both(Step(s1, MasterReads(1)).value, {0, 1}, [0, 1], map[], []) && 0 in Step(s1, MasterReads(1)).value.open
  {
    assert [] + [Query] == [Query] && [Query][1..] == [];
    assert {0} + {1} == {0, 1} && [0] + [1] == [0, 1];
  }

  lemma FirstIsOffered(s: System)
    requires Both(s, {0, 1}, [0, 1], map[], [])
    ensures Enabled(s, Connect) && Step(s, Connect).Some?
    ensures Both(Step(s, Connect).value, {0, 1}, [1], map[0 := Pending(0, 0)], [])
    ensures Step(s, Connect).value.open == s.open
  {
    assert [0, 1][1..] == [1] && ([] + [0])[1..] == [];
    assert map[][0 := Pending(0, 0)] == map[0 := Pending(0, 0)];
  }

  lemma FirstClosesAndAsks(s: System)
    requires Both(s, {0, 1}, [1], map[0 := Pending(0, 0)], []) && 0 in s.open
    ensures Enabled(s, CloseServer(0)) && Step(s, CloseServer(0)).Some?
    ensures var s1 := Step(s, CloseServer(0)).value;
      && Enabled(s1, Listen(0)) && Step(s1, Listen(0)).Some?
      && Both(Step(s1, Listen(0)).value, {0, 1}, [1], map[0 := Pending(0, 0)], [Close, Query])
  {
    assert [] + [Close] == [Close] && [Close] + [Query] == [Close, Query];
  }

  lemma FirstIsRemoved(s: System)
    requires Both(s, {0, 1}, [1], map[0 := Pending(0, 0)], [Close, Query])
    ensures Enabled(s, MasterReads(0)) && Step(s, MasterReads(0)).Some?
    ensures Both(Step(s, MasterReads(0)).value, {1}, [1], map[0 := Pending(0, 0)], [Query])
  {
    assert [Close, Query][1..] == [Query] && {0, 1} - {0} == {1};
    assert 1 in {1};
    assert Without([1], 0) == [1] + Without([1][1..], 0);
  }

  /** The query is read while the reply is due. */
  lemma FirstIsAdded(s: System)
    requires Both(s, {1}, [1], map[0 := Pending(0, 0)], [Query])
    ensures Possible(s, MasterReads(0)) && !Enabled(s, MasterReads(0)) && Step(s, MasterReads(0)).Some?
    ensures Both(Step(s, MasterReads(0)).value, {0, 1}, [1, 0], map[0 := Pending(0, 0)], [])
  {
    assert [Query][1..] == [] && {1} + {0} == {0, 1} && [1] + [0] == [1, 0];
    assert s.master.wire.callbacks[0].worker == 0;
  }

  lemma OfferedTwice(s: System)
    requires Both(s, {0, 1}, [1, 0], map[0 := Pending(0, 0)], [])
    ensures Possible(s, Connect) && Step(s, Connect).Some?
    ensures var s1 := Step(s, Connect).value;
      && Possible(s1, Connect) && Step(s1, Connect).Some?
      && Step(s1, Connect).value.master.wire.callbacks
         == map[0 := Pending(0, 0), 1 := Pending(1, 1), 2 := Pending(0, 2)]
  {
    assert [1, 0][1..] == [0] && ([] + [1])[1..] == [] && ([] + [2])[1..] == [];
    var s1 := Step(s, Connect).value;
    assert s1.master.free == [0] && s1.master.handles == [];
    assert s1.master.wire.callbacks == map[0 := Pending(0, 0), 1 := Pending(1, 1)];
  }

  /** Up to the query: both workers register, a connection arrives, and worker 0 closes the server and
      asks for it again before it answers the offer. */
  lemma AsksEarly() returns (es: seq<Event>)
    ensures After(es).Reached? && Both(After(es).s, {1}, [1], map[0 := Pending(0, 0)], [Query])
  {
    es := Registered();
    SecondAsks(After(es).s);
    Next(es, Listen(1));
    es := es + [Listen(1)];
    Next(es, MasterReads(1));
    es := es + [MasterReads(1)];
    FirstIsOffered(After(es).s);
    Next(es, Connect);
    es := es + [Connect];
    es := ClosesAndAsks(es);
    FirstIsRemoved(After(es).s);
    Next(es, MasterReads(0));
    es := es + [MasterReads(0)];
  }

  lemma ClosesAndAsks(es: seq<Event>) returns (es': seq<Event>)
    requires After(es).Reached? && 0 in After(es).s.open
    requires Both(After(es).s, {0, 1}, [1], map[0 := Pending(0, 0)], [])
    ensures After(es').Reached? && Both(After(es').s, {0, 1}, [1], map[0 := Pending(0, 0)], [Close, Query])
  {
    FirstClosesAndAsks(After(es).s);
    Next(es, CloseServer(0));
    es' := es + [CloseServer(0)];
    Next(es', Listen(0));
    es' := es' + [Listen(0)];
  }

  /** The run: at the query the invariant of the master breaks, worker 0 being free and awaited; and
      two connections later it is awaited twice. */
  lemma EarlyQueryRun() returns (es: seq<Event>)
    ensures After(es).Reached? && Inv(After(es).s)
    ensures var broken := AfterPossible(es + [MasterReads(0)]);
      && broken.Reached? && !MasterOk(broken.s.master, {})
      && 0 in broken.s.master.free && Awaits(broken.s.master.wire, 0)
    ensures var twice := AfterPossible(es + [MasterReads(0)] + [Connect] + [Connect]);
      twice.Reached? && twice.s.master.wire.callbacks == map[0 := Pending(0, 0), 1 := Pending(1, 1), 2 := Pending(0, 2)]
  {
    es := AsksEarly();
    RunInv(es);
    AllPossible(es);
    var s := After(es).s;
    FirstIsAdded(s);
    NextPossible(es, MasterReads(0));
    var broken := AfterPossible(es + [MasterReads(0)]).s;
    assert broken.master.free[1] == 0 && broken.master.wire.callbacks[0].worker == 0;
    OfferedTwice(broken);
    NextPossible(es + [MasterReads(0)], Connect);
    NextPossible(es + [MasterReads(0)] + [Connect], Connect);
  }
}
