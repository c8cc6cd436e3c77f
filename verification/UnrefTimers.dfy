/**
 The timers of lib/timers.js that do not keep the process alive, on the circular list, proved
 against the machine of module `Timers`. An item whose `_idleTimeout` was never set has 0.
 */
module UnrefTimers {
  import opened Prelude
  import opened LinkList
  import opened Timers

  ghost function Entries(ns: seq<Node>): (q: seq<Entry<Node>>)
    reads ns
    ensures |q| == |ns|
    ensures forall i :: 0 <= i < |ns| ==> q[i] == Entry(ns[i], ns[i].idleStart, ns[i].idleTimeout)
  {
    if ns == [] then [] else [Entry(ns[0], ns[0].idleStart, ns[0].idleTimeout)] + Entries(ns[1..])
  }

  lemma {:induction false} WithoutAbsent<I>(q: seq<Entry<I>>, item: I)
    requires Absent(q, item)
    ensures Without(q, item) == q
  {
    if q != [] {
      assert q[0] in q && forall x :: x in q[1..] ==> x in q;
      WithoutAbsent(q[1..], item);
    }
  }

  lemma {:induction false} WithoutAt<I>(q: seq<Entry<I>>, k: nat)
    requires k < |q| && Distinct(q)
    ensures Without(q, q[k].item) == Cut(q, k)
  {
    var item := q[k].item;
    if k == 0 {
      assert q == [q[0]] + q[1..];
      DistinctCons(q[0], q[1..]);
      WithoutAbsent(q[1..], item);
    } else {
      assert q[1..][k - 1] == q[k] && Distinct(q[1..]);
      WithoutAt(q[1..], k - 1);
      assert Cut(q, k) == [q[0]] + Cut(q[1..], k - 1);
    }
  }

  lemma {:induction false} PlaceAt<I>(q: seq<Entry<I>>, e: Entry<I>, j: nat)
    requires j <= |q| && (forall i :: 0 <= i < j ==> Expiry(q[i]) <= Expiry(e))
    requires j < |q| ==> Expiry(e) < Expiry(q[j])
    ensures Place(q, e) == Put(q, j, e) && (Goes(q, e) <== j < |q|)
    ensures j == |q| ==> !Goes(q, e)
  {
    if j == 0 {
      assert Put(q, 0, e) == [e] + q;
    } else {
      assert Expiry(q[0]) <= Expiry(e);
      PlaceAt(q[1..], e, j - 1);
      assert Put(q, j, e) == [q[0]] + Put(q[1..], j - 1, e);
    }
  }

  ghost predicate Alone(n: Node)
    reads n
  {
    Detached(n) || (n.idleNext == n && n.idlePrev == n)
  }

  class UnrefTimers {
    const unrefList: Node
    ghost const items: set<Node>
    var when: int
    var armed: bool
    ghost var nodes: seq<Node>

    ghost predicate Valid()
      reads this`nodes, unrefList, items
    {
      && unrefList !in items
      && (forall i :: 0 <= i < |nodes| ==> nodes[i] in items)
      && Ring([unrefList] + nodes)
      && (forall n :: n in items && n !in nodes ==> Alone(n))
    }

    ghost function Timeouts(): map<Node, int>
      reads items
    {
      map n: Node | n in items :: n.idleTimeout
    }

    ghost function Abs(): State<Node>
      reads this, items
      requires forall i :: 0 <= i < |nodes| ==> nodes[i] in items
    {
      State(Entries(nodes), Timeouts(), when, armed)
    }

    /** The list and the underlying timer are made before they are first used. */
    constructor (items: set<Node>)
      requires forall n :: n in items ==> Alone(n)
      ensures Valid() && fresh(unrefList) && this.items == items && nodes == [] && when == -1 && !armed
    {
      this.items := items;
      unrefList := new Node();
      when, armed, nodes := -1, false, [];
      new;
      unrefList.idleNext := unrefList;
      unrefList.idlePrev := unrefList;
    }

    lemma NodesDistinct()
      requires Valid()
      ensures Unique(nodes) && Distinct(Entries(nodes))
    {
      assert forall i :: 0 <= i < |nodes| ==> ([unrefList] + nodes)[i + 1] == nodes[i];
    }

    lemma AbsentEntries(item: Node)
      requires Valid() && item !in nodes
      ensures Absent(Entries(nodes), item)
    {}

    /** `L.remove` of an item of the list. */
    method LeaveList(item: Node, ghost at: nat)
      requires Valid() && at < |nodes| && nodes[at] == item
      modifies this`nodes, unrefList, nodes
      ensures nodes == Cut(old(nodes), at) && Ring([unrefList] + nodes) && Detached(item)
      ensures forall n :: n in old(nodes) ==> n.idleStart == old(n.idleStart) && n.idleTimeout == old(n.idleTimeout)
    {
      NodesDistinct();
      CutRest(unrefList, nodes, at);
      Remove(item, [unrefList] + nodes, at + 1);
      nodes := Cut(nodes, at);
    }

    /** `L.remove` of an item that is in no list. */
    method LeaveNothing(item: Node)
      requires Valid() && item in items && item !in nodes
      modifies item
      ensures Valid() && Detached(item)
      ensures item.idleStart == old(item.idleStart) && item.idleTimeout == old(item.idleTimeout)
    {
      Remove(item, if item.idleNext == item then [item] else [], 0);
    }

    lemma InList(item: Node)
      requires Valid() && item in items
      ensures item in nodes <==> item.idleNext != null && item.idleNext != item
    {
      var ring := [unrefList] + nodes;
      if item in nodes {
        var k :| 0 <= k < |nodes| && nodes[k] == item;
        assert ring[k + 1].idleNext == ring[Back(k + 1, |ring|)] && ring[k] != ring[k + 1];
      }
    }

    /** `L.remove`, wherever the item is. */
    method Leave(item: Node)
      requires Valid() && item in items
      modifies this`nodes, unrefList, items
      ensures Valid() && Detached(item) && item !in nodes && Timeouts() == old(Timeouts())
      ensures item.idleTimeout == old(item.idleTimeout)
      ensures Entries(nodes) == Without(old(Entries(nodes)), item)
    {
      InList(item);
      if item.idleNext == null || item.idleNext == item {
        ghost var q, t := Entries(nodes), Timeouts();
        AbsentEntries(item);
        WithoutAbsent(q, item);
        LeaveNothing(item);
        SameEntries(nodes, q);
        SameTimeouts(t);
      } else {
        ghost var at :| 0 <= at < |nodes| && nodes[at] == item;
        LeaveFrom(item, at);
      }
    }

    method LeaveRing(item: Node, ghost at: nat)
      requires Valid() && at < |nodes| && nodes[at] == item
      modifies this`nodes, unrefList, items
      ensures nodes == Cut(old(nodes), at) && Valid() && Detached(item) && item !in nodes
      ensures forall n :: n in items ==> n.idleStart == old(n.idleStart) && n.idleTimeout == old(n.idleTimeout)
    {
      CutRest(unrefList, nodes, at);
      LeaveList(item, at);
    }

    method LeaveFrom(item: Node, ghost at: nat)
      requires Valid() && at < |nodes| && nodes[at] == item
      modifies this`nodes, unrefList, items
      ensures Valid() && Detached(item) && item !in nodes && Timeouts() == old(Timeouts())
      ensures item.idleTimeout == old(item.idleTimeout)
      ensures Entries(nodes) == Without(old(Entries(nodes)), item)
    {
      ghost var q, t := Entries(nodes), Timeouts();
      NodesDistinct();
      WithoutAt(q, at);
      LeaveRing(item, at);
      SameEntries(nodes, Cut(q, at));
      SameTimeouts(t);
    }

    /** Where the item behind number j is reached from. */
    ghost function At(j: nat): Node
      reads this
      requires j <= |nodes|
    {
      if j == |nodes| then unrefList else nodes[j]
    }

    /** `L.append` of an item that was taken out before. */
    method Join(list: Node, item: Node, ghost j: nat)
      requires Valid() && item in items && item !in nodes && Detached(item) && j <= |nodes| && list == At(j)
      modifies this`nodes, unrefList, items
      ensures Valid() && nodes == Put(old(nodes), j, item)
      ensures forall n :: n in items ==> n.idleStart == old(n.idleStart) && n.idleTimeout == old(n.idleTimeout)
    {
      ghost var ring := [unrefList] + nodes;
      PutRest(unrefList, nodes, j, item);
      Append(list, item, ring, if j == |nodes| then 0 else j + 1);
      nodes := Put(nodes, j, item);
    }

    /** The search of `_unrefActive`: the first item that expires later, or the list itself. */
    method FindPlace(expiry: int) returns (cur: Node, ghost j: nat)
      requires Valid()
      ensures j <= |nodes| && cur == At(j)
      ensures forall i :: 0 <= i < j ==> Expiry(Entries(nodes)[i]) <= expiry
      ensures j < |nodes| ==> expiry < Expiry(Entries(nodes)[j])
    {
      ghost var q := Entries(nodes);
      FirstAt();
      j := 0;
      cur := unrefList.idlePrev;
      while cur != unrefList
        invariant j <= |nodes| && cur == At(j)
        invariant forall i :: 0 <= i < j ==> Expiry(q[i]) <= expiry
        decreases |nodes| - j
      {
        NextAt(j);
        var them := cur.idleStart + cur.idleTimeout;
        if expiry < them {
          return;
        }
        cur := cur.idlePrev;
        j := j + 1;
      }
      NotHead();
    }

    lemma FirstAt()
      requires Valid()
      ensures unrefList.idlePrev == At(0)
    {
      var ring := [unrefList] + nodes;
      assert ring[0].idlePrev == ring[Turn(0, |ring|)];
    }

    lemma NextAt(j: nat)
      requires Valid() && j <= |nodes| && At(j) != unrefList
      ensures j < |nodes| && nodes[j].idlePrev == At(j + 1)
    {
      var ring := [unrefList] + nodes;
      assert ring[j + 1].idlePrev == ring[Turn(j + 1, |ring|)];
    }

    lemma NotHead()
      requires Valid()
      ensures forall j :: 0 <= j < |nodes| ==> At(j) != unrefList
    {}

    lemma SameTimeouts(t: map<Node, int>)
      requires t.Keys == items && forall n :: n in items ==> t[n] == n.idleTimeout
      ensures Timeouts() == t
    {}

    /** `unenroll`, as far as this list is concerned. */
    method UnenrollItem(item: Node)
      requires Valid() && item in items
      modifies this`nodes, unrefList, items
      ensures Valid() && Abs() == Apply(old(Abs()), Unenroll(item)) && item !in nodes
    {
      Leave(item);
      SetTimeout(item, -1);
    }

    method SetTimeout(item: Node, msecs: int)
      requires Valid() && item in items && item !in nodes
      modifies item`idleTimeout
      ensures Valid() && Entries(nodes) == old(Entries(nodes)) && Timeouts() == old(Timeouts())[item := msecs]
    {
      ghost var q, t := Entries(nodes), Timeouts()[item := msecs];
      item.idleTimeout := msecs;
      SameEntries(nodes, q);
      SameTimeouts(t);
    }

    /** `enroll` */
    method EnrollItem(item: Node, msecs: int)
      requires Valid() && item in items
      modifies this`nodes, unrefList, items
      ensures Valid() && Abs() == Apply(old(Abs()), Enroll(item, msecs))
    {
      ghost var t := Timeouts();
      LeaveIfListed(item);
      SetTwice(t, item, -1, if msecs > MAX_TIMEOUT then MAX_TIMEOUT else msecs);
      SetTimeout(item, if msecs > MAX_TIMEOUT then MAX_TIMEOUT else msecs);
      SelfLoop(item);
    }

    method LeaveIfListed(item: Node)
      requires Valid() && item in items
      modifies this`nodes, unrefList, items
      ensures Valid() && item !in nodes && Entries(nodes) == Without(old(Entries(nodes)), item)
      ensures Timeouts() == old(Timeouts()) || Timeouts() == old(Timeouts())[item := -1]
    {
      InList(item);
      if item.idleNext != null {
        UnenrollItem(item);
      } else {
        AbsentEntries(item);
        WithoutAbsent(Entries(nodes), item);
      }
    }

    method SelfLoop(item: Node)
      requires Valid() && item in items && item !in nodes
      modifies item`idleNext, item`idlePrev
      ensures Valid() && Entries(nodes) == old(Entries(nodes)) && Timeouts() == old(Timeouts())
    {
      ghost var q, t := Entries(nodes), Timeouts();
      Init(item);
      SameEntries(nodes, q);
      SameTimeouts(t);
    }

    /** The item, which was taken out, gets its place by expiry. */
    method Enter(list: Node, item: Node, now: int, ghost j: nat)
      requires Valid() && item in items && item !in nodes && Detached(item) && j <= |nodes| && list == At(j)
      requires item.idleStart == now
      modifies this`nodes, unrefList, items
      ensures Valid() && nodes == Put(old(nodes), j, item) && Timeouts() == old(Timeouts())
      ensures Entries(nodes) == Put(old(Entries(nodes)), j, Entry(item, now, old(item.idleTimeout)))
    {
      ghost var q, t := Put(Entries(nodes), j, Entry(item, now, item.idleTimeout)), Timeouts();
      Join(list, item, j);
      SameEntries(nodes, q);
      SameTimeouts(t);
    }

    method Restart(item: Node, now: int)
      requires Valid() && item in items
      modifies this`nodes, unrefList, items
      ensures Valid() && Detached(item) && item !in nodes && item.idleStart == now
      ensures item.idleTimeout == old(item.idleTimeout) && Timeouts() == old(Timeouts())
      ensures Entries(nodes) == Without(old(Entries(nodes)), item)
    {
      Leave(item);
      ghost var q, t := Entries(nodes), Timeouts();
      item.idleStart := now;
      SameEntries(nodes, q);
      SameTimeouts(t);
    }

    /** `_unrefActive` */
    method UnrefActive(item: Node, now: int)
      requires Valid() && item in items
      modifies this, unrefList, items
      ensures Valid() && Abs() == Apply(old(Abs()), Activate(item, now))
    {
      var msecs := item.idleTimeout;
      if msecs <= 0 {
        return;
      }
      Restart(item, now);
      Insertion(item, now, msecs);
    }

    method Insertion(item: Node, now: int, msecs: int)
      requires Valid() && item in items && item !in nodes && Detached(item)
      requires item.idleStart == now && item.idleTimeout == msecs
      modifies this, unrefList, items
      ensures Valid() && Abs() == Insert(old(Abs()), Entry(item, now, msecs))
    {
      ghost var e := Entry(item, now, msecs);
      var empty := IsEmpty(unrefList, [unrefList] + nodes);
      if empty {
        assert Put([], 0, e) == [e];
        Enter(unrefList, item, now, 0);
        armed, when := true, now + msecs;
      } else {
        InsertAmong(item, now, msecs);
      }
    }

    /** The timer runs for the earliest expiry. */
    method Rearm(expiry: int)
      requires Valid()
      modifies this`when, this`armed
      ensures var s := old(Abs());
        Valid() && Abs() == if s.when > expiry then s.(when := expiry, armed := true) else s
    {
      if when > expiry {
        armed, when := true, expiry;
      }
    }

    method InsertAmong(item: Node, now: int, msecs: int)
      requires Valid() && item in items && item !in nodes && Detached(item)
      requires item.idleStart == now && item.idleTimeout == msecs
      requires nodes != []
      modifies this, unrefList, items
      ensures Valid() && Abs() == Insert(old(Abs()), Entry(item, now, msecs))
    {
      var later := EnterAmong(item, now, msecs);
      if later {
        Rearm(now + msecs);
      }
    }

    method EnterAmong(item: Node, now: int, msecs: int) returns (later: bool)
      requires Valid() && item in items && item !in nodes && Detached(item)
      requires item.idleStart == now && item.idleTimeout == msecs
      modifies this`nodes, unrefList, items
      ensures var s := old(Abs()); Valid() && Abs() == s.(queue := Place(s.queue, Entry(item, now, msecs)))
      ensures later <==> Goes(old(Entries(nodes)), Entry(item, now, msecs))
    {
      ghost var q, e := Entries(nodes), Entry(item, now, msecs);
      var cur, j := FindPlace(now + msecs);
      assert Entries(nodes) == q;
      PlaceAt(q, e, j);
      NotHead();
      later := cur != unrefList;
      Enter(cur, item, now, j);
    }

    /** One call from a callback. */
    method DoOp(op: Op<Node>)
      requires Valid() && op.item in items
      modifies this, unrefList, items
      ensures Valid() && Abs() == Apply(old(Abs()), op)
    {
      match op {
        case Enroll(item, msecs) => EnrollItem(item, msecs);
        case Unenroll(item) => UnenrollItem(item);
        case Activate(item, now) => UnrefActive(item, now);
      }
    }

    method RunCallback(ops: seq<Op<Node>>)
      requires Valid() && Known(ops, items)
      modifies this, unrefList, items
      ensures Valid() && Abs() == ApplyAll(old(Abs()), ops)
    {
      ghost var before := Abs();
      for i := 0 to |ops|
        invariant Valid() && Abs() == ApplyAll(before, ops[..i])
      {
        assert ops[..i + 1][..i] == ops[..i];
        DoOp(ops[i]);
      }
      assert ops[..|ops|] == ops;
    }

    /** The first item is taken out. */
    method Take(first: Node)
      requires Valid() && nodes != [] && first == nodes[0]
      modifies this`nodes, unrefList, items
      ensures Valid() && Abs() == old(Abs()).(queue := old(Abs()).queue[1..])
    {
      ghost var q := Entries(nodes);
      NodesDistinct();
      WithoutAt(q, 0);
      assert Cut(q, 0) == q[1..];
      LeaveFrom(first, 0);
    }

    /** The first item fires, and its callback does these calls. */
    method FireFirst(first: Node, ops: seq<Op<Node>>)
      requires Valid() && nodes != [] && first == nodes[0] && Known(ops, items)
      modifies this, unrefList, items
      ensures Valid() && Abs() == ApplyAll(old(Abs()).(queue := old(Abs()).queue[1..]), ops)
    {
      Take(first);
      RunCallback(ops);
    }

    ghost predicate Leads(first: Node)
      reads this`nodes, unrefList, items
      requires Valid()
    {
      nodes != [] && first == nodes[0] && Entries(nodes)[0] == Entry(first, first.idleStart, first.idleTimeout)
    }

    ghost predicate Found(first: Node?)
      reads this`nodes, unrefList, items
      requires Valid()
    {
      if first == null then nodes == [] else Leads(first)
    }

    method FirstItem() returns (first: Node?)
      requires Valid()
      ensures Found(first)
    {
      first := Peek(unrefList, [unrefList] + nodes);
    }

    method SetTimer(at: int, on: bool)
      requires Valid()
      modifies this`armed, this`when
      ensures Valid() && Abs() == old(Abs()).(when := at, armed := on) && nodes == old(nodes)
    {
      armed, when := on, at;
    }

    /** One round of the loop of `unrefTimeout`: the timer is set for the first item, or it
        fires. */
    method Round(first: Node, now: int, rest: seq<seq<Op<Node>>>, ghost fired: seq<Node>, ghost whole: Pass<Node>)
      returns (stop: bool, next: Node?)
      requires Valid() && Leads(first) && AllKnown(rest, items) && Onward(Abs(), fired, now, rest, whole)
      modifies this, unrefList, items
      ensures Valid()
      ensures stop ==> Pass(Abs(), fired) == whole
      ensures !stop ==> Onward(Abs(), fired + [first], now, RestOps(rest), whole)
      ensures !stop ==> Due(Abs().queue, now) < Due(old(Abs()).queue, now)
      ensures !stop ==> AllKnown(RestOps(rest), items) && Found(next)
    {
      var diff := now - first.idleStart;
      if diff < first.idleTimeout {
        NotYet(Abs(), fired, now, rest, whole);
        diff := first.idleTimeout - diff;
        SetTimer(now + diff, true);
        return true, null;
      }
      OneFired(Abs(), fired, now, rest, whole);
      FireFirst(first, FirstOps(rest));
      stop := false;
      next := FirstItem();
    }

    /** The loop of `unrefTimeout`; the callback of each item that fires does what the next
        list says. `stopped`: it was left because the first item had not expired. */
    method Expire(now: int, callbacks: seq<seq<Op<Node>>>, ghost whole: Pass<Node>)
      returns (stopped: bool, ghost fired: seq<Node>)
      requires Valid() && AllNotBefore(callbacks, now) && AllKnown(callbacks, items)
      requires Onward(Abs(), [], now, callbacks, whole)
      modifies this, unrefList, items
      ensures Valid() && (stopped ==> Pass(Abs(), fired) == whole)
      ensures !stopped ==> Pass(Abs().(when := -1), fired) == whole
    {
      fired := [];
      var rest := callbacks;
      var first := FirstItem();
      while first != null
        invariant Valid() && AllKnown(rest, items) && Found(first)
        invariant Onward(Abs(), fired, now, rest, whole)
        decreases Due(Abs().queue, now)
      {
        var item: Node := first;
        stopped, first := Round(item, now, rest, fired, whole);
        if stopped {
          return;
        }
        fired := fired + [item];
        rest := RestOps(rest);
      }
      AllFired(Abs(), fired, now, rest, whole);
      stopped := false;
    }

    /** `unrefTimeout`, when the underlying timer fires. */
    method UnrefTimeout(now: int, callbacks: seq<seq<Op<Node>>>) returns (ghost fired: seq<Node>)
      requires Valid() && AllNotBefore(callbacks, now) && AllKnown(callbacks, items)
      modifies this, unrefList, items
      ensures Valid() && Pass(Abs(), fired) == OnTimer(old(Abs()), now, callbacks)
    {
      SetTimer(when, false);
      Begins(Abs(), now, callbacks);
      var stopped;
      stopped, fired := Expire(now, callbacks, Fire(Abs(), now, callbacks));
      if !stopped {
        SetTimer(-1, armed);
      }
    }
  }

  ghost predicate Known(ops: seq<Op<Node>>, items: set<Node>) {
    forall k :: 0 <= k < |ops| ==> ops[k].item in items
  }

  ghost predicate AllKnown(callbacks: seq<seq<Op<Node>>>, items: set<Node>) {
    forall k :: 0 <= k < |callbacks| ==> Known(callbacks[k], items)
  }

  lemma Begins(s: State<Node>, now: int, callbacks: seq<seq<Op<Node>>>)
    requires AllNotBefore(callbacks, now)
    ensures Onward(s, [], now, callbacks, Fire(s, now, callbacks))
  {
    assert [] + Fire(s, now, callbacks).fired == Fire(s, now, callbacks).fired;
  }

  lemma NotYet(s: State<Node>, fired: seq<Node>, now: int, callbacks: seq<seq<Op<Node>>>, whole: Pass<Node>)
    requires Onward(s, fired, now, callbacks, whole) && s.queue != [] && now - s.queue[0].start < s.queue[0].timeout
    ensures whole == Pass(s.(when := Expiry(s.queue[0]), armed := true), fired)
  {}

  lemma AllFired(s: State<Node>, fired: seq<Node>, now: int, callbacks: seq<seq<Op<Node>>>, whole: Pass<Node>)
    requires Onward(s, fired, now, callbacks, whole) && s.queue == []
    ensures whole == Pass(s.(when := -1), fired)
  {}

  /** What fired, and then the pass from here on, are the whole pass. */
  ghost predicate Onward(s: State<Node>, fired: seq<Node>, now: int, callbacks: seq<seq<Op<Node>>>, whole: Pass<Node>) {
    && AllNotBefore(callbacks, now)
    && whole == Pass(Fire(s, now, callbacks).state, fired + Fire(s, now, callbacks).fired)
  }

  /** One more item fires and its callback is called. */
  lemma OneFired(s: State<Node>, fired: seq<Node>, now: int, callbacks: seq<seq<Op<Node>>>, whole: Pass<Node>)
    requires Onward(s, fired, now, callbacks, whole) && s.queue != []
    requires now - s.queue[0].start >= s.queue[0].timeout
    ensures var s1 := ApplyAll(s.(queue := s.queue[1..]), FirstOps(callbacks));
      && Onward(s1, fired + [s.queue[0].item], now, RestOps(callbacks), whole)
      && Due(s1.queue, now) < Due(s.queue, now)
  {
    var s1 := ApplyAll(s.(queue := s.queue[1..]), FirstOps(callbacks));
    DueApplyAll(s.(queue := s.queue[1..]), FirstOps(callbacks), now);
    Assoc(fired, [s.queue[0].item], Fire(s1, now, RestOps(callbacks)).fired);
  }

  lemma SetTwice(t: map<Node, int>, item: Node, a: int, b: int)
    ensures t[item := a][item := b] == t[item := b]
  {}

  lemma PutRest(head: Node, nodes: seq<Node>, j: nat, item: Node)
    requires j <= |nodes|
    ensures Put([head] + nodes, j + 1, item) == [head] + Put(nodes, j, item)
    ensures forall n :: n in Put(nodes, j, item) ==> n in nodes || n == item
    ensures forall n :: n in nodes || n == item ==> n in Put(nodes, j, item)
  {
    var p := Put(nodes, j, item);
    assert p[j] == item;
    forall n | n in nodes ensures n in p {
      var k :| 0 <= k < |nodes| && nodes[k] == n;
      assert p[if k < j then k else k + 1] == n;
    }
  }

  lemma {:induction false} SameEntries(ns: seq<Node>, q: seq<Entry<Node>>)
    requires |q| == |ns| && forall i :: 0 <= i < |ns| ==> q[i] == Entry(ns[i], ns[i].idleStart, ns[i].idleTimeout)
    ensures Entries(ns) == q
  {}

  lemma CutRest(head: Node, nodes: seq<Node>, k: nat)
    requires k < |nodes| && Unique([head] + nodes)
    ensures Cut([head] + nodes, k + 1) == [head] + Cut(nodes, k)
    ensures nodes[k] !in Cut(nodes, k) && nodes[k] != head
    ensures forall n :: n in nodes && n != nodes[k] ==> n in Cut(nodes, k)
    ensures forall n :: n in Cut(nodes, k) ==> n in nodes
  {
    var all := [head] + nodes;
    assert forall i :: 0 <= i < |nodes| ==> all[i + 1] == nodes[i];
    assert all[0] == head;
  }
}
