/**
 The timers of lib/timers.js that do not keep the process alive: one list, sorted by expiry,
 and one underlying timer that is started for its first item. Here as a machine on values.

 The callback of an item is a list of calls, with the time at which each is made. An item
 without a callback is one whose callback does nothing. The clock does not go back during
 a pass of the handler.
 */
module Timers {
  datatype Entry<I> = Entry(item: I, start: int, timeout: int)

  function Expiry<I>(e: Entry<I>): int {
    e.start + e.timeout
  }

  /** `when` is what the underlying timer was last started for, and `armed` whether it will
      still fire. `timeouts` holds `_idleTimeout` of the items that have one. */
  datatype State<I> = State(queue: seq<Entry<I>>, timeouts: map<I, int>, when: int, armed: bool)

  datatype Op<I> = Enroll(item: I, msecs: int) | Unenroll(item: I) | Activate(item: I, now: int)

  const MAX_TIMEOUT := 0x7fff_ffff

  function NewState<I>(): State<I> {
    State([], map[], -1, false)
  }

  function Without<I(==)>(q: seq<Entry<I>>, item: I): seq<Entry<I>> {
    if q == [] then []
    else if q[0].item == item then Without(q[1..], item)
    else [q[0]] + Without(q[1..], item)
  }

  /** The entry goes in front of the first that expires later. */
  function Place<I>(q: seq<Entry<I>>, e: Entry<I>): seq<Entry<I>> {
    if q == [] then [e]
    else if Expiry(e) < Expiry(q[0]) then [e] + q
    else [q[0]] + Place(q[1..], e)
  }

  predicate Goes<I>(q: seq<Entry<I>>, e: Entry<I>) {
    exists k :: 0 <= k < |q| && Expiry(e) < Expiry(q[k])
  }

  function Insert<I>(s: State<I>, e: Entry<I>): State<I> {
    if s.queue == [] then s.(queue := [e], when := Expiry(e), armed := true)
    else if Goes(s.queue, e) && s.when > Expiry(e) then s.(queue := Place(s.queue, e), when := Expiry(e), armed := true)
    else s.(queue := Place(s.queue, e))
  }

  function Apply<I(==)>(s: State<I>, op: Op<I>): State<I> {
    match op
    case Enroll(item, msecs) =>
      s.(queue := Without(s.queue, item),
         timeouts := s.timeouts[item := if msecs > MAX_TIMEOUT then MAX_TIMEOUT else msecs])
    case Unenroll(item) => s.(queue := Without(s.queue, item), timeouts := s.timeouts[item := -1])
    case Activate(item, now) =>
      if item !in s.timeouts || s.timeouts[item] <= 0 then s
      else Insert(s.(queue := Without(s.queue, item)), Entry(item, now, s.timeouts[item]))
  }

  function ApplyAll<I(==)>(s: State<I>, ops: seq<Op<I>>): State<I> {
    if ops == [] then s else Apply(ApplyAll(s, ops[..|ops| - 1]), ops[|ops| - 1])
  }

  /** How many entries have expired. */
  function Due<I>(q: seq<Entry<I>>, now: int): nat {
    if q == [] then 0 else (if Expiry(q[0]) <= now then 1 else 0) + Due(q[1..], now)
  }

  predicate NotBefore<I>(ops: seq<Op<I>>, now: int) {
    forall k :: 0 <= k < |ops| && ops[k].Activate? ==> ops[k].now >= now
  }

  predicate AllNotBefore<I>(callbacks: seq<seq<Op<I>>>, now: int) {
    forall k :: 0 <= k < |callbacks| ==> NotBefore(callbacks[k], now)
  }

  // ---------------------------------------------------------------- the number of expired entries

  lemma {:induction false} DueWithout<I>(q: seq<Entry<I>>, item: I, now: int)
    ensures Due(Without(q, item), now) <= Due(q, now)
  {
    if q != [] {
      DueWithout(q[1..], item, now);
      if q[0].item != item {
        assert ([q[0]] + Without(q[1..], item))[1..] == Without(q[1..], item);
      }
    }
  }

  lemma {:induction false} DuePlace<I>(q: seq<Entry<I>>, e: Entry<I>, now: int)
    ensures Due(Place(q, e), now) == Due(q, now) + (if Expiry(e) <= now then 1 else 0)
  {
    if q == [] {
      assert [e][1..] == [];
    } else if Expiry(e) < Expiry(q[0]) {
      assert ([e] + q)[1..] == q;
    } else {
      DuePlace(q[1..], e, now);
      assert ([q[0]] + Place(q[1..], e))[1..] == Place(q[1..], e);
    }
  }

  /** No call makes an expired entry. */
  lemma DueApply<I>(s: State<I>, op: Op<I>, now: int)
    requires op.Activate? ==> op.now >= now
    ensures Due(Apply(s, op).queue, now) <= Due(s.queue, now)
  {
    DueWithout(s.queue, op.item, now);
    if op.Activate? && op.item in s.timeouts && s.timeouts[op.item] > 0 {
      var e := Entry(op.item, op.now, s.timeouts[op.item]);
      DuePlace(Without(s.queue, op.item), e, now);
      assert [e][1..] == [];
    }
  }

  lemma {:induction false} DueApplyAll<I>(s: State<I>, ops: seq<Op<I>>, now: int)
    requires NotBefore(ops, now)
    ensures Due(ApplyAll(s, ops).queue, now) <= Due(s.queue, now)
  {
    if ops != [] {
      DueApplyAll(s, ops[..|ops| - 1], now);
      DueApply(ApplyAll(s, ops[..|ops| - 1]), ops[|ops| - 1], now);
    }
  }

  datatype Pass<I> = Pass(state: State<I>, fired: seq<I>)

  function FirstOps<I>(callbacks: seq<seq<Op<I>>>): seq<Op<I>> {
    if callbacks == [] then [] else callbacks[0]
  }

  function RestOps<I>(callbacks: seq<seq<Op<I>>>): seq<seq<Op<I>>> {
    if callbacks == [] then [] else callbacks[1..]
  }

  /** `unrefTimeout`: the loop of the handler, whose callbacks do one after the other what the
      list says. */
  function Fire<I(==)>(s: State<I>, now: int, callbacks: seq<seq<Op<I>>>): Pass<I>
    requires AllNotBefore(callbacks, now)
    decreases Due(s.queue, now)
  {
    if s.queue == [] then Pass(s.(when := -1), [])
    else if now - s.queue[0].start < s.queue[0].timeout then Pass(s.(when := Expiry(s.queue[0]), armed := true), [])
    else
      var s1 := s.(queue := s.queue[1..]);
      DueApplyAll(s1, FirstOps(callbacks), now);
      var p := Fire(ApplyAll(s1, FirstOps(callbacks)), now, RestOps(callbacks));
      p.(fired := [s.queue[0].item] + p.fired)
  }

  /** The underlying timer fires, and so is not armed any more. */
  function OnTimer<I(==)>(s: State<I>, now: int, callbacks: seq<seq<Op<I>>>): Pass<I>
    requires AllNotBefore(callbacks, now)
  {
    Fire(s.(armed := false), now, callbacks)
  }

  // ---------------------------------------------------------------- the invariant

  predicate Sorted<I>(q: seq<Entry<I>>) {
    forall i, j :: 0 <= i < j < |q| ==> Expiry(q[i]) <= Expiry(q[j])
  }

  predicate Distinct<I(==)>(q: seq<Entry<I>>) {
    forall i, j :: 0 <= i < j < |q| ==> q[i].item != q[j].item
  }

  predicate Enrolled<I(==)>(q: seq<Entry<I>>, timeouts: map<I, int>) {
    forall i :: 0 <= i < |q| ==> q[i].item in timeouts && timeouts[q[i].item] == q[i].timeout > 0
  }

  /** The list is sorted by expiry, without doubles, and the underlying timer is not set to
      a time after the first expiry. */
  predicate Sound<I(==)>(s: State<I>) {
    && Sorted(s.queue) && Distinct(s.queue) && Enrolled(s.queue, s.timeouts)
    && (s.queue != [] ==> s.when <= Expiry(s.queue[0]))
  }

  predicate Armed<I>(s: State<I>) {
    s.queue != [] ==> s.armed
  }

  /** What is left by `Without`: a part of the list, and nothing of the item. */
  lemma {:induction false} WithoutPart<I>(q: seq<Entry<I>>, item: I)
    ensures forall x :: x in Without(q, item) ==> x in q && x.item != item
  {
    if q != [] {
      WithoutPart(q[1..], item);
    }
  }

  /** Everything else is left. */
  lemma {:induction false} WithoutRest<I>(q: seq<Entry<I>>, item: I, x: Entry<I>)
    requires x in q && x.item != item
    ensures x in Without(q, item)
  {
    if q[0] != x {
      WithoutRest(q[1..], item, x);
    }
  }

  lemma SortedCons<I>(e: Entry<I>, q: seq<Entry<I>>)
    requires Sorted(q) && (forall x :: x in q ==> Expiry(e) <= Expiry(x))
    ensures Sorted([e] + q)
  {}

  lemma SortedHead<I>(q: seq<Entry<I>>)
    requires Sorted(q) && q != []
    ensures Sorted(q[1..]) && (forall x :: x in q ==> Expiry(q[0]) <= Expiry(x))
  {}

  lemma {:induction false} WithoutSorted<I>(q: seq<Entry<I>>, item: I)
    requires Sorted(q)
    ensures Sorted(Without(q, item))
  {
    if q != [] {
      SortedHead(q);
      WithoutSorted(q[1..], item);
      WithoutPart(q[1..], item);
      if q[0].item != item {
        SortedCons(q[0], Without(q[1..], item));
      }
    }
  }

  predicate Absent<I(==)>(q: seq<Entry<I>>, item: I) {
    forall x :: x in q ==> x.item != item
  }

  lemma DistinctCons<I>(e: Entry<I>, q: seq<Entry<I>>)
    ensures Distinct([e] + q) <==> Distinct(q) && Absent(q, e.item)
  {
    if Distinct([e] + q) {
      forall i, j | 0 <= i < j < |q| ensures q[i].item != q[j].item {
        assert q[i] == ([e] + q)[i + 1] && q[j] == ([e] + q)[j + 1];
      }
      forall x | x in q ensures x.item != e.item {
        var k :| 0 <= k < |q| && q[k] == x;
        assert ([e] + q)[0] == e && ([e] + q)[k + 1] == x;
      }
    }
  }

  lemma {:induction false} WithoutDistinct<I>(q: seq<Entry<I>>, item: I)
    requires Distinct(q)
    ensures Distinct(Without(q, item))
  {
    if q != [] {
      assert q == [q[0]] + q[1..];
      DistinctCons(q[0], q[1..]);
      WithoutDistinct(q[1..], item);
      WithoutPart(q[1..], item);
      if q[0].item != item {
        DistinctCons(q[0], Without(q[1..], item));
      }
    }
  }

  /** `Place` puts the entry among the others. */
  lemma {:induction false} PlaceMembers<I>(q: seq<Entry<I>>, e: Entry<I>)
    ensures Place(q, e) != []
    ensures forall x :: x in Place(q, e) ==> x in q || x == e
    ensures forall x :: x in q ==> x in Place(q, e)
    ensures e in Place(q, e)
  {
    if q != [] && !(Expiry(e) < Expiry(q[0])) {
      PlaceMembers(q[1..], e);
    }
  }

  /** Where that is: behind everything that expires as early or earlier, so items with the same expiry come in
      the order in which they were activated. */
  lemma {:induction false} PlacedBehind<I>(q: seq<Entry<I>>, e: Entry<I>) returns (k: nat)
    requires Sorted(q)
    ensures k <= |q| && Place(q, e) == q[..k] + [e] + q[k..]
    ensures forall i :: 0 <= i < k ==> Expiry(q[i]) <= Expiry(e)
    ensures forall i :: k <= i < |q| ==> Expiry(q[i]) > Expiry(e)
  {
    if q == [] || Expiry(e) < Expiry(q[0]) {
      k := 0;
    } else {
      SortedHead(q);
      var k' := PlacedBehind(q[1..], e);
      k := k' + 1;
      assert q[..k] == [q[0]] + q[1..][..k'] && q[k..] == q[1..][k'..];
    }
  }

  lemma {:induction false} PlaceSorted<I>(q: seq<Entry<I>>, e: Entry<I>)
    requires Sorted(q)
    ensures Sorted(Place(q, e))
  {
    if q == [] {
    } else {
      SortedHead(q);
      if Expiry(e) < Expiry(q[0]) {
        SortedCons(e, q);
      } else {
        PlaceSorted(q[1..], e);
        PlaceMembers(q[1..], e);
        assert forall x :: x in q[1..] ==> x in q;
        SortedCons(q[0], Place(q[1..], e));
      }
    }
  }

  lemma {:induction false} PlaceDistinct<I>(q: seq<Entry<I>>, e: Entry<I>)
    requires Distinct(q) && Absent(q, e.item)
    ensures Distinct(Place(q, e))
  {
    if q == [] {
    } else {
      assert q == [q[0]] + q[1..];
      DistinctCons(q[0], q[1..]);
      if Expiry(e) < Expiry(q[0]) {
        DistinctCons(e, q);
      } else {
        PlaceDistinct(q[1..], e);
        PlaceMembers(q[1..], e);
        DistinctCons(q[0], Place(q[1..], e));
      }
    }
  }

  lemma PlaceFirst<I>(q: seq<Entry<I>>, e: Entry<I>)
    requires q != []
    ensures Place(q, e)[0] == if Expiry(e) < Expiry(q[0]) then e else q[0]
  {}

  /** Taking an item out keeps the invariant; the timer is then perhaps set too early. */
  lemma WithoutSound<I>(s: State<I>, item: I)
    requires Sound(s)
    ensures Sound(s.(queue := Without(s.queue, item))) && Absent(Without(s.queue, item), item)
    ensures Without(s.queue, item) != [] ==> s.queue != []
  {
    WithoutPart(s.queue, item);
    WithoutSorted(s.queue, item);
    WithoutDistinct(s.queue, item);
    var q := Without(s.queue, item);
    forall i | 0 <= i < |q| ensures q[i] in s.queue {
      assert q[i] in q;
    }
    if q != [] {
      SortedHead(s.queue);
      assert q[0] in s.queue;
    }
  }

  lemma InsertSound<I>(s: State<I>, e: Entry<I>)
    requires Sound(s) && Absent(s.queue, e.item) && e.item in s.timeouts && s.timeouts[e.item] == e.timeout > 0
    ensures Sound(Insert(s, e)) && (Armed(s) ==> Armed(Insert(s, e)))
  {
    if s.queue != [] {
      PlaceSorted(s.queue, e);
      PlaceDistinct(s.queue, e);
      PlaceMembers(s.queue, e);
      PlaceFirst(s.queue, e);
      var q := Place(s.queue, e);
      forall i | 0 <= i < |q| ensures q[i] in s.queue || q[i] == e {
        assert q[i] in q;
      }
      if Expiry(e) < Expiry(s.queue[0]) {
        assert Goes(s.queue, e);
      }
    }
  }

  lemma TimeoutsSound<I>(s: State<I>, item: I, msecs: int)
    requires Sound(s) && Absent(s.queue, item)
    ensures Sound(s.(timeouts := s.timeouts[item := msecs]))
  {
    forall i | 0 <= i < |s.queue| ensures s.queue[i].item != item {
      assert s.queue[i] in s.queue;
    }
  }

  /** Every call keeps the list sorted, and the timer set and armed for its first item. */
  lemma ApplyKeeps<I>(s: State<I>, op: Op<I>)
    requires Sound(s)
    ensures Sound(Apply(s, op)) && (Armed(s) ==> Armed(Apply(s, op)))
  {
    var s1 := s.(queue := Without(s.queue, op.item));
    WithoutSound(s, op.item);
    match op {
      case Enroll(item, msecs) => TimeoutsSound(s1, item, if msecs > MAX_TIMEOUT then MAX_TIMEOUT else msecs);
      case Unenroll(item) => TimeoutsSound(s1, item, -1);
      case Activate(item, now) =>
        if item in s.timeouts && s.timeouts[item] > 0 {
          InsertSound(s1, Entry(item, now, s.timeouts[item]));
        }
    }
  }

  /** A call takes out no other item, and an activated item is in the list with its expiry. */
  lemma OthersStay<I>(s: State<I>, op: Op<I>)
    ensures forall x :: x in s.queue && x.item != op.item ==> x in Apply(s, op).queue
    ensures op.Activate? && op.item in s.timeouts && s.timeouts[op.item] > 0 ==>
      Entry(op.item, op.now, s.timeouts[op.item]) in Apply(s, op).queue
  {
    forall x | x in s.queue && x.item != op.item ensures x in Without(s.queue, op.item) {
      WithoutRest(s.queue, op.item, x);
    }
    if op.Activate? && op.item in s.timeouts {
      PlaceMembers(Without(s.queue, op.item), Entry(op.item, op.now, s.timeouts[op.item]));
    }
  }

  lemma {:induction false} ApplyAllKeeps<I>(s: State<I>, ops: seq<Op<I>>)
    requires Sound(s)
    ensures Sound(ApplyAll(s, ops)) && (Armed(s) ==> Armed(ApplyAll(s, ops)))
  {
    if ops != [] {
      ApplyAllKeeps(s, ops[..|ops| - 1]);
      ApplyKeeps(ApplyAll(s, ops[..|ops| - 1]), ops[|ops| - 1]);
    }
  }

  /** The call puts the item into the list. */
  predicate Takes<I(==)>(s: State<I>, op: Op<I>) {
    op.Activate? && op.item in s.timeouts && s.timeouts[op.item] > 0
  }

  lemma GoesFirst<I>(q: seq<Entry<I>>, e: Entry<I>)
    requires Sorted(q) && q != [] && !Goes(q, e)
    ensures Expiry(q[0]) <= Expiry(e)
  {}

  /** The timer is started only for an item that is activated, and for exactly its expiry: when nothing else
      waits, or when it was set to a later time. */
  lemma StartedFor<I>(s: State<I>, op: Op<I>)
    requires Sound(s)
    ensures var r := Apply(s, op);
      if !Takes(s, op) then r.when == s.when && r.armed == s.armed
      else
        var expiry := op.now + s.timeouts[op.item];
        if Without(s.queue, op.item) == [] || expiry < s.when then r.when == expiry && r.armed
        else r.when == s.when && r.armed == s.armed
  {
    WithoutSound(s, op.item);
    if Takes(s, op) {
      var q := Without(s.queue, op.item);
      var e := Entry(op.item, op.now, s.timeouts[op.item]);
      if q != [] && !Goes(q, e) {
        GoesFirst(q, e);
      }
    }
  }

  /** After `unenroll` an item that is activated does not come back, and the timer is left alone. */
  lemma UnenrolledStaysOut<I>(s: State<I>, item: I, now: int)
    ensures var r := Apply(s, Unenroll(item)); Apply(r, Activate(item, now)) == r && Absent(r.queue, item)
  {
    WithoutPart(s.queue, item);
  }

  predicate Capped<I(!new)>(timeouts: map<I, int>) {
    forall item :: item in timeouts ==> timeouts[item] <= MAX_TIMEOUT
  }

  lemma ApplyCapped<I(!new)>(s: State<I>, op: Op<I>)
    requires Capped(s.timeouts)
    ensures Capped(Apply(s, op).timeouts)
    ensures op.Enroll? && op.msecs <= MAX_TIMEOUT ==> Apply(s, op).timeouts == s.timeouts[op.item := op.msecs]
    ensures op.Enroll? && op.msecs > MAX_TIMEOUT ==> Apply(s, op).timeouts == s.timeouts[op.item := MAX_TIMEOUT]
  {}

  lemma {:induction false} ApplyAllCapped<I(!new)>(s: State<I>, ops: seq<Op<I>>)
    requires Capped(s.timeouts)
    ensures Capped(ApplyAll(s, ops).timeouts)
  {
    if ops != [] {
      ApplyAllCapped(s, ops[..|ops| - 1]);
      ApplyCapped(ApplyAll(s, ops[..|ops| - 1]), ops[|ops| - 1]);
    }
  }

  // ---------------------------------------------------------------- a pass of the handler

  /**
   After a pass of the handler nothing is left that had expired when it began, the timer is
   armed for exactly the first item, and the invariant holds, whatever the callbacks did.
   */
  lemma {:induction false} FireKeeps<I>(s: State<I>, now: int, callbacks: seq<seq<Op<I>>>)
    requires Sound(s) && AllNotBefore(callbacks, now)
    ensures var r := Fire(s, now, callbacks).state;
      && Sound(r) && Armed(r)
      && (forall x :: x in r.queue ==> Expiry(x) > now)
      && (r.queue != [] ==> r.when == Expiry(r.queue[0])) && (r.queue == [] ==> r.when == -1)
    decreases Due(s.queue, now)
  {
    if s.queue == [] {
    } else if now - s.queue[0].start < s.queue[0].timeout {
      SortedHead(s.queue);
    } else {
      var s1 := s.(queue := s.queue[1..]);
      SortedHead(s.queue);
      TailSound(s);
      DueApplyAll(s1, FirstOps(callbacks), now);
      ApplyAllKeeps(s1, FirstOps(callbacks));
      FireKeeps(ApplyAll(s1, FirstOps(callbacks)), now, RestOps(callbacks));
    }
  }

  lemma TailSound<I>(s: State<I>)
    requires Sound(s) && s.queue != []
    ensures Sound(s.(queue := s.queue[1..]))
  {
    SortedHead(s.queue);
    assert s.queue[1..] != [] ==> s.queue[1..][0] in s.queue;
  }

  /** The expired entries; in a sorted list they come first. */
  function ExpiredItems<I>(q: seq<Entry<I>>, now: int): seq<I> {
    if q == [] || Expiry(q[0]) > now then [] else [q[0].item] + ExpiredItems(q[1..], now)
  }

  function NotExpired<I>(q: seq<Entry<I>>, now: int): seq<Entry<I>> {
    if q == [] || Expiry(q[0]) > now then q else NotExpired(q[1..], now)
  }

  /** If the callbacks leave the timers alone, exactly the expired items fire, the earliest
      expiry first, and the others stay. */
  lemma {:induction false} FireExact<I>(s: State<I>, now: int)
    requires Sound(s)
    ensures Fire(s, now, []).fired == ExpiredItems(s.queue, now)
    ensures Fire(s, now, []).state.queue == NotExpired(s.queue, now)
    decreases |s.queue|
  {
    if s.queue != [] && Expiry(s.queue[0]) <= now {
      TailSound(s);
      var s1 := s.(queue := s.queue[1..]);
      FireExact(s1, now);
      var none: seq<Op<I>> := [];
      assert ApplyAll(s1, none) == s1;
    }
  }

  // ---------------------------------------------------------------- each item fires at most once

  /** `a` is `b` with some items left out. */
  predicate Within<I(==)>(a: seq<I>, b: seq<I>)
    decreases |b|
  {
    a == [] || (b != [] && ((a[0] == b[0] && Within(a[1..], b[1..])) || Within(a, b[1..])))
  }

  lemma {:induction false} WithinSelf<I>(a: seq<I>)
    ensures Within(a, a)
  {
    if a != [] {
      WithinSelf(a[1..]);
    }
  }

  lemma {:induction false} WithinTrans<I>(a: seq<I>, b: seq<I>, c: seq<I>)
    requires Within(a, b) && Within(b, c)
    ensures Within(a, c)
    decreases |b| + |c|
  {
    if a != [] {
      if b[0] == c[0] && Within(b[1..], c[1..]) {
        if a[0] == b[0] && Within(a[1..], b[1..]) {
          WithinTrans(a[1..], b[1..], c[1..]);
        } else {
          WithinTrans(a, b[1..], c[1..]);
        }
      } else {
        WithinTrans(a, b, c[1..]);
      }
    }
  }

  lemma WithinCons<I>(x: I, a: seq<I>, b: seq<I>)
    requires Within(a, b)
    ensures Within([x] + a, [x] + b) && Within(a, [x] + b)
  {
    assert ([x] + a)[1..] == a && ([x] + b)[1..] == b;
  }

  lemma NoneExpired<I>(q: seq<Entry<I>>, now: int)
    requires forall x :: x in q ==> Expiry(x) > now
    ensures ExpiredItems(q, now) == []
  {}

  lemma {:induction false} WithoutExpired<I>(q: seq<Entry<I>>, item: I, now: int)
    requires Sorted(q)
    ensures Within(ExpiredItems(Without(q, item), now), ExpiredItems(q, now))
  {
    if q != [] {
      SortedHead(q);
      if Expiry(q[0]) > now {
        WithoutPart(q, item);
        NoneExpired(Without(q, item), now);
      } else {
        WithoutExpired(q[1..], item, now);
        WithinCons(q[0].item, ExpiredItems(Without(q[1..], item), now), ExpiredItems(q[1..], now));
        assert ([q[0]] + Without(q[1..], item))[1..] == Without(q[1..], item);
      }
    }
  }

  lemma {:induction false} PlaceExpired<I>(q: seq<Entry<I>>, e: Entry<I>, now: int)
    requires Expiry(e) > now && Sorted(q)
    ensures ExpiredItems(Place(q, e), now) == ExpiredItems(q, now)
  {
    if q == [] {
    } else {
      SortedHead(q);
      if Expiry(e) < Expiry(q[0]) {
      } else {
        PlaceExpired(q[1..], e, now);
        assert ([q[0]] + Place(q[1..], e))[1..] == Place(q[1..], e);
      }
    }
  }

  lemma ApplyExpired<I>(s: State<I>, op: Op<I>, now: int)
    requires Sound(s) && (op.Activate? ==> op.now >= now)
    ensures Within(ExpiredItems(Apply(s, op).queue, now), ExpiredItems(s.queue, now))
  {
    WithinSelf(ExpiredItems(s.queue, now));
    WithoutExpired(s.queue, op.item, now);
    WithoutSorted(s.queue, op.item);
    if op.Activate? && op.item in s.timeouts && s.timeouts[op.item] > 0 {
      PlaceExpired(Without(s.queue, op.item), Entry(op.item, op.now, s.timeouts[op.item]), now);
    }
  }

  lemma {:induction false} ApplyAllExpired<I>(s: State<I>, ops: seq<Op<I>>, now: int)
    requires Sound(s) && NotBefore(ops, now)
    ensures Within(ExpiredItems(ApplyAll(s, ops).queue, now), ExpiredItems(s.queue, now))
  {
    if ops == [] {
      WithinSelf(ExpiredItems(s.queue, now));
    } else {
      var s1 := ApplyAll(s, ops[..|ops| - 1]);
      ApplyAllExpired(s, ops[..|ops| - 1], now);
      ApplyAllKeeps(s, ops[..|ops| - 1]);
      ApplyExpired(s1, ops[|ops| - 1], now);
      WithinTrans(ExpiredItems(ApplyAll(s, ops).queue, now), ExpiredItems(s1.queue, now), ExpiredItems(s.queue, now));
    }
  }

  /** Whatever the callbacks do, only items fire that had expired when the pass began, each at
      most once, and the earliest expiry first. */
  lemma {:induction false} FiresOnce<I>(s: State<I>, now: int, callbacks: seq<seq<Op<I>>>)
    requires Sound(s) && AllNotBefore(callbacks, now)
    ensures Within(Fire(s, now, callbacks).fired, ExpiredItems(s.queue, now))
    decreases Due(s.queue, now)
  {
    if s.queue == [] {
    } else if now - s.queue[0].start < s.queue[0].timeout {
    } else {
      var s1 := s.(queue := s.queue[1..]);
      var s2 := ApplyAll(s1, FirstOps(callbacks));
      TailSound(s);
      DueApplyAll(s1, FirstOps(callbacks), now);
      ApplyAllKeeps(s1, FirstOps(callbacks));
      ApplyAllExpired(s1, FirstOps(callbacks), now);
      FiresOnce(s2, now, RestOps(callbacks));
      var fired := Fire(s2, now, RestOps(callbacks)).fired;
      WithinTrans(fired, ExpiredItems(s2.queue, now), ExpiredItems(s1.queue, now));
      WithinCons(s.queue[0].item, fired, ExpiredItems(s1.queue, now));
    }
  }

  lemma {:induction false} ExpiredDistinct<I>(q: seq<Entry<I>>, now: int)
    requires Distinct(q)
    ensures forall i, j :: 0 <= i < j < |ExpiredItems(q, now)| ==> ExpiredItems(q, now)[i] != ExpiredItems(q, now)[j]
    ensures forall x :: x in ExpiredItems(q, now) ==> exists k :: 0 <= k < |q| && q[k].item == x
  {
    if q != [] && Expiry(q[0]) <= now {
      assert q == [q[0]] + q[1..];
      DistinctCons(q[0], q[1..]);
      ExpiredDistinct(q[1..], now);
      var rest := ExpiredItems(q[1..], now);
      forall x | x in rest ensures x != q[0].item && exists k :: 0 <= k < |q| && q[k].item == x {
        var k :| 0 <= k < |q[1..]| && q[1..][k].item == x;
        assert q[k + 1].item == x && q[1..][k] in q[1..];
      }
      var all := ExpiredItems(q, now);
      forall i, j | 0 <= i < j < |all| ensures all[i] != all[j] {
        assert all[j] == rest[j - 1] && rest[j - 1] in rest;
        assert i > 0 ==> all[i] == rest[i - 1];
      }
    }
  }

  // ---------------------------------------------------------------- runs

  datatype Event<I> = Call(op: Op<I>) | Timer(now: int, callbacks: seq<seq<Op<I>>>)

  /** The timer fires only while it is armed. */
  predicate Possible<I>(s: State<I>, ev: Event<I>) {
    ev.Timer? ==> s.armed && AllNotBefore(ev.callbacks, ev.now)
  }

  function Step<I(==)>(s: State<I>, ev: Event<I>): State<I>
    requires Possible(s, ev)
  {
    match ev
    case Call(op) => Apply(s, op)
    case Timer(now, callbacks) => OnTimer(s, now, callbacks).state
  }

  function After<I(==)>(evs: seq<Event<I>>): State<I> {
    if evs == [] then NewState()
    else
      var s := After(evs[..|evs| - 1]);
      if Possible(s, evs[|evs| - 1]) then Step(s, evs[|evs| - 1]) else s
  }

  /** Between any two events of any run the list is sorted, and while it is not empty the timer
      is armed for a time that is not after the first expiry. */
  lemma {:induction false} NeverLate<I>(evs: seq<Event<I>>)
    ensures Sound(After(evs)) && Armed(After(evs))
  {
    if evs != [] {
      NeverLate(evs[..|evs| - 1]);
      var s := After(evs[..|evs| - 1]);
      match evs[|evs| - 1] {
        case Call(op) => ApplyKeeps(s, op);
        case Timer(now, callbacks) =>
          if Possible(s, evs[|evs| - 1]) { FireKeeps(s.(armed := false), now, callbacks); }
      }
    }
  }

  lemma {:induction false} FireCapped<I(!new)>(s: State<I>, now: int, callbacks: seq<seq<Op<I>>>)
    requires Capped(s.timeouts) && AllNotBefore(callbacks, now)
    ensures Capped(Fire(s, now, callbacks).state.timeouts)
    decreases Due(s.queue, now)
  {
    if s.queue != [] && !(now - s.queue[0].start < s.queue[0].timeout) {
      var s1 := s.(queue := s.queue[1..]);
      DueApplyAll(s1, FirstOps(callbacks), now);
      ApplyAllCapped(s1, FirstOps(callbacks));
      FireCapped(ApplyAll(s1, FirstOps(callbacks)), now, RestOps(callbacks));
    }
  }

  /** On every run no timeout is longer than the longest the timer can be started for. */
  lemma {:induction false} NeverTooLong<I(!new)>(evs: seq<Event<I>>)
    ensures Capped(After(evs).timeouts)
  {
    if evs != [] {
      NeverTooLong(evs[..|evs| - 1]);
      var s := After(evs[..|evs| - 1]);
      match evs[|evs| - 1] {
        case Call(op) => ApplyCapped(s, op);
        case Timer(now, callbacks) =>
          if Possible(s, evs[|evs| - 1]) { FireCapped(s.(armed := false), now, callbacks); }
      }
    }
  }
}
