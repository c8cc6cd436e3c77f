/** The circular doubly linked list of lib/_linklist.js. */
module LinkList {
  /** An object that was made fit for the list; the timers keep their numbers in it too. */
  class Node {
    var idleNext: Node?
    var idlePrev: Node?
    var idleStart: int
    var idleTimeout: int

    constructor ()
      ensures Detached(this) && idleStart == 0 && idleTimeout == 0
    {
      idleNext, idlePrev, idleStart, idleTimeout := null, null, 0, 0;
    }
  }

  ghost predicate Detached(n: Node)
    reads n
  {
    n.idleNext == null && n.idlePrev == null
  }

  ghost predicate Unique(s: seq<Node>) {
    forall i, j :: 0 <= i < j < |s| ==> s[i] != s[j]
  }

  /** The number that comes after i, going round. */
  function Turn(i: nat, n: nat): nat
    requires i < n
  {
    if i + 1 < n then i + 1 else 0
  }

  function Back(i: nat, n: nat): nat
    requires i < n
  {
    if i == 0 then n - 1 else i - 1
  }

  /** The list object and its items, in the order of `_idlePrev`. */
  ghost predicate Ring(s: seq<Node>)
    reads s
  {
    && s != [] && Unique(s)
    && (forall i :: 0 <= i < |s| ==> s[i].idlePrev == s[Turn(i, |s|)])
    && (forall i :: 0 <= i < |s| ==> s[i].idleNext == s[Back(i, |s|)])
  }

  function Cut<T>(s: seq<T>, k: nat): seq<T>
    requires k < |s|
  {
    s[..k] + s[k + 1..]
  }

  function Put<T>(s: seq<T>, k: nat, x: T): seq<T>
    requires k <= |s|
  {
    s[..k] + [x] + s[k..]
  }

  method Init(list: Node)
    modifies list`idleNext, list`idlePrev
    ensures Ring([list]) && list.idleNext == list && list.idlePrev == list
  {
    list.idleNext := list;
    list.idlePrev := list;
  }

  /** The first item, or null if there is none. */
  method Peek(list: Node, ghost ring: seq<Node>) returns (first: Node?)
    requires Ring(ring) && ring[0] == list
    ensures first == if |ring| == 1 then null else ring[1]
  {
    assert ring[0].idlePrev == ring[Turn(0, |ring|)];
    if list.idlePrev == list {
      return null;
    }
    return list.idlePrev;
  }

  method IsEmpty(list: Node, ghost ring: seq<Node>) returns (empty: bool)
    requires Ring(ring) && ring[0] == list
    ensures empty <==> |ring| == 1
  {
    assert ring[0].idleNext == ring[Back(0, |ring|)];
    empty := list.idleNext == list;
  }

  /** The item leaves its ring, if it is in one; that is not a ring of others that it heads. */
  method Remove(item: Node, ghost ring: seq<Node>, ghost k: nat)
    requires ring == [] ==> Detached(item)
    requires ring != [] ==> Ring(ring) && k < |ring| && ring[k] == item && (k > 0 || |ring| == 1)
    modifies ring, item
    ensures Detached(item)
    ensures |ring| > 1 ==> Ring(Cut(ring, k))
    ensures forall n :: n in ring || n == item ==>
      n.idleStart == old(n.idleStart) && n.idleTimeout == old(n.idleTimeout)
  {
    ghost var n := |ring|;
    assert n > 0 ==> item.idleNext == ring[Back(k, n)] && item.idlePrev == ring[Turn(k, n)];
    if item.idleNext != null {
      item.idleNext.idlePrev := item.idlePrev;
    }
    if item.idlePrev != null {
      item.idlePrev.idleNext := item.idleNext;
    }
    item.idleNext := null;
    item.idlePrev := null;
    if n > 1 {
      forall i | 0 <= i < n && i != k
        ensures ring[i].idlePrev == (if i == Back(k, n) then ring[Turn(k, n)] else ring[Turn(i, n)])
        ensures ring[i].idleNext == (if i == Turn(k, n) then ring[Back(k, n)] else ring[Back(i, n)])
      {
        RoundAbout(i, k, n);
      }
      CutRing(ring, k);
    }
  }

  lemma RoundAbout(i: nat, k: nat, n: nat)
    requires i < n && k < n && n > 1
    ensures Turn(i, n) == k <==> i == Back(k, n)
    ensures Back(i, n) == k <==> i == Turn(k, n)
    ensures Turn(k, n) != k && Back(k, n) != k
  {}

  lemma CutUnique(s: seq<Node>, k: nat)
    requires Unique(s) && k < |s|
    ensures Unique(Cut(s, k)) && s[k] !in Cut(s, k)
  {}

  /** Where the items are when one is left out. */
  function Shift(i: nat, k: nat): nat {
    if i < k then i else i + 1
  }

  lemma ShiftTurn(i: nat, k: nat, n: nat)
    requires n > 1 && k < n && i < n - 1
    ensures Shift(i, k) < n && Shift(i, k) != k
    ensures Shift(Turn(i, n - 1), k) == if Shift(i, k) == Back(k, n) then Turn(k, n) else Turn(Shift(i, k), n)
    ensures Shift(Back(i, n - 1), k) == if Shift(i, k) == Turn(k, n) then Back(k, n) else Back(Shift(i, k), n)
  {}

  lemma CutAt(s: seq<Node>, k: nat, i: nat)
    requires k < |s| && i < |s| - 1
    ensures Cut(s, k)[i] == s[Shift(i, k)]
  {}

  /** The neighbours of the item know each other, and so the others form a ring. */
  lemma CutRing(s: seq<Node>, k: nat)
    requires k < |s| && |s| > 1 && Unique(s)
    requires forall i :: 0 <= i < |s| && i != k ==>
      s[i].idlePrev == (if i == Back(k, |s|) then s[Turn(k, |s|)] else s[Turn(i, |s|)])
    requires forall i :: 0 <= i < |s| && i != k ==>
      s[i].idleNext == (if i == Turn(k, |s|) then s[Back(k, |s|)] else s[Back(i, |s|)])
    ensures Ring(Cut(s, k))
  {
    var c, n := Cut(s, k), |s|;
    CutUnique(s, k);
    forall i | 0 <= i < n - 1 ensures c[i].idlePrev == c[Turn(i, n - 1)] && c[i].idleNext == c[Back(i, n - 1)] {
      ShiftTurn(i, k, n);
      CutAt(s, k, i);
      CutAt(s, k, Turn(i, n - 1));
      CutAt(s, k, Back(i, n - 1));
    }
  }

  /** The item goes where it is reached just before the one that is at k, going round. */
  method Append(list: Node, item: Node, ghost ring: seq<Node>, ghost k: nat)
    requires Ring(ring) && k < |ring| && ring[k] == list && item !in ring && Detached(item)
    modifies ring, item
    ensures Ring(Put(ring, if k == 0 then |ring| else k, item))
    ensures forall n :: n in ring || n == item ==>
      n.idleStart == old(n.idleStart) && n.idleTimeout == old(n.idleTimeout)
  {
    ghost var p := if k == 0 then |ring| else k;
    ghost var n := |ring|;
    assert list.idleNext == ring[Back(k, n)];
    Remove(item, [], 0);
    item.idleNext := list.idleNext;
    list.idleNext.idlePrev := item;
    item.idlePrev := list;
    list.idleNext := item;
    forall j | 0 <= j < n
      ensures ring[j].idlePrev == (if j == Back(k, n) then item else ring[Turn(j, n)])
      ensures ring[j].idleNext == (if j == k then item else ring[Back(j, n)])
    {
      assert ring[j] != item;
    }
    PutRing(ring, k, p, item);
  }

  lemma PutUnique(s: seq<Node>, k: nat, x: Node)
    requires Unique(s) && k <= |s| && x !in s
    ensures Unique(Put(s, k, x))
  {}

  lemma ShiftPut(j: nat, k: nat, p: nat, n: nat)
    requires k < n && j < n && p == if k == 0 then n else k
    ensures var i := Shift(j, p);
      && i != p && i < n + 1
      && Turn(i, n + 1) == (if j == Back(k, n) then p else Shift(Turn(j, n), p))
      && Back(i, n + 1) == (if j == k then p else Shift(Back(j, n), p))
    ensures Turn(p, n + 1) == Shift(k, p) && Back(p, n + 1) == Shift(Back(k, n), p)
  {}

  /** The item and the two between which it was put know each other. */
  lemma PutRing(s: seq<Node>, k: nat, p: nat, x: Node)
    requires k < |s| && Unique(s) && x !in s && p == if k == 0 then |s| else k
    requires x.idlePrev == s[k] && x.idleNext == s[Back(k, |s|)]
    requires forall j :: 0 <= j < |s| ==> s[j].idlePrev == (if j == Back(k, |s|) then x else s[Turn(j, |s|)])
    requires forall j :: 0 <= j < |s| ==> s[j].idleNext == (if j == k then x else s[Back(j, |s|)])
    ensures Ring(Put(s, p, x))
  {
    var r, n := Put(s, p, x), |s|;
    PutUnique(s, p, x);
    forall i | 0 <= i < n + 1 ensures r[i].idlePrev == r[Turn(i, n + 1)] && r[i].idleNext == r[Back(i, n + 1)] {
      if i == p {
        ShiftPut(k, k, p, n);
        PutAt(s, p, x, k);
        PutAt(s, p, x, Back(k, n));
      } else {
        var j := if i < p then i else i - 1;
        ShiftPut(j, k, p, n);
        PutAt(s, p, x, j);
        PutAt(s, p, x, Turn(j, n));
        PutAt(s, p, x, Back(j, n));
      }
    }
  }

  lemma PutAt(s: seq<Node>, p: nat, x: Node, j: nat)
    requires p <= |s| && j < |s|
    ensures Put(s, p, x)[Shift(j, p)] == s[j] && Put(s, p, x)[p] == x
  {}
}
