/**
 A step that is taken again and again until there is nothing to do, which may be never.
 `step(s)` is None where it stops.
 */
module Recursion {
  import opened Prelude

  /** Where it stops, if that is after at most n steps. */
  function Rounds<S>(step: S -> Option<S>, s: S, n: nat): Option<S>
    decreases n
  {
    match step(s)
    case None => Some(s)
    case Some(t) => if n == 0 then None else Rounds(step, t, n - 1)
  }

  ghost predicate Ends<S>(step: S -> Option<S>, s: S) {
    exists n: nat :: Rounds(step, s, n).Some?
  }

  /** Where it stops; None if it never does. */
  ghost function Settle<S>(step: S -> Option<S>, s: S): Option<S> {
    if Ends(step, s) then
      var n: nat :| Rounds(step, s, n).Some?;
      Rounds(step, s, n)
    else None
  }

  lemma {:induction false} MoreRounds<S>(step: S -> Option<S>, s: S, n: nat, m: nat)
    requires Rounds(step, s, n).Some? && n <= m
    ensures Rounds(step, s, m) == Rounds(step, s, n)
    decreases n
  {
    if step(s).Some? {
      MoreRounds(step, step(s).value, n - 1, m - 1);
    }
  }

  lemma SettleIs<S>(step: S -> Option<S>, s: S, n: nat)
    requires Rounds(step, s, n).Some?
    ensures Settle(step, s) == Rounds(step, s, n)
  {
    var m: nat :| Rounds(step, s, m).Some? && Settle(step, s) == Rounds(step, s, m);
    MoreRounds(step, s, n, if n <= m then m else n);
    MoreRounds(step, s, m, if n <= m then m else n);
  }

  lemma EndsStep<S>(step: S -> Option<S>, s: S)
    requires step(s).Some?
    ensures Ends(step, s) <==> Ends(step, step(s).value)
  {
    var t := step(s).value;
    if Ends(step, s) {
      var n: nat :| Rounds(step, s, n).Some?;
      assert Rounds(step, t, n - 1) == Rounds(step, s, n);
    }
    if Ends(step, t) {
      var n: nat :| Rounds(step, t, n).Some?;
      assert Rounds(step, s, n + 1) == Rounds(step, t, n);
    }
  }

  /** One step does not change where it stops, or that it does. */
  lemma SettleStep<S>(step: S -> Option<S>, s: S)
    ensures Settle(step, s) == match step(s) case None => Some(s) case Some(t) => Settle(step, t)
  {
    if step(s) == None {
      SettleIs(step, s, 0);
    } else {
      var t := step(s).value;
      EndsStep(step, s);
      if Ends(step, t) {
        var n: nat :| Rounds(step, t, n).Some?;
        SettleIs(step, t, n);
        SettleIs(step, s, n + 1);
      }
    }
  }

  // ---------------------------------------------------------------- what holds at every step

  /** The first n states from which a step is taken are such. */
  predicate AllFor<S>(step: S -> Option<S>, good: S -> bool, s: S, n: nat)
    decreases n
  {
    n == 0 || step(s) == None || (good(s) && AllFor(step, good, step(s).value, n - 1))
  }

  ghost predicate All<S>(step: S -> Option<S>, good: S -> bool, s: S) {
    forall n: nat :: AllFor(step, good, s, n)
  }

  lemma AllStep<S>(step: S -> Option<S>, good: S -> bool, s: S)
    requires step(s).Some?
    ensures All(step, good, s) <==> good(s) && All(step, good, step(s).value)
  {
    var t := step(s).value;
    if All(step, good, s) {
      assert AllFor(step, good, s, 1);
      forall n: nat ensures AllFor(step, good, t, n) {
        assert AllFor(step, good, s, n + 1);
      }
    }
    if good(s) && All(step, good, t) {
      forall n: nat ensures AllFor(step, good, s, n) {
        assert n > 0 ==> AllFor(step, good, t, n - 1);
      }
    }
  }

  lemma {:induction false} AllForWeaker<S(!new)>(step: S -> Option<S>, good: S -> bool, better: S -> bool,
                                                 inv: S -> bool, s: S, n: nat)
    requires inv(s) && AllFor(step, better, s, n)
    requires forall x :: inv(x) && step(x).Some? ==> inv(step(x).value) && (better(x) ==> good(x))
    ensures AllFor(step, good, s, n)
    decreases n
  {
    if n > 0 && step(s).Some? {
      AllForWeaker(step, good, better, inv, step(s).value, n - 1);
    }
  }

  lemma AllWeaker<S(!new)>(step: S -> Option<S>, good: S -> bool, better: S -> bool, inv: S -> bool, s: S)
    requires inv(s) && All(step, better, s)
    requires forall x :: inv(x) && step(x).Some? ==> inv(step(x).value) && (better(x) ==> good(x))
    ensures All(step, good, s)
  {
    forall n: nat ensures AllFor(step, good, s, n) {
      AllForWeaker(step, good, better, inv, s, n);
    }
  }

  // ---------------------------------------------------------------- when it stops

  lemma {:induction false} SteadyEnds<S(!new)>(step: S -> Option<S>, steady: S -> bool, size: S -> nat, s: S)
    requires All(step, steady, s)
    requires forall x :: steady(x) && step(x).Some? ==> size(step(x).value) < size(x)
    ensures Ends(step, s)
    decreases size(s)
  {
    if step(s) == None {
      assert Rounds(step, s, 0).Some?;
    } else {
      AllStep(step, steady, s);
      SteadyEnds(step, steady, size, step(s).value);
      EndsStep(step, s);
    }
  }

  lemma {:induction false} EndingIsSteady<S(!new)>(step: S -> Option<S>, good: S -> bool, steady: S -> bool,
                                                   inv: S -> bool, s: S, n: nat)
    requires inv(s) && All(step, good, s) && Ends(step, s)
    requires forall x :: inv(x) && step(x).Some? ==> inv(step(x).value)
    requires forall x :: inv(x) && step(x).Some? && good(x) && Ends(step, x) ==> steady(x)
    ensures AllFor(step, steady, s, n)
    decreases n
  {
    if n > 0 && step(s).Some? {
      AllStep(step, good, s);
      EndsStep(step, s);
      EndingIsSteady(step, good, steady, inv, step(s).value, n - 1);
    }
  }

  /** If steady steps make the state smaller, and from a state whose step is not steady it never
      stops, it stops if and only if every step is steady. */
  lemma EndsIff<S(!new)>(step: S -> Option<S>, good: S -> bool, steady: S -> bool, inv: S -> bool,
                         size: S -> nat, s: S)
    requires inv(s) && All(step, good, s)
    requires forall x :: inv(x) && step(x).Some? ==> inv(step(x).value)
    requires forall x :: steady(x) && step(x).Some? ==> size(step(x).value) < size(x)
    requires forall x :: inv(x) && step(x).Some? && good(x) && Ends(step, x) ==> steady(x)
    ensures Ends(step, s) <==> All(step, steady, s)
  {
    if All(step, steady, s) {
      SteadyEnds(step, steady, size, s);
    }
    if Ends(step, s) {
      forall n: nat ensures AllFor(step, steady, s, n) {
        EndingIsSteady(step, good, steady, inv, s, n);
      }
    }
  }

  lemma {:induction false} CycleRounds<S(!new)>(step: S -> Option<S>, again: S -> bool, s: S, n: nat)
    requires again(s)
    requires forall x :: again(x) ==> step(x).Some? && step(step(x).value).Some? && again(step(step(x).value).value)
    ensures Rounds(step, s, n) == None
    decreases n
  {
    if n >= 2 {
      CycleRounds(step, again, step(step(s).value).value, n - 2);
    }
  }

  /** It never stops where every second state is such again. */
  lemma Cycle<S(!new)>(step: S -> Option<S>, again: S -> bool, s: S)
    requires again(s)
    requires forall x :: again(x) ==> step(x).Some? && step(step(x).value).Some? && again(step(step(x).value).value)
    ensures !Ends(step, s)
  {
    forall n: nat ensures Rounds(step, s, n) == None {
      CycleRounds(step, again, s, n);
    }
  }

  // ---------------------------------------------------------------- more that comes later

  /** Steps may be taken before or after something is added. */
  ghost predicate Commutes<S(!new)>(step: S -> Option<S>, good: S -> bool, inv: S -> bool, more: S -> S) {
    forall x :: inv(x) && step(x).Some? ==>
      step(more(x)).Some? && (good(more(x)) ==> inv(step(x).value) && step(more(x)) == Some(more(step(x).value)))
  }

  lemma {:induction false} RoundsBefore<S(!new)>(step: S -> Option<S>, good: S -> bool, inv: S -> bool,
                                                 more: S -> S, s: S, n: nat)
    requires inv(s) && Commutes(step, good, inv, more) && All(step, good, more(s))
    requires Rounds(step, more(s), n).Some?
    ensures Ends(step, s)
    decreases n
  {
    if step(s) == None {
      assert Rounds(step, s, 0).Some?;
    } else {
      AllStep(step, good, more(s));
      RoundsBefore(step, good, inv, more, step(s).value, n - 1);
      EndsStep(step, s);
    }
  }

  lemma {:induction false} SettleBefore<S(!new)>(step: S -> Option<S>, good: S -> bool, inv: S -> bool,
                                                 more: S -> S, s: S, n: nat)
    requires inv(s) && Commutes(step, good, inv, more) && All(step, good, more(s))
    requires Rounds(step, s, n).Some?
    ensures var q := Rounds(step, s, n).value;
      inv(q) && step(q) == None && All(step, good, more(q)) && Settle(step, more(s)) == Settle(step, more(q))
    decreases n
  {
    if step(s).Some? {
      AllStep(step, good, more(s));
      SettleStep(step, more(s));
      SettleBefore(step, good, inv, more, step(s).value, n - 1);
    }
  }

  /** So it stops with more if and only if it stops without and then with more, and in the same place. */
  lemma SettleMore<S(!new)>(step: S -> Option<S>, good: S -> bool, inv: S -> bool, more: S -> S, s: S)
    requires inv(s) && Commutes(step, good, inv, more) && All(step, good, more(s))
    ensures Settle(step, more(s)) == match Settle(step, s) case None => None case Some(q) => Settle(step, more(q))
    ensures Settle(step, s).Some? ==>
      var q := Settle(step, s).value; inv(q) && step(q) == None && All(step, good, more(q))
  {
    if Ends(step, s) {
      var n: nat :| Rounds(step, s, n).Some?;
      SettleIs(step, s, n);
      SettleBefore(step, good, inv, more, s, n);
    } else if Ends(step, more(s)) {
      var n: nat :| Rounds(step, more(s), n).Some?;
      RoundsBefore(step, good, inv, more, s, n);
    }
  }
}
