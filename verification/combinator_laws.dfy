/** How the combinators relate to one another, and what RepMNParser does with
    its bounds as written and as evidently intended. */
module CombinatorLaws {
  import opened Options
  import opened Sequences
  import opened ParseResults
  import opened Literals
  import opened Grammars
  import opened MemoTables
  import opened Engine

  /** A `then` result with its pair replaced by the pair's right half. */
  function ProjectRight(r: Step): (p: Step)
    ensures p.OutOfFuel? == r.OutOfFuel?
    ensures r.Done? ==> p.Done? && p.st == r.st && p.res.rest == r.res.rest
    ensures r.Done? && r.res.Success? && r.res.value.PairOf? ==> p.res == Success(r.res.value.right, r.res.rest)
    ensures r.Done? && !r.res.Success? ==> p == r
  {
    if r.Done? && r.res.Success? && r.res.value.PairOf? then Done(Success(r.res.value.right, r.res.rest), r.st)
    else r
  }

  /** `thenRight` is `then` keeping only the second value: same kind, same
      rest, same table. */
  lemma {:induction false} ThenRightIsProjectedThen(g: Grammar, p: Expr, q: Expr, s: Sequence<char>, t: Table, fuel: nat)
    requires Ready(g, p, s, t) && CallsWithin(q, |g|)
    ensures ThenRightParse(g, p, q, s, t, fuel) == ProjectRight(ThenParse(g, p, q, s, t, fuel))
  {
  }

  /** A `then` succeeds exactly when both halves succeed in turn, the second
      from where the first stopped, and its value pairs theirs. */
  lemma {:induction false} ThenSucceedsIffBoth(g: Grammar, p: Expr, q: Expr, s: Sequence<char>, t: Table, fuel: nat)
    requires Ready(g, p, s, t) && CallsWithin(q, |g|)
    requires ThenParse(g, p, q, s, t, fuel).Done?
    ensures var r := ThenParse(g, p, q, s, t, fuel);
      var r1 := Eval(g, p, s, t, fuel);
      && r1.Done?
      && (r1.res.Success? ==> Eval(g, q, r1.res.rest, r1.st, fuel).Done?)
      && (r.res.Success? <==> r1.res.Success? && Eval(g, q, r1.res.rest, r1.st, fuel).res.Success?)
      && (r.res.Success? ==>
            r.res.value == PairOf(r1.res.value, Eval(g, q, r1.res.rest, r1.st, fuel).res.value) &&
            r.res.rest == Eval(g, q, r1.res.rest, r1.st, fuel).res.rest)
  {
  }

  /** `rep` differs from `rep1` only when the first attempt does not
      succeed: where `rep1` passes the failure or error on, `rep` succeeds
      with no items and consumes nothing. */
  lemma {:induction false} RepIsRep1OrEmpty(g: Grammar, p: Expr, s: Sequence<char>, t: Table, fuel: nat)
    requires Ready(g, p, s, t)
    ensures var first := Eval(g, p, s, t, fuel);
      && (first.Done? && !first.res.Success? ==>
            RepParse(g, p, s, t, fuel) == Done(Success(ListOf([]), s), first.st) &&
            Rep1Parse(g, p, s, t, fuel) == first)
      && (!(first.Done? && !first.res.Success?) ==> RepParse(g, p, s, t, fuel) == Rep1Parse(g, p, s, t, fuel))
  {
    var first := Eval(g, p, s, t, fuel);
    if first.Done? && !first.res.Success? {
      assert RepParse(g, p, s, t, fuel) == Done(Success(ListOf([]), s), first.st);
      assert Rep1Parse(g, p, s, t, fuel) == first;
    } else {
      assert RepParse(g, p, s, t, fuel) == Rep1Parse(g, p, s, t, fuel);
    }
  }

  /** An error on the first attempt is swallowed by `rep` but not by
      `rep1`. */
  lemma {:induction false} RepSwallowsFirstError(g: Grammar, p: Expr, s: Sequence<char>, t: Table, fuel: nat)
    requires Ready(g, p, s, t)
    requires Eval(g, p, s, t, fuel).Done? && Eval(g, p, s, t, fuel).res.Error?
    ensures RepParse(g, p, s, t, fuel).Done? && RepParse(g, p, s, t, fuel).res.Success?
    ensures Rep1Parse(g, p, s, t, fuel) == Eval(g, p, s, t, fuel)
  {
  }

  /** RepMNParser as written with two bounds ignores the upper one: any two
      positive upper bounds give the same parse. */
  lemma {:induction false} RepMNIgnoresUpperBound(g: Grammar, p: Expr, m: nat, n1: int, n2: int, s: Sequence<char>, t: Table, fuel: nat)
    requires Ready(g, p, s, t)
    requires n1 > 0 && n2 > 0
    ensures RepMNParse(g, p, m, n1, s, t, fuel) == RepMNParse(g, p, m, n2, s, t, fuel)
  {
  }

  /** RepMNParser as written with one bound stops after the `m` required
      items. */
  lemma {:induction false} RepMNOneBoundStopsAtM(g: Grammar, p: Expr, m: nat, s: Sequence<char>, t: Table, fuel: nat)
    requires Ready(g, p, s, t)
    ensures var r := RepMNParse(g, p, m, Unbounded, s, t, fuel);
      r.Done? && r.res.Success? ==> r.res.value.ListOf? && |r.res.value.items| == m
  {
  }

  /** One required item is one attempt, its success wrapped in a list. */
  lemma {:induction false} OneRequiredIsFirst(g: Grammar, p: Expr, s: Sequence<char>, t: Table, fuel: nat)
    requires Ready(g, p, s, t)
    ensures var r1 := Eval(g, p, s, t, fuel);
      Required(g, p, 1, [], s, t, fuel) ==
        if r1.Done? && r1.res.Success? then Done(Success(ListOf([r1.res.value]), r1.res.rest), r1.st) else r1
  {
    var r1 := Eval(g, p, s, t, fuel);
    if r1.Done? && r1.res.Success? {
      var v := r1.res.value;
      assert [] + [v] == [v];
      var r2 := Required(g, p, 0, [v], r1.res.rest, r1.st, fuel);
      assert r2 == Done(Success(ListOf([v]), r1.res.rest), r1.st);
      assert Required(g, p, 1, [], s, t, fuel) == r2;
    } else {
      assert Required(g, p, 1, [], s, t, fuel) == r1;
    }
  }

  /** A required attempt that succeeds counts one item and reads the rest
      from where it stopped. */
  lemma {:induction false} RequiredGoesOn(g: Grammar, p: Expr, k: nat, acc: seq<Value>, s: Sequence<char>, t: Table, fuel: nat,
                                          v: Value, s1: Sequence<char>, t1: Table)
    requires Ready(g, p, s, t)
    requires Eval(g, p, s, t, fuel) == Done(Success(v, s1), t1) && Ready(g, p, s1, t1)
    ensures Required(g, p, k + 1, acc, s, t, fuel) == Required(g, p, k, acc + [v], s1, t1, fuel)
  {
  }

  /** A required attempt that does not succeed is the result. */
  lemma {:induction false} RequiredStops(g: Grammar, p: Expr, k: nat, acc: seq<Value>, s: Sequence<char>, t: Table, fuel: nat)
    requires Ready(g, p, s, t) && k > 0
    requires !(Eval(g, p, s, t, fuel).Done? && Eval(g, p, s, t, fuel).res.Success?)
    ensures Required(g, p, k, acc, s, t, fuel) == Eval(g, p, s, t, fuel)
  {
  }

  /** `k` more required items after the step `r`, when it succeeded with a
      list; `r` itself otherwise. */
  ghost function AndThenRequired(g: Grammar, p: Expr, k: nat, r: Step, fuel: nat): Step
    requires WellFormed(g) && CallsWithin(p, |g|)
    requires r.Done? ==> Valid(r.res.rest) && Inv(r.st)
  {
    if r.Done? && r.res.Success? && r.res.value.ListOf? then Required(g, p, k, r.res.value.items, r.res.rest, r.st, fuel)
    else r
  }

  /** Reading `j + k` required items is reading `j`, then `k` more from
      where those stopped. */
  ghost predicate Splits(g: Grammar, p: Expr, j: nat, k: nat, acc: seq<Value>, s: Sequence<char>, t: Table, fuel: nat)
    requires Ready(g, p, s, t)
  {
    Required(g, p, j + k, acc, s, t, fuel) == AndThenRequired(g, p, k, Required(g, p, j, acc, s, t, fuel), fuel)
  }

  lemma {:induction false} SplitsAfterItem(g: Grammar, p: Expr, j: nat, k: nat, acc: seq<Value>, s: Sequence<char>, t: Table, fuel: nat,
                                           v: Value, s1: Sequence<char>, t1: Table, j1: nat)
    requires Ready(g, p, s, t) && j == j1 + 1
    requires Eval(g, p, s, t, fuel) == Done(Success(v, s1), t1)
    requires Ready(g, p, s1, t1) && Splits(g, p, j1, k, acc + [v], s1, t1, fuel)
    ensures Splits(g, p, j, k, acc, s, t, fuel)
  {
    RequiredGoesOn(g, p, j1, acc, s, t, fuel, v, s1, t1);
    RequiredGoesOn(g, p, j1 + k, acc, s, t, fuel, v, s1, t1);
  }

  /** The required items of RepMNParser read the same however they are
      split: the first `j`, then the other `k` from where those stopped. A
      result that is not a success ends the count there. */
  lemma {:induction false} RequiredSplit(g: Grammar, p: Expr, j: nat, k: nat, acc: seq<Value>, s: Sequence<char>, t: Table, fuel: nat)
    requires Ready(g, p, s, t)
    ensures Splits(g, p, j, k, acc, s, t, fuel)
    decreases j
  {
    if j == 0 {
      assert Required(g, p, j, acc, s, t, fuel) == Done(Success(ListOf(acc), s), t);
    } else {
      var r1 := Eval(g, p, s, t, fuel);
      if r1.Done? && r1.res.Success? {
        var v, s1, t1, j1 := r1.res.value, r1.res.rest, r1.st, j - 1;
        RequiredGoesOn(g, p, j1, acc, s, t, fuel, v, s1, t1);
        RequiredSplit(g, p, j1, k, acc + [v], s1, t1, fuel);
        SplitsAfterItem(g, p, j, k, acc, s, t, fuel, v, s1, t1, j1);
      } else {
        RequiredStops(g, p, j, acc, s, t, fuel);
        RequiredStops(g, p, j + k, acc, s, t, fuel);
      }
    }
  }

  /** Whichever of the required attempts first does not succeed, its
      failure or error is the result of the whole count, as it is. */
  lemma {:induction false} RequiredPassesOnAnyAttempt(g: Grammar, p: Expr, j: nat, k: nat, acc: seq<Value>,
                                                      s: Sequence<char>, t: Table, fuel: nat)
    requires Ready(g, p, s, t)
    requires Required(g, p, j, acc, s, t, fuel).Done? && Required(g, p, j, acc, s, t, fuel).res.Success?
    requires var r := Required(g, p, j, acc, s, t, fuel);
      Eval(g, p, r.res.rest, r.st, fuel).Done? && !Eval(g, p, r.res.rest, r.st, fuel).res.Success?
    ensures var r := Required(g, p, j, acc, s, t, fuel);
      Required(g, p, j + 1 + k, acc, s, t, fuel) == Eval(g, p, r.res.rest, r.st, fuel)
  {
    RequiredSplit(g, p, j, 1 + k, acc, s, t, fuel);
  }

  /** A turn of the open-ended loop that succeeds goes round again from
      where it stopped, with one fuel less. */
  lemma {:induction false} RepLoopGoesOn(g: Grammar, p: Expr, acc: seq<Value>, s: Sequence<char>, t: Table, f1: nat,
                                         v: Value, s1: Sequence<char>, t1: Table)
    requires Ready(g, p, s, t)
    requires Eval(g, p, s, t, f1 + 1) == Done(Success(v, s1), t1) && Ready(g, p, s1, t1)
    ensures RepLoop(g, p, acc, s, t, f1 + 1) == RepLoop(g, p, acc + [v], s1, t1, f1)
  {
  }

  /** A turn of the open-ended loop that does not succeed ends it. */
  lemma {:induction false} RepLoopStops(g: Grammar, p: Expr, acc: seq<Value>, s: Sequence<char>, t: Table, fuel: nat)
    requires Ready(g, p, s, t)
    requires var r1 := Eval(g, p, s, t, fuel); !(r1.Done? && r1.res.Success? && fuel > 0)
    ensures var r1 := Eval(g, p, s, t, fuel);
      RepLoop(g, p, acc, s, t, fuel) ==
        if r1.Done? && r1.res.Failure? then Done(Success(ListOf(acc), s), r1.st)
        else if r1.Done? && r1.res.Error? then r1
        else OutOfFuel
  {
  }

  /** `r` ends as `r0` does, with `acc` in front of the items of a
      success. */
  ghost predicate CarriedBy(acc: seq<Value>, r: Step, r0: Step) {
    && r.OutOfFuel? == r0.OutOfFuel?
    && (r0.Done? && r0.res.Success? ==>
          r0.res.value.ListOf? && r == Done(Success(ListOf(acc + r0.res.value.items), r0.res.rest), r0.st))
    && (r0.Done? && !r0.res.Success? ==> r == r0)
  }

  /** One more item in front on both sides keeps `CarriedBy`. */
  lemma {:induction false} CarriedByCons(acc: seq<Value>, v: Value, x: Step, x0: Step, r0: Step)
    requires CarriedBy(acc + [v], x, r0) && CarriedBy([v], x0, r0)
    ensures CarriedBy(acc, x, x0)
  {
    if r0.Done? && r0.res.Success? {
      assert acc + [v] + r0.res.value.items == acc + ([v] + r0.res.value.items);
    }
  }

  /** The open-ended loop given `acc` ends as it does given no items, with
      `acc` in front of the items it adds. */
  ghost predicate Carries(g: Grammar, p: Expr, acc: seq<Value>, s: Sequence<char>, t: Table, fuel: nat)
    requires Ready(g, p, s, t)
  {
    CarriedBy(acc, RepLoop(g, p, acc, s, t, fuel), RepLoop(g, p, [], s, t, fuel))
  }

  lemma {:induction false} CarriesAtStop(g: Grammar, p: Expr, acc: seq<Value>, s: Sequence<char>, t: Table, fuel: nat)
    requires Ready(g, p, s, t)
    requires var r1 := Eval(g, p, s, t, fuel); !(r1.Done? && r1.res.Success? && fuel > 0)
    ensures Carries(g, p, acc, s, t, fuel)
  {
    RepLoopStops(g, p, acc, s, t, fuel);
    RepLoopStops(g, p, [], s, t, fuel);
    assert acc + [] == acc;
  }

  lemma {:induction false} CarriesAfterItem(g: Grammar, p: Expr, acc: seq<Value>, s: Sequence<char>, t: Table, fuel: nat,
                                            v: Value, s1: Sequence<char>, t1: Table, f1: nat)
    requires Ready(g, p, s, t) && fuel == f1 + 1
    requires Eval(g, p, s, t, fuel) == Done(Success(v, s1), t1)
    requires Ready(g, p, s1, t1) && Carries(g, p, acc + [v], s1, t1, f1) && Carries(g, p, [v], s1, t1, f1)
    ensures Carries(g, p, acc, s, t, fuel)
  {
    assert [] + [v] == [v];
    RepLoopGoesOn(g, p, acc, s, t, f1, v, s1, t1);
    RepLoopGoesOn(g, p, [], s, t, f1, v, s1, t1);
    CarriedByCons(acc, v, RepLoop(g, p, acc, s, t, fuel), RepLoop(g, p, [], s, t, fuel), RepLoop(g, p, [], s1, t1, f1));
  }

  /** The open-ended loop does not depend on the items it is given: it adds
      the same items after them, or ends in the same failure-free way. */
  lemma {:induction false} RepLoopCarriesItems(g: Grammar, p: Expr, acc: seq<Value>, s: Sequence<char>, t: Table, fuel: nat)
    requires Ready(g, p, s, t)
    ensures Carries(g, p, acc, s, t, fuel)
    decreases fuel
  {
    var r1 := Eval(g, p, s, t, fuel);
    if r1.Done? && r1.res.Success? && fuel > 0 {
      var v, s1, t1, f1 := r1.res.value, r1.res.rest, r1.st, fuel - 1;
      RepLoopCarriesItems(g, p, acc + [v], s1, t1, f1);
      RepLoopCarriesItems(g, p, [v], s1, t1, f1);
      CarriesAfterItem(g, p, acc, s, t, fuel, v, s1, t1, f1);
    } else {
      CarriesAtStop(g, p, acc, s, t, fuel);
    }
  }

  /** After one item, `rep` and `rep1` parse again from where it stopped: a
      failure there ends the list after that item, with the table the
      failed attempt left, and an error there is the result. */
  lemma {:induction false} RepAfterOneItem(g: Grammar, p: Expr, s: Sequence<char>, t: Table, fuel: nat)
    requires Ready(g, p, s, t)
    requires Eval(g, p, s, t, fuel).Done? && Eval(g, p, s, t, fuel).res.Success?
    requires var r1 := Eval(g, p, s, t, fuel);
      Eval(g, p, r1.res.rest, r1.st, fuel).Done? && !Eval(g, p, r1.res.rest, r1.st, fuel).res.Success?
    ensures var r1 := Eval(g, p, s, t, fuel);
      var r2 := Eval(g, p, r1.res.rest, r1.st, fuel);
      var expected := if r2.res.Error? then r2 else Done(Success(ListOf([r1.res.value]), r1.res.rest), r2.st);
      RepParse(g, p, s, t, fuel) == expected && Rep1Parse(g, p, s, t, fuel) == expected
  {
    var r1 := Eval(g, p, s, t, fuel);
    var r2 := Eval(g, p, r1.res.rest, r1.st, fuel);
    var expected := if r2.res.Error? then r2 else Done(Success(ListOf([r1.res.value]), r1.res.rest), r2.st);
    assert RepLoop(g, p, [r1.res.value], r1.res.rest, r1.st, fuel) == expected;
    assert RepParse(g, p, s, t, fuel) == expected;
    assert Rep1Parse(g, p, s, t, fuel) == expected;
  }

  /** A turn of the counted tail that succeeds, with room left, counts one
      more and goes on from where it stopped. */
  lemma {:induction false} ToInfinityGoesOn(g: Grammar, p: Expr, i: int, n: int, acc: seq<Value>, s: Sequence<char>, t: Table, fuel: nat,
                                            v: Value, s1: Sequence<char>, t1: Table)
    requires Ready(g, p, s, t) && i < n
    requires Eval(g, p, s, t, fuel) == Done(Success(v, s1), t1) && Ready(g, p, s1, t1)
    ensures ToInfinity(g, p, i, n, acc, s, t, fuel) == ToInfinity(g, p, i + 1, n, acc + [v], s1, t1, fuel)
  {
  }

  /** A turn of the counted tail that does not succeed: a failure ends the
      list where the turn started, an error is the result. */
  lemma {:induction false} ToInfinityStops(g: Grammar, p: Expr, i: int, n: int, acc: seq<Value>, s: Sequence<char>, t: Table, fuel: nat)
    requires Ready(g, p, s, t) && i < n
    requires Eval(g, p, s, t, fuel).Done? && !Eval(g, p, s, t, fuel).res.Success?
    ensures var r1 := Eval(g, p, s, t, fuel);
      ToInfinity(g, p, i, n, acc, s, t, fuel) == if r1.res.Error? then r1 else Done(Success(ListOf(acc), s), r1.st)
  {
  }

  /** The counted tail takes an item while the count allows: with one place
      left it stops after that item, and with more it parses again, a
      failure ending the list and an error being the result. */
  lemma {:induction false} CountedTailAfterOneItem(g: Grammar, p: Expr, i: int, n: int, acc: seq<Value>,
                                                   s: Sequence<char>, t: Table, fuel: nat)
    requires Ready(g, p, s, t) && i < n
    requires Eval(g, p, s, t, fuel).Done? && Eval(g, p, s, t, fuel).res.Success?
    ensures var r1 := Eval(g, p, s, t, fuel);
      i + 1 == n ==>
        ToInfinity(g, p, i, n, acc, s, t, fuel) == Done(Success(ListOf(acc + [r1.res.value]), r1.res.rest), r1.st)
    ensures var r1 := Eval(g, p, s, t, fuel);
      var r2 := Eval(g, p, r1.res.rest, r1.st, fuel);
      i + 1 < n && r2.Done? && !r2.res.Success? ==>
        ToInfinity(g, p, i, n, acc, s, t, fuel) ==
          if r2.res.Error? then r2 else Done(Success(ListOf(acc + [r1.res.value]), r1.res.rest), r2.st)
  {
    var r1 := Eval(g, p, s, t, fuel);
    var v, s1, t1 := r1.res.value, r1.res.rest, r1.st;
    var acc1 := acc + [v];
    ToInfinityGoesOn(g, p, i, n, acc, s, t, fuel, v, s1, t1);
    if i + 1 == n {
      assert ToInfinity(g, p, i + 1, n, acc1, s1, t1, fuel) == Done(Success(ListOf(acc1), s1), t1);
    } else {
      var r2 := Eval(g, p, s1, t1, fuel);
      if r2.Done? && !r2.res.Success? {
        ToInfinityStops(g, p, i + 1, n, acc1, s1, t1, fuel);
      }
    }
  }

  /** `RepMN(p, 1, n)` as written is `rep1` for every bound `n`. */
  lemma {:induction false} RepMNOneIsRep1(g: Grammar, p: Expr, n: int, s: Sequence<char>, t: Table, fuel: nat)
    requires Ready(g, p, s, t) && n > 0
    ensures RepMNParse(g, p, 1, n, s, t, fuel) == Rep1Parse(g, p, s, t, fuel)
  {
    OneRequiredIsFirst(g, p, s, t, fuel);
  }


  /** The literal `a`, matched with no whitespace skipping. */
  const LitA: Expr := Lit("a", NoWhitespace)

  /** `a` consumes one letter `a` and leaves the table alone; on an empty
      view it fails. */
  lemma {:induction false} LitAStep(g: Grammar, v: Sequence<char>, t: Table, fuel: nat)
    requires Ready(g, LitA, v, t) && fuel > 0
    ensures |Content(v)| > 0 && Content(v)[0] == 'a' ==>
      && SubSequence(v, 1).Some?
      && Eval(g, LitA, v, t, fuel) == Done(Success(Str("a"), SubSequence(v, 1).value), t)
      && Valid(SubSequence(v, 1).value)
      && Content(SubSequence(v, 1).value) == Content(v)[1..]
    ensures Content(v) == [] ==>
      Eval(g, LitA, v, t, fuel).Done? && Eval(g, LitA, v, t, fuel).res.Failure? && Eval(g, LitA, v, t, fuel).st == t
  {
    LiteralNoWhitespace("a", v);
    if |Content(v)| > 0 && Content(v)[0] == 'a' {
      assert Content(v)[..1] == "a";
      SubSequenceContent(v, 1);
    }
  }

  /** Both letters of "aa", one step at a time. */
  lemma {:induction false} TwoLetters(g: Grammar, s: Sequence<char>, t: Table)
    requires Ready(g, LitA, s, t) && Content(s) == "aa"
    ensures SubSequence(s, 1).Some? && SubSequence(SubSequence(s, 1).value, 1).Some?
    ensures var s1 := SubSequence(s, 1).value; var s2 := SubSequence(s1, 1).value;
      && Valid(s1) && Valid(s2) && Content(s1) == "a" && Content(s2) == ""
      && (forall fuel: nat :: fuel > 0 ==> Eval(g, LitA, s, t, fuel) == Done(Success(Str("a"), s1), t))
      && (forall fuel: nat :: fuel > 0 ==> Eval(g, LitA, s1, t, fuel) == Done(Success(Str("a"), s2), t))
      && (forall fuel: nat :: fuel > 0 ==>
            Eval(g, LitA, s2, t, fuel).Done? && Eval(g, LitA, s2, t, fuel).res.Failure? && Eval(g, LitA, s2, t, fuel).st == t)
  {
    LitAStep(g, s, t, 1);
    var s1 := SubSequence(s, 1).value;
    LitAStep(g, s1, t, 1);
    var s2 := SubSequence(s1, 1).value;
    forall fuel: nat | fuel > 0
      ensures Eval(g, LitA, s, t, fuel) == Done(Success(Str("a"), s1), t)
      ensures Eval(g, LitA, s1, t, fuel) == Done(Success(Str("a"), s2), t)
      ensures Eval(g, LitA, s2, t, fuel).Done? && Eval(g, LitA, s2, t, fuel).res.Failure?
      ensures Eval(g, LitA, s2, t, fuel).st == t
    {
      LitAStep(g, s, t, fuel);
      LitAStep(g, s1, t, fuel);
      LitAStep(g, s2, t, fuel);
    }
  }

  /** The open-ended tail on "aa" after the first `a` takes the second and
      stops at the end. */
  lemma {:induction false} RepLoopSecondLetter(g: Grammar, s: Sequence<char>, t: Table, fuel: nat)
    requires Ready(g, LitA, s, t) && Content(s) == "aa" && fuel >= 2
    ensures SubSequence(s, 1).Some? && SubSequence(SubSequence(s, 1).value, 1).Some?
    ensures var s1 := SubSequence(s, 1).value; var s2 := SubSequence(s1, 1).value;
      RepLoop(g, LitA, [Str("a")], s1, t, fuel) == Done(Success(ListOf([Str("a"), Str("a")]), s2), t)
  {
    TwoLetters(g, s, t);
    var s1 := SubSequence(s, 1).value;
    var s2 := SubSequence(s1, 1).value;
    assert [Str("a")] + [Str("a")] == [Str("a"), Str("a")];
    assert RepLoop(g, LitA, [Str("a"), Str("a")], s2, t, fuel - 1) == Done(Success(ListOf([Str("a"), Str("a")]), s2), t);
  }

  /** The open-ended tail on "aa" from nothing takes both letters. */
  lemma {:induction false} RepLoopBothLetters(g: Grammar, s: Sequence<char>, t: Table, fuel: nat)
    requires Ready(g, LitA, s, t) && Content(s) == "aa" && fuel >= 3
    ensures SubSequence(s, 1).Some? && SubSequence(SubSequence(s, 1).value, 1).Some?
    ensures var s1 := SubSequence(s, 1).value; var s2 := SubSequence(s1, 1).value;
      RepLoop(g, LitA, [], s, t, fuel) == Done(Success(ListOf([Str("a"), Str("a")]), s2), t)
  {
    TwoLetters(g, s, t);
    RepLoopSecondLetter(g, s, t, fuel - 1);
    assert [] + [Str("a")] == [Str("a")];
  }

  /** "aa" read with `RepMN(a, 0)` as written gives no items and consumes
      nothing, where `rep(a)`, "zero or more", takes both letters. */
  lemma {:induction false} RepMNOneBoundExample(g: Grammar, s: Sequence<char>, t: Table)
    requires Ready(g, LitA, s, t) && Content(s) == "aa"
    ensures RepMNParse(g, LitA, 0, Unbounded, s, t, 3) == Done(Success(ListOf([]), s), t)
    ensures RepParse(g, LitA, s, t, 3).Done? && RepParse(g, LitA, s, t, 3).res.Success?
    ensures RepParse(g, LitA, s, t, 3).res.value == ListOf([Str("a"), Str("a")])
  {
    TwoLetters(g, s, t);
    RepLoopSecondLetter(g, s, t, 3);
    assert Required(g, LitA, 0, [], s, t, 3) == Done(Success(ListOf([]), s), t);
    assert ToInfinity(g, LitA, 0, Unbounded, [], s, t, 3) == Done(Success(ListOf([]), s), t);
  }

  /** "aa" read with `RepMN(a, 0, 1)` as written gives two items, over the
      bound of one. */
  lemma {:induction false} RepMNTwoBoundExample(g: Grammar, s: Sequence<char>, t: Table)
    requires Ready(g, LitA, s, t) && Content(s) == "aa"
    ensures RepMNParse(g, LitA, 0, 1, s, t, 3).Done? && RepMNParse(g, LitA, 0, 1, s, t, 3).res.Success?
    ensures RepMNParse(g, LitA, 0, 1, s, t, 3).res.value == ListOf([Str("a"), Str("a")])
  {
    RepLoopBothLetters(g, s, t, 3);
    assert Required(g, LitA, 0, [], s, t, 3) == Done(Success(ListOf([]), s), t);
  }

  /** With its tails the right way round, the one-bound form with `m` = 1
      is `rep1`, taking every item it can. */
  lemma {:induction false} RepRangeAtLeastOneIsRep1(g: Grammar, p: Expr, s: Sequence<char>, t: Table, fuel: nat)
    requires Ready(g, p, s, t)
    ensures RepRangeParse(g, p, 1, Unbounded, s, t, fuel) == Rep1Parse(g, p, s, t, fuel)
  {
    OneRequiredIsFirst(g, p, s, t, fuel);
  }


  /** After the required items, the one-bound form as written is done. */
  lemma {:induction false} RepMNUnboundedIsRequired(g: Grammar, p: Expr, m: nat, s: Sequence<char>, t: Table, fuel: nat)
    requires Ready(g, p, s, t)
    requires Required(g, p, m, [], s, t, fuel).Done? && Required(g, p, m, [], s, t, fuel).res.Success?
    ensures RepMNParse(g, p, m, Unbounded, s, t, fuel) == Required(g, p, m, [], s, t, fuel)
  {
    var q := Required(g, p, m, [], s, t, fuel);
    var items := q.res.value.items;
    assert q.res == Success(ListOf(items), q.res.rest);
    assert ToInfinity(g, p, m, Unbounded, items, q.res.rest, q.st, fuel) == q;
  }

  /** After the required items, the one-bound form with the tails the right
      way round goes on with the open-ended loop. */
  lemma {:induction false} RepRangeUnboundedLoops(g: Grammar, p: Expr, m: nat, s: Sequence<char>, t: Table, fuel: nat)
    requires Ready(g, p, s, t)
    requires Required(g, p, m, [], s, t, fuel).Done? && Required(g, p, m, [], s, t, fuel).res.Success?
    ensures var q := Required(g, p, m, [], s, t, fuel);
      RepRangeParse(g, p, m, Unbounded, s, t, fuel) == RepLoop(g, p, q.res.value.items, q.res.rest, q.st, fuel)
  {
  }

  /** For every `m`, once the `m` required items are read the two
      one-bound forms part. As written, the parse stops there whatever
      follows. With the tails the right way round it goes on: a further
      success heads the rest of the list, a failure ends the list there and
      an error is the result. */
  lemma {:induction false} OneBoundAfterRequired(g: Grammar, p: Expr, m: nat, s: Sequence<char>, t: Table, fuel: nat)
    requires Ready(g, p, s, t)
    requires Required(g, p, m, [], s, t, fuel).Done? && Required(g, p, m, [], s, t, fuel).res.Success?
    requires var q := Required(g, p, m, [], s, t, fuel); Eval(g, p, q.res.rest, q.st, fuel).Done?
    ensures RepMNParse(g, p, m, Unbounded, s, t, fuel) == Required(g, p, m, [], s, t, fuel)
    ensures var q := Required(g, p, m, [], s, t, fuel);
      var r2 := Eval(g, p, q.res.rest, q.st, fuel);
      var r := RepRangeParse(g, p, m, Unbounded, s, t, fuel);
      && (r2.res.Failure? ==> r == Done(q.res, r2.st))
      && (r2.res.Error? ==> r == r2)
      && (r2.res.Success? && r.Done? && r.res.Success? ==>
            |r.res.value.items| > m && r.res.value.items[..m + 1] == q.res.value.items + [r2.res.value])
  {
    var q := Required(g, p, m, [], s, t, fuel);
    var items := q.res.value.items;
    RepMNUnboundedIsRequired(g, p, m, s, t, fuel);
    RepRangeUnboundedLoops(g, p, m, s, t, fuel);
    var r2 := Eval(g, p, q.res.rest, q.st, fuel);
    if r2.res.Success? && fuel > 0 {
      var f1 := fuel - 1;
      RepLoopGoesOn(g, p, items, q.res.rest, q.st, f1, r2.res.value, r2.res.rest, r2.st);
    } else {
      RepLoopStops(g, p, items, q.res.rest, q.st, fuel);
    }
  }

  /** On "aa", `RepRange(a, 0)` takes both letters. */
  lemma {:induction false} RepRangeOneBoundExample(g: Grammar, s: Sequence<char>, t: Table)
    requires Ready(g, LitA, s, t) && Content(s) == "aa"
    ensures RepRangeParse(g, LitA, 0, Unbounded, s, t, 3).Done? && RepRangeParse(g, LitA, 0, Unbounded, s, t, 3).res.Success?
    ensures RepRangeParse(g, LitA, 0, Unbounded, s, t, 3).res.value == ListOf([Str("a"), Str("a")])
  {
    RepLoopBothLetters(g, s, t, 3);
    assert Required(g, LitA, 0, [], s, t, 3) == Done(Success(ListOf([]), s), t);
  }

  /** On "aa", `RepRange(a, 0, 1)` takes one letter and leaves the other. */
  lemma {:induction false} RepRangeTwoBoundExample(g: Grammar, s: Sequence<char>, t: Table)
    requires Ready(g, LitA, s, t) && Content(s) == "aa"
    ensures SubSequence(s, 1).Some?
    ensures RepRangeParse(g, LitA, 0, 1, s, t, 3) == Done(Success(ListOf([Str("a")]), SubSequence(s, 1).value), t)
  {
    TwoLetters(g, s, t);
    var s1 := SubSequence(s, 1).value;
    assert Required(g, LitA, 0, [], s, t, 3) == Done(Success(ListOf([]), s), t);
    assert [] + [Str("a")] == [Str("a")];
    assert ToInfinity(g, LitA, 1, 1, [Str("a")], s1, t, 3) == Done(Success(ListOf([Str("a")]), s1), t);
    assert ToInfinity(g, LitA, 0, 1, [], s, t, 3) == Done(Success(ListOf([Str("a")]), s1), t);
  }
}
