/** The left-recursive grammar of MemoParserTest.java:74-79,
    `E := memo(E '+' num | num)`, run on "1+2+3": the seed "1" is grown
    twice and the result is the left-nested `((((1,+),2),+),3)`. The test's
    `num` is the pattern `\d+`; on the digits of this input it is the choice
    of the three one-digit literals. */
module MemoExamples {
  import opened Options
  import opened Sequences
  import opened ParseResults
  import opened Literals
  import opened Grammars
  import opened MemoTables
  import opened Engine

  const Plus: Expr := Lit("+", DefaultWhitespace)

  const Num: Expr := Orelse(Lit("1", DefaultWhitespace), Orelse(Lit("2", DefaultWhitespace), Lit("3", DefaultWhitespace)))

  /** `exprRef.then(plus).then(num).orelse(num)` with `exprRef` rule 0. */
  const ExprBody: Expr := Orelse(Then(Then(Call(0), Plus), Num), Num)

  const ExprGrammar: Grammar := [Memoized(ExprBody)]

  lemma GrammarWellFormed()
    ensures WellFormed(ExprGrammar) && CallsWithin(ExprBody, 1)
  {
    assert CallsWithin(Lit("2", DefaultWhitespace), 1) && CallsWithin(Lit("3", DefaultWhitespace), 1);
    assert CallsWithin(Orelse(Lit("2", DefaultWhitespace), Lit("3", DefaultWhitespace)), 1);
    assert CallsWithin(Lit("1", DefaultWhitespace), 1);
    assert CallsWithin(Num, 1);
    assert CallsWithin(Then(Call(0), Plus), 1);
    assert CallsWithin(Left, 1);
    assert CallsWithin(ExprBody, 1);
    assert ExprGrammar[0].body == ExprBody;
  }

  // One step of each combinator, so that the runs below chain equalities
  // instead of unfolding the interpreter.

  lemma ThenStops(g: Grammar, p: Expr, q: Expr, s: Sequence<char>, t: Table, fuel: nat)
    requires Ready(g, p, s, t) && CallsWithin(q, |g|) && fuel > 0
    requires Eval(g, p, s, t, fuel - 1).Done? && !Eval(g, p, s, t, fuel - 1).res.Success?
    ensures Eval(g, Then(p, q), s, t, fuel) == Eval(g, p, s, t, fuel - 1)
  {
    assert Eval(g, Then(p, q), s, t, fuel) == ThenParse(g, p, q, s, t, fuel - 1);
  }

  lemma ThenThenStops(g: Grammar, a: Expr, b: Expr, c: Expr, s: Sequence<char>, t: Table, fuel: nat)
    requires Ready(g, a, s, t) && CallsWithin(b, |g|) && CallsWithin(c, |g|) && fuel > 1
    requires Eval(g, a, s, t, fuel - 2).Done? && !Eval(g, a, s, t, fuel - 2).res.Success?
    ensures Eval(g, Then(Then(a, b), c), s, t, fuel) == Eval(g, a, s, t, fuel - 2)
  {
    ThenStops(g, a, b, s, t, fuel - 1);
    ThenStops(g, Then(a, b), c, s, t, fuel);
  }

  lemma ThenPairs(g: Grammar, p: Expr, q: Expr, s: Sequence<char>, t: Table, fuel: nat)
    requires Ready(g, p, s, t) && CallsWithin(q, |g|) && fuel > 0
    requires Eval(g, p, s, t, fuel - 1).Done? && Eval(g, p, s, t, fuel - 1).res.Success?
    ensures var r1 := Eval(g, p, s, t, fuel - 1);
      Ready(g, q, r1.res.rest, r1.st)
    ensures var r1 := Eval(g, p, s, t, fuel - 1);
      var r2 := Eval(g, q, r1.res.rest, r1.st, fuel - 1);
      r2.Done? ==>
        Eval(g, Then(p, q), s, t, fuel)
          == (if r2.res.Success? then Done(Success(PairOf(r1.res.value, r2.res.value), r2.res.rest), r2.st) else r2)
  {
    assert Eval(g, Then(p, q), s, t, fuel) == ThenParse(g, p, q, s, t, fuel - 1);
  }

  lemma ThenReadsBoth(g: Grammar, p: Expr, q: Expr, s: Sequence<char>, t: Table, fuel: nat,
                       x: Value, y: Value, mid: Sequence<char>, rest: Sequence<char>, t2: Table)
    requires Ready(g, p, s, t) && CallsWithin(q, |g|) && fuel > 0
    requires Eval(g, p, s, t, fuel - 1) == Done(Success(x, mid), t)
    requires Ready(g, q, mid, t) && Eval(g, q, mid, t, fuel - 1) == Done(Success(y, rest), t2)
    ensures Eval(g, Then(p, q), s, t, fuel) == Done(Success(PairOf(x, y), rest), t2)
  {
    assert Eval(g, Then(p, q), s, t, fuel) == ThenParse(g, p, q, s, t, fuel - 1);
  }

  lemma OrelseKeeps(g: Grammar, p: Expr, q: Expr, s: Sequence<char>, t: Table, fuel: nat)
    requires Ready(g, p, s, t) && CallsWithin(q, |g|) && fuel > 0
    requires Eval(g, p, s, t, fuel - 1).Done? && !Eval(g, p, s, t, fuel - 1).res.Failure?
    ensures Eval(g, Orelse(p, q), s, t, fuel) == Eval(g, p, s, t, fuel - 1)
  {
    assert Eval(g, Orelse(p, q), s, t, fuel) == OrelseParse(g, p, q, s, t, fuel - 1);
  }

  lemma OrelseFallsBack(g: Grammar, p: Expr, q: Expr, s: Sequence<char>, t: Table, fuel: nat)
    requires Ready(g, p, s, t) && CallsWithin(q, |g|) && fuel > 0
    requires Eval(g, p, s, t, fuel - 1).Done? && Eval(g, p, s, t, fuel - 1).res.Failure?
    ensures Ready(g, q, s, Eval(g, p, s, t, fuel - 1).st)
    ensures var r1 := Eval(g, p, s, t, fuel - 1);
      Eval(g, q, s, r1.st, fuel - 1).Done? ==>
      Eval(g, Orelse(p, q), s, t, fuel) == Eval(g, q, s, r1.st, fuel - 1)
  {
    assert Eval(g, Orelse(p, q), s, t, fuel) == OrelseParse(g, p, q, s, t, fuel - 1);
  }

  lemma CallMemo(g: Grammar, i: nat, s: Sequence<char>, t: Table, fuel: nat)
    requires Ready(g, Call(i), s, t) && g[i].Memoized? && fuel > 0
    ensures Eval(g, Call(i), s, t, fuel) == MemoParse(g, i, s, t, fuel - 1)
  {
  }

  predicate IsDigit(c: char) {
    c == '1' || c == '2' || c == '3'
  }

  /** The view `i` characters into `s`. */
  function Pos(s: Sequence<char>, i: nat): (v: Sequence<char>)
    requires i <= Length(s)
    ensures Length(v) == Length(s) - i
  {
    SubSequence(s, i).value
  }

  lemma PosFacts(s: Sequence<char>, i: nat)
    requires Valid(s) && i <= Length(s)
    ensures Valid(Pos(s, i)) && SuffixOf(Pos(s, i), s)
    ensures Content(Pos(s, i)) == Content(s)[i..]
  {
    SubSequenceContent(s, i);
  }

  lemma PosNext(s: Sequence<char>, i: nat)
    requires i < Length(s)
    ensures SubSequence(Pos(s, i), 1) == Some(Pos(s, i + 1))
  {
    SubSequenceCompose(s, i, 1);
  }

  /** A one-character literal with the default whitespace pattern, on a view
      that starts with that character. */
  lemma LitMatches(c: char, v: Sequence<char>)
    requires Valid(v) && |Content(v)| > 0 && Content(v)[0] == c && !IsSpace(c)
    ensures SubSequence(v, 1).Some?
    ensures Literal([c], DefaultWhitespace, v) == Success([c], SubSequence(v, 1).value)
  {
    assert HandleWhitespace(DefaultWhitespace, v) == 0;
    assert Content(v)[0 .. 1] == [c];
  }

  /** A one-character literal on a view that is empty or starts with another
      character that is not whitespace. */
  lemma LitMisses(c: char, v: Sequence<char>)
    requires Valid(v)
    requires |Content(v)| == 0 || (Content(v)[0] != c && !IsSpace(Content(v)[0]))
    ensures Literal([c], DefaultWhitespace, v).Failure?
  {
    assert HandleWhitespace(DefaultWhitespace, v) == 0;
    if |Content(v)| > 0 {
      assert Content(v)[0 .. 1] != [c];
    }
  }

  lemma EvalLitMatches(g: Grammar, c: char, v: Sequence<char>, t: Table, fuel: nat)
    requires Ready(g, Lit([c], DefaultWhitespace), v, t) && fuel > 0
    requires |Content(v)| > 0 && Content(v)[0] == c && !IsSpace(c)
    ensures SubSequence(v, 1).Some?
    ensures Eval(g, Lit([c], DefaultWhitespace), v, t, fuel) == Done(Success(Str([c]), SubSequence(v, 1).value), t)
  {
    LitMatches(c, v);
  }

  lemma EvalLitMisses(g: Grammar, c: char, v: Sequence<char>, t: Table, fuel: nat)
    requires Ready(g, Lit([c], DefaultWhitespace), v, t) && fuel > 0
    requires |Content(v)| == 0 || (Content(v)[0] != c && !IsSpace(Content(v)[0]))
    ensures Eval(g, Lit([c], DefaultWhitespace), v, t, fuel).Done?
    ensures Eval(g, Lit([c], DefaultWhitespace), v, t, fuel).res.Failure?
    ensures Eval(g, Lit([c], DefaultWhitespace), v, t, fuel).st == t
  {
    LitMisses(c, v);
  }

  /** The last two alternatives of `num` read a `2` or a `3`. */
  lemma NumTailReadsDigit(g: Grammar, v: Sequence<char>, t: Table, fuel: nat)
    requires Ready(g, Orelse(Lit("2", DefaultWhitespace), Lit("3", DefaultWhitespace)), v, t) && fuel >= 2
    requires |Content(v)| > 0 && (Content(v)[0] == '2' || Content(v)[0] == '3')
    ensures SubSequence(v, 1).Some?
    ensures Eval(g, Orelse(Lit("2", DefaultWhitespace), Lit("3", DefaultWhitespace)), v, t, fuel)
      == Done(Success(Str([Content(v)[0]]), SubSequence(v, 1).value), t)
  {
    var l2, l3 := Lit("2", DefaultWhitespace), Lit("3", DefaultWhitespace);
    if Content(v)[0] == '2' {
      EvalLitMatches(g, '2', v, t, fuel - 1);
      OrelseKeeps(g, l2, l3, v, t, fuel);
    } else {
      EvalLitMisses(g, '2', v, t, fuel - 1);
      EvalLitMatches(g, '3', v, t, fuel - 1);
      OrelseFallsBack(g, l2, l3, v, t, fuel);
    }
  }

  /** `num` reads one digit and leaves the table alone. */
  lemma NumReadsDigit(g: Grammar, v: Sequence<char>, t: Table, fuel: nat)
    requires Ready(g, Num, v, t) && fuel >= 3
    requires |Content(v)| > 0 && IsDigit(Content(v)[0])
    ensures SubSequence(v, 1).Some?
    ensures Eval(g, Num, v, t, fuel) == Done(Success(Str([Content(v)[0]]), SubSequence(v, 1).value), t)
  {
    var l1, tail := Lit("1", DefaultWhitespace), Orelse(Lit("2", DefaultWhitespace), Lit("3", DefaultWhitespace));
    if Content(v)[0] == '1' {
      EvalLitMatches(g, '1', v, t, fuel - 1);
      OrelseKeeps(g, l1, tail, v, t, fuel);
    } else {
      EvalLitMisses(g, '1', v, t, fuel - 1);
      NumTailReadsDigit(g, v, t, fuel - 1);
      OrelseFallsBack(g, l1, tail, v, t, fuel);
    }
  }

  /** `plus` reads a `+` and leaves the table alone. */
  lemma PlusReads(g: Grammar, v: Sequence<char>, t: Table, fuel: nat)
    requires Ready(g, Plus, v, t) && fuel >= 1
    requires |Content(v)| > 0 && Content(v)[0] == '+'
    ensures SubSequence(v, 1).Some?
    ensures Eval(g, Plus, v, t, fuel) == Done(Success(Str("+"), SubSequence(v, 1).value), t)
  {
    LitMatches('+', v);
  }

  /** `plus` fails at the end of the input and leaves the table alone. */
  lemma PlusFailsAtEnd(g: Grammar, v: Sequence<char>, t: Table, fuel: nat)
    requires Ready(g, Plus, v, t) && fuel >= 1
    requires |Content(v)| == 0
    ensures Eval(g, Plus, v, t, fuel).Done?
    ensures Eval(g, Plus, v, t, fuel).res.Failure?
    ensures Eval(g, Plus, v, t, fuel).st == t
  {
    LitMisses('+', v);
  }

  /** `exprRef.then(plus)`, the left-recursive alternative. */
  const Left: Expr := Then(Then(Call(0), Plus), Num)

  /** A call of rule 0 while it is being set up at the same position
      re-enters it. */
  lemma CallReenters(g: Grammar, s: Sequence<char>, t: Table, fuel: nat)
    requires 0 < |g| && g[0].Memoized?
    requires Ready(g, Call(0), s, t) && Pending(t, Canon(s), 0) && fuel >= 2
    ensures Inv(DetectReentry(t, Canon(s), 0))
    ensures Eval(g, Call(0), s, t, fuel) == Done(Failure(LeftRecursionMessage, s), DetectReentry(t, Canon(s), 0))
  {
    DetectReentryKeepsInv(t, Canon(s), 0);
    assert Recall(g, 0, s, t, fuel - 1) == Done(Failure(LeftRecursionMessage, s), DetectReentry(t, Canon(s), 0));
    CallMemo(g, 0, s, t, fuel);
  }

  /** The left-recursive alternative fails with the re-entry's failure. */
  lemma LeftReenters(g: Grammar, s: Sequence<char>, t: Table, fuel: nat)
    requires 0 < |g| && g[0].Memoized?
    requires Ready(g, Left, s, t) && Pending(t, Canon(s), 0) && fuel >= 4
    ensures Inv(DetectReentry(t, Canon(s), 0))
    ensures Eval(g, Left, s, t, fuel) == Done(Failure(LeftRecursionMessage, s), DetectReentry(t, Canon(s), 0))
  {
    assert CallsWithin(Call(0), 1) && CallsWithin(Plus, 1) && CallsWithin(Num, 1);
    CallReenters(g, s, t, fuel - 2);
    ThenThenStops(g, Call(0), Plus, Num, s, t, fuel);
  }

  /** The first parse of the body, with rule 0 stacked: the call of rule 0
      re-enters it and fails, which marks it DETECTED, and the second
      alternative reads the seed "1". */
  lemma FirstPass(s: Sequence<char>, t: Table, fuel: nat)
    requires Valid(s) && Content(s) == "1+2+3" && Inv(t) && Fresh(t, Canon(s), 0) && fuel >= 5
    ensures Inv(Push(t, Canon(s), 0)) && 1 <= Length(s)
    ensures Eval(ExprGrammar, ExprBody, s, Push(t, Canon(s), 0), fuel)
      == Done(Success(Str("1"), Pos(s, 1)), DetectReentry(Push(t, Canon(s), 0), Canon(s), 0))
  {
    GrammarWellFormed();
    var g := ExprGrammar;
    assert CallsWithin(Left, 1) && CallsWithin(Num, 1);
    var key := Canon(s);
    PushKeepsInv(t, key, 0);
    var t1 := Push(t, key, 0);
    assert Pending(t1, key, 0);
    LeftReenters(g, s, t1, fuel - 1);
    var td := DetectReentry(t1, key, 0);
    NumReadsDigit(g, s, td, fuel - 1);
    OrelseFallsBack(g, Left, Num, s, t1, fuel);
  }

  /** The table once the first pass is stored: rule 0 at the start holds the
      seed "1" and is marked DETECTED. */
  ghost function Seeded(s: Sequence<char>, t: Table): (t4: Table)
    requires Valid(s) && 1 <= Length(s) && Inv(t) && Fresh(t, Canon(s), 0)
    ensures Inv(t4) && Canon(s) in t4 && 0 in t4[Canon(s)].parsers
    ensures t4[Canon(s)].parsers[0] == ParserEntry(Some(Success(Str("1"), Pos(s, 1))), Detected)
  {
    var key := Canon(s);
    PushKeepsInv(t, key, 0);
    var t1 := Push(t, key, 0);
    DetectReentryKeepsInv(t1, key, 0);
    var td := DetectReentry(t1, key, 0);
    PosFacts(s, 1);
    SuffixOfCanon(Pos(s, 1), s);
    StoreAfterPop(t, td, key, 0, Success(Str("1"), Pos(s, 1)));
    Store(Pop(td, key), key, 0, Success(Str("1"), Pos(s, 1)))
  }

  /** A first visit whose parse re-entered the rule and succeeded stores
      that success and enters the seed-growing loop with it. */
  lemma SetupGrowsSeed(g: Grammar, id: nat, s: Sequence<char>, t: Table, fuel: nat, seed: Result, t2: Table)
    requires id < |g| && Ready(g, g[id].body, s, t) && Fresh(t, Canon(s), id)
    requires Inv(Push(t, Canon(s), id)) && seed.Success?
    requires Eval(g, g[id].body, s, Push(t, Canon(s), id), fuel) == Done(seed, t2)
    requires Canon(s) in t2 && id in t2[Canon(s)].parsers && t2[Canon(s)].parsers[id].mark == Detected
    ensures Canon(s) in t2 && |t2[Canon(s)].stack| > 0 && id in Pop(t2, Canon(s))[Canon(s)].parsers
    ensures Inv(Store(Pop(t2, Canon(s)), Canon(s), id, seed))
    ensures MemoParse(g, id, s, t, fuel) == GrowLoop(g, id, s, seed, Store(Pop(t2, Canon(s)), Canon(s), id, seed), fuel)
  {
    var key := Canon(s);
    PopRestores(t, t2, key, id);
    SuffixOfCanon(seed.rest, s);
    StoreAfterPop(t, t2, key, id, seed);
    assert MemoParse(g, id, s, t, fuel) == Setup(g, id, s, t, fuel);
  }

  /** The first visit of rule 0 stores the seed "1" and enters the
      seed-growing loop. */
  lemma SetupEntersGrowth(s: Sequence<char>, t: Table, fuel: nat)
    requires Valid(s) && Content(s) == "1+2+3" && Inv(t) && Fresh(t, Canon(s), 0) && fuel >= 5
    ensures WellFormed(ExprGrammar) && 1 <= Length(s)
    ensures MemoParse(ExprGrammar, 0, s, t, fuel) == GrowLoop(ExprGrammar, 0, s, Success(Str("1"), Pos(s, 1)), Seeded(s, t), fuel)
  {
    GrammarWellFormed();
    var g := ExprGrammar;
    var key := Canon(s);
    FirstPass(s, t, fuel);
    var seed := Success(Str("1"), Pos(s, 1));
    var td := DetectReentry(Push(t, key, 0), key, 0);
    assert g[0].body == ExprBody;
    SetupGrowsSeed(g, 0, s, t, fuel, seed, td);
  }

  /** A turn of the seed-growing loop leaves the growing rule's entry as it
      was, and caching a longer success there keeps the invariant. */
  lemma GrowTurnTable(g: Grammar, id: nat, s: Sequence<char>, seed: Result, t: Table, fuel: nat, r: Result, t1: Table)
    requires id < |g| && Ready(g, g[id].body, s, t)
    requires Canon(s) in t && id in t[Canon(s)].parsers
    requires t[Canon(s)].parsers[id].result == Some(seed) && seed.Success?
    requires Eval(g, g[id].body, s, t, fuel) == Done(r, t1)
    requires r.Success? && Length(r.rest) < Length(seed.rest)
    ensures Canon(s) in t1 && id in t1[Canon(s)].parsers && t1[Canon(s)].parsers[id] == t[Canon(s)].parsers[id]
    ensures Inv(Store(t1, Canon(s), id, r))
  {
    assert t1[Canon(s)].parsers[id] == t[Canon(s)].parsers[id];
    SuffixOfCanon(r.rest, s);
    StoreSettled(t1, Canon(s), id, r);
  }

  /** One turn of the seed-growing loop that finds a longer success caches
      it, in the table that turn's parse left behind, and goes on. */
  lemma GrowLoopExtends(g: Grammar, id: nat, s: Sequence<char>, seed: Result, t: Table, fuel: nat, r: Result, t1: Table)
    requires id < |g| && Ready(g, g[id].body, s, t)
    requires Canon(s) in t && id in t[Canon(s)].parsers
    requires t[Canon(s)].parsers[id].result == Some(seed) && seed.Success?
    requires Eval(g, g[id].body, s, t, fuel) == Done(r, t1)
    requires r.Success? && Length(r.rest) < Length(seed.rest)
    ensures Canon(s) in t1 && id in t1[Canon(s)].parsers && t1[Canon(s)].parsers[id] == t[Canon(s)].parsers[id]
    ensures Inv(Store(t1, Canon(s), id, r))
    ensures GrowLoop(g, id, s, seed, t, fuel) == GrowLoop(g, id, s, r, Store(t1, Canon(s), id, r), fuel)
  {
    GrowTurnTable(g, id, s, seed, t, fuel, r, t1);
  }

  /** A turn that finds nothing longer ends the loop with the cached seed,
      in the table that turn's parse left behind. */
  lemma GrowLoopStops(g: Grammar, id: nat, s: Sequence<char>, seed: Result, t: Table, fuel: nat, r: Result, t1: Table)
    requires id < |g| && Ready(g, g[id].body, s, t)
    requires Canon(s) in t && id in t[Canon(s)].parsers
    requires t[Canon(s)].parsers[id].result == Some(seed) && seed.Success?
    requires Eval(g, g[id].body, s, t, fuel) == Done(r, t1)
    requires r.Failure? || (r.Success? && Length(r.rest) >= Length(seed.rest))
    ensures GrowLoop(g, id, s, seed, t, fuel) == Done(seed, t1)
  {
  }

  /** A turn whose parse errs ends the loop with that error, uncached. */
  lemma GrowLoopErrs(g: Grammar, id: nat, s: Sequence<char>, seed: Result, t: Table, fuel: nat, r: Result, t1: Table)
    requires id < |g| && Ready(g, g[id].body, s, t)
    requires Canon(s) in t && id in t[Canon(s)].parsers
    requires t[Canon(s)].parsers[id].result == Some(seed) && seed.Success?
    requires Eval(g, g[id].body, s, t, fuel) == Done(r, t1) && r.Error?
    ensures GrowLoop(g, id, s, seed, t, fuel) == Done(r, t1)
    ensures Canon(s) in t1 && id in t1[Canon(s)].parsers && t1[Canon(s)].parsers[id].result == Some(seed)
  {
    assert t1[Canon(s)].parsers[id] == t[Canon(s)].parsers[id];
  }

  /** Rule 0 at the start of `s` is marked DETECTED and caches `v`, read up
      to position `j`: the state of the table between two turns of the
      seed-growing loop. */
  ghost predicate Grown(g: Grammar, s: Sequence<char>, t: Table, v: Value, j: nat) {
    && 0 < |g| && g[0].Memoized? && WellFormed(g) && Valid(s) && Inv(t) && j <= Length(s)
    && Canon(s) in t && 0 in t[Canon(s)].parsers
    && t[Canon(s)].parsers[0] == ParserEntry(Some(Success(v, Pos(s, j))), Detected)
  }

  /** The recursive call answers from the table. */
  lemma CallRecalls(g: Grammar, s: Sequence<char>, t: Table, v: Value, j: nat, fuel: nat)
    requires Grown(g, s, t, v, j) && fuel >= 1
    ensures Ready(g, Call(0), s, t)
    ensures Eval(g, Call(0), s, t, fuel) == Done(Success(v, Pos(s, j)), t)
  {
    CallMemo(g, 0, s, t, fuel);
  }

  /** With `E` cached as `v` up to position `j`, where a `+` follows,
      `E "+"` reads `v +`. */
  lemma PrefixReadsPlus(g: Grammar, s: Sequence<char>, t: Table, v: Value, j: nat, fuel: nat)
    requires Grown(g, s, t, v, j) && j < Length(s) && Content(s)[j] == '+' && fuel >= 3
    ensures Ready(g, Then(Call(0), Plus), s, t)
    ensures Eval(g, Then(Call(0), Plus), s, t, fuel) == Done(Success(PairOf(v, Str("+")), Pos(s, j + 1)), t)
  {
    var p := Pos(s, j);
    NoCalls(|g|);
    CallRecalls(g, s, t, v, j, fuel - 1);
    assert Ready(g, Plus, p, t) && |Content(p)| > 0 && Content(p)[0] == '+' by {
      PosFacts(s, j);
    }
    assert Eval(g, Plus, p, t, fuel - 1) == Done(Success(Str("+"), Pos(s, j + 1)), t) by {
      PlusReads(g, p, t, fuel - 1);
      PosNext(s, j);
    }
    ThenReadsBoth(g, Call(0), Plus, s, t, fuel, v, Str("+"), p, Pos(s, j + 1), t);
  }

  /** `num` and `plus` call no rule. */
  lemma NoCalls(n: nat)
    ensures CallsWithin(Num, n) && CallsWithin(Plus, n)
  {
    var l1, l2, l3 := Lit("1", DefaultWhitespace), Lit("2", DefaultWhitespace), Lit("3", DefaultWhitespace);
    assert CallsWithin(l1, n) && CallsWithin(l2, n) && CallsWithin(l3, n);
    assert CallsWithin(Orelse(l2, l3), n);
    assert Num == Orelse(l1, Orelse(l2, l3));
  }

  /** `num` reads the digit at position `i`. */
  lemma NumReadsAt(g: Grammar, s: Sequence<char>, i: nat, t: Table, fuel: nat)
    requires WellFormed(g) && Valid(s) && Inv(t) && i < Length(s) && IsDigit(Content(s)[i]) && fuel >= 3
    ensures Ready(g, Num, Pos(s, i), t)
    ensures Eval(g, Num, Pos(s, i), t, fuel) == Done(Success(Str([Content(s)[i]]), Pos(s, i + 1)), t)
  {
    NoCalls(|g|);
    PosFacts(s, i);
    NumReadsDigit(g, Pos(s, i), t, fuel);
    PosNext(s, i);
  }

  /** The left-recursive alternative `E "+" num` reads `v + digit`. */
  lemma LeftExtends(g: Grammar, s: Sequence<char>, t: Table, v: Value, j: nat, d: char, fuel: nat)
    requires Grown(g, s, t, v, j) && j + 2 <= Length(s) && Content(s)[j] == '+' && Content(s)[j + 1] == d && IsDigit(d)
    requires fuel >= 4
    ensures Ready(g, Left, s, t)
    ensures Eval(g, Left, s, t, fuel) == Done(Success(PairOf(PairOf(v, Str("+")), Str([d])), Pos(s, j + 2)), t)
  {
    var x, p1, p2 := PairOf(v, Str("+")), Pos(s, j + 1), Pos(s, j + 2);
    assert Ready(g, Then(Call(0), Plus), s, t) && Eval(g, Then(Call(0), Plus), s, t, fuel - 1) == Done(Success(x, p1), t) by {
      PrefixReadsPlus(g, s, t, v, j, fuel - 1);
    }
    assert Ready(g, Num, p1, t) && Eval(g, Num, p1, t, fuel - 1) == Done(Success(Str([d]), p2), t) by {
      NumReadsAt(g, s, j + 1, t, fuel - 1);
    }
    NoCalls(|g|);
    ThenReadsBoth(g, Then(Call(0), Plus), Num, s, t, fuel, x, Str([d]), p1, p2, t);
  }

  /** With `E` cached as `v` up to position `j`, where `+` and a digit
      follow, `E`'s body reads `v + digit`: the recursive call answers from
      the table. */
  lemma BodyExtends(g: Grammar, s: Sequence<char>, t: Table, v: Value, j: nat, fuel: nat)
    requires Grown(g, s, t, v, j) && j + 2 <= Length(s) && Content(s)[j] == '+' && IsDigit(Content(s)[j + 1])
    requires fuel >= 5
    ensures Ready(g, ExprBody, s, t)
    ensures Eval(g, ExprBody, s, t, fuel)
      == Done(Success(PairOf(PairOf(v, Str("+")), Str([Content(s)[j + 1]])), Pos(s, j + 2)), t)
  {
    var r := Success(PairOf(PairOf(v, Str("+")), Str([Content(s)[j + 1]])), Pos(s, j + 2));
    NoCalls(|g|);
    assert Ready(g, Left, s, t) && Eval(g, Left, s, t, fuel - 1) == Done(r, t) by {
      LeftExtends(g, s, t, v, j, Content(s)[j + 1], fuel - 1);
    }
    OrelseKeeps(g, Left, Num, s, t, fuel);
  }

  /** `E "+"` fails at the end of the input. */
  lemma PrefixFailsAtEnd(g: Grammar, s: Sequence<char>, t: Table, v: Value, fuel: nat)
    requires Grown(g, s, t, v, Length(s)) && fuel >= 3
    ensures Ready(g, Then(Call(0), Plus), s, t)
    ensures var r := Eval(g, Then(Call(0), Plus), s, t, fuel);
      r.Done? && r.res.Failure? && r.st == t
  {
    var p := Pos(s, Length(s));
    NoCalls(|g|);
    CallRecalls(g, s, t, v, Length(s), fuel - 1);
    assert Ready(g, Plus, p, t) && |Content(p)| == 0 by {
      PosFacts(s, Length(s));
    }
    PlusFailsAtEnd(g, p, t, fuel - 1);
    ThenPairs(g, Call(0), Plus, s, t, fuel);
  }

  /** With `E` cached as `v` up to the end, the left-recursive alternative
      fails for want of a `+` and the body falls back to reading the first
      digit again. */
  lemma BodyAtEnd(g: Grammar, s: Sequence<char>, t: Table, v: Value, fuel: nat)
    requires Grown(g, s, t, v, Length(s)) && 1 <= Length(s) && Content(s)[0] == '1' && fuel >= 5
    ensures Ready(g, ExprBody, s, t)
    ensures Eval(g, ExprBody, s, t, fuel) == Done(Success(Str("1"), Pos(s, 1)), t)
  {
    NoCalls(|g|);
    var pre := Eval(g, Then(Call(0), Plus), s, t, fuel - 2);
    assert pre.Done? && pre.res.Failure? && pre.st == t by {
      PrefixFailsAtEnd(g, s, t, v, fuel - 2);
    }
    assert Eval(g, Left, s, t, fuel - 1) == pre by {
      ThenStops(g, Then(Call(0), Plus), Num, s, t, fuel - 1);
    }
    assert Eval(g, Num, s, t, fuel - 1) == Done(Success(Str("1"), Pos(s, 1)), t) by {
      NumReadsDigit(g, s, t, fuel - 1);
    }
    OrelseFallsBack(g, Left, Num, s, t, fuel);
  }

  /** One turn of the loop on `E`: with the seed `v` reaching position `j`,
      where `+` and a digit follow, the seed grows by `+ digit`. */
  lemma GrowStep(s: Sequence<char>, t: Table, v: Value, j: nat, fuel: nat)
    requires Grown(ExprGrammar, s, t, v, j) && j + 2 <= Length(s) && Content(s)[j] == '+' && IsDigit(Content(s)[j + 1])
    requires fuel >= 5
    ensures var r := Success(PairOf(PairOf(v, Str("+")), Str([Content(s)[j + 1]])), Pos(s, j + 2));
      && Grown(ExprGrammar, s, Store(t, Canon(s), 0, r), r.value, j + 2)
      && GrowLoop(ExprGrammar, 0, s, Success(v, Pos(s, j)), t, fuel)
         == GrowLoop(ExprGrammar, 0, s, r, Store(t, Canon(s), 0, r), fuel)
  {
    var r := Success(PairOf(PairOf(v, Str("+")), Str([Content(s)[j + 1]])), Pos(s, j + 2));
    assert ExprGrammar[0].body == ExprBody;
    BodyExtends(ExprGrammar, s, t, v, j, fuel);
    GrowLoopExtends(ExprGrammar, 0, s, Success(v, Pos(s, j)), t, fuel, r, t);
  }

  /** The last turn: with the seed reaching the end, the body reads only
      "1", which is no longer, and the loop returns the seed. */
  lemma GrowEnds(s: Sequence<char>, t: Table, v: Value, fuel: nat)
    requires Grown(ExprGrammar, s, t, v, Length(s)) && 1 <= Length(s) && Content(s)[0] == '1' && fuel >= 5
    ensures GrowLoop(ExprGrammar, 0, s, Success(v, Pos(s, Length(s))), t, fuel) == Done(Success(v, Pos(s, Length(s))), t)
  {
    assert ExprGrammar[0].body == ExprBody;
    BodyAtEnd(ExprGrammar, s, t, v, fuel);
    GrowLoopStops(ExprGrammar, 0, s, Success(v, Pos(s, Length(s))), t, fuel, Success(Str("1"), Pos(s, 1)), t);
  }

  /** The value test1 expects: `((((1,+),2),+),3)`, nested to the left. */
  const Sum: Value := PairOf(PairOf(PairOf(PairOf(Str("1"), Str("+")), Str("2")), Str("+")), Str("3"))

  /** From the seed "1+2": one more turn reads "+3", and the next finds
      nothing longer. */
  lemma GrowFromSecond(s: Sequence<char>, t: Table, fuel: nat)
    requires Grown(ExprGrammar, s, t, PairOf(PairOf(Str("1"), Str("+")), Str("2")), 3) && Content(s) == "1+2+3" && fuel >= 5
    ensures Length(s) == 5 && WellFormed(ExprGrammar) && Inv(Store(t, Canon(s), 0, Success(Sum, Pos(s, 5))))
    ensures GrowLoop(ExprGrammar, 0, s, Success(PairOf(PairOf(Str("1"), Str("+")), Str("2")), Pos(s, 3)), t, fuel)
      == Done(Success(Sum, Pos(s, 5)), Store(t, Canon(s), 0, Success(Sum, Pos(s, 5))))
  {
    assert |Content(s)| == 5;
    GrowStep(s, t, PairOf(PairOf(Str("1"), Str("+")), Str("2")), 3, fuel);
    GrowEnds(s, Store(t, Canon(s), 0, Success(Sum, Pos(s, 5))), Sum, fuel);
  }

  /** From the seed "1": a turn reads "+2", and the rest is as above. */
  lemma GrowFromFirst(s: Sequence<char>, t: Table, fuel: nat)
    requires Grown(ExprGrammar, s, t, Str("1"), 1) && Content(s) == "1+2+3" && fuel >= 5
    ensures Length(s) == 5 && WellFormed(ExprGrammar)
    ensures var r := GrowLoop(ExprGrammar, 0, s, Success(Str("1"), Pos(s, 1)), t, fuel);
      r.Done? && r.res == Success(Sum, Pos(s, 5))
  {
    assert |Content(s)| == 5;
    var v2 := PairOf(PairOf(Str("1"), Str("+")), Str("2"));
    GrowStep(s, t, Str("1"), 1, fuel);
    GrowFromSecond(s, Store(t, Canon(s), 0, Success(v2, Pos(s, 3))), fuel);
  }

  /** MemoParserTest.test1: the left-recursive `E` parses all of "1+2+3"
      into the left-nested sum, and that is what its entry caches. */
  lemma LeftRecursionGrowsToWholeInput(s: Sequence<char>, t: Table, fuel: nat)
    requires Valid(s) && Content(s) == "1+2+3" && Inv(t) && Fresh(t, Canon(s), 0) && fuel >= 5
    ensures WellFormed(ExprGrammar)
    ensures var r := MemoParse(ExprGrammar, 0, s, t, fuel);
      && r.Done? && r.res.Success? && r.res.value == Sum && Content(r.res.rest) == []
      && Canon(s) in r.st && 0 in r.st[Canon(s)].parsers && r.st[Canon(s)].parsers[0].result == Some(r.res)
  {
    SetupEntersGrowth(s, t, fuel);
    GrammarWellFormed();
    GrowFromFirst(s, Seeded(s, t), fuel);
    PosFacts(s, 5);
  }
}
