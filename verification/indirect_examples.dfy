/** The indirectly left-recursive grammar of MemoParserTest.java:104-109,
    `X := memo(Y | "a")` and `Y := memo(X (X | Y))`, on "a a": the first
    visit of `X` enters `Y`, which re-enters `X` at the same position. That
    marks `X` DETECTED and `Y`, stacked above it, SKIP; `Y`'s failure is
    then left uncached, `X` stores the seed "a" and starts growing it, and
    in the growing loop a call of `Y` parses its body afresh. */
module IndirectExamples {
  import opened Options
  import opened Sequences
  import opened ParseResults
  import opened Literals
  import opened Grammars
  import opened MemoTables
  import opened Engine
  import opened MemoExamples

  const A: Expr := Lit("a", DefaultWhitespace)

  /** `yRef.orelse(literal("a"))` with `yRef` rule 1. */
  const XBody: Expr := Orelse(Call(1), A)

  /** `xRef.then(xRef.orelse(yRef))` with `xRef` rule 0. */
  const YBody: Expr := Then(Call(0), Orelse(Call(0), Call(1)))

  const MutualGrammar: Grammar := [Memoized(XBody), Memoized(YBody)]

  lemma MutualWellFormed()
    ensures WellFormed(MutualGrammar)
    ensures CallsWithin(XBody, 2) && CallsWithin(YBody, 2) && CallsWithin(A, 2)
    ensures MutualGrammar[0].body == XBody && MutualGrammar[1].body == YBody
  {
    assert CallsWithin(Call(0), 2) && CallsWithin(Call(1), 2) && CallsWithin(A, 2);
    assert CallsWithin(Orelse(Call(0), Call(1)), 2);
  }

  /** A re-entry of rule 0 from rule 1, pushed above it at the same
      position: rule 1 becomes SKIP and rule 0 DETECTED. */
  lemma ReentryMarks(t: Table, key: Sequence<char>)
    requires Inv(t) && key in t && 0 in t[key].parsers && 1 !in t[key].parsers
    requires t[key].parsers[0].result.None? && t[key].parsers[0].mark != Skip
    ensures Inv(Push(t, key, 1)) && 0 in Push(t, key, 1)[key].parsers
    ensures 0 in Push(t, key, 1)[key].stack && StackedPending(Push(t, key, 1)[key])
    ensures var td := DetectReentry(Push(t, key, 1), key, 0);
      && Inv(td) && Evolves(Push(t, key, 1), td)
      && td[key].parsers[1] == ParserEntry(None, Skip)
      && td[key].parsers[0] == t[key].parsers[0].(mark := Detected)
  {
    PushKeepsInv(t, key, 1);
    var tp := Push(t, key, 1);
    DetectReentryKeepsInv(tp, key, 0);
    assert EntryOk(key, tp[key]);
    var td := DetectReentry(tp, key, 0);
    assert 0 < IndexOf(tp[key].stack, 0);
    assert td[key].parsers[tp[key].stack[0]] == tp[key].parsers[tp[key].stack[0]].(mark := Skip);
  }

  /** The table after `Y`, visited first while `X` is being set up at the
      same position, re-enters `X` and is popped. */
  ghost function AfterReentry(s: Sequence<char>, t: Table): (t': Table)
    requires Valid(s) && Inv(t) && Canon(s) in t && 0 in t[Canon(s)].parsers && 1 !in t[Canon(s)].parsers
    requires t[Canon(s)].parsers[0].result.None? && t[Canon(s)].parsers[0].mark != Skip
    ensures Inv(t') && Canon(s) in t' && 0 in t'[Canon(s)].parsers && 1 in t'[Canon(s)].parsers
    ensures t'[Canon(s)].parsers[1] == ParserEntry(None, Skip)
    ensures t'[Canon(s)].parsers[0] == t[Canon(s)].parsers[0].(mark := Detected)
    ensures t'[Canon(s)].stack == t[Canon(s)].stack && Evolves(t, t')
  {
    var key := Canon(s);
    ReentryMarks(t, key);
    var td := DetectReentry(Push(t, key, 1), key, 0);
    PopRestores(t, td, key, 1);
    Pop(td, key)
  }

  /** A first visit whose parse left the rule marked SKIP returns that
      parse's result and caches nothing (MemoParser.java:74-76). */
  lemma SetupLeavesSkipped(g: Grammar, id: nat, s: Sequence<char>, t: Table, fuel: nat, r: Result, t2: Table)
    requires id < |g| && Ready(g, g[id].body, s, t) && Fresh(t, Canon(s), id)
    requires Inv(Push(t, Canon(s), id))
    requires Eval(g, g[id].body, s, Push(t, Canon(s), id), fuel) == Done(r, t2)
    requires Canon(s) in t2 && id in t2[Canon(s)].parsers && t2[Canon(s)].parsers[id].mark == Skip
    ensures |t2[Canon(s)].stack| > 0
    ensures MemoParse(g, id, s, t, fuel) == Done(r, Pop(t2, Canon(s)))
  {
    PopRestores(t, t2, Canon(s), id);
    assert MemoParse(g, id, s, t, fuel) == Setup(g, id, s, t, fuel);
  }

  /** `Y` visited while `X` is being set up at the same position: its call
      of `X` re-enters `X` and fails, which marks `Y` SKIP, so `Y` returns
      that failure without caching it. */
  lemma InnerRuleReentersOuter(s: Sequence<char>, t: Table, fuel: nat)
    requires Valid(s) && Inv(t) && Canon(s) in t && 0 in t[Canon(s)].parsers && 1 !in t[Canon(s)].parsers
    requires t[Canon(s)].parsers[0].result.None? && t[Canon(s)].parsers[0].mark != Skip
    requires fuel >= 3
    ensures WellFormed(MutualGrammar)
    ensures MemoParse(MutualGrammar, 1, s, t, fuel) == Done(Failure(LeftRecursionMessage, s), AfterReentry(s, t))
  {
    MutualWellFormed();
    var g := MutualGrammar;
    var key := Canon(s);
    ReentryMarks(t, key);
    var tp := Push(t, key, 1);
    var f1 := fuel - 1;
    CallReenters(g, s, tp, f1);
    assert Eval(g, Call(0), s, tp, f1).Done? && !Eval(g, Call(0), s, tp, f1).res.Success?;
    ThenStops(g, Call(0), Orelse(Call(0), Call(1)), s, tp, fuel);
    var td := DetectReentry(tp, key, 0);
    SetupLeavesSkipped(g, 1, s, t, fuel, Failure(LeftRecursionMessage, s), td);
  }

  /** The literal reads the first "a" of "a a". */
  lemma LiteralReadsFirst(g: Grammar, s: Sequence<char>, t: Table, fuel: nat)
    requires Ready(g, A, s, t) && Content(s) == "a a" && fuel > 0
    ensures 1 <= Length(s)
    ensures Eval(g, A, s, t, fuel) == Done(Success(Str("a"), Pos(s, 1)), t)
  {
    assert |Content(s)| > 0 && Content(s)[0] == 'a' && !IsSpace('a');
    EvalLitMatches(g, 'a', s, t, fuel);
  }

  /** The call of `Y` from `X`'s body, as above. */
  lemma CallInnerReenters(s: Sequence<char>, t: Table, fuel: nat)
    requires Valid(s) && Inv(t) && Canon(s) in t && 0 in t[Canon(s)].parsers && 1 !in t[Canon(s)].parsers
    requires t[Canon(s)].parsers[0].result.None? && t[Canon(s)].parsers[0].mark != Skip
    requires fuel >= 4
    ensures WellFormed(MutualGrammar) && CallsWithin(Call(1), 2)
    ensures Eval(MutualGrammar, Call(1), s, t, fuel) == Done(Failure(LeftRecursionMessage, s), AfterReentry(s, t))
  {
    MutualWellFormed();
    var f1 := fuel - 1;
    InnerRuleReentersOuter(s, t, f1);
    CallMemo(MutualGrammar, 1, s, t, fuel);
  }

  /** The first parse of `X`'s body at the start of "a a", with `X`
      stacked: `Y` fails with the re-entry's failure and the literal reads
      the seed "a". */
  lemma OuterFirstPass(s: Sequence<char>, t: Table, fuel: nat)
    requires Valid(s) && Content(s) == "a a" && Inv(t) && Canon(s) !in t && fuel >= 5
    ensures WellFormed(MutualGrammar) && Inv(Push(t, Canon(s), 0)) && 1 <= Length(s)
    ensures Eval(MutualGrammar, XBody, s, Push(t, Canon(s), 0), fuel)
      == Done(Success(Str("a"), Pos(s, 1)), AfterReentry(s, Push(t, Canon(s), 0)))
  {
    MutualWellFormed();
    var g := MutualGrammar;
    var key := Canon(s);
    PushKeepsInv(t, key, 0);
    var tx := Push(t, key, 0);
    var f1 := fuel - 1;
    assert 1 !in tx[key].parsers;
    CallInnerReenters(s, tx, f1);
    var t1 := AfterReentry(s, tx);
    LiteralReadsFirst(g, s, t1, f1);
    assert Eval(g, Call(1), s, tx, f1).Done? && Eval(g, Call(1), s, tx, f1).res.Failure?;
    OrelseFallsBack(g, Call(1), A, s, tx, fuel);
    assert Eval(g, Orelse(Call(1), A), s, tx, fuel) == Eval(g, A, s, t1, f1);
  }

  /** The table `X` grows its seed in: `X` holds "a" and is DETECTED, `Y`
      is SKIP with no result. */
  ghost function GrowthTable(s: Sequence<char>, t: Table): (t': Table)
    requires Valid(s) && Content(s) == "a a" && Inv(t) && Canon(s) !in t
    ensures Inv(t') && Canon(s) in t' && 0 in t'[Canon(s)].parsers && 1 in t'[Canon(s)].parsers
    ensures t'[Canon(s)].parsers[0] == ParserEntry(Some(Success(Str("a"), Pos(s, 1))), Detected)
    ensures t'[Canon(s)].parsers[1] == ParserEntry(None, Skip)
    ensures t'[Canon(s)].stack == []
  {
    var key := Canon(s);
    PushKeepsInv(t, key, 0);
    var tx := Push(t, key, 0);
    var t1 := AfterReentry(s, tx);
    PosFacts(s, 1);
    SuffixOfCanon(Pos(s, 1), s);
    StoreAfterPop(t, t1, key, 0, Success(Str("a"), Pos(s, 1)));
    Store(Pop(t1, key), key, 0, Success(Str("a"), Pos(s, 1)))
  }

  /** MemoParserTest.test5, up to the growing loop: the first visit of `X`
      stores the seed "a" and grows it in a table where `Y` is SKIP, and
      there a call of `Y` is not answered from the table but parses `Y`'s
      body again. */
  lemma IndirectRecursionSkipsInnerRule(s: Sequence<char>, t: Table, fuel: nat)
    requires Valid(s) && Content(s) == "a a" && Inv(t) && Canon(s) !in t && fuel >= 5
    ensures WellFormed(MutualGrammar) && CallsWithin(YBody, 2) && 1 <= Length(s)
    ensures MemoParse(MutualGrammar, 0, s, t, fuel)
      == GrowLoop(MutualGrammar, 0, s, Success(Str("a"), Pos(s, 1)), GrowthTable(s, t), fuel)
    ensures Skipped(GrowthTable(s, t), Canon(s), 1)
    ensures Eval(MutualGrammar, Call(1), s, GrowthTable(s, t), fuel) == Eval(MutualGrammar, YBody, s, GrowthTable(s, t), fuel - 1)
  {
    MutualWellFormed();
    var g := MutualGrammar;
    var key := Canon(s);
    OuterFirstPass(s, t, fuel);
    var t1 := AfterReentry(s, Push(t, key, 0));
    SetupGrowsSeed(g, 0, s, t, fuel, Success(Str("a"), Pos(s, 1)), t1);
    var t2 := GrowthTable(s, t);
    CallMemo(g, 1, s, t2, fuel);
  }
}
