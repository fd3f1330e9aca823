/** What memoization promises across calls: a rule parsed once at a position
    answers every later visit to an equal position from the table, and a rule
    that calls itself before consuming anything fails with the left-recursion
    message instead of looping. */
module MemoLaws {
  import opened Options
  import opened Sequences
  import opened ParseResults
  import opened Grammars
  import opened MemoTables
  import opened Engine

  /** Packrat memoization: after a first visit that was not re-entered from
      below (its entry is not SKIP) and did not end in an error, any later
      visit to an equal view returns the first result and leaves the table
      alone, whatever was parsed in between and whatever fuel it is given. */
  lemma {:induction false} SecondVisitReturnsFirstResult(g: Grammar, id: nat, s: Sequence<char>, s2: Sequence<char>,
                                                         t: Table, t2: Table, fuel: nat, fuel2: nat)
    requires id < |g| && Ready(g, g[id].body, s, t) && Fresh(t, Canon(s), id)
    requires MemoParse(g, id, s, t, fuel).Done? && !MemoParse(g, id, s, t, fuel).res.Error?
    requires !Skipped(MemoParse(g, id, s, t, fuel).st, Canon(s), id)
    requires Evolves(MemoParse(g, id, s, t, fuel).st, t2) && Inv(t2)
    requires Valid(s2) && Equals(s, s2)
    ensures MemoParse(g, id, s2, t2, fuel2) == Done(MemoParse(g, id, s, t, fuel).res, t2)
  {
    var r := MemoParse(g, id, s, t, fuel);
    var key := Canon(s);
    EqualsIffCanon(s, s2);
    assert Canon(s2) == key;
    var pe := r.st[key].parsers[id];
    assert pe.result == Some(r.res);
    assert t2[key].parsers[id] == pe;
    assert Cached(t2, Canon(s2), id);
  }

  /** An error is cached only when no success is: a later visit returns the
      error again, or the success the seed had grown to before it. */
  lemma {:induction false} SecondVisitAfterError(g: Grammar, id: nat, s: Sequence<char>, t: Table, fuel: nat, fuel2: nat)
    requires id < |g| && Ready(g, g[id].body, s, t) && Fresh(t, Canon(s), id)
    requires MemoParse(g, id, s, t, fuel).Done? && MemoParse(g, id, s, t, fuel).res.Error?
    requires !Skipped(MemoParse(g, id, s, t, fuel).st, Canon(s), id)
    ensures var r := MemoParse(g, id, s, t, fuel);
      var r2 := MemoParse(g, id, s, r.st, fuel2);
      r2.Done? && r2.st == r.st && (r2.res == r.res || r2.res.Success?)
  {
    var r := MemoParse(g, id, s, t, fuel);
    assert Cached(r.st, Canon(s), id);
  }

  /** A first visit caches and returns the body's own result as it is when
      the rule was not re-entered (unmarked), and also when it was re-entered
      (DETECTED) but the result is not a success; only a SKIP rule caches
      nothing. */
  lemma {:induction false} SetupCachesFirstResult(g: Grammar, id: nat, s: Sequence<char>, t: Table, fuel: nat)
    requires id < |g| && Ready(g, g[id].body, s, t) && Fresh(t, Canon(s), id)
    requires var r1 := Eval(g, g[id].body, s, Push(t, Canon(s), id), fuel);
      && r1.Done? && Canon(s) in r1.st && id in r1.st[Canon(s)].parsers
      && var mark := r1.st[Canon(s)].parsers[id].mark;
      (mark == Unmarked || (!r1.res.Success? && mark != Skip))
    ensures var r1 := Eval(g, g[id].body, s, Push(t, Canon(s), id), fuel);
      var r := MemoParse(g, id, s, t, fuel);
      && r.Done? && r.res == r1.res && Canon(s) in r.st && id in r.st[Canon(s)].parsers
      && r.st[Canon(s)].parsers[id] == ParserEntry(Some(r1.res), r1.st[Canon(s)].parsers[id].mark)
  {
    var key := Canon(s);
    PushKeepsInv(t, key, id);
    var r1 := Eval(g, g[id].body, s, Push(t, key, id), fuel);
    PopRestores(t, r1.st, key, id);
    assert Setup(g, id, s, t, fuel) == Done(r1.res, Store(Pop(r1.st, key), key, id, r1.res));
  }

  /** A rule whose body is a call of itself (`E := memo(E)`) fails at once
      with the left-recursion message, and that failure is what the table
      then holds for it. */
  lemma {:induction false} DirectLeftRecursionFails(g: Grammar, id: nat, s: Sequence<char>, t: Table, fuel: nat)
    requires id < |g| && g[id] == Memoized(Call(id))
    requires Ready(g, Call(id), s, t) && Fresh(t, Canon(s), id) && fuel >= 1
    ensures var r := MemoParse(g, id, s, t, fuel);
      && r.Done? && r.res == Failure(LeftRecursionMessage, s)
      && Canon(s) in r.st && id in r.st[Canon(s)].parsers
      && r.st[Canon(s)].parsers[id] == ParserEntry(Some(Failure(LeftRecursionMessage, s)), Detected)
  {
    var key := Canon(s);
    PushKeepsInv(t, key, id);
    var t1 := Push(t, key, id);
    assert Pending(t1, key, id);
    var r1 := Eval(g, Call(id), s, t1, fuel);
    assert r1 == MemoParse(g, id, s, t1, fuel - 1);
    assert r1.Done? && r1.res == Failure(LeftRecursionMessage, s);
    assert r1.st[key].parsers[id] == ParserEntry(None, Detected);
    SetupCachesFirstResult(g, id, s, t, fuel);
  }
}
