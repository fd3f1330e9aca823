/** The parse loop of a grammar: the combinators (ThenParser, ThenRightParser,
    RepParser, Rep1Parser, RepMNParser, LiteralParser) and MemoParser's
    packrat memoization with seed growing for left recursion, all threading
    the one memo table the parse context carries.

    Java recursion has no bound; here every call spends fuel, and `OutOfFuel`
    stands for a run the fuel given was too small to finish (a non-terminating
    grammar, such as a repetition of a parser that consumes nothing, never
    finishes for any fuel). */
module Engine {
  import opened Options
  import opened Sequences
  import opened ParseResults
  import opened Literals
  import opened Grammars
  import opened MemoTables

  datatype Step = Done(res: Result, st: Table) | OutOfFuel

  /** What every finished call guarantees: the memo table keeps its
      invariant, no cached result is lost or changed, and the rest of the
      result is what is left of the input. */
  ghost predicate Sound(s: Sequence<char>, t: Table, r: Step) {
    r.Done? ==> Inv(r.st) && Evolves(t, r.st) && SuffixOf(r.res.rest, s)
  }

  /** A finished repetition succeeds with a list that extends `acc`. */
  ghost predicate Extends(acc: seq<Value>, r: Step) {
    r.Done? && r.res.Success? ==> r.res.value.ListOf? && |acc| <= |r.res.value.items| && r.res.value.items[..|acc|] == acc
  }

  ghost predicate Ready(g: Grammar, e: Expr, s: Sequence<char>, t: Table) {
    WellFormed(g) && CallsWithin(e, |g|) && Valid(s) && Inv(t)
  }

  /** The four states of rule `id` at position `key`: never visited,
      visited and cached, being set up (re-entered if visited again), or
      marked SKIP by a re-entry of a rule below it on the stack. */
  predicate Fresh(t: Table, key: Sequence<char>, id: nat) {
    key !in t || id !in t[key].parsers
  }

  predicate Cached(t: Table, key: Sequence<char>, id: nat) {
    !Fresh(t, key, id) && t[key].parsers[id].mark != Skip && t[key].parsers[id].result.Some?
  }

  predicate Pending(t: Table, key: Sequence<char>, id: nat) {
    !Fresh(t, key, id) && t[key].parsers[id].mark != Skip && t[key].parsers[id].result.None?
  }

  predicate Skipped(t: Table, key: Sequence<char>, id: nat) {
    !Fresh(t, key, id) && t[key].parsers[id].mark == Skip
  }

  /** `parse` of the parser an expression denotes. The value of a literal is
      its text; `then` pairs its two values; the repetitions list theirs. */
  function Eval(g: Grammar, e: Expr, s: Sequence<char>, t: Table, fuel: nat): (r: Step)
    requires Ready(g, e, s, t)
    ensures Sound(s, t, r)
    ensures r.Done? && (e.Rep? || e.Rep1? || e.RepMN? || e.RepRange?) ==> Extends([], r)
    decreases fuel, 1, 0
  {
    if fuel == 0 then OutOfFuel
    else
      match e
      case Lit(text, ws) => Done(Map(Literal(text, ws, s), (v: string) => Str(v)), t)
      case Then(p, q) => ThenParse(g, p, q, s, t, fuel - 1)
      case ThenRight(p, q) => ThenRightParse(g, p, q, s, t, fuel - 1)
      case Orelse(p, q) => OrelseParse(g, p, q, s, t, fuel - 1)
      case Rep(p) => RepParse(g, p, s, t, fuel - 1)
      case Rep1(p) => Rep1Parse(g, p, s, t, fuel - 1)
      case RepMN(p, m, n) => RepMNParse(g, p, m, n, s, t, fuel - 1)
      case RepRange(p, m, n) => RepRangeParse(g, p, m, n, s, t, fuel - 1)
      case Call(i) =>
        match g[i]
        case Plain(body) => Eval(g, body, s, t, fuel - 1)
        case Memoized(body) => MemoParse(g, i, s, t, fuel - 1)
  }

  /** ThenParser.java:41-53: the second parser starts where the first
      stopped; a first result that is not a success is returned as it is. */
  function ThenParse(g: Grammar, p: Expr, q: Expr, s: Sequence<char>, t: Table, fuel: nat): (r: Step)
    requires Ready(g, p, s, t) && CallsWithin(q, |g|)
    ensures Sound(s, t, r)
    ensures r.Done? && r.res.Success? ==> r.res.value.PairOf?
    decreases fuel, 3, 0
  {
    var r1 := Eval(g, p, s, t, fuel);
    if r1.OutOfFuel? || !r1.res.Success? then r1
    else
      var r2 := Eval(g, q, r1.res.rest, r1.st, fuel);
      if r2.OutOfFuel? then OutOfFuel
      else
        SuffixOfTrans(r2.res.rest, r1.res.rest, s);
        EvolvesTrans(t, r1.st, r2.st);
        if r2.res.Success? then Done(Success(PairOf(r1.res.value, r2.res.value), r2.res.rest), r2.st)
        else r2
  }

  /** ThenRightParser.java:40-47: as `then`, keeping the second value. */
  function ThenRightParse(g: Grammar, p: Expr, q: Expr, s: Sequence<char>, t: Table, fuel: nat): (r: Step)
    requires Ready(g, p, s, t) && CallsWithin(q, |g|)
    ensures Sound(s, t, r)
    ensures var r1 := Eval(g, p, s, t, fuel); r1.Done? && !r1.res.Success? ==> r == r1
    ensures r.Done? && r.res.Success? ==>
      Eval(g, p, s, t, fuel).Done? && Eval(g, p, s, t, fuel).res.Success? &&
      SuffixOf(r.res.rest, Eval(g, p, s, t, fuel).res.rest)
    decreases fuel, 3, 0
  {
    var r1 := Eval(g, p, s, t, fuel);
    if r1.OutOfFuel? || !r1.res.Success? then r1
    else
      var r2 := Eval(g, q, r1.res.rest, r1.st, fuel);
      if r2.OutOfFuel? then OutOfFuel
      else
        SuffixOfTrans(r2.res.rest, r1.res.rest, s);
        EvolvesTrans(t, r1.st, r2.st);
        r2
  }

  /** Ordered choice: the second parser is tried from the same position
      only after a failure of the first; an error is final. */
  function OrelseParse(g: Grammar, p: Expr, q: Expr, s: Sequence<char>, t: Table, fuel: nat): (r: Step)
    requires Ready(g, p, s, t) && CallsWithin(q, |g|)
    ensures Sound(s, t, r)
    decreases fuel, 3, 0
  {
    var r1 := Eval(g, p, s, t, fuel);
    if r1.OutOfFuel? || !r1.res.Failure? then r1
    else
      var r2 := Eval(g, q, s, r1.st, fuel);
      if r2.OutOfFuel? then OutOfFuel
      else
        EvolvesTrans(t, r1.st, r2.st);
        r2
  }

  /** RepParser.java:43-59: a first attempt that does not succeed, failure
      or error alike, gives the empty list at the start. */
  function RepParse(g: Grammar, p: Expr, s: Sequence<char>, t: Table, fuel: nat): (r: Step)
    requires Ready(g, p, s, t)
    ensures Sound(s, t, r) && Extends([], r)
    ensures r.Done? ==> !r.res.Failure?
    decreases fuel, 3, 0
  {
    var r1 := Eval(g, p, s, t, fuel);
    if r1.OutOfFuel? then OutOfFuel
    else if !r1.res.Success? then
      SuffixOfRefl(s);
      Done(Success(ListOf([]), s), r1.st)
    else
      var r2 := RepLoop(g, p, [r1.res.value], r1.res.rest, r1.st, fuel);
      if r2.OutOfFuel? then OutOfFuel
      else
        SuffixOfTrans(r2.res.rest, r1.res.rest, s);
        EvolvesTrans(t, r1.st, r2.st);
        r2
  }

  /** Rep1Parser.java:44-63: a first attempt that does not succeed is the
      result. */
  function Rep1Parse(g: Grammar, p: Expr, s: Sequence<char>, t: Table, fuel: nat): (r: Step)
    requires Ready(g, p, s, t)
    ensures Sound(s, t, r) && Extends([], r)
    ensures r.Done? && r.res.Success? ==> |r.res.value.items| >= 1
    ensures r.Done? && r.res.Success? ==>
      Eval(g, p, s, t, fuel).Done? && Eval(g, p, s, t, fuel).res.Success? &&
      r.res.value.items[0] == Eval(g, p, s, t, fuel).res.value
    ensures r.Done? && r.res.Failure? ==> r == Eval(g, p, s, t, fuel)
    decreases fuel, 3, 0
  {
    var r1 := Eval(g, p, s, t, fuel);
    if r1.OutOfFuel? || !r1.res.Success? then r1
    else
      var r2 := RepLoop(g, p, [r1.res.value], r1.res.rest, r1.st, fuel);
      if r2.OutOfFuel? then OutOfFuel
      else
        SuffixOfTrans(r2.res.rest, r1.res.rest, s);
        EvolvesTrans(t, r1.st, r2.st);
        r2
  }

  /** RepMNParser.java:63-82 as written: after the `m` required items the
      one-bound form goes on with the counted tail, which never runs for
      `n == Unbounded`, and the two-bound form with the open-ended tail,
      which never looks at `n`. */
  function RepMNParse(g: Grammar, p: Expr, m: nat, n: int, s: Sequence<char>, t: Table, fuel: nat): (r: Step)
    requires Ready(g, p, s, t)
    ensures Sound(s, t, r) && Extends([], r)
    ensures r.Done? && r.res.Success? && n != 0 ==> |r.res.value.items| >= m
    ensures n == 0 ==> r == Done(Success(ListOf([]), s), t)
    ensures n != 0 && r.Done? && r.res.Failure? ==> r == Required(g, p, m, [], s, t, fuel)
    decreases fuel, 3, 0
  {
    if n == 0 then
      SuffixOfRefl(s);
      Done(Success(ListOf([]), s), t)
    else
      var r1 := Required(g, p, m, [], s, t, fuel);
      if r1.OutOfFuel? || !r1.res.Success? then r1
      else
        var r2 := if n == Unbounded then ToInfinity(g, p, m, n, r1.res.value.items, r1.res.rest, r1.st, fuel)
                  else RepLoop(g, p, r1.res.value.items, r1.res.rest, r1.st, fuel);
        if r2.OutOfFuel? then OutOfFuel
        else
          SuffixOfTrans(r2.res.rest, r1.res.rest, s);
          EvolvesTrans(t, r1.st, r2.st);
          r2
  }

  /** RepMNParser with its two tails the right way round: the counted tail
      for an explicit bound, the open-ended one for `Unbounded`. */
  function RepRangeParse(g: Grammar, p: Expr, m: nat, n: int, s: Sequence<char>, t: Table, fuel: nat): (r: Step)
    requires Ready(g, p, s, t)
    ensures Sound(s, t, r) && Extends([], r)
    ensures r.Done? && r.res.Success? && n != 0 ==> |r.res.value.items| >= m
    ensures n == 0 ==> r == Done(Success(ListOf([]), s), t)
    ensures n != 0 && r.Done? && r.res.Failure? ==> r == Required(g, p, m, [], s, t, fuel)
    ensures r.Done? && r.res.Success? && n != Unbounded ==> |r.res.value.items| <= (if n < m then m else n)
    decreases fuel, 3, 0
  {
    if n == 0 then
      SuffixOfRefl(s);
      Done(Success(ListOf([]), s), t)
    else
      var r1 := Required(g, p, m, [], s, t, fuel);
      if r1.OutOfFuel? || !r1.res.Success? then r1
      else
        var r2 := if n == Unbounded then RepLoop(g, p, r1.res.value.items, r1.res.rest, r1.st, fuel)
                  else ToInfinity(g, p, m, n, r1.res.value.items, r1.res.rest, r1.st, fuel);
        if r2.OutOfFuel? then OutOfFuel
        else
          SuffixOfTrans(r2.res.rest, r1.res.rest, s);
          EvolvesTrans(t, r1.st, r2.st);
          r2
  }

  /** The open-ended tail of a repetition (RepParser.java:50-58,
      Rep1Parser.java:52-62, RepMNParser.java:102-115): parse again until a
      failure, which ends the list before it; an error ends the whole
      repetition. */
  function RepLoop(g: Grammar, p: Expr, acc: seq<Value>, s: Sequence<char>, t: Table, fuel: nat): (r: Step)
    requires Ready(g, p, s, t)
    ensures Sound(s, t, r) && Extends(acc, r)
    ensures r.Done? ==> !r.res.Failure?
    decreases fuel, 2, 0
  {
    var r1 := Eval(g, p, s, t, fuel);
    if r1.OutOfFuel? then OutOfFuel
    else if r1.res.Failure? then
      SuffixOfRefl(s);
      Done(Success(ListOf(acc), s), r1.st)
    else if r1.res.Error? then r1
    else if fuel == 0 then OutOfFuel
    else
      var r2 := RepLoop(g, p, acc + [r1.res.value], r1.res.rest, r1.st, fuel - 1);
      if r2.OutOfFuel? then OutOfFuel
      else
        SuffixOfTrans(r2.res.rest, r1.res.rest, s);
        EvolvesTrans(t, r1.st, r2.st);
        assert r2.res.Success? ==> r2.res.value.items[..|acc|] == (acc + [r1.res.value])[..|acc|];
        r2
  }

  /** The `m` required items of RepMNParser (RepMNParser.java:67-76): any
      result but a success is returned as it is. */
  function Required(g: Grammar, p: Expr, k: nat, acc: seq<Value>, s: Sequence<char>, t: Table, fuel: nat): (r: Step)
    requires Ready(g, p, s, t)
    ensures Sound(s, t, r) && Extends(acc, r)
    ensures r.Done? && r.res.Success? ==> |r.res.value.items| == |acc| + k
    decreases fuel, 2, k
  {
    if k == 0 then
      SuffixOfRefl(s);
      Done(Success(ListOf(acc), s), t)
    else
      var r1 := Eval(g, p, s, t, fuel);
      if r1.OutOfFuel? || !r1.res.Success? then r1
      else
        var r2 := Required(g, p, k - 1, acc + [r1.res.value], r1.res.rest, r1.st, fuel);
        if r2.OutOfFuel? then OutOfFuel
        else
          SuffixOfTrans(r2.res.rest, r1.res.rest, s);
          EvolvesTrans(t, r1.st, r2.st);
          assert r2.res.Success? ==> r2.res.value.items[..|acc|] == (acc + [r1.res.value])[..|acc|];
          r2
  }

  /** The counted tail `for (i = m; i < n; i++)` of RepMNParser
      (RepMNParser.java:85-99): at most `n - i` more items, ending early
      at a failure. */
  function ToInfinity(g: Grammar, p: Expr, i: int, n: int, acc: seq<Value>, s: Sequence<char>, t: Table, fuel: nat): (r: Step)
    requires Ready(g, p, s, t)
    ensures Sound(s, t, r) && Extends(acc, r)
    ensures r.Done? && r.res.Success? ==> |r.res.value.items| <= |acc| + (if i < n then n - i else 0)
    ensures r.Done? ==> !r.res.Failure?
    decreases fuel, 2, if i < n then n - i else 0
  {
    if i >= n then
      SuffixOfRefl(s);
      Done(Success(ListOf(acc), s), t)
    else
      var r1 := Eval(g, p, s, t, fuel);
      if r1.OutOfFuel? then OutOfFuel
      else if r1.res.Failure? then
        SuffixOfRefl(s);
        Done(Success(ListOf(acc), s), r1.st)
      else if r1.res.Error? then r1
      else
        var r2 := ToInfinity(g, p, i + 1, n, acc + [r1.res.value], r1.res.rest, r1.st, fuel);
        if r2.OutOfFuel? then OutOfFuel
        else
          SuffixOfTrans(r2.res.rest, r1.res.rest, s);
          EvolvesTrans(t, r1.st, r2.st);
          assert r2.res.Success? ==> r2.res.value.items[..|acc|] == (acc + [r1.res.value])[..|acc|];
          r2
  }

  /** `MemoParser.parse` (MemoParser.java:46-66) for the memoized rule `id`:
      the first visit of a rule at a position sets it up, every later one
      recalls. A context without a table behaves as one with an empty
      table. */
  function MemoParse(g: Grammar, id: nat, s: Sequence<char>, t: Table, fuel: nat): (r: Step)
    requires id < |g| && Ready(g, g[id].body, s, t)
    ensures Sound(s, t, r)
    ensures Cached(t, Canon(s), id) ==> r == Done(t[Canon(s)].parsers[id].result.value, t)
    ensures Pending(t, Canon(s), id) ==> r == Done(Failure(LeftRecursionMessage, s), DetectReentry(t, Canon(s), id))
    ensures Skipped(t, Canon(s), id) ==> r == Eval(g, g[id].body, s, t, fuel)
    ensures Fresh(t, Canon(s), id) && r.Done? ==> Canon(s) in r.st && id in r.st[Canon(s)].parsers
    ensures Fresh(t, Canon(s), id) && r.Done? ==> var pe := r.st[Canon(s)].parsers[id];
      && (pe.mark == Skip <==> pe.result.None?)
      && (pe.result.Some? && !r.res.Error? ==> pe.result == Some(r.res))
      && (pe.result.Some? && r.res.Error? ==> pe.result == Some(r.res) || pe.result.value.Success?)
    decreases fuel, 4, 0
  {
    var key := Canon(s);
    if Fresh(t, key, id) then Setup(g, id, s, t, fuel)
    else Recall(g, id, s, t, fuel)
  }

  /** `setup` (MemoParser.java:68-91): parse with the rule stacked; a rule
      re-entered meanwhile by a rule it called is left uncached, one that
      re-entered itself and succeeded grows its seed, any other result is
      cached as it is. */
  function Setup(g: Grammar, id: nat, s: Sequence<char>, t: Table, fuel: nat): (r: Step)
    requires id < |g| && Ready(g, g[id].body, s, t)
    requires Fresh(t, Canon(s), id)
    ensures Sound(s, t, r)
    ensures r.Done? ==> Canon(s) in r.st && id in r.st[Canon(s)].parsers
    ensures r.Done? ==> var pe := r.st[Canon(s)].parsers[id];
      && (pe.mark == Skip <==> pe.result.None?)
      && (pe.mark == Unmarked ==> pe.result == Some(r.res))
      && (pe.result.Some? && !r.res.Error? ==> pe.result == Some(r.res))
      && (pe.result.Some? && r.res.Error? ==> pe.result == Some(r.res) || pe.result.value.Success?)
    decreases fuel, 3, 0
  {
    var key := Canon(s);
    var body := g[id].body;
    PushKeepsInv(t, key, id);
    var r1 := Eval(g, body, s, Push(t, key, id), fuel);
    if r1.OutOfFuel? then OutOfFuel
    else
      PopRestores(t, r1.st, key, id);
      var t3 := Pop(r1.st, key);
      var pe := t3[key].parsers[id];
      if pe.mark == Skip then Done(r1.res, t3)
      else
        SuffixOfCanon(r1.res.rest, s);
        StoreAfterPop(t, r1.st, key, id, r1.res);
        var t4 := Store(t3, key, id, r1.res);
        if pe.mark != Detected || !r1.res.Success? then Done(r1.res, t4)
        else
          var r2 := GrowLoop(g, id, s, r1.res, t4, fuel);
          if r2.OutOfFuel? then OutOfFuel
          else
            GrowthFromFresh(t, t4, r2.st, key, id);
            r2
  }

  /** The seed-growing loop of `setup` (MemoParser.java:81-90): with `seed`
      cached, parse again; a longer success is cached and the loop goes on,
      an error is returned without caching it, and anything else returns the
      cached seed. */
  function GrowLoop(g: Grammar, id: nat, s: Sequence<char>, seed: Result, t: Table, fuel: nat): (r: Step)
    requires id < |g| && Ready(g, g[id].body, s, t)
    requires Canon(s) in t && id in t[Canon(s)].parsers
    requires t[Canon(s)].parsers[id].result == Some(seed) && seed.Success?
    ensures r.Done? ==> Inv(r.st) && EvolvesBut(t, r.st, Canon(s), id) && SuffixOf(r.res.rest, s)
    ensures r.Done? ==> Canon(s) in r.st && id in r.st[Canon(s)].parsers
    ensures r.Done? ==> var cached := r.st[Canon(s)].parsers[id].result;
      && cached.Some? && cached.value.Success?
      && r.st[Canon(s)].parsers[id].mark == t[Canon(s)].parsers[id].mark
      && Length(cached.value.rest) <= Length(seed.rest)
      && (r.res.Error? || r.res == cached.value)
    ensures var r1 := Eval(g, g[id].body, s, t, fuel);
      r1.Done? && r1.res.Error? ==> r == r1
    ensures var r1 := Eval(g, g[id].body, s, t, fuel);
      r1.Done? && !r1.res.Error? && !(r1.res.Success? && Length(r1.res.rest) < Length(seed.rest)) ==> r == Done(seed, r1.st)
    ensures var r1 := Eval(g, g[id].body, s, t, fuel);
      r.Done? && r.res != seed ==> r1.Done? && (r1.res.Error? || (r1.res.Success? && Length(r1.res.rest) < Length(seed.rest)))
    decreases fuel, 2, Length(seed.rest)
  {
    var key := Canon(s);
    var r1 := Eval(g, g[id].body, s, t, fuel);
    if r1.OutOfFuel? then OutOfFuel
    else
      // the entry holds a result, so the parse left it as it was
      assert r1.st[key].parsers[id] == t[key].parsers[id];
      EvolvesWeakens(t, r1.st, key, id);
      if r1.res.Error? then r1
      else if r1.res.Failure? || Length(r1.res.rest) >= Length(seed.rest) then
        assert Inv(t) && EntryOk(key, t[key]) && CachedSuffix(key, t[key]);
        SuffixOfCanon(seed.rest, s);
        Done(seed, r1.st)
      else
        SuffixOfCanon(r1.res.rest, s);
        StoreSettled(r1.st, key, id, r1.res);
        var t2 := Store(r1.st, key, id, r1.res);
        var r2 := GrowLoop(g, id, s, r1.res, t2, fuel);
        EvolvesButThrough(t, t2, r2, key, id);
        r2
  }

  /** A step that evolves from `t1` but for one entry evolves so from
      anything `t1` evolved from. */
  lemma EvolvesButThrough(t0: Table, t1: Table, r: Step, key: Sequence<char>, id: nat)
    requires EvolvesBut(t0, t1, key, id) && (r.Done? ==> EvolvesBut(t1, r.st, key, id))
    ensures r.Done? ==> EvolvesBut(t0, r.st, key, id)
  {
    if r.Done? {
      EvolvesButTrans(t0, t1, r.st, key, id);
    }
  }

  /** `recall` (MemoParser.java:93-109): a SKIP entry parses afresh, a cached
      result is returned as it is, and an entry still being set up has been
      re-entered: it is marked DETECTED, the entries stacked above it SKIP,
      and the call fails. */
  function Recall(g: Grammar, id: nat, s: Sequence<char>, t: Table, fuel: nat): (r: Step)
    requires id < |g| && Ready(g, g[id].body, s, t)
    requires !Fresh(t, Canon(s), id)
    ensures Sound(s, t, r)
    ensures Cached(t, Canon(s), id) ==> r == Done(t[Canon(s)].parsers[id].result.value, t)
    ensures Pending(t, Canon(s), id) ==> r == Done(Failure(LeftRecursionMessage, s), DetectReentry(t, Canon(s), id))
    ensures Skipped(t, Canon(s), id) ==> r == Eval(g, g[id].body, s, t, fuel)
    decreases fuel, 3, 0
  {
    var key := Canon(s);
    var pe := t[key].parsers[id];
    if pe.mark == Skip then Eval(g, g[id].body, s, t, fuel)
    else if pe.result.Some? then
      assert EntryOk(key, t[key]) && CachedSuffix(key, t[key]);
      SuffixOfCanon(pe.result.value.rest, s);
      EvolvesRefl(t);
      Done(pe.result.value, t)
    else
      DetectReentryKeepsInv(t, key, id);
      SuffixOfRefl(s);
      Done(Failure(LeftRecursionMessage, s), DetectReentry(t, key, id))
  }
}
