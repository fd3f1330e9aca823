/** Parser expressions. A grammar is an arena of rules referred to by index:
    the index is the parser's identity, which is what MemoParser keys its
    entries on (MemoParser.java:113-114), and a `Call` is the late-bound
    forwarding parser the tests use for recursive rules
    (MemoParserTest.java:53-70). */
module Grammars {
  import opened Options
  import opened Literals

  /** Parse values: a literal's text, a `then` pair, a repetition's list. */
  datatype Value = Str(text: string) | PairOf(left: Value, right: Value) | ListOf(items: seq<Value>)

  /** `RepMN(body, m, n)` with `n == Unbounded` is the one-bound form. */
  const Unbounded: int := -1

  /** `RepMN` is RepMNParser as written; `RepRange` is the same parser with
      its two tails the right way round: at most `n` items for an explicit
      bound and no bound for `Unbounded`. */
  datatype Expr =
    | Lit(text: string, ws: Whitespace)
    | Then(first: Expr, second: Expr)
    | ThenRight(first: Expr, second: Expr)
    | Orelse(first: Expr, second: Expr)
    | Rep(body: Expr)
    | Rep1(body: Expr)
    | RepMN(body: Expr, m: nat, n: int)
    | RepRange(body: Expr, m: nat, n: int)
    | Call(rule: nat)

  /** A plain rule is a forwarding parser; a memoized rule is the body wrapped
      in a MemoParser. */
  datatype Rule = Plain(body: Expr) | Memoized(body: Expr)

  type Grammar = seq<Rule>

  /** Every rule an expression calls exists. */
  predicate CallsWithin(e: Expr, count: nat) {
    match e
    case Lit(_, _) => true
    case Then(p, q) => CallsWithin(p, count) && CallsWithin(q, count)
    case ThenRight(p, q) => CallsWithin(p, count) && CallsWithin(q, count)
    case Orelse(p, q) => CallsWithin(p, count) && CallsWithin(q, count)
    case Rep(p) => CallsWithin(p, count)
    case Rep1(p) => CallsWithin(p, count)
    case RepMN(p, _, _) => CallsWithin(p, count)
    case RepRange(p, _, _) => CallsWithin(p, count)
    case Call(i) => i < count
  }

  predicate WellFormed(g: Grammar) {
    forall i :: 0 <= i < |g| ==> CallsWithin(g[i].body, |g|)
  }

  /** `new RepMNParser(parser, m)` (RepMNParser.java:40-47); None stands for
      IllegalArgumentException. */
  function RepAtLeast(body: Expr, m: int): (r: Option<Expr>)
    ensures r.Some? <==> m >= 0
    ensures r.Some? ==> r.value.RepMN? && r.value.body == body && r.value.m == m && r.value.n == Unbounded
  {
    if m < 0 then None else Some(RepMN(body, m, Unbounded))
  }

  /** `new RepMNParser(parser, m, n)` (RepMNParser.java:49-59). */
  function RepBetween(body: Expr, m: int, n: int): (r: Option<Expr>)
    ensures r.Some? <==> 0 <= m <= n
    ensures r.Some? ==> r.value.RepMN? && r.value.body == body && r.value.m == m && r.value.n == n
  {
    if m < 0 then None
    else if n < m then None
    else Some(RepMN(body, m, n))
  }
}
