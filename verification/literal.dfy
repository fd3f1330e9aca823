/** The literal leaf parser (LiteralParser.java) and the whitespace skip it
    inherits (CharParser.java). */
module Literals {
  import opened Sequences
  import opened ParseResults

  /** The whitespace pattern of a character parser: none (a null pattern) or
      the default `\s+`. Other patterns are regular expressions and are not
      modelled. */
  datatype Whitespace = NoWhitespace | DefaultWhitespace

  /** The characters Java's `\s` matches. */
  predicate IsSpace(c: char) {
    c == ' ' || c == '\t' || c == '\n' || c == '\U{000B}' || c == '\U{000C}' || c == '\r'
  }

  /** The length of the longest all-space prefix of `text`: where a greedy
      `\s+` anchored at the start ends, or 0 when it does not match. */
  function SpacePrefix(text: string): (n: nat)
    ensures n <= |text|
    ensures forall i :: 0 <= i < n ==> IsSpace(text[i])
    ensures n < |text| ==> !IsSpace(text[n])
  {
    if |text| == 0 || !IsSpace(text[0]) then 0 else 1 + SpacePrefix(text[1..])
  }

  /** `handleWhitespace` (CharParser.java:44-52): how many leading characters
      the parser skips before matching. */
  function HandleWhitespace(ws: Whitespace, s: Sequence<char>): (n: nat)
    requires Valid(s)
    ensures n <= Length(s)
    ensures ws.NoWhitespace? ==> n == 0
    ensures forall i :: 0 <= i < n ==> IsSpace(Content(s)[i])
    ensures ws.DefaultWhitespace? && n < Length(s) ==> !IsSpace(Content(s)[n])
  {
    match ws
    case NoWhitespace => 0
    case DefaultWhitespace => SpacePrefix(Content(s))
  }

  /** The failure message of a literal parser. */
  function Expected(lit: string): string {
    "'" + lit + "' expected"
  }

  /** `LiteralParser.parse` (LiteralParser.java:47-55) after a skip of `skip`
      characters: the literal must follow the skipped prefix. */
  function LiteralParse(lit: string, skip: nat, s: Sequence<char>): (r: ParseResult<char, string>)
    requires Valid(s) && skip <= Length(s)
    ensures !r.Error?
    ensures r.Success? <==> skip + |lit| <= Length(s) && Content(s)[skip .. skip + |lit|] == lit
    ensures r.Success? ==> r.value == lit && Length(r.rest) == Length(s) - skip - |lit|
    ensures r.Failure? ==> r.message == Expected(lit) && Length(r.rest) == Length(s) - skip
    ensures SuffixOf(r.rest, s)
  {
    var start := skip;
    var end := start + |lit|;
    SubSequenceContent(s, start);
    if end > Length(s) || (SubSequenceRangeContent(s, start, end);
                           Content(SubSequenceRange(s, start, end).value) != lit) then
      Failure(Expected(lit), SubSequence(s, start).value)
    else
      SubSequenceContent(s, end);
      Success(lit, SubSequence(s, end).value)
  }

  /** A literal parser with its whitespace pattern. */
  function Literal(lit: string, ws: Whitespace, s: Sequence<char>): (r: ParseResult<char, string>)
    requires Valid(s)
    ensures !r.Error? && SuffixOf(r.rest, s)
    ensures var n := HandleWhitespace(ws, s);
      r.Success? <==> n + |lit| <= Length(s) && Content(s)[n .. n + |lit|] == lit
    ensures r.Success? ==> r.value == lit
    ensures r.Success? ==> Length(r.rest) == Length(s) - HandleWhitespace(ws, s) - |lit|
    ensures r.Failure? ==> r.message == Expected(lit) && Length(r.rest) == Length(s) - HandleWhitespace(ws, s)
  {
    LiteralParse(lit, HandleWhitespace(ws, s), s)
  }

  /** Without whitespace skipping, a literal matches exactly when the input
      starts with it, and the rest is what follows it. */
  lemma LiteralNoWhitespace(lit: string, s: Sequence<char>)
    requires Valid(s)
    ensures Literal(lit, NoWhitespace, s).Success? <==> |lit| <= Length(s) && Content(s)[..|lit|] == lit
    ensures Literal(lit, NoWhitespace, s).Success? ==>
      Content(Literal(lit, NoWhitespace, s).rest) == Content(s)[|lit|..]
    ensures Literal(lit, NoWhitespace, s).Failure? ==> Literal(lit, NoWhitespace, s).rest == s
  {
    var r := Literal(lit, NoWhitespace, s);
    if r.Success? {
      SuffixOfContent(r.rest, s);
    }
  }
}
