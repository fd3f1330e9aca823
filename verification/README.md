# jparse packrat core in Dafny

A model of the parsing core of jparse, a Java parser-combinator library.
The model covers:

- the tri-state `ParseResult` (success, failure, error) and its queries and coercions;
- the per-run `ParseContext` map;
- the offset/length sequence views: `SequenceAdapter`, and the `MemoSequence` and `StatefulSequence` wrappers;
- the combinators `ThenParser`, `ThenRightParser`, `RepParser`, `Rep1Parser` and `RepMNParser`, and the leaf `LiteralParser`;
- `MemoParser`: packrat memoization with left-recursion detection (the `DETECTED` and `SKIP` marks, the per-position stack of rules being set up) and seed growing.

A grammar is a sequence of rules referred to by index. A rule is either
plain or wrapped in a `MemoParser`. The rule index is the parser identity
that `MemoParser` keys its entries on. A parse threads one memo table
explicitly: position → (rule → entry { result?, mark }) plus one stack per
position. Every call returns a `Step`: either the result and the new table,
or `OutOfFuel` when the fuel it was given ran out.

Modules, one per file:

| file | module | what |
|---|---|---|
| sequences.dfy | `Options`, `Sequences` | `Option`; views, `at`, `subSequence`, `equals`, `fromCharSequence`, `withMemo` |
| parse_result.dfy | `ParseResults` | `ParseResult` and its operations |
| parse_context.dfy | `ParseContexts` | `ParseContext` |
| literal.dfy | `Literals` | `LiteralParser` and the whitespace skip of `CharParser` |
| grammar.dfy | `Grammars` | parser expressions, values, the `RepMNParser` constructors |
| memo_table.dfy | `MemoTables` | the memo table, its invariant and its primitive updates |
| engine.dfy | `Engine` | the interpreter: combinators and `MemoParser` |
| combinator_laws.dfy | `CombinatorLaws` | laws relating the combinators; the `RepMNParser` finding |
| memo_laws.dfy | `MemoLaws` | what memoization promises across calls |
| memo_examples.dfy | `MemoExamples` | the left-recursive grammar `E := memo(E "+" num / num)` run on "1+2+3" |
| indirect_examples.dfy | `IndirectExamples` | the indirectly left-recursive grammar `X := memo(Y / "a")`, `Y := memo(X (X / Y))` on "a a" |

Every call of the interpreter is `Sound`:

- the table keeps its invariant `Inv`;
- every stack is what it was before the call;
- no cached result is lost or changed (`Evolves`);
- the rest of the result is a suffix of the input.

`Inv` is the stack discipline of `MemoParser`:

- a stacked rule has no result yet;
- no rule is stacked twice at one position;
- an entry with no result that is not `SKIP` is on its position's stack, so the walk of `recall` finds it;
- a cached rest is a suffix of its position.

The memo table is a `HashMap` keyed by the sequence's own `equals`, which
ignores a wrapper's values map. The model keys it by `Canon(s)`, the view
with its values handle erased, and `Sequences.EqualsIffCanon` proves that
this agrees with `equals`.

An error met while growing a seed is returned but never cached
(`MemoParser.java:84-86`). The entry keeps the last successful seed, so a
later visit answers with that success. See `Engine.GrowLoop` and
`MemoLaws.SecondVisitAfterError`.

## Model

| member | source | states |
|---|---|---|
| ParseResults.ExactlyOneKind | src/main/java/com/github/jparse/ParseResult.java:88-100 | exactly one of isSuccess, isFailure and isError holds of every result |
| ParseResults.GetResult | src/main/java/com/github/jparse/ParseResult.java:103-105 | defined exactly on a success, and gives its value; any other kind throws (None) |
| ParseResults.GetMessage | src/main/java/com/github/jparse/ParseResult.java:184-186 | defined exactly on a failure or error, and gives its message; a success throws (None) |
| ParseResults.Map | src/main/java/com/github/jparse/ParseResult.java:113-115 | the kind and rest are kept; a success's value becomes f(value); a failure or error keeps its message |
| ParseResults.WithFailureMessage | src/main/java/com/github/jparse/ParseResult.java:212-214 | only a failure gets the new message, with the same rest; success and error are returned as they are |
| ParseResults.WithErrorMessage | src/main/java/com/github/jparse/ParseResult.java:280-282 | only an error gets the new message, with the same rest; success and failure are returned as they are |
| ParseResults.AsFailure | src/main/java/com/github/jparse/ParseResult.java:285-287 | an error becomes a failure with the same message and rest; the other kinds are unchanged |
| ParseResults.AsError | src/main/java/com/github/jparse/ParseResult.java:227-229 | a failure becomes an error with the same message and rest; the other kinds are unchanged |
| ParseResults.CoercionRoundTrip | src/main/java/com/github/jparse/ParseResult.java:222-229 | asFailure undoes asError on a failure and asError undoes asFailure on an error; both are idempotent and the identity on a success |
| ParseResults.MessageOverrides | src/main/java/com/github/jparse/ParseResult.java:118-125 | a second message override of the same kind wins; overrides never move the rest; the two kinds of override commute |
| ParseResults.Same | src/main/java/com/github/jparse/ParseResult.java:138-148 | equals, defined directly from the three kinds' equals: equal results have the same kind, the same value or message, and rests over the same window of the same backing text; every result equals itself; characterised in full by ParseResults.SameIffCanon |
| ParseResults.SameIffCanon | src/main/java/com/github/jparse/ParseResult.java:138-148 | two results are equal exactly when kind, value or message, and the rest (by the sequences' equals) agree |
| ParseResults.SameIsEquivalence | src/main/java/com/github/jparse/ParseResult.java:232-242 | result equality is reflexive, symmetric and transitive |
| ParseContexts.Empty | src/main/java/com/github/jparse/ParseContext.java:32 | a fresh context answers null for every key |
| ParseContexts.Get | src/main/java/com/github/jparse/ParseContext.java:35-37 | a key gives a value exactly when one is stored under it |
| ParseContexts.Put | src/main/java/com/github/jparse/ParseContext.java:40-42 | after put, get gives the new value; it returns the previous value or null; every other key is unchanged |
| ParseContexts.Remove | src/main/java/com/github/jparse/ParseContext.java:45-47 | after remove, get gives null; it returns the previous value or null; every other key is unchanged |
| ParseContexts.RemoveThenPutRestores | src/main/java/com/github/jparse/ParseContext.java:40-47 | putting back what remove returned restores the context |
| ParseContexts.PutPut | src/main/java/com/github/jparse/ParseContext.java:40-42 | a second put under the same key returns the first value and leaves only the second |
| Sequences.FromString | src/main/java/com/github/jparse/Sequences.java:66-68 | a new adapter starts at index 0, covers the whole text and denotes it |
| Sequences.FromCharSequence | src/main/java/com/github/jparse/Sequences.java:35-41 | plain text is wrapped in a fresh adapter; a sequence view is returned as it is |
| Sequences.FromCharSequenceIdempotent | src/main/java/com/github/jparse/Sequences.java:35-41 | applying fromCharSequence to its own result changes nothing |
| Sequences.WithMemo | src/main/java/com/github/jparse/Sequences.java:52-58 | the result is a memo wrapper over the same window; a memo wrapper is returned as it is |
| Sequences.WithMemoIdempotent | src/main/java/com/github/jparse/Sequences.java:52-58 | applying withMemo twice is applying it once, whatever values map the second call would allocate |
| Sequences.AtAsWritten | src/main/java/com/github/jparse/Sequences.java:82-89 | at(i) as written reads backing[index + i], bounded only by the backing text |
| Sequences.AtAsWrittenReadsPastEnd | src/main/java/com/github/jparse/Sequences.java:82-89 | a view that ends before its backing text hands out the element at index length() instead of rejecting it |
| Sequences.AtAsWrittenExample | src/main/java/com/github/jparse/Sequences.java:82-89 | the one-character view "a" of "ab" answers 'b' at index 1 |
| Sequences.At | src/main/java/com/github/jparse/MemoSequence.java:51-54 | the corrected at of the Sequences.java:82-89 finding below: defined exactly for 0 <= i < length(), giving the i-th element of the view, through any wrappers |
| Sequences.AtAgreesInside | src/main/java/com/github/jparse/Sequences.java:82-89 | inside the window the code as written and the corrected at agree |
| Sequences.SubSequence | src/main/java/com/github/jparse/Sequences.java:92-103 | defined exactly for 0 <= start <= length(); the result starts start further into the same text and is start shorter; start 0 gives the view itself |
| Sequences.SubSequenceContent | src/main/java/com/github/jparse/Sequences.java:92-103 | subSequence(start) denotes the view's elements from start on, and is a suffix of it |
| Sequences.SubSequenceRange | src/main/java/com/github/jparse/Sequences.java:106-120 | defined exactly for 0 <= start <= end <= length(); the result is end - start long from start on; the whole range gives the view itself |
| Sequences.SubSequenceRangeContent | src/main/java/com/github/jparse/Sequences.java:106-120 | subSequence(start, end) denotes the elements start to end of the view |
| Sequences.SubSequenceCompose | src/main/java/com/github/jparse/Sequences.java:92-103 | subSequence(a) then subSequence(b) is subSequence(a + b) |
| Sequences.SubSequenceSharesValues | src/main/java/com/github/jparse/MemoSequence.java:57-62 | a proper sub-sequence of a wrapper is a wrapper of the same kind over the inner sub-sequence, sharing the values map |
| Sequences.SubSequenceRangeSharesValues | src/main/java/com/github/jparse/StatefulSequence.java:65-70 | the same for subSequence(start, end), except the whole range, which gives the wrapper itself |
| Sequences.Equals | src/main/java/com/github/jparse/Sequences.java:123-132 | equals, defined directly per wrapper kind (also MemoSequence.java:72-83 and StatefulSequence.java:72-83): equal views have the same wrapper kind and the same backing text, index and length, whatever values maps they hold; every view equals itself; characterised in full by Sequences.EqualsIffCanon |
| Sequences.EqualsIffCanon | src/main/java/com/github/jparse/MemoSequence.java:72-83 | equals holds exactly when the views agree with their values maps ignored: same wrapper kinds, same backing text, index and length |
| Sequences.CanonKeepsView | src/main/java/com/github/jparse/Sequences.java:123-132 | ignoring values maps keeps the window and length, and is idempotent |
| Sequences.IndependentViewsEqual | src/main/java/com/github/jparse/Sequences.java:123-132 | two memo views built separately over the same text, moved to the same offset by different routes, are equal |
| Literals.SpacePrefix | src/main/java/com/github/jparse/CharParser.java:32 | the length of the longest prefix of Java whitespace: all of it is whitespace and the next character is not |
| Literals.HandleWhitespace | src/main/java/com/github/jparse/CharParser.java:44-52 | no pattern skips nothing; the default pattern skips only whitespace, never past the end, and all of it: the next character, if any, is not whitespace |
| Literals.LiteralParse | src/main/java/com/github/jparse/LiteralParser.java:47-55 | never an error; succeeds exactly when the literal follows the skipped prefix, with the literal as value and the rest just after it; otherwise fails with "'lit' expected" at the skipped position |
| Literals.Literal | src/main/java/com/github/jparse/LiteralParser.java:47-55 | a literal parse never errs; it succeeds exactly when the literal follows the whitespace handleWhitespace skips, with the literal as value and the rest just after it; otherwise it fails with "'lit' expected" at the skipped position |
| Literals.LiteralNoWhitespace | src/main/java/com/github/jparse/LiteralParser.java:49-54 | without whitespace skipping a literal matches exactly when the input starts with it; the rest then holds what follows, and a failure rests at the input |
| Grammars.RepAtLeast | src/main/java/com/github/jparse/RepMNParser.java:40-47 | the one-bound constructor rejects exactly m < 0 and otherwise stores (m, -1) |
| Grammars.RepBetween | src/main/java/com/github/jparse/RepMNParser.java:49-59 | the two-bound constructor rejects exactly m < 0 and n < m and otherwise stores (m, n) |
| MemoTables.IndexOf | src/main/java/com/github/jparse/MemoParser.java:102-106 | the walk of recall stops at the first stack entry that is the re-entered rule |
| MemoTables.MarkAbove | src/main/java/com/github/jparse/MemoParser.java:102-106 | exactly the rules stacked above the re-entered one are marked SKIP; no result changes, every other entry is untouched |
| MemoTables.DetectReentry | src/main/java/com/github/jparse/MemoParser.java:102-107 | re-entry marks the re-entered rule DETECTED and those above it SKIP, touching no other position and no stack |
| MemoTables.DetectReentryKeepsInv | src/main/java/com/github/jparse/MemoParser.java:102-107 | a pending entry that is not SKIP is on its stack, and marking on re-entry keeps the table invariant and every cached result |
| MemoTables.Push | src/main/java/com/github/jparse/MemoParser.java:69-71 | setup adds an empty, unmarked entry for the rule and stacks it on top; no other position changes |
| MemoTables.Pop | src/main/java/com/github/jparse/MemoParser.java:73 | the top of the position's stack is removed and nothing else changes |
| MemoTables.Store | src/main/java/com/github/jparse/MemoParser.java:78 | the rule's result is set at that position, its mark and every stack kept |
| MemoTables.PushKeepsInv | src/main/java/com/github/jparse/MemoParser.java:69-71 | pushing a fresh rule keeps the table invariant |
| MemoTables.PopRestores | src/main/java/com/github/jparse/MemoParser.java:71-73 | after the first parse the pushed rule is still on top with no result; popping it gives back the stacks from before the push and keeps every earlier cached result |
| MemoTables.StoreAfterPop | src/main/java/com/github/jparse/MemoParser.java:73-79 | caching the first result after the pop keeps the invariant and every earlier cached result |
| MemoTables.StoreSettled | src/main/java/com/github/jparse/MemoParser.java:82 | replacing a cached seed by a grown one keeps the invariant and changes no other entry |
| Engine.Eval | src/main/java/com/github/jparse/MemoParser.java:46-66 | every parse keeps the table invariant and the stacks, never loses a cached result, and rests on a suffix of its input |
| Engine.ThenParse | src/main/java/com/github/jparse/ThenParser.java:41-53 | a then success carries a pair |
| Engine.RepParse | src/main/java/com/github/jparse/RepParser.java:43-59 | rep never fails: it succeeds with a list, or passes on an error met after a success |
| Engine.Rep1Parse | src/main/java/com/github/jparse/Rep1Parser.java:44-63 | a rep1 success lists at least one item, the first being the first attempt's value; a rep1 failure is the first attempt's failure |
| Engine.RepLoop | src/main/java/com/github/jparse/RepParser.java:50-58 | the repetition loop extends the items it was given, keeping them in order, and never fails: a failure ends the list |
| Engine.Required | src/main/java/com/github/jparse/RepMNParser.java:67-76 | the required part of RepMNParser adds exactly k items when it succeeds, after the ones it was given |
| Engine.ToInfinity | src/main/java/com/github/jparse/RepMNParser.java:85-99 | the counted loop adds at most n - i items and never fails: a failure ends the list |
| Engine.RepMNParse | src/main/java/com/github/jparse/RepMNParser.java:63-82 | n = 0 gives the empty list at the input, table unchanged; otherwise a success lists at least m items, and a failure is the failure of the required part |
| Engine.MemoParse | src/main/java/com/github/jparse/MemoParser.java:46-66 | a cached entry answers from the table, table unchanged; a pending entry fails with the left-recursion message at the input, leaving the table re-entry leaves: the rule DETECTED and the rules stacked above it SKIP; a SKIP entry parses afresh; after a first visit the entry is SKIP exactly when it holds no result, and otherwise holds the result returned, or the grown success when an error ended the growth |
| Engine.Setup | src/main/java/com/github/jparse/MemoParser.java:68-91 | a rule not re-entered from below has its result cached as returned; a SKIP rule keeps no result |
| Engine.GrowLoop | src/main/java/com/github/jparse/MemoParser.java:81-90 | seed growing only shortens the cached rest and always keeps a success cached; it returns the cached success or an error, and changes no other cached result; a turn that errs returns that error, a turn that fails or is no longer returns the seed in the table the turn left, and the loop goes on (returns anything but the seed) only after a turn that errs or reads further |
| Engine.Recall | src/main/java/com/github/jparse/MemoParser.java:93-109 | the three recall cases: SKIP parses afresh, a cached result is returned with the table unchanged, a pending entry fails with the left-recursion message at the input and leaves the rule DETECTED and the rules stacked above it SKIP |
| Engine.ThenRightParse | src/main/java/com/github/jparse/ThenRightParser.java:40-47 | every thenRight parse is sound; the first parser's non-success is returned unchanged, and a success needs the first parser's success and ends inside its rest; in full it is then with the left value dropped (CombinatorLaws.ThenRightIsProjectedThen) |
| CombinatorLaws.ProjectRight | src/main/java/com/github/jparse/ThenRightParser.java:40-47 | replacing a then-pair by its right half keeps the kind, the rest and the table |
| CombinatorLaws.ThenRightIsProjectedThen | src/main/java/com/github/jparse/ThenRightParser.java:40-47 | thenRight is then with only the second value kept |
| CombinatorLaws.ThenSucceedsIffBoth | src/main/java/com/github/jparse/ThenParser.java:41-53 | then succeeds exactly when the first parser succeeds and the second succeeds from its rest; the value pairs theirs and the rest is the second's |
| CombinatorLaws.RepIsRep1OrEmpty | src/main/java/com/github/jparse/RepParser.java:43-59 | when the first attempt does not succeed, rep succeeds with no items at the input where rep1 passes the result on; otherwise the two agree |
| CombinatorLaws.RepSwallowsFirstError | src/main/java/com/github/jparse/RepParser.java:44-46 | an error on the first attempt is swallowed by rep and passed on by rep1 |
| CombinatorLaws.RequiredGoesOn | src/main/java/com/github/jparse/RepMNParser.java:67-76 | a required attempt that succeeds adds its value and leaves one attempt fewer, from where it stopped |
| CombinatorLaws.RequiredStops | src/main/java/com/github/jparse/RepMNParser.java:69-73 | a required attempt that does not succeed is the result of the required part |
| CombinatorLaws.RequiredSplit | src/main/java/com/github/jparse/RepMNParser.java:67-76 | j + k required items are j of them, then k more from where those stopped; a result that is not a success ends the count |
| CombinatorLaws.RequiredPassesOnAnyAttempt | src/main/java/com/github/jparse/RepMNParser.java:69-76 | whichever of the required attempts is the first not to succeed, its failure or error is the result of the required part |
| CombinatorLaws.RepLoopGoesOn | src/main/java/com/github/jparse/RepParser.java:50-58 | a turn of the open-ended loop that succeeds goes round again from where it stopped, its value added |
| CombinatorLaws.RepLoopStops | src/main/java/com/github/jparse/RepParser.java:53-58 | a turn that fails ends the list where it started, with the table the attempt left; a turn that errs is the result |
| CombinatorLaws.RepLoopCarriesItems | src/main/java/com/github/jparse/RepParser.java:50-58 | the open-ended loop adds the same items, or ends with the same error, whatever items it was given |
| CombinatorLaws.RepAfterOneItem | src/main/java/com/github/jparse/RepParser.java:43-59 | after one item, a failure ends the list of rep and rep1 after that item, and an error is their result |
| CombinatorLaws.ToInfinityGoesOn | src/main/java/com/github/jparse/RepMNParser.java:87-96 | with room left, an item that parses adds its value and the counted loop goes on from where it stopped, one turn further |
| CombinatorLaws.ToInfinityStops | src/main/java/com/github/jparse/RepMNParser.java:87-98 | with room left, an attempt that does not succeed ends the loop: an error is the result, a failure gives the items so far at the position before the attempt |
| CombinatorLaws.CountedTailAfterOneItem | src/main/java/com/github/jparse/RepMNParser.java:85-99 | the counted tail stops after the item that fills the count; with room left, a failure after an item ends the list and an error is the result |
| CombinatorLaws.RepMNIgnoresUpperBound | src/main/java/com/github/jparse/RepMNParser.java:79-80 | as written, any two positive upper bounds give the same parse |
| CombinatorLaws.RepMNOneBoundStopsAtM | src/main/java/com/github/jparse/RepMNParser.java:77-78 | as written, the one-bound form succeeds with exactly m items |
| CombinatorLaws.OneRequiredIsFirst | src/main/java/com/github/jparse/RepMNParser.java:67-76 | one required item is one attempt, a success wrapped in a list |
| CombinatorLaws.RepMNOneIsRep1 | src/main/java/com/github/jparse/RepMNParser.java:63-82 | as written, RepMN(p, 1, n) is rep1(p) for every positive n |
| CombinatorLaws.RepMNOneBoundExample | src/main/java/com/github/jparse/RepMNParser.java:77-78 | as written, RepMN(a, 0) on "aa" succeeds with no items, where rep(a) takes both |
| CombinatorLaws.RepMNTwoBoundExample | src/main/java/com/github/jparse/RepMNParser.java:79-80 | as written, RepMN(a, 0, 1) on "aa" takes two items |
| CombinatorLaws.RepRangeAtLeastOneIsRep1 | src/main/java/com/github/jparse/RepMNParser.java:40-47 | with the tails the right way round, "at least one" is rep1 |
| CombinatorLaws.RepRangeOneBoundExample | src/main/java/com/github/jparse/RepMNParser.java:40-47 | with the tails the right way round, "at least 0" on "aa" takes both letters |
| CombinatorLaws.RepRangeTwoBoundExample | src/main/java/com/github/jparse/RepMNParser.java:49-59 | with the tails the right way round, "0 to 1" on "aa" takes one letter and leaves the other |
| Engine.RepRangeParse | src/main/java/com/github/jparse/RepMNParser.java:49-59 | with the tails the right way round: n = 0 gives the empty list at the input; otherwise a success lists at least m items and, for an explicit bound n, at most n, and a failure is the failure of the required part |
| CombinatorLaws.RepMNUnboundedIsRequired | src/main/java/com/github/jparse/RepMNParser.java:77-98 | as written, once the m required items succeed, the one-bound form returns exactly the required part's result: the counted tail adds nothing |
| CombinatorLaws.RepRangeUnboundedLoops | src/main/java/com/github/jparse/RepMNParser.java:77-81 | with the tails the right way round, once the m required items succeed, the one-bound form is the open-ended loop started with those items where the required part stopped |
| CombinatorLaws.OneBoundAfterRequired | src/main/java/com/github/jparse/RepMNParser.java:40-47 | for every m, once m required items are read: as written, the one-bound form stops there; with the tails the right way round, a further success heads the rest of the list, a failure ends it after the m items, and an error is the result |
| MemoLaws.SecondVisitReturnsFirstResult | src/main/java/com/github/jparse/MemoParser.java:98-100 | after a first visit that was not re-entered from below and did not err, any later visit to an equal position returns the same result from the table, whatever was parsed in between |
| MemoLaws.SecondVisitAfterError | src/main/java/com/github/jparse/MemoParser.java:84-86 | after a first visit that ended in an error, a second visit returns that error or the success grown before it, table unchanged |
| MemoLaws.SetupCachesFirstResult | src/main/java/com/github/jparse/MemoParser.java:72-79 | a first visit of a rule left unmarked (not re-entered), or left DETECTED with a result that does not succeed, returns the body's own result and caches exactly that; a SKIP rule is excluded, as it caches nothing |
| MemoLaws.DirectLeftRecursionFails | src/test/java/com/github/jparse/MemoParserTest.java:96-101 | the rule E := memo(E) fails with "infinite left recursion detected", and that failure is what the table then holds, marked DETECTED |
| MemoExamples.ThenStops | src/main/java/com/github/jparse/ThenParser.java:42-51 | a then whose first parser does not succeed returns that parser's result |
| MemoExamples.ThenPairs | src/main/java/com/github/jparse/ThenParser.java:43-49 | after a first success, then returns the pair of the two values at the second's rest, or the second parser's failure or error |
| MemoExamples.CallReenters | src/main/java/com/github/jparse/MemoParser.java:102-108 | calling E again at the position where E is being set up fails with "infinite left recursion detected" and marks E DETECTED |
| MemoExamples.FirstPass | src/main/java/com/github/jparse/MemoParser.java:69-72 | the first parse of E's body, with E stacked: the left-recursive alternative re-enters E and fails, E is marked DETECTED, and the second alternative reads the seed "1" |
| MemoExamples.SetupGrowsSeed | src/main/java/com/github/jparse/MemoParser.java:73-82 | a first visit whose parse marked the rule DETECTED and succeeded caches that success as the seed and enters the growing loop with it |
| MemoExamples.SetupEntersGrowth | src/main/java/com/github/jparse/MemoParser.java:68-82 | the first visit of E on "1+2+3" enters the growing loop with the seed "1" cached and E marked DETECTED |
| MemoExamples.GrowLoopExtends | src/main/java/com/github/jparse/MemoParser.java:81-89 | a turn whose parse succeeds with a shorter rest caches that success in whatever table the turn's parse left, keeping the growing rule's entry, and goes round again with it |
| MemoExamples.GrowLoopStops | src/main/java/com/github/jparse/MemoParser.java:87-89 | a turn that fails, or succeeds without reading further, ends the loop with the cached seed in whatever table the turn's parse left |
| MemoExamples.GrowLoopErrs | src/main/java/com/github/jparse/MemoParser.java:84-86 | a turn that errs ends the loop with that error, and the entry still holds the seed |
| MemoExamples.BodyExtends | src/main/java/com/github/jparse/MemoParser.java:97-100 | with E cached as v up to a "+" and a digit, the recursive call answers v from the table and the body reads (v, +, digit), table unchanged |
| MemoExamples.BodyAtEnd | src/main/java/com/github/jparse/MemoParser.java:97-100 | with E cached up to the end, the left-recursive alternative fails for want of a "+" and the body reads only "1" |
| MemoExamples.GrowStep | src/main/java/com/github/jparse/MemoParser.java:81-89 | one turn of the loop on "1+2+3": the seed v up to a "+" and a digit grows to (v, +, digit) two characters further |
| MemoExamples.GrowEnds | src/main/java/com/github/jparse/MemoParser.java:87-88 | once the seed reaches the end, the next parse is no longer and the loop returns the cached seed |
| MemoExamples.LeftRecursionGrowsToWholeInput | src/test/java/com/github/jparse/MemoParserTest.java:74-79 | E := memo(E "+" num / num) on "1+2+3" succeeds with ((((1,+),2),+),3), consumes the whole input, so `phrase` accepts it, and that success is what E's entry caches |
| IndirectExamples.ReentryMarks | src/main/java/com/github/jparse/MemoParser.java:102-107 | when a rule stacked above another at the same position re-enters it, the upper rule becomes SKIP with no result and the lower one DETECTED |
| IndirectExamples.SetupLeavesSkipped | src/main/java/com/github/jparse/MemoParser.java:72-76 | a first visit whose parse left the rule SKIP returns that parse's result, pops the stack and caches nothing |
| IndirectExamples.InnerRuleReentersOuter | src/main/java/com/github/jparse/MemoParser.java:68-76 | Y, visited while X is being set up at the same position, re-enters X and returns the left-recursion failure uncached, Y SKIP and X DETECTED |
| IndirectExamples.OuterFirstPass | src/test/java/com/github/jparse/MemoParserTest.java:104-107 | the first parse of X's body on "a a": Y fails with the re-entry's failure and the literal reads the seed "a" |
| IndirectExamples.IndirectRecursionSkipsInnerRule | src/test/java/com/github/jparse/MemoParserTest.java:104-107 | the first visit of X on "a a" enters the growing loop with the seed "a" cached and Y SKIP, and there a call of Y parses Y's body afresh instead of answering from the table |

## Left out

- `OrelseParser` is not part of this model. The model's `Orelse` is an assumption: the second parser is tried from the same position only after a failure of the first, and an error is final.
- `PhraseParser` is not part of this model. `MemoExamples.LeftRecursionGrowsToWholeInput` states instead that the rest of the parse is empty, which is what `phrase` checks.
- MemoExamples.LeftRecursionGrowsToWholeInput: the test's `num` is the pattern `\d+`, and `PatternParser` is not part of this model; on the one-digit numbers of "1+2+3" it is modelled as the choice of the literals "1", "2" and "3".
- The other end-to-end runs of `MemoParserTest` are not proved: the grammars of test2 and test3 on "1+2+3". Of test5 on "a a", `IndirectExamples` proves the first visit of `X` up to its growing loop, with `Y` left SKIP and re-parsed there. The turns of that loop are not proved: each calls `X` afresh at positions 1 and 3, with a re-entry and a seed growth of its own at each, and the proof would repeat `IndirectExamples` and `MemoExamples` for every such position.
- Fuel: Java recursion has no bound. A run the given fuel cannot finish is `OutOfFuel`, and every contract is about finished runs. A grammar that loops forever, such as a repetition of a parser that consumes nothing, is `OutOfFuel` for every fuel.
- Whitespace: only the null pattern and the default `\s+` of `CharParser` are modelled. Other regular expressions, `PatternParser`, `CharParser`'s regex engine and `CharSequences` are left out.
- `LogParser`: logging only.
- `Parsers`, `FluentParser`: factory and fluent delegation. `Pair` is the `PairOf` value.
- `hashCode`, `toString` and `Sequences.CharSequenceAdapter` are left out. Equality of the backing text is modelled as equality of its contents, which is what `String.equals` does; a `CharSequence` with identity equality is not modelled.
- The values maps of `MemoSequence` (a `WeakHashMap`) and `StatefulSequence` (an `IdentityHashMap`) are modelled as handles only. The modelled code never reads their contents.
- `ParseContext` as a carrier: the only value the modelled code keeps in it is the memo table under `MemoParser`'s `KEY`, so the engine threads that table directly. `context.get(KEY) == null` behaves as an empty table (`MemoParser.java:47-54`).
- One wrapped parser shared by two `MemoParser`s: entries are keyed by rule index, so two memoized rules never share an entry.
- Java `int` overflow of lengths and indices is not modelled. Lengths are unbounded naturals.
- Characters: a Java `char` is a UTF-16 code unit, and a Dafny `char` is a Unicode scalar value. The model has no lone surrogates, and it counts a character outside the Basic Multilingual Plane as one element where Java counts two, so lengths and indices differ on such text.
- Engine.ThenParse: its own contract states only that a success carries a pair. When each half fails, errs or succeeds is stated by `CombinatorLaws.ThenSucceedsIffBoth`, `MemoExamples.ThenStops` and `MemoExamples.ThenPairs`.
- Engine.ThenRightParse: its own contract states soundness, the first parser's non-success passed on, and that a success follows the first parser's success. The value it keeps is not stated there: its behaviour is that of `then` with the left value dropped, as `CombinatorLaws.ThenRightIsProjectedThen` states.
- Engine.RepLoop: its own contract states that the items extend the accumulated ones and that it never fails. Each turn is stated by `CombinatorLaws.RepLoopGoesOn` and `CombinatorLaws.RepLoopStops`.
- Engine.Required: its own contract states the count of items. Which attempt's result is returned is stated by `CombinatorLaws.RequiredGoesOn`, `CombinatorLaws.RequiredStops`, `CombinatorLaws.RequiredSplit` and `CombinatorLaws.RequiredPassesOnAnyAttempt`.
- Engine.ToInfinity: its own contract states the bound on the items and that it never fails. Its turns are stated by `CombinatorLaws.ToInfinityGoesOn`, `CombinatorLaws.ToInfinityStops` and `CombinatorLaws.CountedTailAfterOneItem`.
- Engine.Setup: its own contract ties the cached result to the returned one but not to the body's parse. That the returned result is the body's own, for a rule left unmarked or a DETECTED rule whose result does not succeed, is stated by `MemoLaws.SetupCachesFirstResult`; the DETECTED success path by `MemoExamples.SetupGrowsSeed`; the SKIP path by `IndirectExamples.SetupLeavesSkipped`.
- Engine.MemoParse: the fresh case's result is stated by the same three lemmas, which are phrased on `MemoParse` itself.
- Engine.Eval: states only soundness; each constructor's behaviour is stated by the member it dispatches to.

## Findings

| source | as written | input that shows it | evidently intended | confidence | as-written member | corrected member |
|---|---|---|---|---|---|---|
| src/main/java/com/github/jparse/Sequences.java:82-89 | `at(i)` and `charAt(i)` read `sequence.charAt(index + i)` with no check of `i` against `length` | the view `subSequence(0, 1)` of "ab", asked for index 1, gives 'b' | an index outside `[0, length)` is rejected, as for any `CharSequence` | not executed | Sequences.AtAsWrittenExample | Sequences.At |
| src/main/java/com/github/jparse/RepMNParser.java:77-81 | `n == -1` calls `parseToInfinity`, whose loop `for (i = m; i < n; ...)` never runs; an explicit `n` calls `parseToN`, which never looks at `n` | `RepMN(a, 0)` on "aa" gives no items; `RepMN(a, 0, 1)` on "aa" gives two | `n == -1` repeats without bound; an explicit `n` stops after `n` items | not executed | CombinatorLaws.RepMNTwoBoundExample | Engine.RepRangeParse |
