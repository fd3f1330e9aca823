/** The memo table MemoParser keeps in the parse context
    (MemoParser.java:111-133): for each input position a SequenceEntry holding
    one ParserEntry per memoized rule and the stack of entries whose first
    parse is in progress. */
module MemoTables {
  import opened Options
  import opened Sequences
  import opened ParseResults
  import opened Grammars

  type Result = ParseResult<char, Value>

  /** The `state` field: 0, DETECTED or SKIP (MemoParser.java:36-37). */
  datatype Mark = Unmarked | Detected | Skip

  datatype ParserEntry = ParserEntry(result: Option<Result>, mark: Mark)

  /** `stack[0]` is the top, the most recently pushed rule. */
  datatype SequenceEntry = SequenceEntry(parsers: map<nat, ParserEntry>, stack: seq<nat>)

  /** Keyed by the view with its values handles erased, which is the
      `equals`/`hashCode` the HashMap of MemoParser.java:47-49 uses. */
  type Table = map<Sequence<char>, SequenceEntry>

  const LeftRecursionMessage: string := "infinite left recursion detected"

  /** The stack at a position; a position without an entry has none. */
  function StackAt(t: Table, k: Sequence<char>): seq<nat> {
    if k in t then t[k].stack else []
  }

  /** Every stacked rule has an entry with no result yet. */
  ghost predicate StackedPending(e: SequenceEntry) {
    forall j :: 0 <= j < |e.stack| ==> e.stack[j] in e.parsers && e.parsers[e.stack[j]].result.None?
  }

  /** No rule is stacked twice at one position. */
  ghost predicate StackDistinct(e: SequenceEntry) {
    forall a, b :: 0 <= a < b < |e.stack| ==> e.stack[a] != e.stack[b]
  }

  /** An entry with no result that is not SKIP is on the stack, so the walk
      of `recall` (MemoParser.java:103-106) finds it. */
  ghost predicate PendingStacked(e: SequenceEntry) {
    forall p :: p in e.parsers && e.parsers[p].result.None? && e.parsers[p].mark != Skip ==> p in e.stack
  }

  /** A cached result's rest is a suffix of its position. */
  ghost predicate CachedSuffix(k: Sequence<char>, e: SequenceEntry) {
    forall p :: p in e.parsers && e.parsers[p].result.Some? ==> SuffixOf(e.parsers[p].result.value.rest, k)
  }

  ghost predicate EntryOk(k: Sequence<char>, e: SequenceEntry) {
    StackedPending(e) && StackDistinct(e) && PendingStacked(e) && CachedSuffix(k, e)
  }

  ghost predicate Inv(t: Table) {
    forall k :: k in t ==> EntryOk(k, t[k])
  }

  /** Positions and entries are only ever added, and every stack is what it
      was. */
  ghost predicate Grows(t: Table, t': Table) {
    && (forall k :: k in t ==> k in t' && t[k].parsers.Keys <= t'[k].parsers.Keys)
    && (forall k :: StackAt(t', k) == StackAt(t, k))
  }

  /** An entry that holds a result is untouched, except possibly the entry of
      rule `id` at `key`. */
  ghost predicate SettledKeptBut(t: Table, t': Table, key: Sequence<char>, id: nat) {
    forall k, p :: k in t && p in t[k].parsers && t[k].parsers[p].result.Some? && !(k == key && p == id) ==>
      k in t' && p in t'[k].parsers && t'[k].parsers[p] == t[k].parsers[p]
  }

  ghost predicate SettledKept(t: Table, t': Table) {
    forall k, p :: k in t && p in t[k].parsers && t[k].parsers[p].result.Some? ==>
      k in t' && p in t'[k].parsers && t'[k].parsers[p] == t[k].parsers[p]
  }

  /** What any parse call may do to the table. */
  ghost predicate Evolves(t: Table, t': Table) {
    Grows(t, t') && SettledKept(t, t')
  }

  /** What a call that is growing the seed of rule `id` at `key` may do. */
  ghost predicate EvolvesBut(t: Table, t': Table, key: Sequence<char>, id: nat) {
    Grows(t, t') && SettledKeptBut(t, t', key, id)
  }

  lemma EvolvesRefl(t: Table)
    ensures Evolves(t, t)
  {
  }

  lemma EvolvesTrans(t0: Table, t1: Table, t2: Table)
    requires Evolves(t0, t1) && Evolves(t1, t2)
    ensures Evolves(t0, t2)
  {
  }

  lemma EvolvesButTrans(t0: Table, t1: Table, t2: Table, key: Sequence<char>, id: nat)
    requires EvolvesBut(t0, t1, key, id) && EvolvesBut(t1, t2, key, id)
    ensures EvolvesBut(t0, t2, key, id)
  {
  }

  lemma EvolvesWeakens(t0: Table, t1: Table, key: Sequence<char>, id: nat)
    requires Evolves(t0, t1)
    ensures EvolvesBut(t0, t1, key, id)
  {
  }

  /** The position of the first occurrence of `id` on a stack. */
  function IndexOf(stack: seq<nat>, id: nat): (n: nat)
    requires id in stack
    ensures n < |stack| && stack[n] == id
    ensures forall j :: 0 <= j < n ==> stack[j] != id
  {
    if stack[0] == id then 0 else 1 + IndexOf(stack[1..], id)
  }

  /** The walk of `recall` (MemoParser.java:102-106): from the top of the
      stack down to `id`, exclusive, every entry is marked SKIP. */
  function MarkAbove(parsers: map<nat, ParserEntry>, stack: seq<nat>, id: nat): (r: map<nat, ParserEntry>)
    requires id in stack
    requires forall j :: 0 <= j < |stack| ==> stack[j] in parsers
    ensures r.Keys == parsers.Keys
    ensures forall p :: p in parsers ==> r[p].result == parsers[p].result
    ensures forall j :: 0 <= j < IndexOf(stack, id) ==> r[stack[j]].mark == Skip
    ensures forall p :: p in parsers && p !in stack[..IndexOf(stack, id)] ==> r[p] == parsers[p]
    decreases |stack|
  {
    if stack[0] == id then parsers
    else
      var top := stack[0];
      var marked := MarkAbove(parsers[top := parsers[top].(mark := Skip)], stack[1..], id);
      assert forall p :: p in stack[1..][..IndexOf(stack[1..], id)] ==> p in stack[..IndexOf(stack, id)];
      assert forall j :: 1 <= j < IndexOf(stack, id) ==> stack[j] == stack[1..][j - 1];
      marked
  }

  /** Re-entry at a position whose entry has no result yet
      (MemoParser.java:102-107): the entries stacked above it become SKIP and
      it becomes DETECTED; nothing else changes. */
  function DetectReentry(t: Table, key: Sequence<char>, id: nat): (t': Table)
    requires key in t && id in t[key].parsers && id in t[key].stack
    requires StackedPending(t[key])
    ensures t'.Keys == t.Keys
    ensures forall k :: k in t && k != key ==> t'[k] == t[k]
    ensures t'[key].stack == t[key].stack && t'[key].parsers.Keys == t[key].parsers.Keys
    ensures t'[key].parsers[id] == t[key].parsers[id].(mark := Detected)
    ensures forall j :: 0 <= j < IndexOf(t[key].stack, id) ==>
      t'[key].parsers[t[key].stack[j]] == t[key].parsers[t[key].stack[j]].(mark := Skip)
    ensures forall p :: p in t[key].parsers && p != id && p !in t[key].stack[..IndexOf(t[key].stack, id)] ==>
      t'[key].parsers[p] == t[key].parsers[p]
  {
    var e := t[key];
    var marked := MarkAbove(e.parsers, e.stack, id);
    t[key := e.(parsers := marked[id := marked[id].(mark := Detected)])]
  }

  /** Replacing one position's entry by one that keeps the invariants keeps
      the table's invariant. */
  lemma ReplaceKeepsInv(t: Table, key: Sequence<char>, e: SequenceEntry)
    requires forall k :: k in t && k != key ==> EntryOk(k, t[k])
    requires EntryOk(key, e)
    ensures Inv(t[key := e])
  {
  }

  /** Changing only marks keeps an entry's invariants, provided every mark
      that changes to something other than SKIP belongs to a stacked rule. */
  lemma RemarkKeepsEntryOk(k: Sequence<char>, e: SequenceEntry, e': SequenceEntry)
    requires EntryOk(k, e)
    requires e'.stack == e.stack && e'.parsers.Keys == e.parsers.Keys
    requires forall p :: p in e.parsers ==> e'.parsers[p].result == e.parsers[p].result
    requires forall p :: p in e.parsers && e'.parsers[p].mark != Skip && e'.parsers[p].mark != e.parsers[p].mark ==> p in e.stack
    ensures EntryOk(k, e')
  {
    assert StackedPending(e) && PendingStacked(e) && CachedSuffix(k, e);
  }

  /** Re-entry changes no result, and changes a mark to something other
      than SKIP only for the re-entered, stacked rule. */
  lemma DetectReentryRemarks(t: Table, key: Sequence<char>, id: nat)
    requires key in t && id in t[key].parsers && id in t[key].stack
    requires StackedPending(t[key])
    ensures var e := t[key]; var e' := DetectReentry(t, key, id)[key];
      && (forall p :: p in e.parsers ==> e'.parsers[p].result == e.parsers[p].result)
      && (forall p :: p in e.parsers && e'.parsers[p].mark != Skip && e'.parsers[p].mark != e.parsers[p].mark ==> p in e.stack)
  {
    var e := t[key];
    var e' := DetectReentry(t, key, id)[key];
    var above := e.stack[..IndexOf(e.stack, id)];
    forall p | p in e.parsers
      ensures e'.parsers[p].result == e.parsers[p].result
      ensures e'.parsers[p].mark != Skip && e'.parsers[p].mark != e.parsers[p].mark ==> p in e.stack
    {
      if p in above {
        var j :| 0 <= j < |above| && above[j] == p;
        assert e'.parsers[e.stack[j]] == e.parsers[e.stack[j]].(mark := Skip);
      }
    }
  }

  lemma DetectReentryEvolves(t: Table, key: Sequence<char>, id: nat)
    requires key in t && id in t[key].parsers && id in t[key].stack
    requires StackedPending(t[key]) && t[key].parsers[id].result.None?
    ensures Evolves(t, DetectReentry(t, key, id))
  {
    var t' := DetectReentry(t, key, id);
    assert SettledKept(t, t');
    forall k ensures StackAt(t', k) == StackAt(t, k) {
    }
  }

  /** Re-entry only changes marks of entries without a result, so the
      invariant and every cached result survive it. */
  lemma DetectReentryKeepsInv(t: Table, key: Sequence<char>, id: nat)
    requires Inv(t) && key in t && id in t[key].parsers
    requires t[key].parsers[id].result.None? && t[key].parsers[id].mark != Skip
    ensures id in t[key].stack
    ensures Inv(DetectReentry(t, key, id)) && Evolves(t, DetectReentry(t, key, id))
  {
    var e := t[key];
    assert EntryOk(key, e);
    assert PendingStacked(e);
    var t' := DetectReentry(t, key, id);
    DetectReentryRemarks(t, key, id);
    RemarkKeepsEntryOk(key, e, t'[key]);
    assert t' == t[key := t'[key]];
    ReplaceKeepsInv(t, key, t'[key]);
    DetectReentryEvolves(t, key, id);
  }

  /** `setup` creating the entry and pushing it (MemoParser.java:69-71); a
      position seen for the first time gets an empty SequenceEntry
      (MemoParser.java:47-59). */
  function Push(t: Table, key: Sequence<char>, id: nat): (t': Table)
    requires key !in t || id !in t[key].parsers
    ensures key in t' && t'[key].stack == [id] + StackAt(t, key)
    ensures t'[key].parsers == (if key in t then t[key].parsers else map[])[id := ParserEntry(None, Unmarked)]
    ensures forall k :: k != key ==> StackAt(t', k) == StackAt(t, k)
    ensures forall k :: k in t && k != key ==> k in t' && t'[k] == t[k]
    ensures t'.Keys == t.Keys + {key}
  {
    var e := if key in t then t[key] else SequenceEntry(map[], []);
    t[key := SequenceEntry(e.parsers[id := ParserEntry(None, Unmarked)], [id] + e.stack)]
  }

  /** `sequenceEntry.stack = sequenceEntry.stack.next` (MemoParser.java:73). */
  function Pop(t: Table, key: Sequence<char>): (t': Table)
    requires key in t && |t[key].stack| > 0
    ensures key in t' && t'[key] == t[key].(stack := t[key].stack[1..])
    ensures forall k :: k in t && k != key ==> k in t' && t'[k] == t[k]
    ensures t'.Keys == t.Keys
  {
    t[key := t[key].(stack := t[key].stack[1..])]
  }

  /** `parserEntry.result = result` (MemoParser.java:78, 82). */
  function Store(t: Table, key: Sequence<char>, id: nat, r: Result): (t': Table)
    requires key in t && id in t[key].parsers
    ensures key in t' && t'[key].stack == t[key].stack
    ensures t'[key].parsers == t[key].parsers[id := t[key].parsers[id].(result := Some(r))]
    ensures forall k :: k in t && k != key ==> k in t' && t'[k] == t[k]
    ensures t'.Keys == t.Keys
  {
    t[key := t[key].(parsers := t[key].parsers[id := t[key].parsers[id].(result := Some(r))])]
  }

  lemma PushKeepsInv(t: Table, key: Sequence<char>, id: nat)
    requires Inv(t) && (key !in t || id !in t[key].parsers)
    ensures Inv(Push(t, key, id))
  {
    var t' := Push(t, key, id);
    if key in t {
      assert EntryOk(key, t[key]);
    }
    assert EntryOk(key, t'[key]);
    assert forall k :: k in t' ==> EntryOk(k, t'[k]);
  }

  /** After the first parse of a fresh entry the pushed rule is still on top
      of the stack, above what was there before the push. */
  lemma PushedStillOnTop(t0: Table, t2: Table, key: Sequence<char>, id: nat)
    requires key !in t0 || id !in t0[key].parsers
    requires Grows(Push(t0, key, id), t2)
    ensures key in t2 && t2[key].stack == [id] + StackAt(t0, key)
  {
    var t1 := Push(t0, key, id);
    assert StackAt(t2, key) == StackAt(t1, key);
    assert key in t1;
  }

  /** Popping it leaves the table evolved from the one before the push. */
  lemma PopEvolves(t0: Table, t2: Table, key: Sequence<char>, id: nat)
    requires key !in t0 || id !in t0[key].parsers
    requires Evolves(Push(t0, key, id), t2)
    ensures key in t2 && |t2[key].stack| > 0
    ensures Grows(t0, Pop(t2, key)) && SettledKept(t0, Pop(t2, key))
  {
    var t1 := Push(t0, key, id);
    PushedStillOnTop(t0, t2, key, id);
    var t3 := Pop(t2, key);
    forall k ensures StackAt(t3, k) == StackAt(t0, k) {
      assert StackAt(t2, k) == StackAt(t1, k);
    }
    assert SettledKept(t0, t1);
  }

  /** Removing the top of a stack keeps the invariants of the entry provided
      the removed rule is SKIP. */
  lemma PopSkipKeepsEntryOk(k: Sequence<char>, e: SequenceEntry)
    requires EntryOk(k, e) && |e.stack| > 0
    requires e.parsers[e.stack[0]].mark == Skip
    ensures EntryOk(k, e.(stack := e.stack[1..]))
  {
    var e3 := e.(stack := e.stack[1..]);
    assert StackDistinct(e) && StackedPending(e) && PendingStacked(e);
    assert forall j :: 0 <= j < |e3.stack| ==> e3.stack[j] == e.stack[j + 1];
    forall p | p in e3.parsers && e3.parsers[p].result.None? && e3.parsers[p].mark != Skip
      ensures p in e3.stack
    {
      var j :| 0 <= j < |e.stack| && e.stack[j] == p;
      assert j != 0;
      assert e3.stack[j - 1] == p;
    }
  }

  /** After the first parse of a fresh entry: the stack is back to what it was
      before the push, the entry is still there without a result, and every
      result the table held before is untouched. */
  lemma PopRestores(t0: Table, t2: Table, key: Sequence<char>, id: nat)
    requires key !in t0 || id !in t0[key].parsers
    requires Evolves(Push(t0, key, id), t2) && Inv(t2)
    ensures key in t2 && t2[key].stack == [id] + StackAt(t0, key)
    ensures id in t2[key].parsers && t2[key].parsers[id].result.None?
    ensures Grows(t0, Pop(t2, key)) && SettledKept(t0, Pop(t2, key))
    ensures Pop(t2, key)[key].parsers[id].mark == Skip ==> Inv(Pop(t2, key))
  {
    PushedStillOnTop(t0, t2, key, id);
    PopEvolves(t0, t2, key, id);
    var e2 := t2[key];
    assert EntryOk(key, e2);
    assert StackedPending(e2);
    assert e2.stack[0] == id;
    if e2.parsers[id].mark == Skip {
      PopSkipKeepsEntryOk(key, e2);
      ReplaceKeepsInv(t2, key, e2.(stack := e2.stack[1..]));
    }
  }

  /** Storing a result whose rest is a suffix of the position into an entry
      that is not on the stack keeps the invariant. */
  lemma StoreKeepsInv(t: Table, key: Sequence<char>, id: nat, r: Result)
    requires key in t && id in t[key].parsers
    requires forall k :: k in t && k != key ==> EntryOk(k, t[k])
    requires EntryOk(key, t[key].(parsers := t[key].parsers - {id}))
    requires id !in t[key].stack && SuffixOf(r.rest, key)
    ensures Inv(Store(t, key, id, r))
  {
    var t' := Store(t, key, id, r);
    var e := t[key].(parsers := t[key].parsers - {id});
    var e' := t'[key];
    assert EntryOk(key, e);
    assert forall p :: p in e'.parsers && p != id ==> p in e.parsers && e'.parsers[p] == e.parsers[p];
    assert StackedPending(e') by {
      assert StackedPending(e);
    }
    assert StackDistinct(e');
    assert PendingStacked(e') by {
      assert PendingStacked(e);
    }
    assert CachedSuffix(key, e') by {
      assert CachedSuffix(key, e);
    }
    assert forall k :: k in t' ==> EntryOk(k, t'[k]);
  }

  /** Without its top rule, neither on the stack nor among the entries, an
      entry keeps its invariants; the top rule occurs only once. */
  lemma PopDropKeepsEntryOk(k: Sequence<char>, e: SequenceEntry)
    requires EntryOk(k, e) && |e.stack| > 0
    ensures e.stack[0] !in e.stack[1..]
    ensures EntryOk(k, SequenceEntry(e.parsers - {e.stack[0]}, e.stack[1..]))
  {
    var e3 := SequenceEntry(e.parsers - {e.stack[0]}, e.stack[1..]);
    assert StackDistinct(e) && StackedPending(e) && PendingStacked(e) && CachedSuffix(k, e);
    assert forall j :: 0 <= j < |e3.stack| ==> e3.stack[j] == e.stack[j + 1];
    forall p | p in e3.parsers && e3.parsers[p].result.None? && e3.parsers[p].mark != Skip
      ensures p in e3.stack
    {
      var j :| 0 <= j < |e.stack| && e.stack[j] == p;
      assert j != 0;
      assert e3.stack[j - 1] == p;
    }
  }

  /** Storing into an entry the table did not have keeps every earlier
      result. */
  lemma StoreFreshEvolves(t0: Table, t3: Table, key: Sequence<char>, id: nat, r: Result)
    requires key !in t0 || id !in t0[key].parsers
    requires Grows(t0, t3) && SettledKept(t0, t3)
    requires key in t3 && id in t3[key].parsers
    ensures Evolves(t0, Store(t3, key, id, r))
  {
    var t4 := Store(t3, key, id, r);
    forall k ensures StackAt(t4, k) == StackAt(t0, k) {
      assert StackAt(t4, k) == StackAt(t3, k);
    }
  }

  /** Storing into the popped, fresh entry: the table has evolved from the one
      before the push and the invariant holds again. */
  lemma StoreAfterPop(t0: Table, t2: Table, key: Sequence<char>, id: nat, r: Result)
    requires key !in t0 || id !in t0[key].parsers
    requires Evolves(Push(t0, key, id), t2) && Inv(t2)
    requires SuffixOf(r.rest, key)
    ensures key in t2 && |t2[key].stack| > 0
    ensures id in Pop(t2, key)[key].parsers
    ensures Evolves(t0, Store(Pop(t2, key), key, id, r))
    ensures Inv(Store(Pop(t2, key), key, id, r))
  {
    PopRestores(t0, t2, key, id);
    var t3 := Pop(t2, key);
    var e2 := t2[key];
    assert EntryOk(key, e2);
    PopDropKeepsEntryOk(key, e2);
    assert t3[key].(parsers := t3[key].parsers - {id}) == SequenceEntry(e2.parsers - {e2.stack[0]}, e2.stack[1..]);
    assert forall k :: k in t3 && k != key ==> EntryOk(k, t3[k]);
    StoreKeepsInv(t3, key, id, r);
    StoreFreshEvolves(t0, t3, key, id, r);
  }

  /** Storing a grown seed into an entry that already holds a result. */
  lemma StoreSettled(t: Table, key: Sequence<char>, id: nat, r: Result)
    requires Inv(t) && key in t && id in t[key].parsers && t[key].parsers[id].result.Some?
    requires SuffixOf(r.rest, key)
    ensures Inv(Store(t, key, id, r))
    ensures EvolvesBut(t, Store(t, key, id, r), key, id)
  {
    assert EntryOk(key, t[key]);
    var e := t[key].(parsers := t[key].parsers - {id});
    assert EntryOk(key, e);
    StoreKeepsInv(t, key, id, r);
    var t' := Store(t, key, id, r);
    forall k ensures StackAt(t', k) == StackAt(t, k) {
    }
  }

  /** A seed grown into the entry of a rule that was fresh before the push
      leaves every earlier result untouched. */
  lemma GrowthFromFresh(t0: Table, t3: Table, t5: Table, key: Sequence<char>, id: nat)
    requires key !in t0 || id !in t0[key].parsers
    requires Evolves(t0, t3) && EvolvesBut(t3, t5, key, id)
    ensures Evolves(t0, t5)
  {
  }
}
