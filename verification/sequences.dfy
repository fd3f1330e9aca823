/** A minimal optional value, standing for Java's nullable references and for
    operations that throw (None is the exception or the null). */
module Options {

  datatype Option<T> = None | Some(value: T)
}

/** Input views of the parser library: the offset/length adapter over a backing
    text (Sequences.SequenceAdapter) and the two delegating wrappers
    (MemoSequence, StatefulSequence) that share a `values` map across all the
    views derived from them. */
module Sequences {
  import opened Options

  /** `values` is the identity handle of the wrapper's shared map; the map's
      contents are never read by the modelled code. */
  datatype Sequence<T> =
    | Adapter(backing: seq<T>, index: nat, length: nat)
    | MemoSeq(inner: Sequence<T>, values: nat)
    | StatefulSeq(inner: Sequence<T>, values: nat)

  /** The adapter at the bottom of a stack of wrappers. */
  function Base<T>(s: Sequence<T>): (b: Sequence<T>)
    ensures b.Adapter?
  {
    match s
    case Adapter(_, _, _) => s
    case MemoSeq(inner, _) => Base(inner)
    case StatefulSeq(inner, _) => Base(inner)
  }

  /** A view built by the library: its window lies inside the backing text. */
  predicate Valid<T>(s: Sequence<T>) {
    Base(s).index + Base(s).length <= |Base(s).backing|
  }

  /** `length()`; the wrappers delegate (MemoSequence.java:46-49). */
  function Length<T>(s: Sequence<T>): (n: nat)
    ensures n == Base(s).length
  {
    match s
    case Adapter(_, _, n) => n
    case MemoSeq(inner, _) => Length(inner)
    case StatefulSeq(inner, _) => Length(inner)
  }

  /** The elements a valid view denotes. */
  function Content<T>(s: Sequence<T>): seq<T>
    requires Valid(s)
  {
    var b := Base(s);
    b.backing[b.index .. b.index + b.length]
  }

  /** `r` is a view of the same backing text that ends where `s` ends and
      starts no earlier: what is left of `s` after consuming a prefix. */
  ghost predicate SuffixOf<T>(r: Sequence<T>, s: Sequence<T>) {
    && Valid(r)
    && Base(r).backing == Base(s).backing
    && Base(s).index <= Base(r).index
    && Base(r).index + Base(r).length == Base(s).index + Base(s).length
  }

  lemma SuffixOfRefl<T>(s: Sequence<T>)
    requires Valid(s)
    ensures SuffixOf(s, s)
  {
  }

  lemma SuffixOfTrans<T>(a: Sequence<T>, b: Sequence<T>, c: Sequence<T>)
    requires SuffixOf(a, b) && SuffixOf(b, c)
    ensures SuffixOf(a, c) && Length(a) <= Length(c)
  {
  }

  lemma SuffixOfContent<T>(r: Sequence<T>, s: Sequence<T>)
    requires Valid(s) && SuffixOf(r, s)
    ensures Length(r) <= Length(s)
    ensures Content(r) == Content(s)[Length(s) - Length(r)..]
  {
  }

  /** `new SequenceAdapter(text)` (Sequences.java:66-68). */
  function FromString<T>(text: seq<T>): (s: Sequence<T>)
    ensures Valid(s) && Length(s) == |text| && Content(s) == text
    ensures Base(s).index == 0
  {
    Adapter(text, 0, |text|)
  }

  /** What `fromCharSequence` is given: plain text, or a CharSequence that is
      already one of the library's sequence views. */
  datatype CharSequenceArg = PlainText(text: string) | SequenceView(view: Sequence<char>)

  /** `Sequences.fromCharSequence` (Sequences.java:35-41). */
  function FromCharSequence(arg: CharSequenceArg): (s: Sequence<char>)
    ensures arg.PlainText? ==> Valid(s) && Content(s) == arg.text && Base(s).index == 0
    ensures arg.SequenceView? ==> s == arg.view
  {
    match arg
    case PlainText(text) => FromString(text)
    case SequenceView(view) => view
  }

  /** `Sequences.withMemo` (Sequences.java:52-58); `handle` identifies the
      new values map the constructor allocates. */
  function WithMemo<T>(s: Sequence<T>, handle: nat): (r: Sequence<T>)
    ensures r.MemoSeq?
    ensures Base(r) == Base(s) && Length(r) == Length(s)
    ensures s.MemoSeq? ==> r == s
  {
    if s.MemoSeq? then s else MemoSeq(s, handle)
  }

  lemma {:induction false} FromCharSequenceIdempotent(arg: CharSequenceArg)
    ensures FromCharSequence(SequenceView(FromCharSequence(arg))) == FromCharSequence(arg)
  {
  }

  lemma WithMemoIdempotent<T>(s: Sequence<T>, h1: nat, h2: nat)
    ensures WithMemo(WithMemo(s, h1), h2) == WithMemo(s, h1)
  {
  }

  /** `at(i)` as written: the adapter reads `backing[index + i]`
      (Sequences.java:82-89) and only the backing text's own bounds check
      applies; the wrappers delegate (MemoSequence.java:51-54). */
  function AtAsWritten<T>(s: Sequence<T>, i: int): (r: Option<T>)
    ensures r.Some? <==> 0 <= Base(s).index + i < |Base(s).backing|
    ensures r.Some? ==> r.value == Base(s).backing[Base(s).index + i]
  {
    match s
    case Adapter(b, index, _) =>
      if 0 <= index + i < |b| then Some(b[index + i]) else None
    case MemoSeq(inner, _) => AtAsWritten(inner, i)
    case StatefulSeq(inner, _) => AtAsWritten(inner, i)
  }

  /** `at(i)` as the Sequence and CharSequence contracts describe it: defined
      exactly on `0 <= i < length()`. */
  function At<T>(s: Sequence<T>, i: int): (r: Option<T>)
    requires Valid(s)
    ensures r.Some? <==> 0 <= i < Length(s)
    ensures r.Some? ==> r.value == Content(s)[i]
  {
    match s
    case Adapter(b, index, n) =>
      if 0 <= i < n then Some(b[index + i]) else None
    case MemoSeq(inner, _) => At(inner, i)
    case StatefulSeq(inner, _) => At(inner, i)
  }

  /** Inside the window the code as written and the corrected `At` agree. */
  lemma AtAgreesInside<T>(s: Sequence<T>, i: int)
    requires Valid(s) && 0 <= i < Length(s)
    ensures AtAsWritten(s, i) == At(s, i)
  {
  }

  /** A view that stops before the end of its backing text hands out the
      element just past its window instead of rejecting the index. */
  lemma AtAsWrittenReadsPastEnd<T>(s: Sequence<T>)
    requires Valid(s) && Base(s).index + Base(s).length < |Base(s).backing|
    ensures At(s, Length(s)).None?
    ensures AtAsWritten(s, Length(s)).Some?
  {
  }

  /** The concrete case: the first character of "ab" as a view, asked for
      index 1, yields 'b'. */
  lemma AtAsWrittenExample()
    ensures var v := SubSequenceRange(FromString("ab"), 0, 1);
      && v.Some? && Length(v.value) == 1
      && At(v.value, 1).None?
      && AtAsWritten(v.value, 1) == Some('b')
  {
  }

  /** `subSequence(start)`: the adapter checks the bounds and returns itself
      for 0 (Sequences.java:92-103); a wrapper returns itself for 0 and
      otherwise wraps the inner view's sub-sequence with the same values map
      (MemoSequence.java:57-62, StatefulSequence.java:57-62). None stands for
      IndexOutOfBoundsException. */
  function SubSequence<T>(s: Sequence<T>, start: int): (r: Option<Sequence<T>>)
    ensures r.Some? <==> 0 <= start <= Length(s)
    ensures r.Some? ==> Length(r.value) == Length(s) - start
    ensures r.Some? ==> Base(r.value).backing == Base(s).backing
    ensures r.Some? ==> Base(r.value).index == Base(s).index + start
    ensures start == 0 ==> r == Some(s)
  {
    match s
    case Adapter(b, index, n) =>
      if start < 0 then None
      else if start > n then None
      else if start == 0 then Some(s)
      else Some(Adapter(b, index + start, n - start))
    case MemoSeq(inner, values) =>
      if start == 0 then Some(s)
      else (match SubSequence(inner, start)
        case None => None
        case Some(v) => Some(MemoSeq(v, values)))
    case StatefulSeq(inner, values) =>
      if start == 0 then Some(s)
      else (match SubSequence(inner, start)
        case None => None
        case Some(v) => Some(StatefulSeq(v, values)))
  }

  /** `subSequence(start, end)` (Sequences.java:106-120,
      MemoSequence.java:65-70, StatefulSequence.java:65-70). */
  function SubSequenceRange<T>(s: Sequence<T>, start: int, end: int): (r: Option<Sequence<T>>)
    ensures r.Some? <==> 0 <= start <= end <= Length(s)
    ensures r.Some? ==> Length(r.value) == end - start
    ensures r.Some? ==> Base(r.value).backing == Base(s).backing
    ensures r.Some? ==> Base(r.value).index == Base(s).index + start
    ensures start == 0 && end == Length(s) ==> r == Some(s)
  {
    match s
    case Adapter(b, index, n) =>
      if start < 0 then None
      else if end > n then None
      else if start > end then None
      else if start == 0 && end == n then Some(s)
      else
        Some(Adapter(b, index + start, end - start))
    case MemoSeq(inner, values) =>
      if start == 0 && end == Length(inner) then Some(s)
      else (match SubSequenceRange(inner, start, end)
        case None => None
        case Some(v) => Some(MemoSeq(v, values)))
    case StatefulSeq(inner, values) =>
      if start == 0 && end == Length(inner) then Some(s)
      else (match SubSequenceRange(inner, start, end)
        case None => None
        case Some(v) => Some(StatefulSeq(v, values)))
  }

  /** A slice of a slice is a slice of the whole. */
  lemma SliceOfSlice<T>(b: seq<T>, i: nat, j: nat, a: nat, n: nat)
    requires i <= j <= |b| && a + n <= j - i
    ensures b[i .. j][a .. a + n] == b[i + a .. i + a + n]
  {
    var x := b[i .. j][a .. a + n];
    var y := b[i + a .. i + a + n];
    assert |x| == |y| == n;
    forall k | 0 <= k < n
      ensures x[k] == y[k]
    {
      assert x[k] == b[i + a + k];
    }
  }

  /** A window of the same backing text that starts `start` into a valid view
      and fits inside it denotes the matching slice of that view. */
  lemma ContentOfWindow<T>(r: Sequence<T>, s: Sequence<T>, start: nat)
    requires Valid(s)
    requires Base(r).backing == Base(s).backing
    requires Base(r).index == Base(s).index + start
    requires start + Length(r) <= Length(s)
    ensures Valid(r) && Content(r) == Content(s)[start .. start + Length(r)]
  {
    var bs := Base(s);
    var br := Base(r);
    var b, i := bs.backing, bs.index;
    assert i + start + br.length <= |b|;
    assert Valid(r);
    SliceOfSlice(b, i, i + bs.length, start, br.length);
  }

  lemma SubSequenceContent<T>(s: Sequence<T>, start: int)
    requires Valid(s) && 0 <= start <= Length(s)
    ensures SubSequence(s, start).Some?
    ensures SuffixOf(SubSequence(s, start).value, s)
    ensures Content(SubSequence(s, start).value) == Content(s)[start..]
  {
    ContentOfWindow(SubSequence(s, start).value, s, start);
  }

  lemma SubSequenceRangeContent<T>(s: Sequence<T>, start: int, end: int)
    requires Valid(s) && 0 <= start <= end <= Length(s)
    ensures SubSequenceRange(s, start, end).Some?
    ensures Valid(SubSequenceRange(s, start, end).value)
    ensures Content(SubSequenceRange(s, start, end).value) == Content(s)[start..end]
  {
    ContentOfWindow(SubSequenceRange(s, start, end).value, s, start);
  }

  /** Two steps of `subSequence(start)` land on the same view as one. */
  lemma {:induction false} SubSequenceCompose<T>(s: Sequence<T>, a: nat, b: nat)
    requires a + b <= Length(s)
    ensures SubSequence(s, a).Some?
    ensures SubSequence(SubSequence(s, a).value, b) == SubSequence(s, a + b)
  {
    match s
    case Adapter(_, _, _) =>
    case MemoSeq(inner, _) =>
      if a != 0 && b != 0 {
        SubSequenceCompose(inner, a, b);
      }
    case StatefulSeq(inner, _) =>
      if a != 0 && b != 0 {
        SubSequenceCompose(inner, a, b);
      }
  }

  /** A sub-sequence of a wrapper other than the whole of it is a wrapper of
      the same kind sharing the same values map. */
  lemma SubSequenceSharesValues<T>(s: Sequence<T>, start: int)
    requires !s.Adapter? && 0 < start <= Length(s)
    ensures SubSequence(s, start).Some?
    ensures SubSequence(s, start).value.MemoSeq? == s.MemoSeq?
    ensures SubSequence(s, start).value.StatefulSeq? == s.StatefulSeq?
    ensures SubSequence(s, start).value.values == s.values
    ensures SubSequence(s, start).value.inner == SubSequence(s.inner, start).value
  {
  }

  lemma SubSequenceRangeSharesValues<T>(s: Sequence<T>, start: int, end: int)
    requires !s.Adapter? && 0 <= start <= end <= Length(s) && !(start == 0 && end == Length(s))
    ensures SubSequenceRange(s, start, end).Some?
    ensures SubSequenceRange(s, start, end).value.MemoSeq? == s.MemoSeq?
    ensures SubSequenceRange(s, start, end).value.StatefulSeq? == s.StatefulSeq?
    ensures SubSequenceRange(s, start, end).value.values == s.values
    ensures SubSequenceRange(s, start, end).value.inner == SubSequenceRange(s.inner, start, end).value
  {
  }

  /** `equals` (Sequences.java:123-132, MemoSequence.java:72-83,
      StatefulSequence.java:72-83): adapters compare backing text, index and
      length; a wrapper equals only a wrapper of the same kind whose inner
      view is equal, whatever values map either holds. */
  function Equals<T(==)>(a: Sequence<T>, b: Sequence<T>): (eq: bool)
    ensures a == b ==> eq
    ensures eq ==> Base(a) == Base(b) && Length(a) == Length(b)
    ensures eq ==> a.Adapter? == b.Adapter? && a.MemoSeq? == b.MemoSeq?
  {
    match (a, b)
    case (Adapter(b1, i1, n1), Adapter(b2, i2, n2)) => b1 == b2 && i1 == i2 && n1 == n2
    case (MemoSeq(x, _), MemoSeq(y, _)) => Equals(x, y)
    case (StatefulSeq(x, _), StatefulSeq(y, _)) => Equals(x, y)
    case _ => false
  }

  /** The view with every values handle erased: what `equals` looks at. */
  function Canon<T>(s: Sequence<T>): Sequence<T> {
    match s
    case Adapter(_, _, _) => s
    case MemoSeq(inner, _) => MemoSeq(Canon(inner), 0)
    case StatefulSeq(inner, _) => StatefulSeq(Canon(inner), 0)
  }

  lemma {:induction false} EqualsIffCanon<T>(a: Sequence<T>, b: Sequence<T>)
    ensures Equals(a, b) <==> Canon(a) == Canon(b)
  {
    match (a, b)
    case (Adapter(_, _, _), Adapter(_, _, _)) =>
    case (MemoSeq(x, _), MemoSeq(y, _)) => EqualsIffCanon(x, y);
    case (StatefulSeq(x, _), StatefulSeq(y, _)) => EqualsIffCanon(x, y);
    case (Adapter(_, _, _), _) =>
    case (MemoSeq(_, _), _) =>
    case (StatefulSeq(_, _), _) =>
  }

  lemma {:induction false} CanonKeepsView<T>(s: Sequence<T>)
    ensures Base(Canon(s)) == Base(s)
    ensures Length(Canon(s)) == Length(s)
    ensures Canon(Canon(s)) == Canon(s)
  {
    match s
    case Adapter(_, _, _) =>
    case MemoSeq(inner, _) => CanonKeepsView(inner);
    case StatefulSeq(inner, _) => CanonKeepsView(inner);
  }

  /** Erasing handles changes neither validity nor which views are suffixes. */
  lemma SuffixOfCanon<T>(r: Sequence<T>, s: Sequence<T>)
    ensures Valid(Canon(s)) == Valid(s)
    ensures SuffixOf(r, Canon(s)) == SuffixOf(r, s)
  {
    CanonKeepsView(s);
  }

  /** Two independently built views of the same text at the same offset are
      equal, so they key the same memo entry. */
  lemma IndependentViewsEqual<T>(text: seq<T>, h1: nat, h2: nat, i: nat, j: nat)
    requires j <= i <= |text|
    ensures var v1 := SubSequence(WithMemo(FromString(text), h1), i);
      var v2 := SubSequence(WithMemo(FromString(text), h2), j);
      && v1.Some? && v2.Some?
      && var v3 := SubSequence(v2.value, i - j);
      && v3.Some? && Equals(v1.value, v3.value)
  {
    var w1 := WithMemo(FromString(text), h1);
    var w2 := WithMemo(FromString(text), h2);
    SubSequenceCompose(w2, j, i - j);
    var v1 := SubSequence(w1, i).value;
    var v3 := SubSequence(w2, i).value;
    assert Canon(w1) == Canon(w2);
    if i == 0 {
      EqualsIffCanon(w1, w2);
    } else {
      assert v1 == MemoSeq(SubSequence(FromString(text), i).value, h1);
      assert v3 == MemoSeq(SubSequence(FromString(text), i).value, h2);
      EqualsIffCanon(v1, v3);
    }
  }
}
