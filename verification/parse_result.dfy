/** The tri-state outcome of a parse (ParseResult.java): a value and the
    unconsumed rest, a backtrackable failure, or a fatal error. */
module ParseResults {
  import opened Options
  import opened Sequences

  /** `rest` is never null in the source (ParseResult.java:33-35); a Dafny
      value cannot be null, so `getRest` is simply the `rest` field. */
  datatype ParseResult<T, V> =
    | Success(value: V, rest: Sequence<T>)
    | Failure(message: string, rest: Sequence<T>)
    | Error(message: string, rest: Sequence<T>)

  predicate IsSuccess<T, V>(r: ParseResult<T, V>) { r.Success? }

  predicate IsFailure<T, V>(r: ParseResult<T, V>) { r.Failure? }

  predicate IsError<T, V>(r: ParseResult<T, V>) { r.Error? }

  /** Exactly one of the three queries holds of every result. */
  lemma ExactlyOneKind<T, V>(r: ParseResult<T, V>)
    ensures IsSuccess(r) || IsFailure(r) || IsError(r)
    ensures !(IsSuccess(r) && IsFailure(r))
    ensures !(IsSuccess(r) && IsError(r))
    ensures !(IsFailure(r) && IsError(r))
  {
  }

  /** `getResult`: None stands for the IllegalStateException a non-success
      throws (ParseResult.java:103-105, 179-181). */
  function GetResult<T, V>(r: ParseResult<T, V>): (v: Option<V>)
    ensures v.Some? <==> IsSuccess(r)
    ensures v.Some? ==> r == Success(v.value, r.rest)
  {
    if r.Success? then Some(r.value) else None
  }

  /** `getMessage`: None stands for the IllegalStateException a success
      throws (ParseResult.java:108-110, 184-186). */
  function GetMessage<T, V>(r: ParseResult<T, V>): (m: Option<string>)
    ensures m.Some? <==> !IsSuccess(r)
    ensures m.Some? ==> r == Failure(m.value, r.rest) || r == Error(m.value, r.rest)
  {
    if r.Success? then None else Some(r.message)
  }

  /** `map` (ParseResult.java:113-115, 190-192): a success gets `f` of its
      value; a failure or error keeps kind, message and rest, re-typed. */
  function Map<T, V, W>(r: ParseResult<T, V>, f: V -> W): (m: ParseResult<T, W>)
    ensures m.rest == r.rest
    ensures IsSuccess(m) == IsSuccess(r) && IsFailure(m) == IsFailure(r) && IsError(m) == IsError(r)
    ensures r.Success? ==> m.value == f(r.value)
    ensures !r.Success? ==> m.message == r.message
  {
    match r
    case Success(v, rest) => Success(f(v), rest)
    case Failure(msg, rest) => Failure(msg, rest)
    case Error(msg, rest) => Error(msg, rest)
  }

  /** `withFailureMessage` (ParseResult.java:118-120, 212-214, 275-277). */
  function WithFailureMessage<T, V>(r: ParseResult<T, V>, msg: string): (m: ParseResult<T, V>)
    ensures r.Failure? ==> m.Failure? && m.message == msg && m.rest == r.rest
    ensures !r.Failure? ==> m == r
  {
    if r.Failure? then Failure(msg, r.rest) else r
  }

  /** `withErrorMessage` (ParseResult.java:123-125, 217-219, 280-282). */
  function WithErrorMessage<T, V>(r: ParseResult<T, V>, msg: string): (m: ParseResult<T, V>)
    ensures r.Error? ==> m.Error? && m.message == msg && m.rest == r.rest
    ensures !r.Error? ==> m == r
  {
    if r.Error? then Error(msg, r.rest) else r
  }

  /** `asFailure` (ParseResult.java:128-130, 222-224, 285-287). */
  function AsFailure<T, V>(r: ParseResult<T, V>): (m: ParseResult<T, V>)
    ensures r.Error? ==> m == Failure(r.message, r.rest)
    ensures !r.Error? ==> m == r
  {
    if r.Error? then Failure(r.message, r.rest) else r
  }

  /** `asError` (ParseResult.java:133-135, 227-229, 290-292). */
  function AsError<T, V>(r: ParseResult<T, V>): (m: ParseResult<T, V>)
    ensures r.Failure? ==> m == Error(r.message, r.rest)
    ensures !r.Failure? ==> m == r
  {
    if r.Failure? then Error(r.message, r.rest) else r
  }

  /** The two coercions undo each other on the kind they change. */
  lemma CoercionRoundTrip<T, V>(r: ParseResult<T, V>)
    ensures r.Failure? ==> AsFailure(AsError(r)) == r
    ensures r.Error? ==> AsError(AsFailure(r)) == r
    ensures AsFailure(AsFailure(r)) == AsFailure(r) && AsError(AsError(r)) == AsError(r)
    ensures r.Success? ==> AsFailure(r) == r && AsError(r) == r
  {
  }

  /** Overriding a message never changes the kind or the rest, and the second
      override of the same kind wins. */
  lemma MessageOverrides<T, V>(r: ParseResult<T, V>, m1: string, m2: string)
    ensures WithFailureMessage(WithFailureMessage(r, m1), m2) == WithFailureMessage(r, m2)
    ensures WithErrorMessage(WithErrorMessage(r, m1), m2) == WithErrorMessage(r, m2)
    ensures WithFailureMessage(r, m1).rest == r.rest && WithErrorMessage(r, m1).rest == r.rest
    ensures WithFailureMessage(WithErrorMessage(r, m1), m2) == WithErrorMessage(WithFailureMessage(r, m2), m1)
  {
  }

  /** `equals` (ParseResult.java:138-148, 232-242, 295-305): same kind, equal
      value or message, and rests equal by the sequences' own `equals`. */
  function Same<T(==), V(==)>(a: ParseResult<T, V>, b: ParseResult<T, V>): (same: bool)
    ensures a == b ==> same
    ensures same ==> a.Success? == b.Success? && a.Failure? == b.Failure? && a.Error? == b.Error?
    ensures same && a.Success? ==> a.value == b.value
    ensures same && !a.Success? ==> a.message == b.message
    ensures same ==> Base(a.rest) == Base(b.rest)
  {
    match (a, b)
    case (Success(v1, r1), Success(v2, r2)) => v1 == v2 && Equals(r1, r2)
    case (Failure(m1, r1), Failure(m2, r2)) => m1 == m2 && Equals(r1, r2)
    case (Error(m1, r1), Error(m2, r2)) => m1 == m2 && Equals(r1, r2)
    case _ => false
  }

  /** The result with its rest's values handles erased. */
  function CanonResult<T, V>(r: ParseResult<T, V>): ParseResult<T, V> {
    match r
    case Success(v, rest) => Success(v, Canon(rest))
    case Failure(m, rest) => Failure(m, Canon(rest))
    case Error(m, rest) => Error(m, Canon(rest))
  }

  /** Result equality is equality of the canonical forms, hence an
      equivalence relation. */
  lemma SameIffCanon<T, V>(a: ParseResult<T, V>, b: ParseResult<T, V>)
    ensures Same(a, b) <==> CanonResult(a) == CanonResult(b)
  {
    EqualsIffCanon(a.rest, b.rest);
  }

  lemma SameIsEquivalence<T, V>(a: ParseResult<T, V>, b: ParseResult<T, V>, c: ParseResult<T, V>)
    ensures Same(a, a)
    ensures Same(a, b) ==> Same(b, a)
    ensures Same(a, b) && Same(b, c) ==> Same(a, c)
  {
    SameIffCanon(a, a);
    SameIffCanon(a, b);
    SameIffCanon(b, a);
    SameIffCanon(b, c);
    SameIffCanon(a, c);
  }
}
