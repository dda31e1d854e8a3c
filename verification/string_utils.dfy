/** `io.github.liana.internal.StringUtils`: null-safe blank checks and case-insensitive
    comparison. A Java `String` that may be null is an `Option<string>`. */
module StringUtils {
  import opened Wrappers
  import opened JavaString
  import opened Exceptions

  /** `isBlank`: null, empty, or whitespace only. */
  predicate IsBlank(value: Option<string>)
    ensures IsBlank(value) <==> value.None? || forall i :: 0 <= i < |value.value| ==> IsWhitespace(value.value[i])
  {
    value.None? || AllWhitespace(value.value)
  }

  /** `defaultIfBlank`: the value itself unless it is blank. */
  function DefaultIfBlank(value: Option<string>, defaultValue: Option<string>): (r: Option<string>)
    ensures !IsBlank(value) ==> r == value
    ensures IsBlank(value) ==> r == defaultValue
    ensures !IsBlank(defaultValue) ==> !IsBlank(r)
  {
    if IsBlank(value) then defaultValue else value
  }

  /** `requireNonBlank`: the value unchanged, or IllegalArgumentException with `message`. */
  function RequireNonBlank(value: Option<string>, message: string): (r: Result<string, Exception>)
    ensures r.Success? <==> !IsBlank(value)
    ensures r.Success? ==> value == Some(r.value) && |r.value| > 0
    ensures r.Failure? ==> r.error == IllegalArgument(message)
  {
    if IsBlank(value) then Failure(IllegalArgument(message)) else Success(value.value)
  }

  /** `equalsIgnoreCase`: two nulls are equal, one null is not, otherwise the strings agree
      character by character after lower-casing. */
  predicate EqualsIgnoreCase(first: Option<string>, second: Option<string>)
  {
    match first
    case None => second.None?
    case Some(a) => second.Some? && ToLower(a) == ToLower(second.value)
  }

  lemma EqualsIgnoreCaseMeaning(first: Option<string>, second: Option<string>)
    ensures first.None? && second.None? ==> EqualsIgnoreCase(first, second)
    ensures first.None? != second.None? ==> !EqualsIgnoreCase(first, second)
    ensures first.Some? && second.Some? ==>
      (EqualsIgnoreCase(first, second) <==>
        |first.value| == |second.value| &&
        forall i :: 0 <= i < |first.value| ==> LowerChar(first.value[i]) == LowerChar(second.value[i]))
  {
    if first.Some? && second.Some? {
      var a, b := first.value, second.value;
      if |a| == |b| && forall i :: 0 <= i < |a| ==> LowerChar(a[i]) == LowerChar(b[i]) {
        assert ToLower(a) == ToLower(b);
      }
    }
  }

  lemma EqualsIgnoreCaseReflexive(s: Option<string>)
    ensures EqualsIgnoreCase(s, s)
  {
  }

  lemma EqualsIgnoreCaseSymmetric(first: Option<string>, second: Option<string>)
    ensures EqualsIgnoreCase(first, second) == EqualsIgnoreCase(second, first)
  {
  }

  lemma EqualsIgnoreCaseTransitive(a: Option<string>, b: Option<string>, c: Option<string>)
    requires EqualsIgnoreCase(a, b) && EqualsIgnoreCase(b, c)
    ensures EqualsIgnoreCase(a, c)
  {
  }
}
