/** `io.github.liana.internal.ListUtils.immutableCopyOf`: a null-checked copy of a
    collection. Elements that may be null are `Option<E>`; the copy is a `seq`, which cannot
    be modified. */
module ListUtils {
  import opened Wrappers
  import opened Exceptions

  const NullElementMessage := "list must not contain null elements"

  /** The elements without their null wrapper, or `None` when one of them is null. */
  function Unwrapped<E>(items: seq<Option<E>>): (r: Option<seq<E>>)
    ensures r.Some? <==> forall i :: 0 <= i < |items| ==> items[i].Some?
    ensures r.Some? ==> |r.value| == |items| && forall i :: 0 <= i < |items| ==> Some(r.value[i]) == items[i]
  {
    if items == [] then Some([])
    else if items[0].None? then None
    else
      match Unwrapped(items[1..])
      case None => None
      case Some(rest) => Some([items[0].value] + rest)
  }

  /** What `immutableCopyOf` returns or throws. */
  function CopyOf<E>(input: Option<seq<Option<E>>>, message: string): (r: Result<seq<E>, Exception>)
    ensures input.None? ==> r == Failure(NullPointer(message))
    ensures input.Some? && (exists i :: 0 <= i < |input.value| && input.value[i].None?) ==>
      r == Failure(NullPointer(NullElementMessage))
    ensures input.Some? && (forall i :: 0 <= i < |input.value| ==> input.value[i].Some?) ==>
      r.Success? && |r.value| == |input.value| &&
      forall i :: 0 <= i < |input.value| ==> Some(r.value[i]) == input.value[i]
  {
    if input.None? then Failure(NullPointer(message))
    else
      match Unwrapped(input.value)
      case None => Failure(NullPointer(NullElementMessage))
      case Some(items) => Success(items)
  }

  /** The copying loop: an empty input gives the empty list, otherwise each element is
      checked for null and appended in order. */
  method ImmutableCopyOf<E>(input: Option<seq<Option<E>>>, message: string) returns (r: Result<seq<E>, Exception>)
    ensures r == CopyOf(input, message)
  {
    if input.None? {
      return Failure(NullPointer(message));
    }
    var items := input.value;
    if |items| == 0 {
      return Success([]);
    }
    var copy: seq<E> := [];
    for i := 0 to |items|
      invariant |copy| == i
      invariant forall j :: 0 <= j < i ==> items[j] == Some(copy[j])
    {
      if items[i].None? {
        assert input.value[i].None?;
        return Failure(NullPointer(NullElementMessage));
      }
      copy := copy + [items[i].value];
    }
    ghost var expected := CopyOf(input, message).value;
    assert copy == expected by {
      assert |copy| == |expected|;
      forall j | 0 <= j < |copy| ensures copy[j] == expected[j] {
        assert Some(expected[j]) == items[j];
      }
    }
    r := Success(copy);
  }
}
