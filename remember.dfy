/**
 * fields_to_fill of simple_tools/remember.py: make a list at least a given
 * length by extending it, in place, with copies of a fill value.
 */
module Remember {

  /** `[value] * n`. */
  function Repeat<T>(value: T, n: nat): (r: seq<T>)
    ensures |r| == n
    ensures forall i :: 0 <= i < n ==> r[i] == value
  {
    seq(n, _ => value)
  }

  /**
   * The list after fields_to_fill(xs, expectedLength, fillValue): xs itself,
   * then fill values up to expectedLength; a list already that long is kept
   * as it is.
   */
  function Filled<T>(xs: seq<T>, expectedLength: int, fillValue: T): (r: seq<T>)
    ensures |r| == if |xs| >= expectedLength then |xs| else expectedLength
    ensures r[..|xs|] == xs
    ensures forall i :: |xs| <= i < |r| ==> r[i] == fillValue
  {
    xs + if |xs| >= expectedLength then [] else Repeat(fillValue, expectedLength - |xs|)
  }

  /** A list already of the expected length is left unchanged. */
  lemma FilledLongEnough<T>(xs: seq<T>, expectedLength: int, fillValue: T)
    requires |xs| >= expectedLength
    ensures Filled(xs, expectedLength, fillValue) == xs
  {
    assert xs + [] == xs;
  }

  /** Filling a second time changes nothing. */
  lemma FilledIdempotent<T>(xs: seq<T>, expectedLength: int, fillValue: T)
    ensures Filled(Filled(xs, expectedLength, fillValue), expectedLength, fillValue) == Filled(xs, expectedLength, fillValue)
  {
    FilledLongEnough(Filled(xs, expectedLength, fillValue), expectedLength, fillValue);
  }

  /** A Python list, shared by reference between the caller and fields_to_fill. */
  class ListRef<T> {
    var elements: seq<T>

    constructor(initial: seq<T>)
      ensures elements == initial
    {
      elements := initial;
    }

    /** fields_to_fill(self, expectedLength, fillValue): `extend` with the missing fill values. */
    method FieldsToFill(expectedLength: int, fillValue: T)
      modifies this
      ensures elements == Filled(old(elements), expectedLength, fillValue)
    {
      var missing := if |elements| >= expectedLength then [] else Repeat(fillValue, expectedLength - |elements|);
      elements := elements + missing;
    }
  }

  /** The list is changed through every reference to it: whoever holds it sees the filled list. */
  method FillShared(expectedLength: int, fillValue: int) returns (seen: seq<int>)
    ensures |seen| == if expectedLength <= 2 then 2 else expectedLength
    ensures seen[..2] == [1, 2]
    ensures forall i :: 2 <= i < |seen| ==> seen[i] == fillValue
    ensures seen == Filled([1, 2], expectedLength, fillValue)
  {
    var given := new ListRef([1, 2]);
    var alias := given;
    alias.FieldsToFill(expectedLength, fillValue);
    seen := given.elements;
  }
}
