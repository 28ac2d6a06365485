/**
 * StringExtensions.IsEqualTo: ordinal, case-sensitive equality of two
 * strings that may each be null.
 */
module StringExtensions {
  import opened Wrappers

  /** string.CompareOrdinal on two non-null strings: the difference of the
   *  first differing characters, or else the difference of lengths. A
   *  Dafny char is a Unicode scalar value, not a UTF-16 code unit, so the
   *  sign of the result can differ from .NET's for characters outside the
   *  Basic Multilingual Plane; being zero exactly on equal strings does
   *  not. */
  function CompareOrdinal(a: string, b: string): (r: int)
    ensures r == 0 <==> a == b
    decreases |a|
  {
    if a == [] || b == [] then |a| - |b|
    else if a[0] != b[0] then a[0] as int - b[0] as int
    else
      var r := CompareOrdinal(a[1..], b[1..]);
      assert a == [a[0]] + a[1..] && b == [b[0]] + b[1..];
      r
  }

  /** Guard chain of IsEqualTo: both null, exactly one null, length
   *  mismatch, then ordinal comparison. */
  function IsEqualTo(input: Option<string>, target: Option<string>): (r: bool)
    ensures r <==> input == target
  {
    if input.None? && target.None? then true
    else if input.None? || target.None? then false
    else if |input.value| != |target.value| then false
    else CompareOrdinal(input.value, target.value) == 0
  }

  /** Swapping the operands of CompareOrdinal negates the result, so the
   *  order IsEqualTo is called in never matters. */
  lemma {:induction false} CompareOrdinalAntisymmetric(a: string, b: string)
    ensures CompareOrdinal(a, b) == -CompareOrdinal(b, a)
    decreases |a|
  {
    if a != [] && b != [] && a[0] == b[0] {
      CompareOrdinalAntisymmetric(a[1..], b[1..]);
    }
  }

  /** Strings that differ only in letter case are not equal. */
  lemma IsEqualToIsCaseSensitive()
    ensures !IsEqualTo(Some("Name"), Some("name"))
    ensures IsEqualTo(Some("Name"), Some("Name"))
  {
    assert "Name"[0] != "name"[0];
  }
}
