/** Go's `byte`, and the `string(b)` / `[]byte(s)` conversions between byte slices and strings. */
module GoBytes {

  type byte = x: int | 0 <= x < 256

  /** A string whose every character stands for one byte. */
  predicate IsByteString(s: string)
  {
    forall i :: 0 <= i < |s| ==> s[i] as int < 256
  }

  /** `string(b)`: each byte becomes the character with that code. */
  function ToString(b: seq<byte>): (s: string)
    ensures |s| == |b| && IsByteString(s)
    ensures forall i :: 0 <= i < |b| ==> s[i] as int == b[i]
  {
    seq(|b|, i requires 0 <= i < |b| => b[i] as char)
  }

  /** `[]byte(s)`. */
  function FromString(s: string): (b: seq<byte>)
    requires IsByteString(s)
    ensures |b| == |s|
    ensures forall i :: 0 <= i < |s| ==> b[i] == s[i] as int
  {
    seq(|s|, i requires 0 <= i < |s| => s[i] as int)
  }

  /** The two conversions are inverse on byte strings. */
  lemma ToStringFromString(s: string)
    requires IsByteString(s)
    ensures ToString(FromString(s)) == s
  {
    var t := ToString(FromString(s));
    forall i | 0 <= i < |s| ensures t[i] == s[i] {
      assert t[i] as int == s[i] as int;
    }
  }
}
