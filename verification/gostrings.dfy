/**
 * The few functions of Go's `strings` package that the proxy relies on.
 * A Go string is a sequence of bytes; here it is a `string` whose every
 * character stands for one byte.
 */
module GoStrings {

  /** `sep` occurs in `s` starting at index `j`. */
  predicate OccursAt(s: string, sep: string, j: int)
  {
    0 <= j && j + |sep| <= |s| && s[j..j + |sep|] == sep
  }

  /** `strings.Index`: the first index at which `sep` occurs, or -1. */
  function Index(s: string, sep: string): (i: int)
    ensures -1 <= i
    ensures i >= 0 ==> OccursAt(s, sep, i)
    ensures forall j :: 0 <= j && (i < 0 || j < i) ==> !OccursAt(s, sep, j)
    decreases |s|
  {
    if |s| < |sep| then
      -1
    else if s[..|sep|] == sep then
      0
    else
      var k := Index(s[1..], sep);
      assert forall j :: 1 <= j && OccursAt(s, sep, j) ==> OccursAt(s[1..], sep, j - 1) by {
        forall j | 1 <= j && OccursAt(s, sep, j) ensures OccursAt(s[1..], sep, j - 1) {
          assert s[1..][j - 1..j - 1 + |sep|] == s[j..j + |sep|];
        }
      }
      if k < 0 then -1
      else
        assert s[1..][k..k + |sep|] == s[k + 1..k + 1 + |sep|];
        k + 1
  }

  /** `strings.Split` for a non-empty separator. */
  function Split(s: string, sep: string): (parts: seq<string>)
    requires |sep| > 0
    ensures |parts| >= 1
    decreases |s|
  {
    var i := Index(s, sep);
    if i < 0 then [s] else [s[..i]] + Split(s[i + |sep|..], sep)
  }

  /** `strings.Join`. */
  function Join(parts: seq<string>, sep: string): string
  {
    if |parts| == 0 then ""
    else if |parts| == 1 then parts[0]
    else parts[0] + sep + Join(parts[1..], sep)
  }

  /** Joining the fields of a split gives the original string back. */
  lemma {:induction false} JoinSplit(s: string, sep: string)
    requires |sep| > 0
    ensures Join(Split(s, sep), sep) == s
    decreases |s|
  {
    var i := Index(s, sep);
    if i >= 0 {
      var rest := s[i + |sep|..];
      var tail := Split(rest, sep);
      assert Split(s, sep) == [s[..i]] + tail;
      JoinSplit(rest, sep);
      assert Join([s[..i]] + tail, sep) == s[..i] + sep + Join(tail, sep) by {
        assert ([s[..i]] + tail)[1..] == tail;
      }
      assert s == s[..i] + s[i..i + |sep|] + rest;
    }
  }

  /** The first occurrence of `sep` follows a prefix that does not contain its first character. */
  lemma IndexAfterPrefix(a: string, sep: string, b: string)
    requires |sep| > 0 && sep[0] !in a
    ensures Index(a + sep + b, sep) == |a|
  {
    var s := a + sep + b;
    assert OccursAt(s, sep, |a|) by { assert s[|a|..|a| + |sep|] == sep; }
    forall j | 0 <= j < |a| ensures !OccursAt(s, sep, j) {
      if j + |sep| <= |s| {
        assert s[j..j + |sep|][0] == a[j];
      }
    }
  }

  /** Splitting a join on a separator whose first character no part contains gives the parts back. */
  lemma {:induction false} SplitJoin(parts: seq<string>, sep: string)
    requires |sep| > 0 && |parts| >= 1
    requires forall k :: 0 <= k < |parts| ==> sep[0] !in parts[k]
    ensures Split(Join(parts, sep), sep) == parts
  {
    if |parts| == 1 {
      var s := parts[0];
      forall j | 0 <= j ensures !OccursAt(s, sep, j) {
        if j + |sep| <= |s| {
          assert s[j..j + |sep|][0] == s[j];
        }
      }
    } else {
      var s := Join(parts, sep);
      var rest := Join(parts[1..], sep);
      assert s == parts[0] + sep + rest;
      IndexAfterPrefix(parts[0], sep, rest);
      assert s[..|parts[0]|] == parts[0];
      assert s[|parts[0]| + |sep|..] == rest;
      SplitJoin(parts[1..], sep);
    }
  }

  /**
   * `strings.Cut` on a one-character separator: the text before the first `c`,
   * the text after it, and whether `c` occurs at all. Its first component is
   * `strings.SplitN(s, string(c), 2)[0]`.
   */
  function Cut(s: string, c: char): (r: (string, string, bool))
    ensures c !in r.0
    ensures r.2 ==> s == r.0 + [c] + r.1
    ensures !r.2 ==> r.0 == s && r.1 == "" && c !in s
  {
    if s == [] then ("", "", false)
    else if s[0] == c then ("", s[1..], true)
    else
      var t := Cut(s[1..], c);
      assert s == [s[0]] + s[1..];
      ([s[0]] + t.0, t.1, t.2)
  }

  /** `Cut` stops at the first `c`: everything after it is left alone. */
  lemma {:induction false} CutAt(a: string, c: char, b: string)
    requires c !in a
    ensures Cut(a + [c] + b, c) == (a, b, true)
  {
    if a == [] {
      assert a + [c] + b == [c] + b;
    } else {
      assert (a + [c] + b)[1..] == a[1..] + [c] + b;
      assert (a + [c] + b)[0] == a[0] != c;
      CutAt(a[1..], c, b);
      assert [a[0]] + a[1..] == a;
    }
  }

  /** `strings.HasPrefix`. */
  predicate HasPrefix(s: string, prefix: string)
  {
    |prefix| <= |s| && s[..|prefix|] == prefix
  }

  /** `strings.Replace(s, string(c), "", -1)`: every `c` removed. */
  function RemoveAll(s: string, c: char): (r: string)
    ensures c !in r
    ensures |r| <= |s|
    ensures forall x :: x in r ==> x in s
  {
    if s == [] then ""
    else if s[0] == c then RemoveAll(s[1..], c)
    else [s[0]] + RemoveAll(s[1..], c)
  }

  /** Removal distributes over concatenation. */
  lemma {:induction false} RemoveAllAppend(a: string, b: string, c: char)
    ensures RemoveAll(a + b, c) == RemoveAll(a, c) + RemoveAll(b, c)
    decreases |a|
  {
    if a != [] {
      assert (a + b)[1..] == a[1..] + b;
      RemoveAllAppend(a[1..], b, c);
    } else {
      assert a + b == b;
    }
  }

  /** Removing a character that does not occur changes nothing. */
  lemma {:induction false} RemoveAllAbsent(s: string, c: char)
    requires c !in s
    ensures RemoveAll(s, c) == s
    decreases |s|
  {
    if s != [] {
      RemoveAllAbsent(s[1..], c);
    }
  }
}
