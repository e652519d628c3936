/**
 * Base 64 as Go's `base64.StdEncoding` reads and writes it: the alphabet of
 * section 4 of RFC 4648, '=' padding, carriage returns and line feeds
 * skipped anywhere in the input, and the unused low bits of a padded final
 * quantum ignored (the encoding is not in strict mode).
 */
module Base64 {
  import opened Wrappers
  import opened GoBytes

  type sextet = x: int | 0 <= x < 64

  /** The character that encodes a 6-bit value. */
  function CharOf(v: sextet): char
  {
    if v < 26 then ('A' as int + v) as char
    else if v < 52 then ('a' as int + (v - 26)) as char
    else if v < 62 then ('0' as int + (v - 52)) as char
    else if v == 62 then '+'
    else '/'
  }

  /** The 6-bit value a character encodes, or None for a character outside the alphabet. */
  function ValueOf(c: char): (r: Option<sextet>)
    ensures r.Some? ==> CharOf(r.value) == c
  {
    if 'A' <= c <= 'Z' then Some(c as int - 'A' as int)
    else if 'a' <= c <= 'z' then Some(c as int - 'a' as int + 26)
    else if '0' <= c <= '9' then Some(c as int - '0' as int + 52)
    else if c == '+' then Some(62)
    else if c == '/' then Some(63)
    else None
  }

  lemma ValueOfCharOf(v: sextet)
    ensures ValueOf(CharOf(v)) == Some(v)
  {
  }

  predicate InAlphabet(c: char)
  {
    ValueOf(c).Some?
  }

  /** The input with every '\r' and '\n' removed; the decoder skips both. */
  function SkipNewlines(s: string): (t: string)
    ensures '\r' !in t && '\n' !in t
  {
    if s == [] then ""
    else if s[0] == '\r' || s[0] == '\n' then SkipNewlines(s[1..])
    else [s[0]] + SkipNewlines(s[1..])
  }

  /** The three bytes of a full quantum of four characters. */
  function Decode3(a: sextet, b: sextet, c: sextet, d: sextet): (r: seq<byte>)
    ensures |r| == 3
  {
    [a * 4 + b / 16, (b % 16) * 16 + c / 4, (c % 4) * 64 + d]
  }

  /** The byte of a quantum padded with "==". */
  function Decode1(a: sextet, b: sextet): (r: seq<byte>)
    ensures |r| == 1
  {
    [a * 4 + b / 16]
  }

  /** The two bytes of a quantum padded with "=". */
  function Decode2(a: sextet, b: sextet, c: sextet): (r: seq<byte>)
    ensures |r| == 2
  {
    [a * 4 + b / 16, (b % 16) * 16 + c / 4]
  }

  /** Decoding of newline-free input, quantum by quantum. */
  function DecodeQuanta(t: string): (r: Option<seq<byte>>)
    ensures r.Some? ==> |r.value| <= |t| / 4 * 3
    decreases |t|
  {
    if |t| == 0 then Some([])
    else if |t| < 4 then None
    else
      var a, b, c, d := ValueOf(t[0]), ValueOf(t[1]), ValueOf(t[2]), ValueOf(t[3]);
      if a.None? || b.None? then None
      else if c.Some? && d.Some? then
        match DecodeQuanta(t[4..])
        case None => None
        case Some(rest) => Some(Decode3(a.value, b.value, c.value, d.value) + rest)
      else if t[2] == '=' && t[3] == '=' && |t| == 4 then
        Some(Decode1(a.value, b.value))
      else if c.Some? && t[3] == '=' && |t| == 4 then
        Some(Decode2(a.value, b.value, c.value))
      else None
  }

  /** `base64.StdEncoding.DecodeString`: the decoded bytes, or None where Go reports an error. */
  function Decode(s: string): Option<seq<byte>>
  {
    DecodeQuanta(SkipNewlines(s))
  }

  /** `base64.StdEncoding.EncodeToString`. */
  function Encode(b: seq<byte>): (s: string)
    ensures |s| == (|b| + 2) / 3 * 4
    ensures '\r' !in s && '\n' !in s
    decreases |b|
  {
    if |b| == 0 then ""
    else if |b| == 1 then
      [CharOf(b[0] / 4), CharOf((b[0] % 4) * 16), '=', '=']
    else if |b| == 2 then
      [CharOf(b[0] / 4), CharOf((b[0] % 4) * 16 + b[1] / 16), CharOf((b[1] % 16) * 4), '=']
    else Quantum(b[0], b[1], b[2]) + Encode(b[3..])
  }

  /** The four characters of three bytes. */
  function Quantum(x: byte, y: byte, z: byte): (q: string)
    ensures |q| == 4 && '\r' !in q && '\n' !in q
  {
    [CharOf(x / 4), CharOf((x % 4) * 16 + y / 16), CharOf((y % 16) * 4 + z / 64), CharOf(z % 64)]
  }

  lemma SkipNewlinesAbsent(s: string)
    requires '\r' !in s && '\n' !in s
    ensures SkipNewlines(s) == s
  {
  }

  /** One full quantum decodes to the three bytes it encodes. */
  lemma Quantum3(x: byte, y: byte, z: byte, v0: sextet, v1: sextet, v2: sextet, v3: sextet)
    requires v0 == x / 4 && v1 == (x % 4) * 16 + y / 16
    requires v2 == (y % 16) * 4 + z / 64 && v3 == z % 64
    ensures Decode3(v0, v1, v2, v3) == [x, y, z]
  {
  }

  /** The leading quantum of an encoding of at least three bytes. */
  lemma EncodeFull(b: seq<byte>)
    requires |b| >= 3
    ensures Encode(b) == Quantum(b[0], b[1], b[2]) + Encode(b[3..])
  {
  }

  /** A quantum padded with one '=' decodes to the two bytes it encodes. */
  lemma Quantum2(x: byte, y: byte)
    ensures var s1 := (x % 4) * 16 + y / 16; var s2 := (y % 16) * 4;
      x / 4 * 4 + s1 / 16 == x && (s1 % 16) * 16 + s2 / 4 == y
  {
  }

  /** Decoding an encoding gives the bytes back. */
  lemma {:induction false} DecodeEncode(b: seq<byte>)
    ensures Decode(Encode(b)) == Some(b)
    decreases |b|
  {
    SkipNewlinesAbsent(Encode(b));
    EncodedQuanta(b);
  }

  /** A full quantum of four alphabet characters. */
  lemma FullQuantum(t: string, rest: seq<byte>)
    requires |t| >= 4 && InAlphabet(t[0]) && InAlphabet(t[1]) && InAlphabet(t[2]) && InAlphabet(t[3])
    requires DecodeQuanta(t[4..]) == Some(rest)
    ensures DecodeQuanta(t) ==
      Some(Decode3(ValueOf(t[0]).value, ValueOf(t[1]).value, ValueOf(t[2]).value, ValueOf(t[3]).value) + rest)
  {
  }

  /** A quantum padded with "==" decodes to the byte its two sextets carry. */
  lemma PaddedOne(v0: sextet, v1: sextet)
    ensures DecodeQuanta([CharOf(v0), CharOf(v1), '=', '=']) == Some([v0 * 4 + v1 / 16])
  {
    ValueOfCharOf(v0);
    ValueOfCharOf(v1);
    var s := [CharOf(v0), CharOf(v1), '=', '='];
    assert ValueOf(s[2]) == None;
  }

  /** The padded quantum of one byte decodes to it. */
  lemma OneRoundTrip(x: byte)
    ensures DecodeQuanta([CharOf(x / 4), CharOf((x % 4) * 16), '=', '=']) == Some([x])
  {
    PaddedOne(x / 4, (x % 4) * 16);
  }

  /** The last quantum of a one-byte tail. */
  lemma EncodedOne(b: seq<byte>)
    requires |b| == 1
    ensures DecodeQuanta(Encode(b)) == Some(b)
  {
    OneRoundTrip(b[0]);
    assert b == [b[0]];
  }

  /** A quantum padded with one '=' decodes to the two bytes its three sextets carry. */
  lemma PaddedTwo(v0: sextet, v1: sextet, v2: sextet)
    ensures DecodeQuanta([CharOf(v0), CharOf(v1), CharOf(v2), '='])
         == Some([v0 * 4 + v1 / 16, (v1 % 16) * 16 + v2 / 4])
  {
    ValueOfCharOf(v0);
    ValueOfCharOf(v1);
    ValueOfCharOf(v2);
    var s := [CharOf(v0), CharOf(v1), CharOf(v2), '='];
    assert ValueOf(s[3]) == None;
  }

  /** The three sextets of a two-byte tail. */
  lemma TwoByteSextets(x: byte, y: byte)
    ensures 0 <= (x % 4) * 16 + y / 16 < 64 && 0 <= (y % 16) * 4 < 64
  {
  }

  /** The padded quantum of two bytes decodes to them. */
  lemma TwoRoundTrip(x: byte, y: byte)
    ensures 0 <= (x % 4) * 16 + y / 16 < 64 && 0 <= (y % 16) * 4 < 64
    ensures DecodeQuanta([CharOf(x / 4), CharOf((x % 4) * 16 + y / 16), CharOf((y % 16) * 4), '=']) == Some([x, y])
  {
    TwoByteSextets(x, y);
    PaddedTwo(x / 4, (x % 4) * 16 + y / 16, (y % 16) * 4);
    Quantum2(x, y);
  }

  /** The last quantum of a two-byte tail. */
  lemma EncodedTwo(b: seq<byte>)
    requires |b| == 2
    ensures DecodeQuanta(Encode(b)) == Some(b)
  {
    TwoRoundTrip(b[0], b[1]);
    assert b == [b[0], b[1]];
  }

  /** The four characters of three bytes are in the alphabet and decode to those bytes. */
  lemma QuantumRoundTrip(x: byte, y: byte, z: byte)
    ensures var q := Quantum(x, y, z);
      InAlphabet(q[0]) && InAlphabet(q[1]) && InAlphabet(q[2]) && InAlphabet(q[3])
      && Decode3(ValueOf(q[0]).value, ValueOf(q[1]).value, ValueOf(q[2]).value, ValueOf(q[3]).value) == [x, y, z]
  {
    var v0, v1, v2, v3 := x / 4, (x % 4) * 16 + y / 16, (y % 16) * 4 + z / 64, z % 64;
    ValueOfCharOf(v0);
    ValueOfCharOf(v1);
    ValueOfCharOf(v2);
    ValueOfCharOf(v3);
    Quantum3(x, y, z, v0, v1, v2, v3);
  }

  lemma SplitHead3<T>(b: seq<T>)
    requires |b| >= 3
    ensures b == [b[0], b[1], b[2]] + b[3..]
  {
  }

  /** The leading quantum of an encoding decodes to the first three bytes. */
  lemma LeadingQuantum(b: seq<byte>)
    requires |b| >= 3
    ensures |Encode(b)| >= 4 && Encode(b)[4..] == Encode(b[3..])
    ensures InAlphabet(Encode(b)[0]) && InAlphabet(Encode(b)[1])
    ensures InAlphabet(Encode(b)[2]) && InAlphabet(Encode(b)[3])
    ensures Decode3(ValueOf(Encode(b)[0]).value, ValueOf(Encode(b)[1]).value,
                    ValueOf(Encode(b)[2]).value, ValueOf(Encode(b)[3]).value) == [b[0], b[1], b[2]]
  {
    EncodeFull(b);
    var q := Quantum(b[0], b[1], b[2]);
    QuantumRoundTrip(b[0], b[1], b[2]);
    assert Encode(b)[..4] == q;
  }

  /** A full leading quantum, given that the rest round-trips. */
  lemma EncodedThree(b: seq<byte>)
    requires |b| >= 3
    requires DecodeQuanta(Encode(b[3..])) == Some(b[3..])
    ensures DecodeQuanta(Encode(b)) == Some(b)
  {
    LeadingQuantum(b);
    FullQuantum(Encode(b), b[3..]);
    SplitHead3(b);
  }

  lemma {:induction false} EncodedQuanta(b: seq<byte>)
    ensures DecodeQuanta(Encode(b)) == Some(b)
    decreases |b|
  {
    if |b| == 1 {
      EncodedOne(b);
    } else if |b| == 2 {
      EncodedTwo(b);
    } else if |b| >= 3 {
      EncodedQuanta(b[3..]);
      EncodedThree(b);
    }
  }
}
