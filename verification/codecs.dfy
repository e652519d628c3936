/**
 * The byte streams and the codecs the transcoders use. The gzip and Brotli
 * compressors and the JPEG, PNG, GIF and WebP codecs are library code whose
 * internals are not modelled: a `Codecs` value carries them as functions,
 * and every statement about the proxy holds whatever those functions are.
 */
module Codecs {
  import opened Wrappers
  import opened GoBytes

  /** What an `io.Reader` yields: some bytes, then end of stream (`err == None`) or an error. */
  datatype Stream = Stream(data: seq<byte>, err: Option<string>)

  /** A decompressing reader stacked on a response body. */
  datatype Decoder = Gunzip | Unbrotli

  /** A compressing writer stacked on a response writer. */
  datatype Encoder = GzipWriter(level: int) | BrotliWriter(quality: int)

  /** A decoded picture; its pixels are opaque. */
  datatype Image = Image(pixels: seq<byte>)

  /** `jpeg.EncoderOptions`. */
  datatype JpegOptions = JpegOptions(quality: int, optimizeCoding: bool)

  /** `webp.Options`; the float32 quality is kept as the integer it is converted from. */
  datatype WebPOptions = WebPOptions(lossless: bool, quality: int)

  datatype Codecs = Codecs(
    gunzipHeader: Stream -> Option<string>,   // the error `gzip.NewReader` reports, if any
    gunzip: Stream -> Stream,
    unbrotli: Stream -> Stream,
    gzip: (int, seq<byte>) -> seq<byte>,
    brotli: (int, seq<byte>) -> seq<byte>,
    decodeJpeg: Stream -> Result<Image>,
    decodePng: Stream -> Result<Image>,
    decodeGif: Stream -> Result<Image>,
    // an encoder's result is what it wrote to its writer, then its error if it failed
    encodeJpeg: (Image, JpegOptions) -> Stream,
    encodePng: Image -> Stream,
    encodeGif: Image -> Stream,
    encodeWebP: (Image, WebPOptions) -> Stream)

  /** The stream a stack of decoders yields; `ds[0]` reads the raw body. */
  function Decoded(c: Codecs, ds: seq<Decoder>, raw: Stream): Stream
    decreases |ds|
  {
    if ds == [] then raw
    else
      var below := Decoded(c, ds[..|ds| - 1], raw);
      match ds[|ds| - 1]
      case Gunzip => c.gunzip(below)
      case Unbrotli => c.unbrotli(below)
  }

  /** The bytes a compressing writer emits for everything written into it. */
  function Compressed(c: Codecs, e: Encoder, data: seq<byte>): seq<byte>
  {
    match e
    case GzipWriter(level) => c.gzip(level, data)
    case BrotliWriter(quality) => c.brotli(quality, data)
  }

  /** `gzip.NewWriterLevel` accepts levels from HuffmanOnly (-2) to BestCompression (9). */
  predicate GzipLevelValid(level: int)
  {
    -2 <= level <= 9
  }

  /** The error `gzip.NewWriterLevel` returns for a level outside that range. */
  function InvalidLevel(level: int): string
  {
    "gzip: invalid compression level: " + Decimal(level)
  }

  /**
   * The decimal form of an integer, as `%d` prints it: a '-' exactly for a
   * negative number, then digits, the first of which is '0' only for 0.
   */
  function Decimal(n: int): (s: string)
    ensures |s| >= 1 && (s[0] == '-' <==> n < 0)
    ensures n < 0 ==> |s| >= 2 && s[1] != '0'
    ensures n > 0 ==> s[0] != '0'
    ensures forall i :: (if n < 0 then 1 else 0) <= i < |s| ==> IsDigit(s[i])
    decreases if n < 0 then 1 - n else n
  {
    if n < 0 then "-" + Decimal(-n)
    else if n < 10 then [Digit(n)]
    else Decimal(n / 10) + [Digit(n % 10)]
  }

  predicate IsDigit(ch: char)
  {
    '0' <= ch <= '9'
  }

  function Digit(d: int): (ch: char)
    requires 0 <= d < 10
    ensures IsDigit(ch) && ch as int - '0' as int == d
  {
    "0123456789"[d]
  }

  /** The number a string of digits stands for, most significant first. */
  function DigitsValue(s: string): int
  {
    if s == [] then 0 else DigitsValue(s[..|s| - 1]) * 10 + (s[|s| - 1] as int - '0' as int)
  }

  /** Reading a decimal text back: an optional '-', then digits. */
  function ParseDecimal(s: string): int
  {
    if |s| > 0 && s[0] == '-' then -DigitsValue(s[1..]) else DigitsValue(s)
  }

  /** The digits of a non-negative number stand for that number. */
  lemma {:induction false} DigitsOfDecimal(n: nat)
    ensures DigitsValue(Decimal(n)) == n
    decreases n
  {
    if n >= 10 {
      var s := Decimal(n);
      assert s[..|s| - 1] == Decimal(n / 10);
      DigitsOfDecimal(n / 10);
    } else {
      assert Decimal(n)[..0] == [];
    }
  }

  /** `%d` loses nothing: its text reads back as the number printed. */
  lemma DecimalRoundTrip(n: int)
    ensures ParseDecimal(Decimal(n)) == n
  {
    if n < 0 {
      assert Decimal(n)[1..] == Decimal(-n);
      DigitsOfDecimal(-n);
    } else {
      DigitsOfDecimal(n);
    }
  }

  /** Different levels give different invalid-level errors. */
  lemma InvalidLevelInjective(a: int, b: int)
    ensures InvalidLevel(a) == InvalidLevel(b) ==> a == b
  {
    if InvalidLevel(a) == InvalidLevel(b) {
      var p := "gzip: invalid compression level: ";
      assert InvalidLevel(a)[|p|..] == Decimal(a);
      assert InvalidLevel(b)[|p|..] == Decimal(b);
      DecimalRoundTrip(a);
      DecimalRoundTrip(b);
    }
  }
}
