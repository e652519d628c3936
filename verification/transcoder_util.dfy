/**
 * Content negotiation helpers of package transcoder: `SupportsWebP`
 * (transcoder/util.go) and the `Accept-Encoding` scans of the compression
 * stages (transcoder/zip.go, transcoder/gzip.go).
 */
module TranscoderUtil {
  import opened GoStrings
  import H = Header

  /** The tokens of an `Accept` header: split on ",", not trimmed. */
  function AcceptTokens(headers: H.Header): seq<string>
  {
    Split(H.Get(headers, "Accept"), ",")
  }

  /** `SupportsWebP`: some ","-separated token of `Accept`, up to its first ';', is exactly `image/webp`. */
  function SupportsWebP(headers: H.Header): bool
  {
    var tokens := AcceptTokens(headers);
    exists i :: 0 <= i < |tokens| && Cut(tokens[i], ';').0 == "image/webp"
  }

  /** Whether a token list offers WebP, whatever its order. */
  predicate OffersWebP(tokens: seq<string>)
  {
    exists t :: t in tokens && Cut(t, ';').0 == "image/webp"
  }

  /** For an `Accept` header built from comma-free tokens, the answer is whether one of them names WebP. */
  lemma SupportsWebPOfTokens(headers: H.Header, tokens: seq<string>)
    requires |tokens| >= 1 && forall k :: 0 <= k < |tokens| ==> ',' !in tokens[k]
    requires H.Get(headers, "Accept") == Join(tokens, ",")
    ensures SupportsWebP(headers) <==> OffersWebP(tokens)
  {
    SplitJoin(tokens, ",");
    assert AcceptTokens(headers) == tokens;
    if OffersWebP(tokens) {
      var t :| t in tokens && Cut(t, ';').0 == "image/webp";
      var i :| 0 <= i < |tokens| && tokens[i] == t;
    }
  }

  /** Reordering the tokens of `Accept` does not change the answer. */
  lemma SupportsWebPOrderFree(h1: H.Header, h2: H.Header, t1: seq<string>, t2: seq<string>)
    requires |t1| >= 1 && forall k :: 0 <= k < |t1| ==> ',' !in t1[k]
    requires multiset(t1) == multiset(t2)
    requires H.Get(h1, "Accept") == Join(t1, ",") && H.Get(h2, "Accept") == Join(t2, ",")
    ensures SupportsWebP(h1) == SupportsWebP(h2)
  {
    assert forall t :: t in t1 <==> t in t2 by {
      forall t ensures t in t1 <==> t in t2 {
        assert t in t1 <==> t in multiset(t1);
        assert t in t2 <==> t in multiset(t2);
      }
    }
    assert |t2| >= 1 by { assert |multiset(t2)| == |t2|; assert |multiset(t1)| == |t1|; }
    forall k | 0 <= k < |t2| ensures ',' !in t2[k] {
      assert t2[k] in t1;
    }
    SupportsWebPOfTokens(h1, t1);
    SupportsWebPOfTokens(h2, t2);
  }

  /** A missing or empty `Accept` header never offers WebP. */
  lemma NoAcceptNoWebP(headers: H.Header)
    requires H.Get(headers, "Accept") == ""
    ensures !SupportsWebP(headers)
  {
    assert AcceptTokens(headers) == [""];
  }

  // ---- Accept-Encoding, as the compression stages read it ----

  /** The tokens of `Accept-Encoding` as zip.go and gzip.go split it: on exactly ", ". */
  function EncodingTokens(headers: H.Header): seq<string>
  {
    Split(H.Get(headers, "Accept-Encoding"), ", ")
  }

  /** Some token, up to its first ';', is exactly `coding`. */
  predicate Offers(tokens: seq<string>, coding: string)
  {
    exists i :: 0 <= i < |tokens| && Cut(tokens[i], ';').0 == coding
  }

  /** Some ", "-separated token of `Accept-Encoding`, up to its first ';', is exactly `coding`. */
  predicate Accepts(headers: H.Header, coding: string)
  {
    Offers(EncodingTokens(headers), coding)
  }

  /** One more token offers `coding` iff the earlier ones do or the new one names it. */
  lemma OffersSnoc(tokens: seq<string>, i: nat, coding: string)
    requires i < |tokens|
    ensures Offers(tokens[..i + 1], coding) <==> Offers(tokens[..i], coding) || Cut(tokens[i], ';').0 == coding
  {
    var pre := tokens[..i + 1];
    if Offers(pre, coding) && Cut(tokens[i], ';').0 != coding {
      var j :| 0 <= j < |pre| && Cut(pre[j], ';').0 == coding;
      assert tokens[..i][j] == pre[j];
    }
    if Offers(tokens[..i], coding) {
      var j :| 0 <= j < i && Cut(tokens[..i][j], ';').0 == coding;
      assert pre[j] == tokens[..i][j];
    }
    if Cut(tokens[i], ';').0 == coding {
      assert pre[i] == tokens[i];
    }
  }

  /** The loop of `Zip.Transcode` that sets `shouldBrotli` and `shouldGzip`. */
  method ScanAcceptEncoding(headers: H.Header) returns (shouldBrotli: bool, shouldGzip: bool)
    ensures shouldBrotli == Accepts(headers, "br")
    ensures shouldGzip == Accepts(headers, "gzip")
  {
    shouldBrotli, shouldGzip := false, false;
    var tokens := Split(H.Get(headers, "Accept-Encoding"), ", ");
    var i := 0;
    while i < |tokens|
      invariant 0 <= i <= |tokens|
      invariant shouldBrotli == Offers(tokens[..i], "br")
      invariant shouldGzip == Offers(tokens[..i], "gzip")
    {
      var coding := Cut(tokens[i], ';').0;
      OffersSnoc(tokens, i, "br");
      OffersSnoc(tokens, i, "gzip");
      if coding == "br" {
        shouldBrotli := true;
      } else if coding == "gzip" {
        shouldGzip := true;
      }
      i := i + 1;
    }
    assert tokens[..i] == tokens == EncodingTokens(headers);
  }

  /** The loop of `Gzip.Transcode` that sets `shouldGzip`, leaving at the first match. */
  method ScanForGzip(headers: H.Header) returns (shouldGzip: bool)
    ensures shouldGzip == Accepts(headers, "gzip")
  {
    shouldGzip := false;
    var tokens := Split(H.Get(headers, "Accept-Encoding"), ", ");
    var i := 0;
    while i < |tokens|
      invariant 0 <= i <= |tokens|
      invariant !shouldGzip
      invariant forall j :: 0 <= j < i ==> Cut(tokens[j], ';').0 != "gzip"
    {
      if Cut(tokens[i], ';').0 == "gzip" {
        shouldGzip := true;
        break;
      }
      i := i + 1;
    }
    assert tokens == EncodingTokens(headers);
    assert shouldGzip ==> i < |tokens| && Cut(tokens[i], ';').0 == "gzip";
  }

  /** "br,gzip" without the space is one token, so neither coding is accepted. */
  lemma UnspacedListAcceptsNothing(headers: H.Header)
    requires H.Get(headers, "Accept-Encoding") == "br,gzip"
    ensures !Accepts(headers, "br") && !Accepts(headers, "gzip")
  {
    var s := "br,gzip";
    assert ' ' !in s;
    forall j | 0 <= j ensures !OccursAt(s, ", ", j) {
      if j + 2 <= |s| { assert s[j..j + 2][1] == s[j + 1]; }
    }
    assert EncodingTokens(headers) == [s];
  }
}
