/**
 * `stripUnsupportedEncodings` (proxy/proxy.go) and the rewrite of the
 * request's `Accept-Encoding` header in `handle`: of the content codings a
 * client lists (section 5.3.4 of RFC 7231), only "br" and "gzip" are passed
 * on to the transcoders, in their original order, joined by ", ".
 */
module AcceptEncoding {
  import opened GoStrings
  import H = Header
  import TranscoderUtil

  /** The coding names of a list: spaces removed, split on ",", each cut before its first ';'. */
  function Codings(v: string): (cs: seq<string>)
    ensures |cs| >= 1
  {
    Names(Split(RemoveAll(v, ' '), ","))
  }

  /** Each token cut before its first ';'. */
  function Names(tokens: seq<string>): (ns: seq<string>)
    ensures |ns| == |tokens| && forall i :: 0 <= i < |tokens| ==> ns[i] == Cut(tokens[i], ';').0
  {
    seq(|tokens|, i requires 0 <= i < |tokens| => Cut(tokens[i], ';').0)
  }

  /** Tokens without parameters are their own names. */
  lemma NamesOfPlain(tokens: seq<string>)
    requires forall i :: 0 <= i < |tokens| ==> ';' !in tokens[i]
    ensures Names(tokens) == tokens
  {
  }

  predicate IsSupported(enc: string)
  {
    enc == "br" || enc == "gzip"
  }

  /** The supported names of `cs`, in order. */
  function Supported(cs: seq<string>): (r: seq<string>)
    ensures forall i :: 0 <= i < |r| ==> IsSupported(r[i])
    ensures |r| <= |cs|
  {
    if cs == [] then []
    else Supported(cs[..|cs| - 1]) + (if IsSupported(cs[|cs| - 1]) then [cs[|cs| - 1]] else [])
  }

  /** What `stripUnsupportedEncodings` returns. */
  function Stripped(v: string): string
  {
    Join(Supported(Codings(v)), ", ")
  }

  /** `stripUnsupportedEncodings`. */
  method StripUnsupportedEncodings(inEncs: string) returns (outEncs: string)
    ensures outEncs == Stripped(inEncs)
  {
    var tokens := Split(RemoveAll(inEncs, ' '), ",");
    outEncs := JoinSupported(tokens);
  }

  /** The loop of `stripUnsupportedEncodings`: each supported name is appended, after ", " if needed. */
  method JoinSupported(tokens: seq<string>) returns (outEncs: string)
    ensures outEncs == Join(Supported(Names(tokens)), ", ")
  {
    outEncs := "";
    ghost var codings := Names(tokens);
    var i := 0;
    while i < |tokens|
      invariant 0 <= i <= |tokens|
      invariant outEncs == Join(Supported(codings[..i]), ", ")
    {
      var enc := Cut(tokens[i], ';').0;
      assert codings[i] == enc;
      SupportedSnoc(codings, i);
      ghost var kept := Supported(codings[..i]);
      StripStep(kept, enc);
      if enc == "br" || enc == "gzip" {
        assert Supported(codings[..i + 1]) == kept + [enc];
        if outEncs != "" {
          outEncs := outEncs + ", ";
        }
        outEncs := outEncs + enc;
      } else {
        assert Supported(codings[..i + 1]) == kept;
      }
      i := i + 1;
    }
    assert codings[..i] == codings;
  }

  /** One more name extends the supported names by itself when it is supported. */
  lemma SupportedSnoc(cs: seq<string>, i: nat)
    requires i < |cs|
    ensures Supported(cs[..i + 1]) == Supported(cs[..i]) + (if IsSupported(cs[i]) then [cs[i]] else [])
  {
    assert cs[..i + 1][..i] == cs[..i];
  }

  /** One iteration of the loop of `stripUnsupportedEncodings`, on the joined string. */
  lemma StripStep(kept: seq<string>, enc: string)
    requires forall i :: 0 <= i < |kept| ==> IsSupported(kept[i])
    ensures IsSupported(enc) && Join(kept, ", ") != "" ==> Join(kept + [enc], ", ") == Join(kept, ", ") + ", " + enc
    ensures IsSupported(enc) && Join(kept, ", ") == "" ==> Join(kept + [enc], ", ") == enc
  {
    JoinSnoc(kept, enc, ", ");
    JoinEmpty(kept, ", ");
  }

  lemma {:induction false} JoinSnoc(parts: seq<string>, x: string, sep: string)
    ensures Join(parts + [x], sep) == if parts == [] then x else Join(parts, sep) + sep + x
    decreases |parts|
  {
    if |parts| >= 2 {
      assert (parts + [x])[1..] == parts[1..] + [x];
      JoinSnoc(parts[1..], x, sep);
    } else if |parts| == 1 {
      assert (parts + [x])[1..] == [x];
    }
  }

  /** A join of supported names is empty exactly when there are none. */
  lemma JoinEmpty(parts: seq<string>, sep: string)
    requires forall i :: 0 <= i < |parts| ==> IsSupported(parts[i])
    ensures Join(parts, sep) == "" <==> parts == []
  {
    if |parts| >= 2 {
      assert |Join(parts, sep)| >= |parts[0]|;
    }
  }

  // ---- Properties ----

  /** The result is empty exactly when no listed coding is "br" or "gzip". */
  lemma {:induction false} StrippedEmpty(v: string)
    ensures Stripped(v) == "" <==> forall i :: 0 <= i < |Codings(v)| ==> !IsSupported(Codings(v)[i])
  {
    JoinEmpty(Supported(Codings(v)), ", ");
    NoneSupported(Codings(v));
  }

  lemma {:induction false} NoneSupported(cs: seq<string>)
    ensures Supported(cs) == [] <==> forall i :: 0 <= i < |cs| ==> !IsSupported(cs[i])
    decreases |cs|
  {
    if cs != [] {
      NoneSupported(cs[..|cs| - 1]);
      assert forall i :: 0 <= i < |cs| - 1 ==> cs[..|cs| - 1][i] == cs[i];
    }
  }

  /** A list of supported names is kept whole. */
  lemma {:induction false} SupportedFixed(cs: seq<string>)
    requires forall i :: 0 <= i < |cs| ==> IsSupported(cs[i])
    ensures Supported(cs) == cs
    decreases |cs|
  {
    if cs != [] {
      SupportedFixed(cs[..|cs| - 1]);
    }
  }

  /** Removing the spaces of a ", "-join of space-free parts gives their ","-join. */
  lemma {:induction false} RemoveSpacesJoin(parts: seq<string>)
    requires forall i :: 0 <= i < |parts| ==> ' ' !in parts[i]
    ensures RemoveAll(Join(parts, ", "), ' ') == Join(parts, ",")
    decreases |parts|
  {
    if |parts| == 1 {
      RemoveAllAbsent(parts[0], ' ');
    } else if |parts| >= 2 {
      RemoveSpacesJoin(parts[1..]);
      RemoveAllAppend(parts[0] + ",", " " + Join(parts[1..], ", "), ' ');
      RemoveAllAppend(parts[0], ",", ' ');
      RemoveAllAppend(" ", Join(parts[1..], ", "), ' ');
      RemoveAllAbsent(parts[0], ' ');
      RemoveAllAbsent(",", ' ');
      assert RemoveAll(" ", ' ') == "";
      assert parts[0] + ", " + Join(parts[1..], ", ") == (parts[0] + ",") + (" " + Join(parts[1..], ", "));
    }
  }

  /** The names of a ", "-join of supported names are those names. */
  lemma CodingsOfStripped(parts: seq<string>)
    requires |parts| >= 1 && forall i :: 0 <= i < |parts| ==> IsSupported(parts[i])
    ensures Codings(Join(parts, ", ")) == parts
  {
    forall k | 0 <= k < |parts| ensures PlainName(parts[k]) {
      SupportedPlain(parts[k]);
    }
    RemoveSpacesJoin(parts);
    SplitJoin(parts, ",");
    NamesOfPlain(parts);
  }

  /** No space, comma or semicolon. */
  predicate PlainName(x: string)
  {
    ' ' !in x && ',' !in x && ';' !in x
  }

  lemma SupportedPlain(x: string)
    requires IsSupported(x)
    ensures PlainName(x)
  {
  }

  /** Stripping twice is stripping once. */
  lemma StrippedIdempotent(v: string)
    ensures Stripped(Stripped(v)) == Stripped(v)
  {
    var parts := Supported(Codings(v));
    if parts == [] {
      assert Stripped(v) == "";
      assert Split("", ",") == [""];
      assert Codings("") == [""];
    } else {
      CodingsOfStripped(parts);
      SupportedFixed(parts);
    }
  }

  /** A non-empty result, split as the compression stages split it, lists the supported names in their original order. */
  lemma StrippedTokens(v: string)
    requires Stripped(v) != ""
    ensures Split(Stripped(v), ", ") == Supported(Codings(v))
  {
    var parts := Supported(Codings(v));
    JoinEmpty(parts, ", ");
    forall k | 0 <= k < |parts| ensures PlainName(parts[k]) {
      SupportedPlain(parts[k]);
    }
    SplitJoin(parts, ", ");
  }

  // ---- The rewrite in `handle` ----

  /**
   * When the request has an `Accept-Encoding`, it is replaced by the
   * stripped value of the header named `from`, or deleted when that is empty.
   */
  function RewriteFrom(h: H.Header, from: string): H.Header
  {
    if H.Get(h, "Accept-Encoding") == "" then h
    else
      var supported := Stripped(H.Get(h, from));
      if supported != "" then H.Set(h, "Accept-Encoding", supported) else H.Del(h, "Accept-Encoding")
  }

  /** The rewrite as `handle` writes it: the list is read from a header named `Accepted-Encoding`. */
  function Rewrite(h: H.Header): H.Header
  {
    RewriteFrom(h, "Accepted-Encoding")
  }

  /** The rewrite as intended: the list is read from `Accept-Encoding` itself. */
  function IntendedRewrite(h: H.Header): H.Header
  {
    RewriteFrom(h, "Accept-Encoding")
  }

  /** After a rewrite from `from`, the stages accept a coding iff it is "br" or "gzip" and listed under `from`. */
  lemma RewriteFromAccepts(h: H.Header, from: string, coding: string)
    requires H.Get(h, "Accept-Encoding") != "" && IsSupported(coding)
    ensures TranscoderUtil.Accepts(RewriteFrom(h, from), coding) <==> coding in Supported(Codings(H.Get(h, from)))
  {
    var v := H.Get(h, from);
    var parts := Supported(Codings(v));
    var h' := RewriteFrom(h, from);
    if Stripped(v) != "" {
      StrippedTokens(v);
      assert TranscoderUtil.EncodingTokens(h') == parts;
      forall i | 0 <= i < |parts| ensures Cut(parts[i], ';').0 == parts[i] {
        SupportedPlain(parts[i]);
      }
    } else {
      assert TranscoderUtil.EncodingTokens(h') == [""];
      JoinEmpty(parts, ", ");
    }
  }

  /** As written, the stages accept "br" or "gzip" iff the `Accepted-Encoding` header lists it. */
  lemma RewriteAccepts(h: H.Header, coding: string)
    requires H.Get(h, "Accept-Encoding") != "" && IsSupported(coding)
    ensures TranscoderUtil.Accepts(Rewrite(h), coding) <==> coding in Supported(Codings(H.Get(h, "Accepted-Encoding")))
  {
    RewriteFromAccepts(h, "Accepted-Encoding", coding);
  }

  /** As intended, the stages accept "br" or "gzip" iff the client's `Accept-Encoding` lists it. */
  lemma IntendedRewriteAccepts(h: H.Header, coding: string)
    requires H.Get(h, "Accept-Encoding") != "" && IsSupported(coding)
    ensures TranscoderUtil.Accepts(IntendedRewrite(h), coding) <==> coding in Supported(Codings(H.Get(h, "Accept-Encoding")))
  {
    RewriteFromAccepts(h, "Accept-Encoding", coding);
  }

  /** Without an `Accepted-Encoding` header, a client's `Accept-Encoding` never reaches the transcoders. */
  lemma RewriteDropsAcceptEncoding(h: H.Header)
    requires H.Get(h, "Accept-Encoding") != "" && H.Get(h, "Accepted-Encoding") == ""
    ensures "Accept-Encoding" !in Rewrite(h)
    ensures !TranscoderUtil.Accepts(Rewrite(h), "br") && !TranscoderUtil.Accepts(Rewrite(h), "gzip")
  {
    assert Codings("") == [""] by { assert Split("", ",") == [""]; }
    assert Stripped("") == "";
    assert TranscoderUtil.EncodingTokens(Rewrite(h)) == [""];
  }

  /** The list a client sends when it asks for "br" and "gzip", or for "gzip" alone, is read back as sent. */
  lemma StrippedSupported(parts: seq<string>)
    requires |parts| >= 1 && forall i :: 0 <= i < |parts| ==> IsSupported(parts[i])
    ensures Supported(Codings(Join(parts, ", "))) == parts
    ensures Stripped(Join(parts, ", ")) == Join(parts, ", ")
  {
    CodingsOfStripped(parts);
    SupportedFixed(parts);
  }

  /**
   * A client that sends only `Accept-Encoding: gzip` gets no compression from
   * the rewrite as written, and gzip from the intended one.
   */
  lemma GzipClientRewritten()
    ensures var h := map["Accept-Encoding" := ["gzip"]];
      && !TranscoderUtil.Accepts(Rewrite(h), "gzip")
      && TranscoderUtil.Accepts(IntendedRewrite(h), "gzip")
  {
    var h := map["Accept-Encoding" := ["gzip"]];
    assert H.Get(h, "Accept-Encoding") == "gzip" == Join(["gzip"], ", ");
    RewriteDropsAcceptEncoding(h);
    StrippedSupported(["gzip"]);
    IntendedRewriteAccepts(h, "gzip");
  }

  /** A client that lists "br, gzip" is offered both by the intended rewrite, brotli first, and neither as written. */
  lemma BrotliClientRewritten()
    ensures var h := map["Accept-Encoding" := ["br, gzip"]];
      && H.Get(IntendedRewrite(h), "Accept-Encoding") == "br, gzip"
      && TranscoderUtil.Accepts(IntendedRewrite(h), "br")
      && !TranscoderUtil.Accepts(Rewrite(h), "br")
  {
    var h := map["Accept-Encoding" := ["br, gzip"]];
    assert Join(["br", "gzip"], ", ") == "br" + ", " + Join(["gzip"], ", ");
    assert H.Get(h, "Accept-Encoding") == "br, gzip" == Join(["br", "gzip"], ", ");
    RewriteDropsAcceptEncoding(h);
    StrippedSupported(["br", "gzip"]);
    IntendedRewriteAccepts(h, "br");
  }

  /** A request without `Accept-Encoding` is left as it is. */
  lemma RewriteKeepsAbsent(h: H.Header)
    requires H.Get(h, "Accept-Encoding") == ""
    ensures Rewrite(h) == h && IntendedRewrite(h) == h
  {
  }
}
