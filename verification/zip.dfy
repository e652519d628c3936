/**
 * The `Zip` decorator (transcoder/zip.go): undo the origin's gzip or Brotli
 * coding when the policy asks for plain bytes, re-compress with Brotli or
 * gzip when the client accepts it and the body is plain, then hand the
 * substituted reader and writer to the inner transcoder exactly once.
 */
module ZipStage {
  import opened Wrappers
  import opened Codecs
  import opened Response
  import opened TranscoderUtil
  import opened Pipeline
  import H = Header

  /** The fields of `Zip` besides the inner transcoder. */
  datatype ZipOptions = ZipOptions(brotliLevel: int, gzipLevel: int, skipCompressed: bool)

  /** `compress`: the body is plain at this point. */
  predicate Compress(originHeader: H.Header)
  {
    H.Get(originHeader, ContentEncoding) == ""
  }

  /** The gzip block: gunzip when the origin is gzip and the client takes Brotli or skipping is off. */
  function GunzipStep(t: ZipOptions, br: bool, st: PipelineState, c: Codecs, body: Stream): Result<PipelineState>
  {
    if H.Get(st.originHeader, ContentEncoding) == "gzip" && (br || !t.skipCompressed) then
      match c.gunzipHeader(Decoded(c, st.decoders, body))
      case Some(e) => Err(e)
      case None => Ok(Decoding(st, Gunzip))
    else Ok(st)
  }

  /** The Brotli block: decode a Brotli origin unless skipping is on. */
  function UnbrotliStep(t: ZipOptions, st: PipelineState): PipelineState
  {
    if H.Get(st.originHeader, ContentEncoding) == "br" && !t.skipCompressed then Decoding(st, Unbrotli) else st
  }

  /** The re-compression block: Brotli first, else gzip, and only over a plain body. */
  function EncodeStep(t: ZipOptions, br: bool, gz: bool, st: PipelineState): Result<PipelineState>
  {
    if br && Compress(st.originHeader) then Ok(Encoding(st, BrotliWriter(t.brotliLevel), "br"))
    else if gz && Compress(st.originHeader) then
      if !GzipLevelValid(t.gzipLevel) then Err(InvalidLevel(t.gzipLevel))
      else Ok(Encoding(st, GzipWriter(t.gzipLevel), "gzip"))
    else Ok(st)
  }

  /** `Zip.Transcode` up to the inner call. */
  function Stage(t: ZipOptions, headers: H.Header, st: PipelineState, c: Codecs, body: Stream): StageOutcome
  {
    var br, gz := Accepts(headers, "br"), Accepts(headers, "gzip");
    match GunzipStep(t, br, st, c, body)
    case Err(e) => Failed(e, st)
    case Ok(st1) =>
      match EncodeStep(t, br, gz, UnbrotliStep(t, st1))
      case Err(e) => Failed(e, UnbrotliStep(t, st1))
      case Ok(st2) => Delegated(st2)
  }

  method ApplyGunzip(t: ZipOptions, br: bool, w: ResponseWriter, r: ResponseReader, c: Codecs)
    returns (err: Option<string>)
    modifies r`header, r`decoders, w.sink`header
    ensures var res := GunzipStep(t, br, old(StateOf(w, r)), c, r.body);
      (res.Err? <==> err.Some?) && (res.Err? ==> err.value == res.error && StateOf(w, r) == old(StateOf(w, r)))
      && (res.Ok? ==> StateOf(w, r) == res.value)
    ensures OnlyEncodingChanged(old(w.sink.header), w.sink.header)
  {
    err := None;
    if H.Get(r.header, ContentEncoding) == "gzip" && (br || !t.skipCompressed) {
      err := c.gunzipHeader(Decoded(c, r.decoders, r.body));
      if err.None? {
        PushDecoder(w, r, Gunzip);
      }
    }
  }

  method ApplyUnbrotli(t: ZipOptions, w: ResponseWriter, r: ResponseReader)
    modifies r`header, r`decoders, w.sink`header
    ensures StateOf(w, r) == UnbrotliStep(t, old(StateOf(w, r)))
    ensures OnlyEncodingChanged(old(w.sink.header), w.sink.header)
  {
    if H.Get(r.header, ContentEncoding) == "br" && !t.skipCompressed {
      PushDecoder(w, r, Unbrotli);
    }
  }

  method ApplyEncode(t: ZipOptions, br: bool, gz: bool, w: ResponseWriter, r: ResponseReader)
    returns (err: Option<string>, pushed: bool)
    requires w.Valid()
    modifies w`layers, w.sink`header
    ensures w.Valid()
    ensures var res := EncodeStep(t, br, gz, old(StateOf(w, r)));
      (res.Err? <==> err.Some?) && (res.Err? ==> err.value == res.error && StateOf(w, r) == old(StateOf(w, r)))
      && (res.Ok? ==> StateOf(w, r) == res.value)
    ensures pushed ==> exists e :: w.layers == old(w.layers) + [Layer(e, [])]
    ensures !pushed ==> w.layers == old(w.layers)
    ensures err.Some? ==> !pushed
    ensures OnlyEncodingChanged(old(w.sink.header), w.sink.header)
  {
    err, pushed := None, false;
    if br && Compress(r.header) {
      PushEncoder(w, r, BrotliWriter(t.brotliLevel), "br");
      pushed := true;
    } else if gz && Compress(r.header) {
      if !GzipLevelValid(t.gzipLevel) {
        err := Some(InvalidLevel(t.gzipLevel));
      } else {
        PushEncoder(w, r, GzipWriter(t.gzipLevel), "gzip");
        pushed := true;
      }
    }
  }

  /** `Zip.Transcode` up to the inner call, on the reader and writer themselves. */
  method Apply(t: ZipOptions, w: ResponseWriter, r: ResponseReader, headers: H.Header, c: Codecs)
    returns (err: Option<string>, pushed: bool)
    requires w.Valid()
    modifies r`header, r`decoders, w`layers, w.sink`header
    ensures w.Valid()
    ensures var res := Stage(t, headers, old(StateOf(w, r)), c, r.body);
      (res.Failed? <==> err.Some?) && (res.Failed? ==> err.value == res.err && StateOf(w, r) == res.at)
      && (res.Delegated? ==> StateOf(w, r) == res.inner)
    ensures pushed ==> exists e :: w.layers == old(w.layers) + [Layer(e, [])]
    ensures !pushed ==> w.layers == old(w.layers)
    ensures err.Some? ==> !pushed
    ensures OnlyEncodingChanged(old(w.sink.header), w.sink.header)
  {
    pushed := false;
    var br, gz := ScanAcceptEncoding(headers);
    err := ApplyGunzip(t, br, w, r, c);
    if err.Some? {
      return;
    }
    ApplyUnbrotli(t, w, r);
    err, pushed := ApplyEncode(t, br, gz, w, r);
  }

  // ---- What the stage decides ----

  /** A gzip origin is gunzipped iff the client takes Brotli or skipping is off; a Brotli origin iff skipping is off. */
  lemma DecodeDecision(t: ZipOptions, headers: H.Header, st: PipelineState, c: Codecs, body: Stream)
    requires Stage(t, headers, st, c, body).Delegated?
    ensures var s := Stage(t, headers, st, c, body).inner;
      var ce := H.Get(st.originHeader, ContentEncoding);
      (s.decoders == st.decoders + [Gunzip] <==> ce == "gzip" && (Accepts(headers, "br") || !t.skipCompressed))
      && (s.decoders == st.decoders + [Unbrotli] <==> ce == "br" && !t.skipCompressed)
      && (s.decoders == st.decoders <==> !(ce == "gzip" && (Accepts(headers, "br") || !t.skipCompressed))
                                         && !(ce == "br" && !t.skipCompressed))
  {
  }

  /** After a decode step neither side carries `Content-Encoding` any more, unless an encoder sets it again. */
  lemma DecodeClearsEncoding(t: ZipOptions, headers: H.Header, st: PipelineState, c: Codecs, body: Stream)
    requires Stage(t, headers, st, c, body).Delegated?
    requires |Stage(t, headers, st, c, body).inner.decoders| > |st.decoders|
    ensures var s := Stage(t, headers, st, c, body).inner;
      H.Get(s.originHeader, ContentEncoding) == ""
      && (s.encoders == st.encoders ==> ContentEncoding !in s.writerHeader)
  {
  }

  /** A client that takes Brotli gets Brotli over a plain body, whether or not it also takes gzip. */
  lemma BrotliPreferred(t: ZipOptions, headers: H.Header, st: PipelineState, c: Codecs, body: Stream)
    requires Accepts(headers, "br")
    requires Stage(t, headers, st, c, body).Delegated?
    requires H.Get(Stage(t, headers, st, c, body).inner.originHeader, ContentEncoding) == ""
    ensures var s := Stage(t, headers, st, c, body).inner;
      s.encoders == st.encoders + [BrotliWriter(t.brotliLevel)] && H.Get(s.writerHeader, ContentEncoding) == "br"
  {
  }

  /** A client that takes gzip but not Brotli gets gzip over a plain body, at the configured level. */
  lemma GzipOtherwise(t: ZipOptions, headers: H.Header, st: PipelineState, c: Codecs, body: Stream)
    requires !Accepts(headers, "br") && Accepts(headers, "gzip")
    requires Stage(t, headers, st, c, body).Delegated?
    requires H.Get(Stage(t, headers, st, c, body).inner.originHeader, ContentEncoding) == ""
    ensures var s := Stage(t, headers, st, c, body).inner;
      s.encoders == st.encoders + [GzipWriter(t.gzipLevel)] && H.Get(s.writerHeader, ContentEncoding) == "gzip"
  {
  }

  /** A body still encoded after the decode steps passes through: no decoder, no encoder, the writer's headers as they were. */
  lemma EncodedPassesThrough(t: ZipOptions, headers: H.Header, st: PipelineState, c: Codecs, body: Stream)
    requires Stage(t, headers, st, c, body).Delegated?
    requires H.Get(Stage(t, headers, st, c, body).inner.originHeader, ContentEncoding) != ""
    ensures Stage(t, headers, st, c, body).inner == st
  {
  }

  /** A client that takes neither coding gets no encoder and no new `Content-Encoding`. */
  lemma NothingAcceptedNothingStacked(t: ZipOptions, headers: H.Header, st: PipelineState, c: Codecs, body: Stream)
    requires !Accepts(headers, "br") && !Accepts(headers, "gzip")
    requires Stage(t, headers, st, c, body).Delegated?
    ensures var s := Stage(t, headers, st, c, body).inner;
      s.encoders == st.encoders
      && (s.writerHeader == st.writerHeader || s.writerHeader == H.Del(st.writerHeader, ContentEncoding))
  {
  }

  /** The stage fails only with the gunzip header error or the invalid-level error, and then never calls the inner transcoder. */
  lemma FailureCauses(t: ZipOptions, headers: H.Header, st: PipelineState, c: Codecs, body: Stream)
    ensures var o := Stage(t, headers, st, c, body);
      o.Failed? <==>
        (H.Get(st.originHeader, ContentEncoding) == "gzip" && (Accepts(headers, "br") || !t.skipCompressed)
         && c.gunzipHeader(Decoded(c, st.decoders, body)).Some?)
        || (GunzipStep(t, Accepts(headers, "br"), st, c, body).Ok?
            && !Accepts(headers, "br") && Accepts(headers, "gzip")
            && Compress(UnbrotliStep(t, GunzipStep(t, Accepts(headers, "br"), st, c, body).value).originHeader)
            && !GzipLevelValid(t.gzipLevel))
    ensures var o := Stage(t, headers, st, c, body);
      o.Failed? ==> o.err == InvalidLevel(t.gzipLevel) || Some(o.err) == c.gunzipHeader(Decoded(c, st.decoders, body))
  {
  }

  /** The stage touches no header but `Content-Encoding`, on either side. */
  lemma OnlyEncodingHeaders(t: ZipOptions, headers: H.Header, st: PipelineState, c: Codecs, body: Stream)
    requires Stage(t, headers, st, c, body).Delegated?
    ensures var s := Stage(t, headers, st, c, body).inner;
      OnlyEncodingChanged(st.originHeader, s.originHeader) && OnlyEncodingChanged(st.writerHeader, s.writerHeader)
  {
  }

  /** A failed stage has changed no header but `Content-Encoding`, and stacked no encoder. */
  lemma FailedState(t: ZipOptions, headers: H.Header, st: PipelineState, c: Codecs, body: Stream)
    requires Stage(t, headers, st, c, body).Failed?
    ensures var at := Stage(t, headers, st, c, body).at;
      OnlyEncodingChanged(st.writerHeader, at.writerHeader) && at.encoders == st.encoders
  {
  }
}
