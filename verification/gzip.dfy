/**
 * The `Gzip` decorator (transcoder/gzip.go): gunzip a gzip origin unless
 * skipping is on, gzip the output when the client accepts gzip and the body
 * is plain, then call the inner transcoder exactly once.
 */
module GzipStage {
  import opened Wrappers
  import opened Codecs
  import opened Response
  import opened TranscoderUtil
  import opened Pipeline
  import H = Header

  /** The fields of `Gzip` besides the inner transcoder. */
  datatype GzipOptions = GzipOptions(level: int, skipGzipped: bool)

  /** `decompress`: skipping is off and the origin is gzip. */
  predicate Decompress(t: GzipOptions, originHeader: H.Header)
  {
    !t.skipGzipped && H.Get(originHeader, ContentEncoding) == "gzip"
  }

  /** `compress` (this file's own definition): the body is plain at this point. */
  predicate Compress(originHeader: H.Header)
  {
    H.Get(originHeader, ContentEncoding) == ""
  }

  /** The decompression block. */
  function GunzipStep(t: GzipOptions, st: PipelineState, c: Codecs, body: Stream): Result<PipelineState>
  {
    if Decompress(t, st.originHeader) then
      match c.gunzipHeader(Decoded(c, st.decoders, body))
      case Some(e) => Err(e)
      case None => Ok(Decoding(st, Gunzip))
    else Ok(st)
  }

  /** The compression block. */
  function EncodeStep(t: GzipOptions, gz: bool, st: PipelineState): Result<PipelineState>
  {
    if gz && Compress(st.originHeader) then
      if !GzipLevelValid(t.level) then Err(InvalidLevel(t.level))
      else Ok(Encoding(st, GzipWriter(t.level), "gzip"))
    else Ok(st)
  }

  /** `Gzip.Transcode` up to the inner call. */
  function Stage(t: GzipOptions, headers: H.Header, st: PipelineState, c: Codecs, body: Stream): StageOutcome
  {
    match GunzipStep(t, st, c, body)
    case Err(e) => Failed(e, st)
    case Ok(st1) =>
      match EncodeStep(t, Accepts(headers, "gzip"), st1)
      case Err(e) => Failed(e, st1)
      case Ok(st2) => Delegated(st2)
  }

  method ApplyGunzip(t: GzipOptions, w: ResponseWriter, r: ResponseReader, c: Codecs)
    returns (err: Option<string>)
    modifies r`header, r`decoders, w.sink`header
    ensures var res := GunzipStep(t, old(StateOf(w, r)), c, r.body);
      (res.Err? <==> err.Some?) && (res.Err? ==> err.value == res.error && StateOf(w, r) == old(StateOf(w, r)))
      && (res.Ok? ==> StateOf(w, r) == res.value)
    ensures OnlyEncodingChanged(old(w.sink.header), w.sink.header)
  {
    err := None;
    if Decompress(t, r.header) {
      err := c.gunzipHeader(Decoded(c, r.decoders, r.body));
      if err.None? {
        PushDecoder(w, r, Gunzip);
      }
    }
  }

  method ApplyEncode(t: GzipOptions, gz: bool, w: ResponseWriter, r: ResponseReader)
    returns (err: Option<string>, pushed: bool)
    requires w.Valid()
    modifies w`layers, w.sink`header
    ensures w.Valid()
    ensures var res := EncodeStep(t, gz, old(StateOf(w, r)));
      (res.Err? <==> err.Some?) && (res.Err? ==> err.value == res.error && StateOf(w, r) == old(StateOf(w, r)))
      && (res.Ok? ==> StateOf(w, r) == res.value)
    ensures pushed ==> exists e :: w.layers == old(w.layers) + [Layer(e, [])]
    ensures !pushed ==> w.layers == old(w.layers)
    ensures err.Some? ==> !pushed
    ensures OnlyEncodingChanged(old(w.sink.header), w.sink.header)
  {
    err, pushed := None, false;
    if gz && Compress(r.header) {
      if !GzipLevelValid(t.level) {
        err := Some(InvalidLevel(t.level));
      } else {
        PushEncoder(w, r, GzipWriter(t.level), "gzip");
        pushed := true;
      }
    }
  }

  /** `Gzip.Transcode` up to the inner call, on the reader and writer themselves. */
  method Apply(t: GzipOptions, w: ResponseWriter, r: ResponseReader, headers: H.Header, c: Codecs)
    returns (err: Option<string>, pushed: bool)
    requires w.Valid()
    modifies r`header, r`decoders, w`layers, w.sink`header
    ensures w.Valid()
    ensures var res := Stage(t, headers, old(StateOf(w, r)), c, r.body);
      (res.Failed? <==> err.Some?) && (res.Failed? ==> err.value == res.err && StateOf(w, r) == res.at)
      && (res.Delegated? ==> StateOf(w, r) == res.inner)
    ensures pushed ==> exists e :: w.layers == old(w.layers) + [Layer(e, [])]
    ensures !pushed ==> w.layers == old(w.layers)
    ensures err.Some? ==> !pushed
    ensures OnlyEncodingChanged(old(w.sink.header), w.sink.header)
  {
    pushed := false;
    err := ApplyGunzip(t, w, r, c);
    if err.Some? {
      return;
    }
    var gz := ScanForGzip(headers);
    err, pushed := ApplyEncode(t, gz, w, r);
  }

  // ---- What the stage decides ----

  /** The reader gets a gunzip stage iff `decompress` holds, and then `Content-Encoding` is gone on both sides. */
  lemma DecodeDecision(t: GzipOptions, headers: H.Header, st: PipelineState, c: Codecs, body: Stream)
    requires Stage(t, headers, st, c, body).Delegated?
    ensures var s := Stage(t, headers, st, c, body).inner;
      (s.decoders == st.decoders + [Gunzip] <==> Decompress(t, st.originHeader))
      && (s.decoders == st.decoders <==> !Decompress(t, st.originHeader))
      && (Decompress(t, st.originHeader) ==>
            H.Get(s.originHeader, ContentEncoding) == "" && (s.encoders == st.encoders ==> ContentEncoding !in s.writerHeader))
  {
  }

  /** A gzip writer is stacked iff the client takes gzip and the body is plain after the decode step. */
  lemma EncodeDecision(t: GzipOptions, headers: H.Header, st: PipelineState, c: Codecs, body: Stream)
    requires Stage(t, headers, st, c, body).Delegated?
    ensures var s := Stage(t, headers, st, c, body).inner;
      (s.encoders == st.encoders + [GzipWriter(t.level)] <==> Accepts(headers, "gzip") && Compress(s.originHeader))
      && (s.encoders == st.encoders <==> !(Accepts(headers, "gzip") && Compress(s.originHeader)))
      && (s.encoders != st.encoders ==> H.Get(s.writerHeader, ContentEncoding) == "gzip")
  {
  }

  /** A body left encoded, because skipping is on or the coding is not gzip, passes through untouched. */
  lemma EncodedPassesThrough(t: GzipOptions, headers: H.Header, st: PipelineState, c: Codecs, body: Stream)
    requires H.Get(st.originHeader, ContentEncoding) != ""
    requires t.skipGzipped || H.Get(st.originHeader, ContentEncoding) != "gzip"
    ensures Stage(t, headers, st, c, body) == Delegated(st)
  {
  }

  /** The stage fails only with the gunzip header error or the invalid-level error, and then never calls the inner transcoder. */
  lemma FailureCauses(t: GzipOptions, headers: H.Header, st: PipelineState, c: Codecs, body: Stream)
    ensures var o := Stage(t, headers, st, c, body);
      o.Failed? <==>
        (Decompress(t, st.originHeader) && c.gunzipHeader(Decoded(c, st.decoders, body)).Some?)
        || (GunzipStep(t, st, c, body).Ok? && Accepts(headers, "gzip")
            && Compress(GunzipStep(t, st, c, body).value.originHeader) && !GzipLevelValid(t.level))
  {
  }

  /** The stage touches no header but `Content-Encoding`, on either side. */
  lemma OnlyEncodingHeaders(t: GzipOptions, headers: H.Header, st: PipelineState, c: Codecs, body: Stream)
    requires Stage(t, headers, st, c, body).Delegated?
    ensures var s := Stage(t, headers, st, c, body).inner;
      OnlyEncodingChanged(st.originHeader, s.originHeader) && OnlyEncodingChanged(st.writerHeader, s.writerHeader)
  {
  }

  /** A failed stage has changed no header but `Content-Encoding`, and stacked no encoder. */
  lemma FailedState(t: GzipOptions, headers: H.Header, st: PipelineState, c: Codecs, body: Stream)
    requires Stage(t, headers, st, c, body).Failed?
    ensures var at := Stage(t, headers, st, c, body).at;
      OnlyEncodingChanged(st.writerHeader, at.writerHeader) && at.encoders == st.encoders
  {
  }
}
