/**
 * The transcoders a proxy can register for a content type, and the call of
 * `Transcode` on one of them. The decorators `Zip` and `Gzip` embed an inner
 * transcoder, which they call exactly once unless they fail first, and whose
 * compressing writer they close after it returns.
 */
module Transcoders {
  import opened Wrappers
  import opened Codecs
  import opened Response
  import opened Pipeline
  import ZipStage
  import GzipStage
  import JpegTranscoder
  import PngTranscoder
  import GifTranscoder
  import IdentityTranscoder
  import H = Header

  datatype Transcoder =
    | Identity
    | Jpeg(options: JpegOptions)
    | Png
    | Gif
    | Zip(zipInner: Transcoder, zipOptions: ZipStage.ZipOptions)
    | Gzip(gzipInner: Transcoder, gzipOptions: GzipStage.GzipOptions)

  /** The client's headers changed at most in `Content-Encoding` and `Content-Type`. */
  ghost predicate TouchesOnlyCoding(a: H.Header, b: H.Header)
  {
    forall k :: k != ContentEncoding && k != "Content-Type" ==> (k in b <==> k in a) && (k in a ==> b[k] == a[k])
  }

  /**
   * What `t.Transcode` amounts to on a reader and writer in state `st`: a
   * decorator's stage either fails, or the inner transcoder runs once on the
   * substituted state and its output is encoded by the writer the stage stacked.
   */
  function Run(t: Transcoder, st: PipelineState, headers: H.Header, c: Codecs, body: Stream): Outcome
    decreases t
  {
    match t
    case Identity => IdentityTranscoder.Run(st, c, body)
    case Jpeg(opts) => JpegTranscoder.Run(opts, st, headers, c, body)
    case Png => PngTranscoder.Run(st, headers, c, body)
    case Gif => GifTranscoder.Run(st, headers, c, body)
    case Zip(inner, opts) =>
      (match ZipStage.Stage(opts, headers, st, c, body)
       case Failed(e, at) => Halted(at, e)
       case Delegated(st') => Wrapped(c, st, st', Run(inner, st', headers, c, body)))
    case Gzip(inner, opts) =>
      match GzipStage.Stage(opts, headers, st, c, body)
      case Failed(e, at) => Halted(at, e)
      case Delegated(st') => Wrapped(c, st, st', Run(inner, st', headers, c, body))
  }

  /** `t.Transcode(w, r, headers)`; the identity transcoder takes no headers. */
  method Transcode(t: Transcoder, w: ResponseWriter, r: ResponseReader, headers: H.Header, c: Codecs)
    returns (err: Option<string>)
    requires w.Valid()
    modifies r`header, r`decoders, r`drained, w`headersDone, w`layers, w.sink`header, w.sink`wroteHeader, w.sink`trace
    ensures w.Valid() && Encoders(w.layers) == Encoders(old(w.layers))
    ensures TouchesOnlyCoding(old(w.sink.header), w.sink.header)
    ensures t.Zip? && ZipStage.Stage(t.zipOptions, headers, old(StateOf(w, r)), c, r.body).Failed? ==>
      err == Some(ZipStage.Stage(t.zipOptions, headers, old(StateOf(w, r)), c, r.body).err)
      && w.sink.trace == old(w.sink.trace) && r.drained == old(r.drained) && w.layers == old(w.layers)
    ensures t.Gzip? && GzipStage.Stage(t.gzipOptions, headers, old(StateOf(w, r)), c, r.body).Failed? ==>
      err == Some(GzipStage.Stage(t.gzipOptions, headers, old(StateOf(w, r)), c, r.body).err)
      && w.sink.trace == old(w.sink.trace) && r.drained == old(r.drained) && w.layers == old(w.layers)
    ensures Transcoded(w, old(Snap(w)), Run(t, old(StateOf(w, r)), headers, c, r.body), err)
    decreases t, 1
  {
    match t
    case Identity =>
      err := IdentityTranscoder.Transcode(w, r, c);
    case Jpeg(opts) =>
      err := JpegTranscoder.Transcode(opts, w, r, headers, c);
    case Png =>
      err := PngTranscoder.Transcode(w, r, headers, c);
    case Gif =>
      err := GifTranscoder.Transcode(w, r, headers, c);
    case Zip(_, _) =>
      err := TranscodeZip(t, w, r, headers, c);
    case Gzip(_, _) =>
      err := TranscodeGzip(t, w, r, headers, c);
  }

  /** `Zip.Transcode`: the stage, the inner transcoder, then the compressing writer's `Close`. */
  method TranscodeZip(t: Transcoder, w: ResponseWriter, r: ResponseReader, headers: H.Header, c: Codecs)
    returns (err: Option<string>)
    requires t.Zip? && w.Valid()
    modifies r`header, r`decoders, r`drained, w`headersDone, w`layers, w.sink`header, w.sink`wroteHeader, w.sink`trace
    ensures w.Valid() && Encoders(w.layers) == Encoders(old(w.layers))
    ensures TouchesOnlyCoding(old(w.sink.header), w.sink.header)
    ensures ZipStage.Stage(t.zipOptions, headers, old(StateOf(w, r)), c, r.body).Failed? ==>
      err == Some(ZipStage.Stage(t.zipOptions, headers, old(StateOf(w, r)), c, r.body).err)
      && w.sink.trace == old(w.sink.trace) && r.drained == old(r.drained) && w.layers == old(w.layers)
    ensures Transcoded(w, old(Snap(w)), Run(t, old(StateOf(w, r)), headers, c, r.body), err)
    decreases t, 0
  {
    ghost var s0, st0 := Snap(w), StateOf(w, r);
    var failed, pushed := ZipStage.Apply(t.zipOptions, w, r, headers, c);
    if failed.Some? {
      return failed;
    }
    ghost var st1 := StateOf(w, r);
    assert Run(t, st0, headers, c, r.body) == Wrapped(c, st0, st1, Run(t.zipInner, st1, headers, c, r.body));
    err := Delegate(t.zipInner, w, r, headers, c, s0, st0, pushed);
    RunTouchesOnlyCoding(t, st0, headers, c, r.body);
  }

  /** `Gzip.Transcode`: the stage, the inner transcoder, then the gzip writer's `Close`. */
  method TranscodeGzip(t: Transcoder, w: ResponseWriter, r: ResponseReader, headers: H.Header, c: Codecs)
    returns (err: Option<string>)
    requires t.Gzip? && w.Valid()
    modifies r`header, r`decoders, r`drained, w`headersDone, w`layers, w.sink`header, w.sink`wroteHeader, w.sink`trace
    ensures w.Valid() && Encoders(w.layers) == Encoders(old(w.layers))
    ensures TouchesOnlyCoding(old(w.sink.header), w.sink.header)
    ensures GzipStage.Stage(t.gzipOptions, headers, old(StateOf(w, r)), c, r.body).Failed? ==>
      err == Some(GzipStage.Stage(t.gzipOptions, headers, old(StateOf(w, r)), c, r.body).err)
      && w.sink.trace == old(w.sink.trace) && r.drained == old(r.drained) && w.layers == old(w.layers)
    ensures Transcoded(w, old(Snap(w)), Run(t, old(StateOf(w, r)), headers, c, r.body), err)
    decreases t, 0
  {
    ghost var s0, st0 := Snap(w), StateOf(w, r);
    var failed, pushed := GzipStage.Apply(t.gzipOptions, w, r, headers, c);
    if failed.Some? {
      return failed;
    }
    ghost var st1 := StateOf(w, r);
    assert Run(t, st0, headers, c, r.body) == Wrapped(c, st0, st1, Run(t.gzipInner, st1, headers, c, r.body));
    err := Delegate(t.gzipInner, w, r, headers, c, s0, st0, pushed);
    RunTouchesOnlyCoding(t, st0, headers, c, r.body);
  }

  /**
   * A decorator after a stage that succeeded on a writer in snapshot `s0`
   * and state `st0`: the inner transcoder, once, on the state the stage left,
   * then `Close` of the encoder it stacked, if it stacked one.
   */
  method Delegate(inner: Transcoder, w: ResponseWriter, r: ResponseReader, headers: H.Header, c: Codecs,
                  ghost s0: Snapshot, ghost st0: PipelineState, pushed: bool)
    returns (err: Option<string>)
    requires w.Valid() && s0.Valid() && Snap(w) == s0.(layers := w.layers) && st0.encoders == Encoders(s0.layers)
    requires pushed ==> exists e :: w.layers == s0.layers + [Layer(e, [])]
    requires !pushed ==> w.layers == s0.layers
    modifies r`header, r`decoders, r`drained, w`headersDone, w`layers, w.sink`header, w.sink`wroteHeader, w.sink`trace
    ensures Transcoded(w, s0, Wrapped(c, st0, old(StateOf(w, r)), Run(inner, old(StateOf(w, r)), headers, c, r.body)), err)
    decreases inner, 3
  {
    ghost var st1 := StateOf(w, r);
    ghost var o := Run(inner, st1, headers, c, r.body);
    if pushed {
      ghost var e :| w.layers == s0.layers + [Layer(e, [])];
      assert st1.encoders == Encoders(s0.layers + [Layer(e, [])]);
      WrappedPushed(c, st0, st1, e, o);
      err := InnerThenClose(inner, w, r, headers, c, s0, e);
    } else {
      assert Wrapped(c, st0, st1, o) == o;
      err := Transcode(inner, w, r, headers, c);
    }
  }

  /** A decorator that stacked `e` passes on the compression of its inner output. */
  lemma WrappedPushed(c: Codecs, st: PipelineState, inner: PipelineState, e: Encoder, o: Outcome)
    requires inner.encoders == st.encoders + [e]
    ensures Wrapped(c, st, inner, o) == o.(data := Compressed(c, e, o.data), wrote := true)
  {
    assert inner.encoders[|st.encoders|] == e;
  }

  /**
   * The rest of a decorator whose stage stacked encoder `e` on a writer that
   * was in snapshot `s0`: the inner transcoder, called exactly once, then the
   * deferred `Close` of that encoder.
   */
  method InnerThenClose(inner: Transcoder, w: ResponseWriter, r: ResponseReader, headers: H.Header, c: Codecs,
                        ghost s0: Snapshot, ghost e: Encoder)
    returns (err: Option<string>)
    requires w.Valid() && s0.Valid() && Snap(w) == s0.(layers := s0.layers + [Layer(e, [])])
    modifies r`header, r`decoders, r`drained, w`headersDone, w`layers, w.sink`header, w.sink`wroteHeader, w.sink`trace
    ensures var o := Run(inner, old(StateOf(w, r)), headers, c, r.body);
      Transcoded(w, s0, o.(data := Compressed(c, e, o.data), wrote := true), err)
    decreases inner, 2
  {
    ghost var st1 := StateOf(w, r);
    err := Transcode(inner, w, r, headers, c);
    ghost var t, h, code := Snap(w), w.sink.header, w.statusCode;
    ghost var o := Run(inner, st1, headers, c, r.body);
    CloseAfterInner(c, s0, e, t, h, code, o, err);
    w.Close(c);
    assert Snap(w) == Closed(c, t, h) && w.sink.header == h && w.statusCode == code;
  }

  // ---- What a transcoder does, whatever it is ----

  /** Whatever the transcoder, the client's headers change only in `Content-Encoding` and `Content-Type`. */
  lemma {:induction false} RunTouchesOnlyCoding(t: Transcoder, st: PipelineState, headers: H.Header, c: Codecs, body: Stream)
    ensures TouchesOnlyCoding(st.writerHeader, Run(t, st, headers, c, body).header)
    decreases t
  {
    match t
    case Zip(inner, opts) =>
      var o := ZipStage.Stage(opts, headers, st, c, body);
      if o.Failed? {
        ZipStage.FailedState(opts, headers, st, c, body);
      } else {
        ZipStage.OnlyEncodingHeaders(opts, headers, st, c, body);
        RunTouchesOnlyCoding(inner, o.inner, headers, c, body);
      }
    case Gzip(inner, opts) =>
      var o := GzipStage.Stage(opts, headers, st, c, body);
      if o.Failed? {
        GzipStage.FailedState(opts, headers, st, c, body);
      } else {
        GzipStage.OnlyEncodingHeaders(opts, headers, st, c, body);
        RunTouchesOnlyCoding(inner, o.inner, headers, c, body);
      }
    case _ =>
  }
}
