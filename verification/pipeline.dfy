/**
 * What the compression stages of package transcoder change before they call
 * their inner transcoder: the origin's and the client's header maps, the
 * reader's decoder stack and the writer's encoder stack.
 */
module Pipeline {
  import opened Wrappers
  import opened GoBytes
  import opened Codecs
  import opened Response
  import H = Header

  datatype PipelineState = PipelineState(
    originHeader: H.Header,
    writerHeader: H.Header,
    decoders: seq<Decoder>,
    encoders: seq<Encoder>)

  /**
   * A stage either returns an error before the inner call, leaving the reader
   * and writer in state `at`, or calls the inner transcoder once on this state.
   */
  datatype StageOutcome = Failed(err: string, at: PipelineState) | Delegated(inner: PipelineState)

  /**
   * What one `Transcode` call amounts to, seen from the writer it was given:
   * the client's headers afterwards, the bytes it passed to that writer, its
   * error, whether anything reached the writer (`wrote`) and whether it called
   * `Write`, which flushes the pending status (`flushed`).
   */
  datatype Outcome = Outcome(header: H.Header, data: seq<byte>, err: Option<string>, wrote: bool, flushed: bool)

  /** A stage that failed: the headers as the stage left them, nothing written, its error. */
  function Halted(at: PipelineState, e: string): Outcome
  {
    Outcome(at.writerHeader, [], Some(e), false, false)
  }

  /**
   * A decorator that went from `st` to `inner` and whose inner transcoder
   * produced `o`: when it stacked an encoder, its `Close` passes the encoding
   * of the inner output on to the writer it was given.
   */
  function Wrapped(c: Codecs, st: PipelineState, inner: PipelineState, o: Outcome): Outcome
  {
    if |inner.encoders| > |st.encoders|
    then o.(data := Compressed(c, inner.encoders[|st.encoders|], o.data), wrote := true)
    else o
  }

  /**
   * A writer went from snapshot `s` to snapshot `t`, with headers `header`
   * and pending status `code` at the end, as outcome `o` says, and the call
   * returned `err`. The status line, when the call sent one, carries the
   * headers as they are at the end: every header change comes before the
   * first byte reaches the client.
   */
  ghost predicate Reached(s: Snapshot, t: Snapshot, header: H.Header, code: int, o: Outcome, err: Option<string>)
  {
    && t.Valid() && SameStack(t.layers, s.layers)
    && t.Emitted() == s.Emitted() + o.data
    && header == o.header && err == o.err
    && (s.layers != [] ==> BodyOf(t.trace) == BodyOf(s.trace))
    && (o.flushed ==> o.wrote && t.headersDone)
    && (!o.flushed ==> t.headersDone == s.headersDone)
    && (!o.flushed && (!o.wrote || s.layers != []) ==> t.trace == s.trace)
    && (!s.headersDone && !s.wroteHeader && o.flushed ==>
          t.trace != [] && t.trace[0] == StatusSent(code, header))
    && (!s.headersDone && !s.wroteHeader && s.layers == [] && o.wrote && !o.flushed ==>
          t.trace != [] && t.trace[0] == StatusSent(200, header))
  }

  /** Every status line a call sent carries the headers as they are at its end. */
  lemma StatusCarriesFinalHeader(s: Snapshot, t: Snapshot, header: H.Header, code: int, o: Outcome, err: Option<string>)
    requires s.Valid() && Reached(s, t, header, code, o, err)
    ensures forall i :: |s.trace| <= i < |t.trace| && t.trace[i].StatusSent? ==> t.trace[i].header == header
  {
    forall i | |s.trace| <= i < |t.trace| && t.trace[i].StatusSent? ensures t.trace[i].header == header {
      assert i == 0;
      assert t.trace != s.trace;
    }
  }

  /**
   * On a fresh writer the client receives exactly the outcome: a status line
   * iff something was written, with the pending status when the call flushed
   * it and net/http's implicit 200 otherwise, then the bytes written.
   */
  lemma OnFreshWriter(t: Snapshot, header: H.Header, code: int, o: Outcome, err: Option<string>)
    requires Reached(Snapshot([], [], false, false), t, header, code, o, err)
    ensures t.layers == [] && BodyOf(t.trace) == o.data
    ensures t.trace != [] <==> o.wrote
    ensures o.wrote ==> t.trace[0] == StatusSent(if o.flushed then code else 200, header)
  {
  }

  /** Writer `w` went from snapshot `s` to its current state as outcome `o` says, and the call returned `err`. */
  ghost predicate Transcoded(w: ResponseWriter, s: Snapshot, o: Outcome, err: Option<string>)
    reads w, w.sink
  {
    Reached(s, Snap(w), w.sink.header, w.statusCode, o, err)
  }

  /**
   * A decorator that stacked encoder `e` and whose inner transcoder went as
   * `o`: closing the encoder passes the encoding of the inner output on to
   * the writer the decorator was given.
   */
  lemma CloseAfterInner(c: Codecs, s0: Snapshot, e: Encoder, t: Snapshot, header: H.Header, code: int, o: Outcome, err: Option<string>)
    requires s0.Valid()
    requires Reached(s0.(layers := s0.layers + [Layer(e, [])]), t, header, code, o, err)
    ensures t.layers != []
    ensures Reached(s0, Closed(c, t, header), header, code, o.(data := Compressed(c, e, o.data), wrote := true), err)
  {
    var mid := s0.(layers := s0.layers + [Layer(e, [])]);
    assert Encoders(mid.layers)[|s0.layers|] == e;
    assert t.layers[|t.layers| - 1] == Layer(e, o.data);
    assert Below(t.layers) == s0.layers;
    if s0.layers == [] {
      CloseToClient(c, s0, e, t, header, code, o, err);
    } else {
      CloseToLayer(c, s0, e, t, header, code, o, err);
    }
  }

  /** `CloseAfterInner` when the decorator was given the client's own writer. */
  lemma CloseToClient(c: Codecs, s0: Snapshot, e: Encoder, t: Snapshot, header: H.Header, code: int, o: Outcome, err: Option<string>)
    requires s0.Valid() && s0.layers == [] && t.layers == [Layer(e, o.data)]
    requires Reached(s0.(layers := [Layer(e, [])]), t, header, code, o, err)
    ensures Reached(s0, Closed(c, t, header), header, code, o.(data := Compressed(c, e, o.data), wrote := true), err)
  {
    var out := Compressed(c, e, o.data);
    var u := Closed(c, t, header);
    var pre := if t.wroteHeader then t.trace else [StatusSent(200, header)];
    assert u == t.(layers := [], trace := pre + [Bytes(out)], wroteHeader := true);
    assert WellFormed(pre + [Bytes(out)]) by {
      assert (pre + [Bytes(out)])[0] == pre[0];
    }
    assert BodyOf(pre) == BodyOf(s0.trace) by {
      if !t.wroteHeader { assert BodyOf([StatusSent(200, header)]) == BodyOf([]) + []; }
    }
    assert BodyOf(u.trace) == BodyOf(pre) + out by { assert u.trace[..|u.trace| - 1] == pre; }
    assert u.Emitted() == s0.Emitted() + out;
    if !s0.headersDone && !s0.wroteHeader {
      assert s0.trace == [];
      assert u.trace[0] == pre[0];
      if !o.flushed {
        assert t.trace == [] && !t.wroteHeader;
      }
    }
  }

  /** `CloseAfterInner` when the decorator was given a writer that is itself a compressing one. */
  lemma CloseToLayer(c: Codecs, s0: Snapshot, e: Encoder, t: Snapshot, header: H.Header, code: int, o: Outcome, err: Option<string>)
    requires s0.Valid() && s0.layers != [] && |t.layers| == |s0.layers| + 1
    requires t.layers[|t.layers| - 1] == Layer(e, o.data) && Below(t.layers) == s0.layers
    requires Reached(s0.(layers := s0.layers + [Layer(e, [])]), t, header, code, o, err)
    ensures Reached(s0, Closed(c, t, header), header, code, o.(data := Compressed(c, e, o.data), wrote := true), err)
  {
    var out := Compressed(c, e, o.data);
    var k := |s0.layers|;
    var below := s0.layers[k - 1];
    var u := Closed(c, t, header);
    assert t.layers[..k] == s0.layers;
    assert u == t.(layers := s0.layers[..k - 1] + [Layer(below.encoder, below.buffered + out)]);
    assert Encoders(u.layers) == Encoders(s0.layers);
    assert Below(u.layers) == Below(s0.layers);
    assert u.Emitted() == s0.Emitted() + out;
  }

  const ContentEncoding := "Content-Encoding"

  /** One more decoder on the reader; both sides lose `Content-Encoding`. */
  function Decoding(st: PipelineState, d: Decoder): (r: PipelineState)
    ensures H.Get(r.originHeader, ContentEncoding) == "" && ContentEncoding !in r.writerHeader
    ensures st.decoders < r.decoders && |r.decoders| == |st.decoders| + 1 && r.decoders[|st.decoders|] == d && r.encoders == st.encoders
  {
    PipelineState(H.Del(st.originHeader, ContentEncoding), H.Del(st.writerHeader, ContentEncoding),
                  st.decoders + [d], st.encoders)
  }

  /** One more encoder on the writer, announced to the client as `coding`. */
  function Encoding(st: PipelineState, e: Encoder, coding: string): (r: PipelineState)
    ensures H.Get(r.writerHeader, ContentEncoding) == coding
    ensures st.encoders < r.encoders && |r.encoders| == |st.encoders| + 1 && r.encoders[|st.encoders|] == e && r.decoders == st.decoders
    ensures r.originHeader == st.originHeader
  {
    st.(writerHeader := H.Set(st.writerHeader, ContentEncoding, coding), encoders := st.encoders + [e])
  }

  /** `b` agrees with `a` on every key but `Content-Encoding`. */
  ghost predicate OnlyEncodingChanged(a: H.Header, b: H.Header)
  {
    forall k :: k != ContentEncoding ==> (k in b <==> k in a) && (k in a ==> b[k] == a[k])
  }

  /** The state of a reader and a writer. */
  function StateOf(w: ResponseWriter, r: ResponseReader): PipelineState
    reads r`header, w.sink`header, r`decoders, w`layers
  {
    PipelineState(r.header, w.sink.header, r.decoders, Encoders(w.layers))
  }

  /** Substitute the reader's stream by a decoding one and drop `Content-Encoding` on both sides. */
  method PushDecoder(w: ResponseWriter, r: ResponseReader, d: Decoder)
    modifies r`header, r`decoders, w.sink`header
    ensures StateOf(w, r) == Decoding(old(StateOf(w, r)), d)
  {
    r.decoders := r.decoders + [d];
    r.header := H.Del(r.header, ContentEncoding);
    w.sink.header := H.Del(w.sink.header, ContentEncoding);
  }

  /** Substitute the writer's stream by an encoding one and announce `coding`. */
  method PushEncoder(w: ResponseWriter, r: ResponseReader, e: Encoder, coding: string)
    requires w.Valid()
    modifies w`layers, w.sink`header
    ensures w.Valid()
    ensures StateOf(w, r) == Encoding(old(StateOf(w, r)), e, coding)
    ensures w.layers == old(w.layers) + [Layer(e, [])]
  {
    w.Push(e);
    w.sink.header := H.Set(w.sink.header, ContentEncoding, coding);
  }
}
