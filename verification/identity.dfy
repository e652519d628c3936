/** The identity transcoder (transcoder/identity.go): `io.Copy(w, r)`. */
module IdentityTranscoder {
  import opened Wrappers
  import opened GoBytes
  import opened Codecs
  import opened Response
  import opened Pipeline

  /** What `Identity.Transcode` amounts to: the decoded body, written iff it is not empty, the headers untouched. */
  function Run(st: PipelineState, c: Codecs, body: Stream): Outcome
  {
    var s := Decoded(c, st.decoders, body);
    Outcome(st.writerHeader, s.data, s.err, s.data != [], s.data != [])
  }

  /**
   * `Identity.Transcode`: the body is read to its end and every byte is passed,
   * in order, to `w.Write`, one chunk at a time; the copy's error is returned.
   * No header is read or changed, and an empty body calls `Write` never.
   */
  method Transcode(w: ResponseWriter, r: ResponseReader, c: Codecs) returns (err: Option<string>)
    requires w.Valid()
    modifies r`drained, w`headersDone, w`layers, w.sink`wroteHeader, w.sink`trace
    ensures w.Valid() && SameStack(w.layers, old(w.layers)) && r.drained
    ensures w.Emitted() == old(w.Emitted()) + r.Content(c).data
    ensures err == r.Content(c).err
    ensures r.Content(c).data == [] ==> w.sink.trace == old(w.sink.trace) && w.layers == old(w.layers)
    ensures r.Content(c).data != [] && old(!w.headersDone && !w.sink.wroteHeader) ==>
      [StatusSent(w.statusCode, w.sink.header)] <= w.sink.trace
    ensures Transcoded(w, old(Snap(w)), Run(old(StateOf(w, r)), c, r.body), err)
  {
    var s := r.ReadAll(c);
    err := Copy(w, s);
  }

  /**
   * The invariant of `io.Copy`'s loop: the first `i` bytes of `data` reached
   * `w.Writer`, on a writer that was in state `l0`, `e0`, `t0`, `hd0` before.
   */
  ghost predicate Copying(w: ResponseWriter, data: seq<byte>, i: nat, l0: seq<Layer>, e0: seq<byte>, t0: seq<Event>, hd0: bool)
    reads w, w.sink
  {
    && i <= |data|
    && w.Valid() && SameStack(w.layers, l0)
    && w.Emitted() == e0 + data[..i]
    && (i == 0 ==> w.sink.trace == t0 && w.layers == l0 && w.headersDone == hd0)
    && (i > 0 ==> w.headersDone)
    && (l0 != [] ==> BodyOf(w.sink.trace) == BodyOf(t0))
    && (i > 0 && !hd0 && t0 == [] ==> [StatusSent(w.statusCode, w.sink.header)] <= w.sink.trace)
  }

  /** One round of `io.Copy`'s loop: the next chunk of at most 32 KiB goes to `w.Write`. */
  method CopyChunk(w: ResponseWriter, data: seq<byte>, i: nat, ghost l0: seq<Layer>, ghost e0: seq<byte>, ghost t0: seq<Event>, ghost hd0: bool)
    returns (next: nat)
    requires i < |data| && Copying(w, data, i, l0, e0, t0, hd0)
    modifies w`headersDone, w`layers, w.sink`wroteHeader, w.sink`trace
    ensures i < next <= |data| && Copying(w, data, next, l0, e0, t0, hd0)
  {
    var n := if |data| - i < ChunkSize then |data| - i else ChunkSize;
    ghost var l1, t1 := w.layers, w.sink.trace;
    w.Write(data[i..i + n]);
    next := i + n;
    assert data[..next] == data[..i] + data[i..next];
    assert SameStack(w.layers, l0) && |l1| == |l0|;
    if i > 0 {
      assert old(w.headersDone) && t1 <= w.sink.trace;
    } else if !hd0 && t0 == [] {
      assert w.sink.trace[0] == StatusSent(w.statusCode, w.sink.header);
    }
  }

  /** The loop of `io.Copy` for a writer without `ReadFrom`: each chunk read goes to `w.Write`. */
  method Copy(w: ResponseWriter, s: Stream) returns (err: Option<string>)
    requires w.Valid()
    modifies w`headersDone, w`layers, w.sink`wroteHeader, w.sink`trace
    ensures w.Valid() && SameStack(w.layers, old(w.layers))
    ensures w.Emitted() == old(w.Emitted()) + s.data
    ensures err == s.err
    ensures s.data == [] ==> w.sink.trace == old(w.sink.trace) && w.layers == old(w.layers)
    ensures s.data != [] && old(!w.headersDone && !w.sink.wroteHeader) ==>
      [StatusSent(w.statusCode, w.sink.header)] <= w.sink.trace
    ensures s.data != [] ==> w.headersDone
    ensures s.data == [] ==> w.headersDone == old(w.headersDone)
    ensures old(w.layers) != [] ==> BodyOf(w.sink.trace) == BodyOf(old(w.sink.trace))
  {
    ghost var l0, e0, t0, hd0 := w.layers, w.Emitted(), w.sink.trace, w.headersDone;
    var i := 0;
    while i < |s.data|
      invariant Copying(w, s.data, i, l0, e0, t0, hd0)
      decreases |s.data| - i
    {
      i := CopyChunk(w, s.data, i, l0, e0, t0, hd0);
    }
    assert s.data[..i] == s.data;
    err := s.err;
  }
}
