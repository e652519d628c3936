/**
 * The response adapters of package proxy (proxy/response.go): a reader over
 * the origin response and a writer towards the client that holds back the
 * status line until the first body byte, so that transcoders may still edit
 * headers after looking at the body.
 */
module Response {
  import opened Wrappers
  import opened GoBytes
  import opened GoStrings
  import opened Codecs
  import H = Header

  /** What reaches the client: the status line with the headers it carried, and body bytes. */
  datatype Event = StatusSent(code: int, header: H.Header) | Bytes(data: seq<byte>)

  /** The status line comes first and only once; everything after it is body. */
  predicate WellFormed(trace: seq<Event>)
  {
    && (trace != [] ==> trace[0].StatusSent?)
    && forall i :: 1 <= i < |trace| ==> trace[i].Bytes?
  }

  /** The body bytes of a trace, in order. */
  function BodyOf(trace: seq<Event>): seq<byte>
  {
    if trace == [] then []
    else
      var last := trace[|trace| - 1];
      BodyOf(trace[..|trace| - 1]) + (if last.Bytes? then last.data else [])
  }

  /**
   * The `http.ResponseWriter` the server hands the proxy: a header map, and
   * the events the client has received. A body write commits status 200
   * when no status was sent yet, and a second status is ignored.
   */
  class Sink {
    var header: H.Header
    var wroteHeader: bool
    var trace: seq<Event>

    ghost predicate Valid()
      reads this`wroteHeader, this`trace
    {
      (wroteHeader <==> trace != []) && WellFormed(trace)
    }

    constructor ()
      ensures Valid() && header == map[] && !wroteHeader && trace == []
    {
      header, wroteHeader, trace := map[], false, [];
    }

    method WriteHeader(code: int)
      requires Valid()
      modifies this`wroteHeader, this`trace
      ensures Valid() && wroteHeader
      ensures trace == if old(wroteHeader) then old(trace) else [StatusSent(code, header)]
    {
      if !wroteHeader {
        trace := [StatusSent(code, header)];
        wroteHeader := true;
      }
    }

    method Write(data: seq<byte>)
      requires Valid()
      modifies this`wroteHeader, this`trace
      ensures Valid() && wroteHeader
      ensures trace == (if old(wroteHeader) then old(trace) else [StatusSent(200, header)]) + [Bytes(data)]
      ensures BodyOf(trace) == BodyOf(old(trace)) + data
    {
      WriteHeader(200);
      assert BodyOf(trace) == BodyOf(old(trace)) by {
        if !old(wroteHeader) { assert BodyOf(trace) == BodyOf([]) + []; }
      }
      trace := trace + [Bytes(data)];
      assert trace[..|trace| - 1] == old(if wroteHeader then trace else [StatusSent(200, header)]);
    }
  }

  // ---- ResponseReader.ContentType (mime.ParseMediaType) ----

  /** A character of an RFC 2045 token: visible ASCII, no tspecial. */
  predicate IsTokenChar(c: char)
  {
    ' ' < c && (c as int) < 127 && c !in "()<>@,;:\\\"/[]?="
  }

  predicate IsToken(t: string)
  {
    |t| > 0 && forall i :: 0 <= i < |t| ==> IsTokenChar(t[i])
  }

  /** `type` or `type/subtype`, as `mime.ParseMediaType` accepts them. */
  predicate ValidMediaType(s: string)
  {
    var (kind, subtype, slash) := Cut(s, '/');
    IsToken(kind) && (slash ==> IsToken(subtype))
  }

  function LowerChar(c: char): char
  {
    if 'A' <= c <= 'Z' then (c as int + 32) as char else c
  }

  /** `strings.ToLower` on ASCII letters. */
  function ToLower(s: string): (r: string)
    ensures |r| == |s| && forall i :: 0 <= i < |s| ==> r[i] == LowerChar(s[i])
  {
    seq(|s|, i requires 0 <= i < |s| => LowerChar(s[i]))
  }

  predicate IsSpace(c: char)
  {
    c == ' ' || c == '\t' || c == '\n' || c == '\r' || c as int == 11 || c as int == 12
  }

  function TrimLeft(s: string): (r: string)
    ensures |r| <= |s| && r == s[|s| - |r|..]
    ensures r != [] ==> !IsSpace(r[0])
  {
    if s != [] && IsSpace(s[0]) then
      var t := TrimLeft(s[1..]);
      assert s[1..][|s| - 1 - |t|..] == s[|s| - |t|..];
      t
    else s
  }

  function TrimRight(s: string): (r: string)
    ensures |r| <= |s| && r == s[..|r|]
    ensures r != [] ==> !IsSpace(r[|r| - 1])
  {
    if s != [] && IsSpace(s[|s| - 1]) then TrimRight(s[..|s| - 1]) else s
  }

  /** `strings.TrimSpace` on ASCII white space. */
  function TrimSpace(s: string): string
  {
    TrimRight(TrimLeft(s))
  }

  /**
   * The media type `mime.ParseMediaType` returns: the part before the first
   * ';', lower-cased and trimmed, or "" when it is not a valid media type.
   */
  function MediaType(v: string): string
  {
    var mt := TrimSpace(ToLower(Cut(v, ';').0));
    if ValidMediaType(mt) then mt else ""
  }

  /** A media type as returned: empty, or a valid lower-case type without parameters. */
  predicate IsMediaTypeResult(r: string)
  {
    r == "" || (ValidMediaType(r) && ToLower(r) == r && ';' !in r)
  }

  /** Trimming keeps a run of the original characters. */
  lemma TrimSpaceInside(s: string)
    ensures forall i :: 0 <= i < |TrimSpace(s)| ==> TrimSpace(s)[i] in s
  {
    var l := TrimLeft(s);
    var r := TrimRight(l);
    forall i | 0 <= i < |r| ensures r[i] in s {
      assert r[i] == l[i] == s[|s| - |l| + i];
    }
  }

  /** Lower-casing never yields an upper-case letter and maps ';' to itself only. */
  lemma ToLowerChars(s: string)
    requires ';' !in s
    ensures forall c :: c in ToLower(s) ==> c != ';' && LowerChar(c) == c
  {
    var low := ToLower(s);
    forall c | c in low ensures c != ';' && LowerChar(c) == c {
      var i :| 0 <= i < |low| && low[i] == c;
      assert s[i] in s;
    }
  }

  /** A string drawn from lower-case, ';'-free characters is itself lower-case and ';'-free. */
  lemma DrawnFrom(r: string, low: string)
    requires forall c :: c in low ==> c != ';' && LowerChar(c) == c
    requires forall i :: 0 <= i < |r| ==> r[i] in low
    ensures ';' !in r && ToLower(r) == r
  {
    ToLowerIdentity(r);
  }

  lemma MediaTypeShape(v: string)
    ensures IsMediaTypeResult(MediaType(v))
  {
    var r := MediaType(v);
    if r != "" {
      var low := ToLower(Cut(v, ';').0);
      ToLowerChars(Cut(v, ';').0);
      TrimSpaceInside(low);
      DrawnFrom(TrimSpace(low), low);
    }
  }

  lemma ToLowerIdentity(s: string)
    requires forall i :: 0 <= i < |s| ==> LowerChar(s[i]) == s[i]
    ensures ToLower(s) == s
  {
  }

  lemma TrimNoSpace(s: string)
    requires forall i :: 0 <= i < |s| ==> !IsSpace(s[i])
    ensures TrimSpace(s) == s
  {
    assert TrimLeft(s) == s;
  }

  /** Every character of a valid media type is a token character or the one '/'. */
  lemma ValidMediaTypeChars(s: string)
    requires ValidMediaType(s)
    ensures forall i :: 0 <= i < |s| ==> !IsSpace(s[i]) && s[i] != ';'
  {
    var (kind, subtype, slash) := Cut(s, '/');
    if slash {
      assert s == kind + ['/'] + subtype;
      forall i | 0 <= i < |s| ensures !IsSpace(s[i]) && s[i] != ';' {
        if i < |kind| { assert s[i] == kind[i]; }
        else if i > |kind| { assert s[i] == subtype[i - |kind| - 1]; }
      }
    }
  }

  /** Parsing the result again gives the same media type. */
  lemma MediaTypeIdempotent(v: string)
    ensures MediaType(MediaType(v)) == MediaType(v)
  {
    var r := MediaType(v);
    MediaTypeShape(v);
    if r != "" {
      ValidMediaTypeChars(r);
      assert Cut(r, ';').0 == r;
      assert forall i :: 0 <= i < |r| ==> LowerChar(r[i]) == ToLower(r)[i];
      ToLowerIdentity(r);
      TrimNoSpace(r);
    }
  }

  /** Parameters after the first ';' do not affect the media type. */
  lemma MediaTypeIgnoresParameters(t: string, params: string)
    requires ';' !in t
    ensures MediaType(t + ";" + params) == MediaType(t)
  {
    assert Cut(t, ';').0 == t;
    CutAt(t, ';', params);
  }

  // ---- ResponseReader ----

  /**
   * `ResponseReader`: the origin response, the decoders stacked on its body
   * (`r.Reader`), and whether its read counter has seen the body.
   */
  class ResponseReader {
    var header: H.Header
    const statusCode: int
    const body: Stream
    var decoders: seq<Decoder>
    var drained: bool

    /** `newResponseReader`: the read counter wraps the raw origin body, below any decoder. */
    constructor (statusCode: int, header: H.Header, body: Stream)
      ensures this.statusCode == statusCode && this.header == header && this.body == body
      ensures decoders == [] && !drained
    {
      this.statusCode, this.header, this.body := statusCode, header, body;
      decoders, drained := [], false;
    }

    /** `ContentType`: the media type of the `Content-Type` header, parameters dropped. */
    function ContentType(): (ct: string)
      reads this`header
      ensures IsMediaTypeResult(ct)
      ensures H.Get(header, "Content-Type") == "" ==> ct == ""
    {
      MediaTypeShape(H.Get(header, "Content-Type"));
      MediaType(H.Get(header, "Content-Type"))
    }

    /** What `r.Reader` yields: the raw body read through the stacked decoders. */
    function Content(c: Codecs): Stream
      reads this`decoders
    {
      Decoded(c, decoders, body)
    }

    /** `counter.Count()`: the raw origin bytes pulled so far. */
    function Count(): nat
      reads this`drained
    {
      if drained then |body.data| else 0
    }

    /** Reading `r.Reader` to its end or its first error. */
    method ReadAll(c: Codecs) returns (s: Stream)
      modifies this`drained
      ensures drained && s == Content(c)
      ensures Count() == |body.data|
    {
      drained := true;
      s := Decoded(c, decoders, body);
    }
  }

  // ---- ResponseWriter ----

  /** A compressing writer stacked on `w.Writer` and the bytes written into it so far. */
  datatype Layer = Layer(encoder: Encoder, buffered: seq<byte>)

  function Encoders(ls: seq<Layer>): (es: seq<Encoder>)
    ensures |es| == |ls| && forall i :: 0 <= i < |ls| ==> es[i] == ls[i].encoder
  {
    seq(|ls|, i requires 0 <= i < |ls| => ls[i].encoder)
  }

  /** The layers below the top one. */
  function Below(ls: seq<Layer>): seq<Layer>
  {
    if ls == [] then [] else ls[..|ls| - 1]
  }

  /** Same writers stacked, and only the top one may have received bytes. */
  predicate SameStack(a: seq<Layer>, b: seq<Layer>)
  {
    Encoders(a) == Encoders(b) && Below(a) == Below(b)
  }

  /** `AddValues`: the values appended under one key, which is created only if there is one. */
  function AddValues(h: H.Header, k: string, vs: seq<string>): H.Header
  {
    if vs == [] then h else h[k := H.Values(h, k) + vs]
  }

  /** The headers after appending every value of `origin`; keys stay unique, order per key kept. */
  function Merged(h: H.Header, origin: H.Header): (r: H.Header)
    ensures forall k :: H.Values(r, k) == H.Values(h, k) + H.Values(origin, k)
    ensures forall k :: k in r <==> k in h || (k in origin && origin[k] != [])
  {
    map k | k in h.Keys + origin.Keys && (k in h || origin[k] != []) :: H.Values(h, k) + H.Values(origin, k)
  }

  function Restrict(m: H.Header, keys: set<string>): H.Header
  {
    map k | k in m && k in keys :: m[k]
  }

  /** Two headers with the same keys and the same values under each are equal. */
  lemma HeaderExt(a: H.Header, b: H.Header)
    requires forall x :: (x in a <==> x in b) && H.Values(a, x) == H.Values(b, x)
    ensures a == b
  {
    forall x | x in a ensures a[x] == b[x] {
      assert H.Values(a, x) == a[x] && H.Values(b, x) == b[x];
    }
  }

  /** `MergedStep` at one key. */
  lemma MergedStepAt(h: H.Header, origin: H.Header, done: set<string>, k: string, x: string)
    requires k in origin && k !in done
    ensures var a := Merged(h, Restrict(origin, done + {k}));
      var b := AddValues(Merged(h, Restrict(origin, done)), k, origin[k]);
      (x in a <==> x in b) && H.Values(a, x) == H.Values(b, x)
  {
    if x == k {
      assert H.Values(Restrict(origin, done + {k}), x) == origin[k];
      assert H.Values(Restrict(origin, done), x) == [];
    } else {
      assert H.Values(Restrict(origin, done + {k}), x) == H.Values(Restrict(origin, done), x);
    }
  }

  lemma MergedStep(h: H.Header, origin: H.Header, done: set<string>, k: string)
    requires k in origin && k !in done
    ensures Merged(h, Restrict(origin, done + {k})) == AddValues(Merged(h, Restrict(origin, done)), k, origin[k])
  {
    var a := Merged(h, Restrict(origin, done + {k}));
    var b := AddValues(Merged(h, Restrict(origin, done)), k, origin[k]);
    forall x ensures (x in a <==> x in b) && H.Values(a, x) == H.Values(b, x) {
      MergedStepAt(h, origin, done, k, x);
    }
    HeaderExt(a, b);
  }

  /** One key of `takeHeaders`' loop moves from the keys to do to the keys done. */
  lemma TakeStep(h: H.Header, origin: H.Header, todo: set<string>, k: string)
    requires k in todo && todo <= origin.Keys
    ensures Merged(h, Restrict(origin, origin.Keys - (todo - {k})))
         == AddValues(Merged(h, Restrict(origin, origin.Keys - todo)), k, origin[k])
  {
    MergedStep(h, origin, origin.Keys - todo, k);
    assert origin.Keys - (todo - {k}) == (origin.Keys - todo) + {k};
  }

  lemma AddValuesSnoc(h: H.Header, k: string, vs: seq<string>, v: string)
    ensures AddValues(h, k, vs + [v]) == H.Add(AddValues(h, k, vs), k, v)
  {
    if vs == [] {
      assert vs + [v] == [v];
    } else {
      assert H.Values(AddValues(h, k, vs), k) == H.Values(h, k) + vs;
      assert H.Values(h, k) + vs + [v] == H.Values(h, k) + (vs + [v]);
    }
  }

  lemma MergedNothing(h: H.Header, origin: H.Header)
    ensures Merged(h, Restrict(origin, {})) == h
  {
    assert Restrict(origin, {}) == map[];
    assert forall k :: H.Values(Merged(h, map[]), k) == H.Values(h, k);
  }

  /** The part of a writer's state that writing, flushing and closing change: everything but headers and status. */
  datatype Snapshot = Snapshot(layers: seq<Layer>, trace: seq<Event>, headersDone: bool, wroteHeader: bool)
  {
    /** `ResponseWriter.Valid` on a snapshot. */
    ghost predicate Valid()
    {
      (wroteHeader <==> trace != []) && WellFormed(trace) && (headersDone ==> wroteHeader)
    }

    /** The bytes that had reached `w.Writer`: the top layer's, or the client's body. */
    function Emitted(): seq<byte>
    {
      if layers == [] then BodyOf(trace) else layers[|layers| - 1].buffered
    }
  }

  function Snap(w: ResponseWriter): Snapshot
    reads w`layers, w`headersDone, w.sink`trace, w.sink`wroteHeader
  {
    Snapshot(w.layers, w.sink.trace, w.headersDone, w.sink.wroteHeader)
  }

  /**
   * `Close` of the top compressing writer: its encoding of what it buffered
   * goes into the writer below, or to the client, which commits status 200
   * with `header` when no status was sent yet.
   */
  function Closed(c: Codecs, s: Snapshot, header: H.Header): Snapshot
    requires s.layers != []
  {
    var top := s.layers[|s.layers| - 1];
    var out := Compressed(c, top.encoder, top.buffered);
    var rest := s.layers[..|s.layers| - 1];
    if rest == [] then
      s.(layers := [], trace := (if s.wroteHeader then s.trace else [StatusSent(200, header)]) + [Bytes(out)],
         wroteHeader := true)
    else
      s.(layers := rest[..|rest| - 1] + [Layer(rest[|rest| - 1].encoder, rest[|rest| - 1].buffered + out)])
  }

  /** Replacing the top layer by one with the same encoder keeps the encoders. */
  lemma EncodersKeepTop(ls: seq<Layer>, l: Layer)
    requires ls != [] && l.encoder == ls[|ls| - 1].encoder
    ensures Encoders(ls[..|ls| - 1] + [l]) == Encoders(ls)
  {
    assert forall i :: 0 <= i < |ls| ==> (ls[..|ls| - 1] + [l])[i].encoder == ls[i].encoder;
  }

  /** The encoders of a prefix are a prefix of the encoders. */
  lemma EncodersPrefix(ls: seq<Layer>, k: nat)
    requires k <= |ls|
    ensures Encoders(ls[..k]) == Encoders(ls)[..k]
  {
  }

  /**
   * Closing drops the top writer, and its encoding of what it buffered is
   * appended to what the writer below had received.
   */
  lemma ClosedEmits(c: Codecs, s: Snapshot, header: H.Header)
    requires s.Valid() && s.layers != []
    ensures Encoders(Closed(c, s, header).layers) == Encoders(s.layers)[..|s.layers| - 1]
    ensures var top := s.layers[|s.layers| - 1];
      Closed(c, s, header).Emitted()
        == (if |s.layers| >= 2 then s.layers[|s.layers| - 2].buffered else BodyOf(s.trace))
           + Compressed(c, top.encoder, top.buffered)
  {
    var u := Closed(c, s, header);
    if |s.layers| >= 2 {
      var k := |s.layers| - 1;
      var below := s.layers[k - 1];
      var out := Compressed(c, s.layers[k].encoder, s.layers[k].buffered);
      assert u.layers == s.layers[..k - 1] + [Layer(below.encoder, below.buffered + out)];
      EncodersKeepTop(s.layers[..k], Layer(below.encoder, below.buffered + out));
      EncodersPrefix(s.layers, k);
    } else {
      var pre := if s.wroteHeader then s.trace else [StatusSent(200, header)];
      assert u.trace[..|u.trace| - 1] == pre;
      assert BodyOf(pre) == BodyOf(s.trace) by {
        if !s.wroteHeader { assert BodyOf([StatusSent(200, header)]) == BodyOf([]) + []; }
      }
    }
  }

  /**
   * `ResponseWriter`: the client sink, the pending status, whether the status
   * was flushed, and the compressing writers stacked on `w.Writer`. The
   * header map is the sink's own (`w.Header()` is `w.rw.Header()`).
   */
  class ResponseWriter {
    const sink: Sink
    var statusCode: int
    var headersDone: bool
    var layers: seq<Layer>

    ghost predicate Valid()
      reads this`headersDone, sink`wroteHeader, sink`trace
    {
      sink.Valid() && (headersDone ==> sink.wroteHeader)
    }

    /** `newResponseWriter`. */
    constructor (s: Sink)
      requires s.Valid()
      ensures Valid() && sink == s && statusCode == 0 && !headersDone && layers == []
    {
      sink := s;
      statusCode, headersDone, layers := 0, false, [];
    }

    /** The bytes that have reached `w.Writer`: the top layer's, or the client's body. */
    function Emitted(): seq<byte>
      reads this`layers, sink`trace
    {
      if layers == [] then BodyOf(sink.trace) else layers[|layers| - 1].buffered
    }

    /** `rw.Count()`: the body bytes that reached the client. */
    function Count(): nat
      reads sink`trace
    {
      |BodyOf(sink.trace)|
    }

    /** `WriteHeader` only records the status; nothing is sent. */
    method WriteHeader(s: int)
      modifies this`statusCode
      ensures statusCode == s
    {
      statusCode := s;
    }

    /** `flushHeaders`: the pending status goes out once, with the headers as they are now. */
    method FlushHeaders()
      requires Valid()
      modifies this`headersDone, sink`wroteHeader, sink`trace
      ensures Valid() && headersDone && sink.wroteHeader
      ensures sink.trace == if old(headersDone) || old(sink.wroteHeader) then old(sink.trace)
                            else [StatusSent(statusCode, sink.header)]
      ensures BodyOf(sink.trace) == BodyOf(old(sink.trace))
    {
      if headersDone {
        return;
      }
      sink.WriteHeader(statusCode);
      headersDone := true;
    }

    /** `w.Writer.Write(b)`: into the top compressing writer, or to the client. */
    method WriteDown(b: seq<byte>)
      requires Valid()
      modifies this`layers, sink`wroteHeader, sink`trace
      ensures Valid() && SameStack(layers, old(layers))
      ensures Emitted() == old(Emitted()) + b
      ensures old(layers) != [] ==> sink.trace == old(sink.trace) && sink.wroteHeader == old(sink.wroteHeader)
      ensures old(layers) == [] ==>
        sink.trace == (if old(sink.wroteHeader) then old(sink.trace) else [StatusSent(200, sink.header)]) + [Bytes(b)]
      ensures old(layers) != [] ==>
        var top := old(layers)[|old(layers)| - 1];
        layers == Below(old(layers)) + [Layer(top.encoder, top.buffered + b)]
    {
      if layers == [] {
        sink.Write(b);
      } else {
        var top := layers[|layers| - 1];
        layers := layers[..|layers| - 1] + [Layer(top.encoder, top.buffered + b)];
        assert Below(layers) == Below(old(layers));
      }
    }

    /** `Write`: the status is flushed first, then the bytes go to `w.Writer`. */
    method Write(b: seq<byte>)
      requires Valid()
      modifies this`headersDone, this`layers, sink`wroteHeader, sink`trace
      ensures Valid() && headersDone && sink.wroteHeader && SameStack(layers, old(layers))
      ensures Emitted() == old(Emitted()) + b
      ensures old(headersDone || sink.wroteHeader) ==> old(sink.trace) <= sink.trace
      ensures old(!headersDone && !sink.wroteHeader) ==> sink.trace[0] == StatusSent(statusCode, sink.header)
      ensures old(layers) != [] ==> BodyOf(sink.trace) == BodyOf(old(sink.trace))
    {
      FlushHeaders();
      WriteDown(b);
    }

    /** `io.Copy(w.Writer, s)` in 32 KiB chunks: every byte, then the read error if any. */
    method CopyDown(s: Stream) returns (err: Option<string>)
      requires Valid()
      modifies this`layers, sink`wroteHeader, sink`trace
      ensures Valid() && SameStack(layers, old(layers))
      ensures Emitted() == old(Emitted()) + s.data
      ensures err == s.err
      ensures old(layers) != [] || old(sink.wroteHeader) ==> sink.wroteHeader == old(sink.wroteHeader)
      ensures old(sink.wroteHeader) ==> old(sink.trace) <= sink.trace
    {
      var i := 0;
      while i < |s.data|
        invariant 0 <= i <= |s.data|
        invariant Valid() && SameStack(layers, old(layers))
        invariant Emitted() == old(Emitted()) + s.data[..i]
        invariant old(layers) != [] || old(sink.wroteHeader) ==> sink.wroteHeader == old(sink.wroteHeader)
        invariant old(sink.wroteHeader) ==> old(sink.trace) <= sink.trace
      {
        var n := if |s.data| - i < ChunkSize then |s.data| - i else ChunkSize;
        WriteDown(s.data[i..i + n]);
        assert s.data[..i + n] == s.data[..i] + s.data[i..i + n];
        i := i + n;
      }
      assert s.data[..i] == s.data;
      err := s.err;
    }

    /** `ReadFrom`: the status is committed even for an empty body, then the body is copied. */
    method ReadFrom(r: ResponseReader, c: Codecs) returns (err: Option<string>)
      requires Valid()
      modifies this`headersDone, this`layers, sink`wroteHeader, sink`trace, r`drained
      ensures Valid() && headersDone && sink.wroteHeader && SameStack(layers, old(layers))
      ensures Emitted() == old(Emitted()) + r.Content(c).data
      ensures err == r.Content(c).err && r.Count() == |r.body.data|
      ensures old(!headersDone && !sink.wroteHeader) ==> [StatusSent(statusCode, sink.header)] <= sink.trace
    {
      FlushHeaders();
      var s := r.ReadAll(c);
      err := CopyDown(s);
    }

    /** The inner loop of `takeHeaders`: `Add` of each value of one key, in order. */
    method AddAll(k: string, vs: seq<string>)
      modifies sink`header
      ensures sink.header == AddValues(old(sink.header), k, vs)
    {
      var j := 0;
      while j < |vs|
        invariant 0 <= j <= |vs|
        invariant sink.header == AddValues(old(sink.header), k, vs[..j])
      {
        AddValuesSnoc(old(sink.header), k, vs[..j], vs[j]);
        sink.header := H.Add(sink.header, k, vs[j]);
        assert vs[..j + 1] == vs[..j] + [vs[j]];
        j := j + 1;
      }
      assert vs[..j] == vs;
    }

    /** `takeHeaders`: every origin header value is appended, and the origin status becomes pending. */
    method TakeHeaders(r: ResponseReader)
      modifies this`statusCode, sink`header
      ensures sink.header == Merged(old(sink.header), r.header)
      ensures statusCode == r.statusCode
    {
      ghost var h0 := sink.header;
      var origin := r.header;
      var todo := origin.Keys;
      MergedNothing(h0, origin);
      while todo != {}
        invariant todo <= origin.Keys
        invariant sink.header == Merged(h0, Restrict(origin, origin.Keys - todo))
        decreases todo
      {
        var k :| k in todo;
        AddAll(k, origin[k]);
        TakeStep(h0, origin, todo, k);
        todo := todo - {k};
      }
      assert Restrict(origin, origin.Keys) == origin;
      WriteHeader(r.statusCode);
    }

    /** `setChunked`: `Content-Length` is removed, every other header kept. */
    method SetChunked()
      modifies sink`header
      ensures sink.header == H.Del(old(sink.header), "Content-Length")
    {
      sink.header := H.Del(sink.header, "Content-Length");
    }

    /** A compressing writer replaces `w.Writer`. */
    method Push(e: Encoder)
      modifies this`layers
      ensures layers == old(layers) + [Layer(e, [])]
    {
      layers := layers + [Layer(e, [])];
    }

    /** The deferred `Close` of the top compressing writer: its output goes to the writer below. */
    method Close(c: Codecs)
      requires Valid() && layers != []
      modifies this`layers, sink`wroteHeader, sink`trace
      ensures Valid()
      ensures Snap(this) == Closed(c, old(Snap(this)), sink.header)
    {
      ghost var s := Snap(this);
      var top := layers[|layers| - 1];
      layers := layers[..|layers| - 1];
      WriteDown(Compressed(c, top.encoder, top.buffered));
      if s.layers[..|s.layers| - 1] == [] {
        assert |layers| == 0;
      } else {
        assert Below(s.layers[..|s.layers| - 1]) == s.layers[..|s.layers| - 2];
      }
    }
  }

  /** `io.Copy`'s buffer size. */
  const ChunkSize: nat := 32 * 1024
}
