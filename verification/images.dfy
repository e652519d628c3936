/**
 * The branch structure the three image transcoders share (transcoder/jpeg.go,
 * transcoder/png.go, transcoder/gif.go): decode the whole body, fail with the
 * decoder's error, otherwise announce WebP when the client accepts it and
 * write what the chosen encoder produces.
 */
module Images {
  import opened Wrappers
  import opened Codecs
  import opened Response
  import opened TranscoderUtil
  import opened Pipeline
  import H = Header

  const WebPType := "image/webp"

  /**
   * What `Recode` amounts to: a decode error writes nothing and changes no
   * header; otherwise `Content-Type` is WebP's when the client takes WebP, and
   * the encoder's output is written iff it is not empty.
   */
  function Recoded(st: PipelineState, headers: H.Header, c: Codecs, body: Stream,
                   decode: Stream -> Result<Image>, encode: (Image, bool) -> Stream): Outcome
  {
    match decode(Decoded(c, st.decoders, body))
    case Err(e) => Outcome(st.writerHeader, [], Some(e), false, false)
    case Ok(img) =>
      var webp := SupportsWebP(headers);
      var out := encode(img, webp);
      Outcome(if webp then H.Set(st.writerHeader, "Content-Type", WebPType) else st.writerHeader,
              out.data, out.err, out.data != [], out.data != [])
  }

  /**
   * Decode with `decode`; on success set `Content-Type: image/webp` when
   * `SupportsWebP(headers)`, then write what `encode(img, webp)` wrote and
   * return its error. A decode failure changes no header and writes nothing.
   */
  method Recode(w: ResponseWriter, r: ResponseReader, headers: H.Header, c: Codecs,
                decode: Stream -> Result<Image>, encode: (Image, bool) -> Stream)
    returns (err: Option<string>)
    requires w.Valid()
    modifies r`drained, w`headersDone, w`layers, w.sink`header, w.sink`wroteHeader, w.sink`trace
    ensures w.Valid() && SameStack(w.layers, old(w.layers)) && r.drained
    ensures decode(r.Content(c)).Err? ==>
      err == Some(decode(r.Content(c)).error) && w.sink.header == old(w.sink.header)
      && w.sink.trace == old(w.sink.trace) && w.layers == old(w.layers) && w.headersDone == old(w.headersDone)
    ensures decode(r.Content(c)).Ok? ==>
      var webp := SupportsWebP(headers);
      var out := encode(decode(r.Content(c)).value, webp);
      w.sink.header == (if webp then H.Set(old(w.sink.header), "Content-Type", WebPType) else old(w.sink.header))
      && w.Emitted() == old(w.Emitted()) + out.data && err == out.err
      && (out.data == [] ==> w.sink.trace == old(w.sink.trace) && w.layers == old(w.layers))
      && (out.data != [] && old(!w.headersDone && !w.sink.wroteHeader) ==>
            [StatusSent(w.statusCode, w.sink.header)] <= w.sink.trace)
    ensures Transcoded(w, old(Snap(w)), Recoded(old(StateOf(w, r)), headers, c, r.body, decode, encode), err)
  {
    var s := r.ReadAll(c);
    var img := decode(s);
    if img.Err? {
      return Some(img.error);
    }
    var webp := SupportsWebP(headers);
    if webp {
      w.sink.header := H.Set(w.sink.header, "Content-Type", WebPType);
    }
    var out := encode(img.value, webp);
    if out.data != [] {
      w.Write(out.data);
    }
    return out.err;
  }
}
