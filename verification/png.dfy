/** The PNG transcoder (transcoder/png.go). */
module PngTranscoder {
  import opened Wrappers
  import opened Codecs
  import opened Response
  import opened TranscoderUtil
  import Images
  import opened Pipeline
  import H = Header

  /** The encoder `Png.Transcode` picks: lossless WebP, or PNG. */
  function Encoder(c: Codecs): (Image, bool) -> Stream
  {
    (img: Image, webp: bool) => if webp then c.encodeWebP(img, WebPOptions(true, 0)) else c.encodePng(img)
  }

  /** What `Png.Transcode` amounts to. */
  function Run(st: PipelineState, headers: H.Header, c: Codecs, body: Stream): Outcome
  {
    Images.Recoded(st, headers, c, body, c.decodePng, Encoder(c))
  }

  /** `Png.Transcode`. */
  method Transcode(w: ResponseWriter, r: ResponseReader, headers: H.Header, c: Codecs)
    returns (err: Option<string>)
    requires w.Valid()
    modifies r`drained, w`headersDone, w`layers, w.sink`header, w.sink`wroteHeader, w.sink`trace
    ensures w.Valid() && SameStack(w.layers, old(w.layers)) && r.drained
    ensures var d := c.decodePng(r.Content(c));
      d.Err? ==> err == Some(d.error) && w.sink.header == old(w.sink.header) && w.sink.trace == old(w.sink.trace)
    ensures var d := c.decodePng(r.Content(c));
      d.Ok? && SupportsWebP(headers) ==>
        var out := c.encodeWebP(d.value, WebPOptions(true, 0));
        w.sink.header == H.Set(old(w.sink.header), "Content-Type", "image/webp")
        && w.Emitted() == old(w.Emitted()) + out.data && err == out.err
        && (out.data != [] && old(!w.headersDone && !w.sink.wroteHeader) ==>
              [StatusSent(w.statusCode, w.sink.header)] <= w.sink.trace)
    ensures var d := c.decodePng(r.Content(c));
      d.Ok? && !SupportsWebP(headers) ==>
        var out := c.encodePng(d.value);
        w.sink.header == old(w.sink.header) && w.Emitted() == old(w.Emitted()) + out.data && err == out.err
    ensures Transcoded(w, old(Snap(w)), Run(old(StateOf(w, r)), headers, c, r.body), err)
  {
    err := Images.Recode(w, r, headers, c, c.decodePng, Encoder(c));
  }
}
