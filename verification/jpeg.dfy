/** The JPEG transcoder (transcoder/jpeg.go). */
module JpegTranscoder {
  import opened Wrappers
  import opened Codecs
  import opened Response
  import opened TranscoderUtil
  import Images
  import opened Pipeline
  import H = Header

  /** `NewJpeg`: the given quality, with optimized Huffman coding. */
  function NewJpeg(quality: int): (opts: JpegOptions)
    ensures opts.quality == quality && opts.optimizeCoding
  {
    JpegOptions(quality, true)
  }

  /** The encoder `Jpeg.Transcode` picks: lossy WebP at the stored quality, or JPEG with the stored options. */
  function Encoder(opts: JpegOptions, c: Codecs): (Image, bool) -> Stream
  {
    (img: Image, webp: bool) => if webp then c.encodeWebP(img, WebPOptions(false, opts.quality)) else c.encodeJpeg(img, opts)
  }

  /** What `Jpeg.Transcode` amounts to. */
  function Run(opts: JpegOptions, st: PipelineState, headers: H.Header, c: Codecs, body: Stream): Outcome
  {
    Images.Recoded(st, headers, c, body, c.decodeJpeg, Encoder(opts, c))
  }

  /** `Jpeg.Transcode`. */
  method Transcode(opts: JpegOptions, w: ResponseWriter, r: ResponseReader, headers: H.Header, c: Codecs)
    returns (err: Option<string>)
    requires w.Valid()
    modifies r`drained, w`headersDone, w`layers, w.sink`header, w.sink`wroteHeader, w.sink`trace
    ensures w.Valid() && SameStack(w.layers, old(w.layers)) && r.drained
    ensures var d := c.decodeJpeg(r.Content(c));
      d.Err? ==> err == Some(d.error) && w.sink.header == old(w.sink.header) && w.sink.trace == old(w.sink.trace)
    ensures var d := c.decodeJpeg(r.Content(c));
      d.Ok? && SupportsWebP(headers) ==>
        var out := c.encodeWebP(d.value, WebPOptions(false, opts.quality));
        w.sink.header == H.Set(old(w.sink.header), "Content-Type", "image/webp")
        && w.Emitted() == old(w.Emitted()) + out.data && err == out.err
        && (out.data != [] && old(!w.headersDone && !w.sink.wroteHeader) ==>
              [StatusSent(w.statusCode, w.sink.header)] <= w.sink.trace)
    ensures var d := c.decodeJpeg(r.Content(c));
      d.Ok? && !SupportsWebP(headers) ==>
        var out := c.encodeJpeg(d.value, opts);
        w.sink.header == old(w.sink.header) && w.Emitted() == old(w.Emitted()) + out.data && err == out.err
    ensures Transcoded(w, old(Snap(w)), Run(opts, old(StateOf(w, r)), headers, c, r.body), err)
  {
    err := Images.Recode(w, r, headers, c, c.decodeJpeg, Encoder(opts, c));
  }
}
