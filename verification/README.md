# compy — a Dafny model of the proxy core

compy is an HTTP(S) proxy that makes web traffic smaller. It forwards each client
request to the origin server and copies the origin's status and headers to the client.
It then either passes the body through or hands it to a *transcoder* registered for the
response's media type:

- a recompression decorator (`Zip` or `Gzip`), which undoes the origin's gzip or Brotli
  coding and compresses again with what the client accepts;
- an image transcoder (`Jpeg`, `Png`, `Gif`), which re-encodes the picture, as WebP when
  the client's `Accept` header lists `image/webp`;
- the identity transcoder, which copies the body.

The proxy also checks `Proxy-Authorization` Basic credentials (section 2 of RFC 7617)
when a user is configured. It refuses CONNECT without a man-in-the-middle listener,
serves its own status page and CA certificate, and adds the bytes read from origins and
written to clients to two counters.

The model follows the program's structure:

| module | what it models |
|---|---|
| `Proxy` (proxy.dfy) | class `Proxy` with its fields; `handle` split into `Handle`, `Serve` and `Respond`; `handleLocalRequest`, `handleConnect`, `forward`, `proxyResponse`; the pure routing function `Decide` that these methods are proved against |
| `Response` (response.dfy) | the `ResponseReader` and `ResponseWriter` adapters as classes; the server's `http.ResponseWriter` as class `Sink`, which records what reaches the client as a trace of events |
| `BasicAuth` (auth.dfy) | `checkHttpBasicAuth` |
| `AcceptEncoding` (accept_encoding.dfy) | `stripUnsupportedEncodings` and the `Accept-Encoding` rewrite in `handle` |
| `TranscoderUtil` (transcoder_util.dfy) | `SupportsWebP`, and the `Accept-Encoding` scans of the two compression decorators |
| `Pipeline`, `ZipStage`, `GzipStage` (pipeline.dfy, zip.dfy, gzip.dfy) | the compression decorators; what each does before its inner call is a pure `Stage` function, and an imperative `Apply` is proved equal to it |
| `Images`, `JpegTranscoder`, `PngTranscoder`, `GifTranscoder` (images.dfy, jpeg.dfy, png.dfy, gif.dfy) | the image transcoders |
| `IdentityTranscoder` (identity.dfy) | the identity transcoder |
| `Transcoders` (transcoders.dfy) | the registered transcoders as a datatype, with decorators nesting their inner transcoder |
| `GoStrings`, `GoBytes`, `Base64`, `Header` | the parts of Go's `strings`, `encoding/base64` and `net/http.Header` that the core relies on |

Compression and image codecs are library code. A `Codecs` value carries them as
functions, so every property proved holds for any codec. Some inputs are parameters of the
methods that need them:

- `os.Hostname` is an `Option<string>` parameter.
- The transport's `RoundTrip` is a function from request to response or error.
- The rendered status page is a function of the two counters.
- `http.ServeFile` is a function from path to status and body.
- Loading the CA and root certificates in `EnableMitm` is given as two results.

The `Accept-Encoding` rewrite in `handle` reads its list from a header named
`Accepted-Encoding` (proxy/proxy.go:147). The program's own tests expect the list the client
sent in `Accept-Encoding`. Both versions are modelled: `AcceptEncoding.Rewrite` as written and
`AcceptEncoding.IntendedRewrite` as corrected. The proxy uses the corrected one; see
"## Findings".

Two behaviours of the code are modelled as written:
- `ResponseWriter.ReadFrom` (proxy/response.go:72) returns only an `error`, so it is not an
  `io.ReaderFrom`. `io.Copy(w, r)` in the identity transcoder therefore loops over
  `w.Write`. For an empty body `Write` is never called and the pending status is never
  flushed; net/http then answers with its implicit 200. `IdentityTranscoder.Copy` states this.
- `Identity.Transcode` (transcoder/identity.go:10) takes no `headers` argument, unlike
  `proxy.Transcoder`. The model calls it as a transcoder that ignores the headers.

## Model

| member | source | states |
|---|---|---|
| `Proxy.Decide` | proxy/proxy.go:131-162 | the route `handle` takes: 407 only when a user is configured; the CONNECT tunnel iff the method is CONNECT and authentication passed; a forwarded request keeps its method |
| `Proxy.Dispatch` | proxy/proxy.go:146-164 | after authentication and CONNECT, a request, with its `Accept-Encoding` rewritten as intended, is either answered locally or forwarded, never anything else |
| `Proxy.AuthGate` | proxy/proxy.go:133-138 | with no user configured, no request is refused; with one, exactly the requests whose `Proxy-Authorization` fails `checkHttpBasicAuth` get 407 |
| `Proxy.ForwardedHeaders` | proxy/proxy.go:139-154 | a forwarded request has no `Proxy-Authorization` when a user is configured, otherwise exactly its headers after the intended `Accept-Encoding` rewrite; its method is kept and is never CONNECT |
| `Proxy.ForwardedCodings` | proxy/proxy.go:146-154 | a forwarded request that came with an `Accept-Encoding` lets the compression decorators use "br" or "gzip" iff the client listed it, with or without configured credentials |
| `Proxy.ConnectRoute` | proxy/proxy.go:133-144 | a CONNECT request is either refused by authentication or tunnelled |
| `Proxy.LocalPages` | proxy/proxy.go:182-210 | the status page exactly for GET "" or "/"; GET "/cacert" gives 404 iff no certificate is configured and the certificate otherwise; everything else gets 501 (both directions) |
| `Proxy.NormalizedScheme` | proxy/proxy.go:215-221 | an empty scheme becomes "https" iff the request is TLS and its server name equals `Host`, else "http"; a set scheme is kept |
| `Proxy.NormalizedRest` | proxy/proxy.go:222-225 | the URL host becomes the target host, `RequestURI` is cleared, and the method, path, headers, host and TLS state are unchanged |
| `Proxy.NormalizedIdempotent` | proxy/proxy.go:214-227 | forwarding an already normalized request changes nothing |
| `Proxy.Forward` | proxy/proxy.go:214-227 | the request sent is the normalized one, and the response is the transport's answer to it |
| `Proxy.RewriteAcceptEncoding` | proxy/proxy.go:146-154 | the imperative rewrite, reading the list from `Accept-Encoding` as corrected under "## Findings", equals `AcceptEncoding.IntendedRewrite` |
| `Proxy.TranscodeChunked` | proxy/proxy.go:235-239 | the writer goes exactly as the transcoder's `Transcoders.Run` outcome says, with its error, if any, behind "transcoding error: " and `None` otherwise; no status line it sends carries `Content-Length`, nor does the final header map |
| `Proxy.Prefixed` | proxy/proxy.go:236-239 | the returned error is present iff the transcoder's is, and is then "transcoding error: " followed by exactly the transcoder's message |
| `Proxy.Transcoding` | proxy/proxy.go:235-239 | the transcoding branch after `setChunked`: no transcoder brings `Content-Length` back, and it fails iff the transcoder does, with the prefixed error |
| `Proxy.Proxy.constructor` | proxy/proxy.go:34-42 | `New`: the given host and certificate path, no transcoders, no mitm listener, no credentials, zero counters |
| `Proxy.Proxy.EnableMitm` | proxy/proxy.go:44-70 | the CA error comes first, the root-certificate error is reported only when a certificate path is set, and the listener is enabled iff no error is returned |
| `Proxy.Proxy.SetAuthentication` | proxy/proxy.go:72-75 | the stored user and password become the given ones |
| `Proxy.Proxy.AddTranscoder` | proxy/proxy.go:77-79 | the content type maps to the new transcoder and every other registration is kept |
| `Proxy.Proxy.HandleConnect` | proxy/proxy.go:242-246 | without mitm: the fixed error and nothing written; with it: status 200 sent before the hijack |
| `Proxy.Proxy.HandleLocalRequest` | proxy/proxy.go:181-212 | per page: `text/html` and 200 with the rendered counters; net/http's plain-text, `nosniff` 404 with its body; the certificate's content type, status and body; or a bare 501 |
| `Proxy.Proxy.NotFound` | proxy/proxy.go:202 | `http.NotFound`: `text/plain; charset=utf-8` and `nosniff` set, then status 404 and net/http's body |
| `Proxy.Proxy.ProxyResponse` | proxy/proxy.go:229-240 | the origin status becomes pending and every origin header value is appended; without a transcoder the client gets the status, the merged headers and exactly the decoded body, and the copy's error; with one, the writer goes as `Transcoding` of `transcoders[r.ContentType()]` from the merged headers says: its headers, bytes, status and exact prefixed error, and no status line with `Content-Length` |
| `Proxy.Proxy.ProxyBody` | proxy/proxy.go:231-239 | the choice between `ReadFrom` and the registered transcoder is made on the reader's media type; on a hit, exactly `transcoders[ct]` runs after `setChunked`, as `Transcoding` says |
| `Proxy.Proxy.Handle` | proxy/proxy.go:131-179 | for each route of `Decide`: the 407 with `Proxy-Authenticate`, the CONNECT outcomes, or what `Serve` promises; the counters grow by exactly the returned read and written counts |
| `Proxy.Proxy.Serve` | proxy/proxy.go:146-178 | the route of `Dispatch`: each local page with the status, headers and body `HandleLocalRequest` promises and zero counts; a failed round trip gives a bare 500 and "error forwarding request: " plus the transport's error; a successful one is answered as in `Respond` |
| `Proxy.Proxy.Respond` | proxy/proxy.go:169-178 | the counters grow by the client's body bytes and by zero or the whole origin body; without a transcoder the client gets the origin status, merged headers and body; with `transcoders[ct]`, the client gets exactly that transcoder's outcome: its headers and bytes, a status line iff it wrote anything (the origin's status when it flushed, otherwise 200), never `Content-Length`, and its error prefixed |
| `Proxy.Proxy.Answer` | proxy/proxy.go:170-174 | `proxyResponse` on fresh adapters: what `Respond` promises about the client, with the two counts read off the adapters |
| `Response.Sink.constructor` | proxy/response.go:47-53 | a fresh client connection: empty headers, nothing sent |
| `Response.Sink.WriteHeader` | proxy/response.go:83-89 | the first status sent wins and carries the headers as they are then; a later one is ignored |
| `Response.Sink.Write` | proxy/response.go:78-81 | a body write sends an implicit 200 first when no status was sent, and appends exactly the bytes to the body |
| `Response.ResponseReader.constructor` | proxy/response.go:17-24 | the read counter wraps the raw body, below every decoder, and has counted nothing |
| `Response.ResponseReader.ContentType` | proxy/response.go:26-30 | the result is "" or a valid lower-case media type without parameters; a missing `Content-Type` gives "" |
| `Response.ResponseReader.ReadAll` | proxy/response.go:72-76 | reading to the end yields the body decoded through the stacked decoders, and the counter then counts the whole raw body |
| `Response.MediaTypeIdempotent` | proxy/response.go:26-30 | parsing a returned media type again gives it back |
| `Response.MediaTypeIgnoresParameters` | proxy/response.go:26-30 | anything after the first ';' leaves the media type unchanged |
| `Response.MediaTypeShape` | proxy/response.go:26-30 | every result of `mime.ParseMediaType` as used is "" or a valid lower-case, parameter-free type |
| `Response.Merged` | proxy/response.go:55-60 | after copying, each key has its earlier values followed by the origin's, and no key appears that neither side had with a value |
| `Response.ResponseWriter.constructor` | proxy/response.go:47-53 | `newResponseWriter`: status 0 pending, headers not flushed, no compressing writer |
| `Response.ResponseWriter.WriteHeader` | proxy/response.go:68-70 | only records the status; nothing is sent |
| `Response.ResponseWriter.FlushHeaders` | proxy/response.go:83-89 | the pending status is sent once, with the headers as they are at that moment, and never again |
| `Response.ResponseWriter.WriteDown` | proxy/response.go:80 | bytes go into the top compressing writer or, without one, to the client's body |
| `Response.ResponseWriter.Write` | proxy/response.go:78-81 | the status is flushed before the first byte; the bytes reach `w.Writer` in order |
| `Response.ResponseWriter.CopyDown` | proxy/response.go:74 | `io.Copy` in 32 KiB chunks passes every byte on in order and returns the read error |
| `Response.ResponseWriter.ReadFrom` | proxy/response.go:72-76 | the status is committed even for an empty body, then exactly the decoded body is copied and its error returned |
| `Response.ResponseWriter.AddAll` | proxy/response.go:57-59 | `Header.Add` of each value of one key, in order |
| `Response.ResponseWriter.TakeHeaders` | proxy/response.go:55-62 | the client's headers become the merge of its headers with all origin values, and the origin status becomes pending |
| `Response.ResponseWriter.SetChunked` | proxy/response.go:91-93 | `Content-Length` is removed and every other header kept |
| `Response.ResponseWriter.Push` | transcoder/zip.go:55-57 | a compressing writer is stacked on `w.Writer` |
| `Response.ResponseWriter.Close` | transcoder/zip.go:56 | the deferred `Close` pops the top writer and sends its compressed output to the writer below, with an implicit 200 first when the client had no status yet |
| `Response.ClosedEmits` | transcoder/zip.go:56 | after `Close` the encoder stack loses exactly its top, and the writer below has received the compression of everything the top writer buffered |
| `BasicAuth.Credentials` | proxy/proxy.go:96-101 | the header value a client builds starts with the case-sensitive "Basic " |
| `BasicAuth.Sound` | proxy/proxy.go:96-110 | an accepted value is "Basic " followed by standard base64 of exactly `user:pass` |
| `BasicAuth.CredentialsAccepted` | proxy/proxy.go:96-110 | the value built from a user without ':' and a password is accepted for exactly that pair and no other |
| `BasicAuth.ColonInUserNeverAccepted` | proxy/proxy.go:105-106 | a configured user containing ':' can never authenticate, because `SplitN` cuts at the first ':' |
| `BasicAuth.SchemeIsCaseSensitive` | proxy/proxy.go:97-100 | any other capitalisation of "Basic " is refused |
| `Base64.DecodeEncode` | proxy/proxy.go:101 | `StdEncoding.DecodeString` recovers every byte string from its encoding |
| `Base64.Encode` | proxy/proxy.go:101 | an encoding has four characters per started group of three bytes and no line breaks |
| `Base64.DecodeQuanta` | proxy/proxy.go:101 | decoding yields at most three bytes per four characters |
| `Base64.ValueOf` | proxy/proxy.go:101 | a decoded character is the alphabet character of its value |
| `Base64.SkipNewlines` | proxy/proxy.go:101 | the decoder ignores '\r' and '\n' |
| `GoBytes.ToStringFromString` | proxy/proxy.go:105 | `string([]byte(s))` is `s` for byte strings |
| `GoStrings.Index` | proxy/proxy.go:116 | `strings.Index` returns the first occurrence, or -1 when there is none |
| `GoStrings.Split` | proxy/proxy.go:116 | `strings.Split` yields at least one field |
| `GoStrings.JoinSplit` | proxy/proxy.go:116 | joining the fields of a split gives the original string back |
| `GoStrings.SplitJoin` | transcoder/zip.go:23 | splitting a join whose parts lack the separator's first character gives the parts back |
| `GoStrings.Cut` | proxy/proxy.go:119 | `SplitN(s, ";", 2)[0]` is the text before the first ';', or all of `s` |
| `GoStrings.RemoveAll` | proxy/proxy.go:116 | `strings.Replace(s, " ", "", -1)` leaves no space and adds no character |
| `Header.Get` | proxy/proxy.go:134 | `Header.Get` is the first value of the key, or "" |
| `Header.Set` | proxy/proxy.go:135 | `Header.Set` makes the key's values exactly one and leaves other keys alone |
| `Header.Del` | proxy/proxy.go:139 | `Header.Del` removes the key and leaves other keys alone |
| `Header.Add` | proxy/response.go:58 | `Header.Add` appends one value after the existing ones and leaves other keys alone |
| `AcceptEncoding.StripUnsupportedEncodings` | proxy/proxy.go:112-129 | the imperative function equals `Stripped`: the "br" and "gzip" names of the space-free comma list, in order, joined by ", " |
| `AcceptEncoding.JoinSupported` | proxy/proxy.go:118-126 | the loop joins exactly the supported names, with ", " between them |
| `AcceptEncoding.Codings` | proxy/proxy.go:116-119 | a list always has at least one coding name, even when it is empty |
| `AcceptEncoding.Supported` | proxy/proxy.go:120 | only "br" and "gzip" are kept, never more names than were listed |
| `AcceptEncoding.StrippedEmpty` | proxy/proxy.go:120-125 | the result is empty iff no listed name is "br" or "gzip" |
| `AcceptEncoding.StrippedIdempotent` | proxy/proxy.go:112-129 | stripping a stripped list changes nothing |
| `AcceptEncoding.StrippedTokens` | proxy/proxy.go:121-124 | split on ", " as the decorators split it, a non-empty result lists the supported names in their original order |
| `AcceptEncoding.RewriteFromAccepts` | proxy/proxy.go:146-154 | after a rewrite that reads its list from a header `from`, a decorator accepts "br" or "gzip" iff `from` lists it |
| `AcceptEncoding.RewriteAccepts` | proxy/proxy.go:146-154 | after the rewrite as written, a decorator accepts "br" or "gzip" iff the `Accepted-Encoding` header lists it |
| `AcceptEncoding.IntendedRewriteAccepts` | proxy/proxy.go:146-154 | after the corrected rewrite, a decorator accepts "br" or "gzip" iff the client's `Accept-Encoding` lists it |
| `AcceptEncoding.RewriteDropsAcceptEncoding` | proxy/proxy.go:146-153 | as written: without an `Accepted-Encoding` header, `Accept-Encoding` is deleted and no coding is accepted |
| `AcceptEncoding.GzipClientRewritten` | proxy/proxy.go:147 | a client sending only `Accept-Encoding: gzip` gets no gzip from the rewrite as written and gzip from the corrected one |
| `AcceptEncoding.BrotliClientRewritten` | proxy/proxy.go:147 | a client sending "br, gzip" keeps exactly that list and Brotli under the corrected rewrite, and loses Brotli as written |
| `AcceptEncoding.StrippedSupported` | proxy/proxy.go:112-129 | a ", "-list of supported names is stripped to itself |
| `AcceptEncoding.RewriteKeepsAbsent` | proxy/proxy.go:146 | a request without `Accept-Encoding` is left alone by either rewrite |
| `TranscoderUtil.SupportsWebPOfTokens` | transcoder/util.go:8-15 | for an `Accept` list of comma-free tokens, WebP is supported iff a token names `image/webp` before any ';' |
| `TranscoderUtil.SupportsWebPOrderFree` | transcoder/util.go:8-15 | reordering the `Accept` tokens does not change the answer |
| `TranscoderUtil.NoAcceptNoWebP` | transcoder/util.go:9 | a missing or empty `Accept` header never gives WebP |
| `TranscoderUtil.ScanAcceptEncoding` | transcoder/zip.go:21-30 | the loop sets `shouldBrotli` and `shouldGzip` to whether some ", "-separated token names "br" or "gzip" |
| `TranscoderUtil.ScanForGzip` | transcoder/gzip.go:28-34 | the loop with its early `break` sets `shouldGzip` to whether some token names "gzip" |
| `TranscoderUtil.UnspacedListAcceptsNothing` | transcoder/zip.go:23 | "br,gzip" without a space is a single token, so neither coding is accepted |
| `Pipeline.Decoding` | transcoder/zip.go:38-41 | a decoder is stacked on the reader and `Content-Encoding` is gone from both header maps |
| `Pipeline.Encoding` | transcoder/zip.go:55-58 | an encoder is stacked on the writer and announced in the client's `Content-Encoding` |
| `Pipeline.PushDecoder` | transcoder/zip.go:45-49 | the reader and writer change exactly as `Decoding` says |
| `Pipeline.PushEncoder` | transcoder/zip.go:60-66 | the reader and writer change exactly as `Encoding` says |
| `ZipStage.ApplyGunzip` | transcoder/zip.go:32-42 | the gunzip block does what `GunzipStep` says, including the `gzip.NewReader` error |
| `ZipStage.ApplyUnbrotli` | transcoder/zip.go:44-50 | the Brotli block does what `UnbrotliStep` says |
| `ZipStage.ApplyEncode` | transcoder/zip.go:52-67 | the re-compression block does what `EncodeStep` says, including the invalid-level error, and stacks at most one writer |
| `ZipStage.Apply` | transcoder/zip.go:20-67 | everything before the inner call equals `Stage`: an error stops before any writer is stacked |
| `ZipStage.DecodeDecision` | transcoder/zip.go:32-50 | a gzip origin is gunzipped iff the client accepts Brotli or skipping is off; a Brotli origin is decoded iff skipping is off; otherwise nothing is decoded |
| `ZipStage.DecodeClearsEncoding` | transcoder/zip.go:40-49 | after a decode step neither side carries `Content-Encoding` unless an encoder set it again |
| `ZipStage.BrotliPreferred` | transcoder/zip.go:52-58 | a client accepting Brotli gets Brotli over a plain body, whether or not it also accepts gzip |
| `ZipStage.GzipOtherwise` | transcoder/zip.go:59-66 | a client accepting gzip but not Brotli gets gzip at the configured level over a plain body |
| `ZipStage.EncodedPassesThrough` | transcoder/zip.go:52-73 | a body still encoded after the decode steps is neither decoded nor re-encoded |
| `ZipStage.NothingAcceptedNothingStacked` | transcoder/zip.go:52-67 | a client accepting neither coding gets no encoder and no new `Content-Encoding` |
| `ZipStage.FailureCauses` | transcoder/zip.go:33-63 | the stage fails exactly on a gunzip header error or on an invalid gzip level that is actually used |
| `ZipStage.OnlyEncodingHeaders` | transcoder/zip.go:20-67 | the stage touches no header but `Content-Encoding`, on either side |
| `GzipStage.ApplyGunzip` | transcoder/gzip.go:17-26 | the decompression block does what `GunzipStep` says, including the `gzip.NewReader` error |
| `GzipStage.ApplyEncode` | transcoder/gzip.go:36-44 | the compression block does what `EncodeStep` says, including the invalid-level error |
| `GzipStage.Apply` | transcoder/gzip.go:16-44 | everything before the inner call equals `Stage` |
| `GzipStage.DecodeDecision` | transcoder/gzip.go:17-26 | the body is gunzipped iff skipping is off and the origin is gzip, and then `Content-Encoding` is gone on both sides |
| `GzipStage.EncodeDecision` | transcoder/gzip.go:36-44 | a gzip writer is stacked iff the client accepts gzip and the body is plain, and then it is announced |
| `GzipStage.EncodedPassesThrough` | transcoder/gzip.go:16-54 | a body left encoded, because skipping is on or the coding is not gzip, passes through untouched |
| `GzipStage.FailureCauses` | transcoder/gzip.go:17-40 | the stage fails exactly on a gunzip header error or on an invalid level that is actually used |
| `GzipStage.OnlyEncodingHeaders` | transcoder/gzip.go:16-44 | the stage touches no header but `Content-Encoding`, on either side |
| `Transcoders.Transcode` | proxy/proxy.go:236 | whatever the transcoder, the writer goes exactly as `Run` says: the leaf's own outcome, or a decorator's stage error with nothing sent, or its inner transcoder's outcome, compressed when the stage stacked an encoder; the stack is kept and only `Content-Encoding` and `Content-Type` change |
| `Transcoders.TranscodeZip` | transcoder/zip.go:20-69 | `Zip.Transcode`: a failing stage returns its error with nothing sent; otherwise the inner transcoder runs once on the state `ZipStage.Stage` set up, its error is returned, and the client gets the compression of what it wrote when an encoder was stacked, or exactly what it wrote otherwise |
| `Transcoders.TranscodeGzip` | transcoder/gzip.go:16-46 | `Gzip.Transcode`: the same with `GzipStage.Stage` |
| `Transcoders.Delegate` | transcoder/zip.go:52-68 | after a stage that succeeded, the writer goes as `Wrapped` of the inner outcome says: the inner transcoder runs once on the state the stage left, and its output is compressed iff an encoder was stacked |
| `Transcoders.WrappedPushed` | transcoder/zip.go:55-68 | a decorator that stacked encoder `e` passes on `Compressed(c, e, …)` of its inner output and always counts as having written |
| `Transcoders.InnerThenClose` | transcoder/zip.go:56-68 | the inner call once, then the deferred `Close`: the writer below gets `Compressed(c, e, …)` of the inner output, and the error is the inner one |
| `Transcoders.RunTouchesOnlyCoding` | proxy/proxy.go:236 | no transcoder, decorated or not, changes a client header but `Content-Encoding` and `Content-Type` |
| `Pipeline.CloseAfterInner` | transcoder/zip.go:56-68 | closing the encoder a decorator stacked turns the inner outcome into its compression, on the writer the decorator was given |
| `Pipeline.StatusCarriesFinalHeader` | proxy/response.go:83-89 | every status line a transcoder sends carries the client headers as they are when it returns |
| `Pipeline.OnFreshWriter` | proxy/proxy.go:170-172 | on a fresh writer the client gets exactly the outcome's bytes, after a status line iff anything was written |
| `ZipStage.FailedState` | transcoder/zip.go:33-63 | a failing stage has touched only `Content-Encoding` and stacked no encoder |
| `GzipStage.FailedState` | transcoder/gzip.go:17-40 | a failing stage has touched only `Content-Encoding` and stacked no encoder |
| `IdentityTranscoder.Transcode` | transcoder/identity.go:10-13 | every decoded byte reaches `w.Write` in order and the read error is returned; no header changes; the writer goes as `IdentityTranscoder.Run` says |
| `IdentityTranscoder.CopyChunk` | transcoder/identity.go:11 | one `Write` of the next chunk of at most 32 KiB keeps the copy invariant and advances |
| `IdentityTranscoder.Copy` | transcoder/identity.go:11 | an empty body changes nothing, not even the pending status; a non-empty one flushes the status first |
| `Images.Recode` | transcoder/png.go:12-32 | the shared image branch: a decode error changes and sends nothing; otherwise `image/webp` is set iff WebP is supported, and exactly the encoder's output and error follow, as `Recoded` says |
| `JpegTranscoder.NewJpeg` | transcoder/jpeg.go:15-23 | the given quality, with optimized coding |
| `JpegTranscoder.Transcode` | transcoder/jpeg.go:25-46 | a decode error is returned with nothing sent; lossy WebP at the stored quality when accepted, otherwise JPEG with the stored options, with the headers unchanged |
| `PngTranscoder.Transcode` | transcoder/png.go:12-32 | a decode error is returned with nothing sent; lossless WebP when accepted, otherwise PNG, with the headers unchanged |
| `GifTranscoder.Transcode` | transcoder/gif.go:12-31 | a decode error is returned with nothing sent; lossless WebP when accepted, otherwise GIF, with the headers unchanged |
| `Codecs.Decimal` | transcoder/gzip.go:37-39 | the `%d` text of the level in `gzip.NewWriterLevel`'s error: a '-' exactly for a negative level, then digits, with no leading zero except for 0 |
| `Codecs.DecimalRoundTrip` | transcoder/gzip.go:37-39 | that text reads back as exactly the level printed |
| `Codecs.InvalidLevelInjective` | transcoder/zip.go:60-62 | two different invalid levels never give the same error text |

## Findings

| source | as written | input that shows it | evidently intended | confidence | as-written member | corrected member |
|---|---|---|---|---|---|---|
| proxy/proxy.go:147 | the supported codings are taken from `r.Header.Get("Accepted-Encoding")`, a header no client sends, so a client's `Accept-Encoding` is always deleted | `Accept-Encoding: gzip` (the request of compy_test.go:83-99, which expects `Content-Encoding: gzip`) or "br, gzip" (compy_test.go:101-116, which expects "br") | the list is taken from `Accept-Encoding` itself, so the decorators see the supported codings the client listed | not executed | `AcceptEncoding.Rewrite`, with `AcceptEncoding.RewriteDropsAcceptEncoding` and `AcceptEncoding.GzipClientRewritten` | `AcceptEncoding.IntendedRewrite`, with `AcceptEncoding.IntendedRewriteAccepts`, used by `Proxy.Dispatch` and `Proxy.RewriteAcceptEncoding` |

## Left out

- TLS is not modelled: the man-in-the-middle listener, certificate faking and the hijack in `handleConnect` after status 200. These are network and crypto code (proxy/mitmconn.go, proxy/mitmlistener.go, proxy/certfaker.go). `EnableMitm` keeps only its error order and whether the listener is enabled.
- `Start`, `StartTLS`, `ServeHTTP` and the logging are left out: they are I/O around `handle`.
- compy.go and the minify and text transcoders are not part of this model.
- Compression and image codecs are opaque functions: no property depends on what they compute.
- Brotli quality and gzip level are passed through as integers. Only gzip's level range check is modelled.
- Compressed output is emitted when the compressing writer is closed, not while the body is written. The model says nothing about how bytes are split into chunks on the wire.
- `Proxy.Proxy.Respond`: the read counter is modelled as having counted the whole raw body once a stage has read it, and nothing otherwise. A decoder that stops early, or an encoder error after a partial read, is not tracked byte by byte.
- `ReadCount` and `WriteCount` are `uint64` updated with `atomic.AddUint64`. The model has one request at a time and unbounded `nat` counters, with no wrap-around.
- The status page's percentage is a floating-point ratio inside the rendered HTML. The page is a parameter (`page`) of `HandleLocalRequest`.
- `Proxy.Proxy.HandleLocalRequest`: for the certificate, `http.ServeFile`'s own headers (`Content-Length`, `Last-Modified`, range handling) are not modelled; its answer is a status and a body.
- Errors of client writes are not modelled: a write to the client always succeeds, as the proxy ignores the error of `io.WriteString` in any case.
- `Response.ResponseReader.ContentType`: `mime.ParseMediaType` is modelled for the media type only. Parameter parsing errors, such as duplicate parameters that would make Go return an empty type, are not modelled.
- Lower-casing and space trimming cover ASCII only. Go's Unicode case folding is not modelled.
- Header keys are taken to be canonical already: `CanonicalMIMEHeaderKey` is the identity.
- The `*http.Request` is a value. `forward` changes the caller's request in place, which the model expresses by returning the changed request. Aliasing of the request and its header map between `handle` and the transport is not modelled.
- `handleConnect` after the hijack (serving the tunnelled connection and closing it) is left out with the rest of TLS.
