/**
 * The proxy itself (proxy/proxy.go): the registry of transcoders, the
 * credentials, the counters, and the handling of one request — proxy
 * authentication, CONNECT, the proxy's own pages, forwarding and the
 * transcoding of the origin's response.
 */
module Proxy {
  import opened Wrappers
  import opened GoBytes
  import opened GoStrings
  import opened Codecs
  import opened Response
  import BasicAuth
  import AcceptEncoding
  import TranscoderUtil
  import Transcoders
  import opened Pipeline
  import H = Header

  /** `r.URL`: the parts the proxy reads or fills in. */
  datatype Url = Url(scheme: string, host: string, path: string)

  /** An incoming `*http.Request`; `tls` is the TLS server name when the connection is TLS. */
  datatype Request = Request(
    httpMethod: string,
    url: Url,
    host: string,
    header: H.Header,
    tls: Option<string>,
    requestURI: string)

  /** The origin's `*http.Response`. */
  datatype Origin = Origin(statusCode: int, header: H.Header, body: Stream)

  /** What `http.ServeFile` answers for the certificate file. */
  datatype ServedFile = ServedFile(status: int, body: seq<byte>)

  /** The configuration `handle` consults. */
  datatype Settings = Settings(user: string, pass: string, host: string, cert: string)

  /** The pages of `handleLocalRequest`. */
  datatype LocalPage = StatusPage | CaCert | NoCert | NotImplemented

  /** What `handle` does with a request. */
  datatype Route =
    | AuthRequired
    | Connect
    | Local(page: LocalPage)
    | Upstream(request: Request)

  const ProxyAuthorization := "Proxy-Authorization"
  const Realm := "Basic realm=\"Compy\""
  const NoMitm := "CONNECT received but mitm is not enabled"
  const NotFoundBody := "404 page not found\n"

  /** The headers net/http's `NotFound` sets: a plain-text body that browsers must not sniff. */
  function NotFoundHeader(h: H.Header): H.Header
  {
    H.Set(H.Set(h, "Content-Type", "text/plain; charset=utf-8"), "X-Content-Type-Options", "nosniff")
  }

  // ---- Pure decision logic ----

  /** `handleLocalRequest`'s choice of page. */
  function LocalRoute(httpMethod: string, path: string, cert: string): LocalPage
  {
    if httpMethod == "GET" && (path == "" || path == "/") then StatusPage
    else if httpMethod == "GET" && path == "/cacert" then (if cert == "" then NoCert else CaCert)
    else NotImplemented
  }

  /** The host a request is for: the URL's, else the `Host` header's. */
  function TargetHost(r: Request): string
  {
    if r.url.host == "" then r.host else r.url.host
  }

  /** The request is for the proxy itself: its own address, or the machine's name followed by it. */
  predicate IsLocal(proxyHost: string, target: string, hostname: Option<string>)
  {
    target == proxyHost || (hostname.Some? && target == hostname.value + proxyHost)
  }

  /** The request `forward` hands to the transport. */
  function Normalized(r: Request): Request
  {
    var scheme := if r.url.scheme != "" then r.url.scheme
                  else if r.tls.Some? && r.tls.value == r.host then "https" else "http";
    var host := if r.url.host == "" then r.host else r.url.host;
    r.(url := r.url.(scheme := scheme, host := host), requestURI := "")
  }

  /** What `handle` does with `r`, given the configuration and the result of `os.Hostname`. */
  function Decide(s: Settings, r: Request, hostname: Option<string>): (route: Route)
    ensures route.AuthRequired? ==> s.user != ""
    ensures route.Connect? <==> r.httpMethod == "CONNECT" && !route.AuthRequired?
    ensures route.Upstream? ==> route.request.httpMethod == r.httpMethod
  {
    if s.user != "" && !BasicAuth.CheckHttpBasicAuth(H.Get(r.header, ProxyAuthorization), s.user, s.pass) then
      AuthRequired
    else
      var r1 := if s.user != "" then r.(header := H.Del(r.header, ProxyAuthorization)) else r;
      if r1.httpMethod == "CONNECT" then Connect else Dispatch(s, r1, hostname)
  }

  /** The rest of `Decide`, once authentication and CONNECT are out of the way. */
  function Dispatch(s: Settings, r: Request, hostname: Option<string>): (route: Route)
    ensures route.Local? || route.Upstream?
  {
    var r' := r.(header := AcceptEncoding.IntendedRewrite(r.header));
    if IsLocal(s.host, TargetHost(r'), hostname) then Local(LocalRoute(r'.httpMethod, r'.url.path, s.cert))
    else Upstream(Normalized(r'))
  }

  // ---- Properties of the decision ----

  /** Without a configured user every request passes; with one, exactly the failing checks are refused. */
  lemma AuthGate(s: Settings, r: Request, hostname: Option<string>)
    ensures s.user == "" ==> !Decide(s, r, hostname).AuthRequired?
    ensures s.user != "" ==>
      (Decide(s, r, hostname).AuthRequired? <==> !BasicAuth.CheckHttpBasicAuth(H.Get(r.header, ProxyAuthorization), s.user, s.pass))
  {
  }

  /** A request that passed a configured check is forwarded without its credentials, and with its codings rewritten. */
  lemma ForwardedHeaders(s: Settings, r: Request, hostname: Option<string>)
    requires Decide(s, r, hostname).Upstream?
    ensures var q := Decide(s, r, hostname).request;
      (s.user != "" ==> ProxyAuthorization !in q.header)
      && (s.user == "" ==> q.header == AcceptEncoding.IntendedRewrite(r.header))
      && q.httpMethod == r.httpMethod && q.httpMethod != "CONNECT"
  {
    var q := Decide(s, r, hostname).request;
    if s.user != "" {
      var h := H.Del(r.header, ProxyAuthorization);
      assert q.header == AcceptEncoding.IntendedRewrite(h);
    }
  }

  /**
   * A forwarded request that came with an `Accept-Encoding` lets the
   * compression stages use "br" or "gzip" exactly when the client listed it.
   */
  lemma ForwardedCodings(s: Settings, r: Request, hostname: Option<string>, coding: string)
    requires Decide(s, r, hostname).Upstream?
    requires H.Get(r.header, "Accept-Encoding") != "" && AcceptEncoding.IsSupported(coding)
    ensures TranscoderUtil.Accepts(Decide(s, r, hostname).request.header, coding)
            <==> coding in AcceptEncoding.Supported(AcceptEncoding.Codings(H.Get(r.header, "Accept-Encoding")))
  {
    var h := if s.user != "" then H.Del(r.header, ProxyAuthorization) else r.header;
    assert H.Get(h, "Accept-Encoding") == H.Get(r.header, "Accept-Encoding");
    assert Decide(s, r, hostname).request.header == AcceptEncoding.IntendedRewrite(h);
    AcceptEncoding.IntendedRewriteAccepts(h, coding);
  }

  /** CONNECT is routed to the tunnel exactly when authentication passed. */
  lemma ConnectRoute(s: Settings, r: Request, hostname: Option<string>)
    requires r.httpMethod == "CONNECT"
    ensures Decide(s, r, hostname) == Connect || Decide(s, r, hostname) == AuthRequired
  {
  }

  /** The admin pages: the status page for GET of "" or "/", the certificate or 404 for GET /cacert, 501 otherwise. */
  lemma LocalPages(httpMethod: string, path: string, cert: string)
    ensures LocalRoute(httpMethod, path, cert) == StatusPage <==> httpMethod == "GET" && (path == "" || path == "/")
    ensures LocalRoute(httpMethod, path, cert) == NoCert <==> httpMethod == "GET" && path == "/cacert" && cert == ""
    ensures LocalRoute(httpMethod, path, cert) == CaCert <==> httpMethod == "GET" && path == "/cacert" && cert != ""
    ensures LocalRoute(httpMethod, path, cert) == NotImplemented <==>
      httpMethod != "GET" || (path != "" && path != "/" && path != "/cacert")
  {
  }

  /** An empty scheme becomes "https" exactly for TLS requests whose server name is the `Host`, and "http" otherwise. */
  lemma NormalizedScheme(r: Request)
    ensures r.url.scheme != "" ==> Normalized(r).url.scheme == r.url.scheme
    ensures r.url.scheme == "" ==>
      (Normalized(r).url.scheme == "https" <==> r.tls.Some? && r.tls.value == r.host)
      && (Normalized(r).url.scheme == "http" <==> !(r.tls.Some? && r.tls.value == r.host))
  {
  }

  /** The host is filled in from `Host` when the URL has none, `RequestURI` is cleared, and nothing else changes. */
  lemma NormalizedRest(r: Request)
    ensures Normalized(r).url.host == TargetHost(r) && Normalized(r).requestURI == ""
    ensures Normalized(r).url.path == r.url.path && Normalized(r).header == r.header
    ensures Normalized(r).httpMethod == r.httpMethod && Normalized(r).host == r.host && Normalized(r).tls == r.tls
  {
  }

  /** Forwarding an already forwarded request changes nothing. */
  lemma NormalizedIdempotent(r: Request)
    ensures Normalized(Normalized(r)) == Normalized(r)
  {
  }

  // ---- The transcoding branch of `proxyResponse` ----

  /** The error `proxyResponse` returns for a transcoder's: the same message behind "transcoding error: ". */
  function Prefixed(e: Option<string>): (r: Option<string>)
    ensures r.Some? <==> e.Some?
    ensures r.Some? ==> HasPrefix(r.value, TranscodingError) && r.value[|TranscodingError|..] == e.value
  {
    if e.Some? then Some(TranscodingError + e.value) else None
  }

  /** The state `takeHeaders` leaves: every origin header value appended to the client's headers. */
  function TookHeaders(st: PipelineState): PipelineState
  {
    st.(writerHeader := Merged(st.writerHeader, st.originHeader))
  }

  /** The state `setChunked` leaves: no `Content-Length` for the client. */
  function Chunked(st: PipelineState): PipelineState
  {
    st.(writerHeader := H.Del(st.writerHeader, "Content-Length"))
  }

  /**
   * What the transcoding branch of `proxyResponse` amounts to on a reader
   * and writer in state `st`: `setChunked`, then transcoder `t`, whose error
   * comes back prefixed. No transcoder can bring `Content-Length` back.
   */
  function Transcoding(t: Transcoders.Transcoder, st: PipelineState, headers: H.Header, c: Codecs, body: Stream): (o: Outcome)
    ensures "Content-Length" !in o.header
    ensures o.err.Some? ==> HasPrefix(o.err.value, TranscodingError)
    ensures o.err.Some? <==> Transcoders.Run(t, Chunked(st), headers, c, body).err.Some?
  {
    var o := Transcoders.Run(t, Chunked(st), headers, c, body);
    Transcoders.RunTouchesOnlyCoding(t, Chunked(st), headers, c, body);
    o.(err := Prefixed(o.err))
  }

  /** No status line from index `from` on carries header `key`. */
  predicate StatusWithout(trace: seq<Event>, from: nat, key: string)
  {
    forall i :: from <= i < |trace| && trace[i].StatusSent? ==> key !in trace[i].header
  }

  /**
   * What the client received from a transcoder on a fresh writer: the
   * outcome's headers and bytes, after a status line iff anything was
   * written, whose code is the origin's when the transcoder flushed it and
   * net/http's implicit 200 otherwise.
   */
  ghost predicate Delivered(sink: Sink, code: int, out: Outcome)
    reads sink
  {
    && sink.header == out.header && BodyOf(sink.trace) == out.data
    && (sink.trace != [] <==> out.wrote)
    && (out.wrote ==> sink.trace[0] == StatusSent(if out.flushed then code else 200, sink.header))
  }

  // ---- The proxy ----

  class Proxy {
    var transcoders: map<string, Transcoders.Transcoder>
    var mitmEnabled: bool
    var readCount: nat
    var writeCount: nat
    var user: string
    var pass: string
    var host: string
    var cert: string

    /** The settings `handle` consults: the credentials, the proxy's own address and the CA certificate path. */
    function Configured(): Settings
      reads this`user, this`pass, this`host, this`cert
    {
      Settings(user, pass, host, cert)
    }

    /** `New`: no transcoders, no mitm listener, no credentials, zero counters. */
    constructor (host: string, cert: string)
      ensures this.host == host && this.cert == cert
      ensures transcoders == map[] && !mitmEnabled && user == "" && pass == ""
      ensures readCount == 0 && writeCount == 0
    {
      this.host, this.cert := host, cert;
      transcoders, mitmEnabled := map[], false;
      user, pass := "", "";
      readCount, writeCount := 0, 0;
    }

    /**
     * `EnableMitm`, with the outcome of loading the CA (`caError`) and, when
     * a root certificate file is configured, of loading it (`rootsError`).
     */
    method EnableMitm(caError: Option<string>, rootsError: Option<string>) returns (err: Option<string>)
      modifies this`mitmEnabled
      ensures caError.Some? ==> err == caError
      ensures caError.None? && cert != "" && rootsError.Some? ==> err == rootsError
      ensures mitmEnabled <==> old(mitmEnabled) || err.None?
      ensures err.None? <==> caError.None? && (cert == "" || rootsError.None?)
    {
      if caError.Some? {
        return caError;
      }
      if cert != "" && rootsError.Some? {
        return rootsError;
      }
      mitmEnabled := true;
      return None;
    }

    /** `SetAuthentication`. */
    method SetAuthentication(user: string, pass: string)
      modifies this`user, this`pass
      ensures this.user == user && this.pass == pass
    {
      this.user, this.pass := user, pass;
    }

    /** `AddTranscoder`: the latest registration for a content type wins; other types keep theirs. */
    method AddTranscoder(contentType: string, t: Transcoders.Transcoder)
      modifies this`transcoders
      ensures contentType in transcoders && transcoders[contentType] == t
      ensures forall ct :: ct != contentType ==> (ct in transcoders <==> ct in old(transcoders))
                                                  && (ct in old(transcoders) ==> transcoders[ct] == old(transcoders)[ct])
    {
      transcoders := transcoders[contentType := t];
    }

    /** `handleConnect` up to its guard: without a mitm listener, an error before anything is written. */
    method HandleConnect(sink: Sink) returns (err: Option<string>)
      requires sink.Valid()
      modifies sink`wroteHeader, sink`trace
      ensures sink.Valid()
      ensures !mitmEnabled ==> err == Some(NoMitm) && sink.trace == old(sink.trace) && sink.wroteHeader == old(sink.wroteHeader)
      ensures mitmEnabled ==> err == None && sink.trace == if old(sink.wroteHeader) then old(sink.trace) else [StatusSent(200, sink.header)]
    {
      if !mitmEnabled {
        return Some(NoMitm);
      }
      sink.WriteHeader(200);
      return None;
    }

    /** `handleLocalRequest`; `page` renders the status page from the two counters. */
    method HandleLocalRequest(sink: Sink, r: Request, page: (nat, nat) -> seq<byte>, serveFile: string -> ServedFile)
      requires sink.Valid() && sink.trace == []
      modifies sink`header, sink`wroteHeader, sink`trace
      ensures sink.Valid()
      ensures LocalRoute(r.httpMethod, r.url.path, cert) == StatusPage ==>
        sink.header == H.Set(old(sink.header), "Content-Type", "text/html")
        && sink.trace == [StatusSent(200, sink.header), Bytes(page(readCount, writeCount))]
        && BodyOf(sink.trace) == page(readCount, writeCount)
      ensures LocalRoute(r.httpMethod, r.url.path, cert) == NoCert ==>
        sink.trace == [StatusSent(404, sink.header), Bytes(FromString(NotFoundBody))]
        && H.Get(sink.header, "Content-Type") == "text/plain; charset=utf-8"
        && sink.header == NotFoundHeader(old(sink.header))
      ensures LocalRoute(r.httpMethod, r.url.path, cert) == CaCert ==>
        sink.header == H.Set(old(sink.header), "Content-Type", "application/x-x509-ca-cert")
        && [StatusSent(serveFile(cert).status, sink.header)] <= sink.trace && BodyOf(sink.trace) == serveFile(cert).body
      ensures LocalRoute(r.httpMethod, r.url.path, cert) == NotImplemented ==>
        sink.header == old(sink.header) && sink.trace == [StatusSent(501, sink.header)]
    {
      if r.httpMethod == "GET" && (r.url.path == "" || r.url.path == "/") {
        sink.header := H.Set(sink.header, "Content-Type", "text/html");
        sink.Write(page(readCount, writeCount));
        assert BodyOf(sink.trace) == BodyOf([StatusSent(200, sink.header)]) + page(readCount, writeCount);
      } else if r.httpMethod == "GET" && r.url.path == "/cacert" {
        if cert == "" {
          NotFound(sink);
          return;
        }
        sink.header := H.Set(sink.header, "Content-Type", "application/x-x509-ca-cert");
        var served := serveFile(cert);
        sink.WriteHeader(served.status);
        sink.Write(served.body);
        assert BodyOf(sink.trace) == BodyOf([StatusSent(served.status, sink.header)]) + served.body;
      } else {
        sink.WriteHeader(501);
      }
    }

    /** `proxyResponse`: copy the origin's headers and status, then pass the body through or transcode it. */
    method ProxyResponse(w: ResponseWriter, r: ResponseReader, headers: H.Header, c: Codecs) returns (err: Option<string>)
      requires w.Valid()
      modifies r`header, r`decoders, r`drained
      modifies w`statusCode, w`headersDone, w`layers, w.sink`header, w.sink`wroteHeader, w.sink`trace
      ensures w.Valid() && Encoders(w.layers) == Encoders(old(w.layers)) && w.statusCode == r.statusCode
      ensures old(r.ContentType()) !in transcoders ==>
        r.header == old(r.header) && r.decoders == old(r.decoders) && r.Count() == |r.body.data|
        && w.sink.header == Merged(old(w.sink.header), r.header)
        && w.Emitted() == old(w.Emitted()) + r.Content(c).data && err == r.Content(c).err
        && (old(!w.headersDone && !w.sink.wroteHeader) ==> [StatusSent(r.statusCode, w.sink.header)] <= w.sink.trace)
      ensures old(r.ContentType()) in transcoders ==>
        "Content-Length" !in w.sink.header && (err.Some? ==> HasPrefix(err.value, TranscodingError))
      ensures old(r.ContentType()) in transcoders ==>
        Transcoded(w, old(Snap(w)), Transcoding(transcoders[old(r.ContentType())], TookHeaders(old(StateOf(w, r))), headers, c, r.body), err)
        && StatusWithout(w.sink.trace, old(|w.sink.trace|), "Content-Length")
    {
      w.TakeHeaders(r);
      err := ProxyBody(w, r, headers, c);
    }

    /** `proxyResponse` after `takeHeaders`: the body, passed through or transcoded by content type. */
    method ProxyBody(w: ResponseWriter, r: ResponseReader, headers: H.Header, c: Codecs) returns (err: Option<string>)
      requires w.Valid()
      modifies r`header, r`decoders, r`drained
      modifies w`headersDone, w`layers, w.sink`header, w.sink`wroteHeader, w.sink`trace
      ensures w.Valid() && Encoders(w.layers) == Encoders(old(w.layers))
      ensures old(r.ContentType()) !in transcoders ==>
        r.header == old(r.header) && r.decoders == old(r.decoders) && r.Count() == |r.body.data|
        && w.sink.header == old(w.sink.header)
        && w.Emitted() == old(w.Emitted()) + r.Content(c).data && err == r.Content(c).err
        && (old(!w.headersDone && !w.sink.wroteHeader) ==> [StatusSent(w.statusCode, w.sink.header)] <= w.sink.trace)
      ensures old(r.ContentType()) in transcoders ==>
        "Content-Length" !in w.sink.header && (err.Some? ==> HasPrefix(err.value, TranscodingError))
      ensures old(r.ContentType()) in transcoders ==>
        Transcoded(w, old(Snap(w)), Transcoding(transcoders[old(r.ContentType())], old(StateOf(w, r)), headers, c, r.body), err)
        && StatusWithout(w.sink.trace, old(|w.sink.trace|), "Content-Length")
    {
      var ct := r.ContentType();
      if ct !in transcoders {
        err := w.ReadFrom(r, c);
        return;
      }
      w.SetChunked();
      err := TranscodeChunked(transcoders[ct], w, r, headers, c);
    }

    /**
     * `handle`: one request from a client, answered on `sink`. `hostname` is
     * what `os.Hostname` returned, `roundTrip` the transport, `page` and
     * `serveFile` the admin pages' content. The byte counts added to the
     * counters are returned.
     */
    method Handle(sink: Sink, r: Request, hostname: Option<string>, c: Codecs,
                  roundTrip: Request -> Result<Origin>, page: (nat, nat) -> seq<byte>, serveFile: string -> ServedFile)
      returns (err: Option<string>, read: nat, written: nat)
      requires sink.Valid() && sink.trace == []
      modifies this`readCount, this`writeCount, sink`header, sink`wroteHeader, sink`trace
      ensures sink.Valid()
      ensures readCount == old(readCount) + read && writeCount == old(writeCount) + written
      ensures var route := Decide(old(Configured()), r, hostname);
        route.AuthRequired? ==>
          err.None? && read == 0 && written == 0
          && sink.trace == [StatusSent(407, H.Set(old(sink.header), "Proxy-Authenticate", Realm))]
      ensures var route := Decide(old(Configured()), r, hostname);
        route.Connect? ==>
          read == 0 && written == 0
          && (!mitmEnabled ==> err == Some(NoMitm) && sink.trace == [])
          && (mitmEnabled ==> err.None? && sink.trace == [StatusSent(200, old(sink.header))])
      ensures var route := Decide(old(Configured()), r, hostname);
        (route.Local? || route.Upstream?) ==> Served(sink, route, c, roundTrip, page, serveFile, err, read, written)
    {
      read, written := 0, 0;
      var req := r;
      if user != "" {
        if !BasicAuth.CheckHttpBasicAuth(H.Get(req.header, ProxyAuthorization), user, pass) {
          sink.header := H.Set(sink.header, "Proxy-Authenticate", Realm);
          sink.WriteHeader(407);
          return None, 0, 0;
        }
        req := req.(header := H.Del(req.header, ProxyAuthorization));
      }

      if req.httpMethod == "CONNECT" {
        err := HandleConnect(sink);
        return;
      }

      err, read, written := Serve(sink, req, hostname, c, roundTrip, page, serveFile);
    }

    /** What `handle` does for a request it neither refuses nor tunnels. */
    twostate predicate Served(sink: Sink, route: Route, c: Codecs, roundTrip: Request -> Result<Origin>,
                              page: (nat, nat) -> seq<byte>, serveFile: string -> ServedFile,
                              new err: Option<string>, read: nat, written: nat)
      reads this, sink
    {
      && (route.Local? ==>
            err.None? && read == 0 && written == 0
            && (route.page == StatusPage ==>
                  sink.header == H.Set(old(sink.header), "Content-Type", "text/html")
                  && sink.trace == [StatusSent(200, sink.header), Bytes(page(old(readCount), old(writeCount)))]
                  && BodyOf(sink.trace) == page(old(readCount), old(writeCount)))
            && (route.page == NoCert ==>
                  sink.header == NotFoundHeader(old(sink.header))
                  && sink.trace == [StatusSent(404, sink.header), Bytes(FromString(NotFoundBody))])
            && (route.page == CaCert ==>
                  sink.header == H.Set(old(sink.header), "Content-Type", "application/x-x509-ca-cert")
                  && [StatusSent(serveFile(cert).status, sink.header)] <= sink.trace
                  && BodyOf(sink.trace) == serveFile(cert).body)
            && (route.page == NotImplemented ==>
                  sink.header == old(sink.header) && sink.trace == [StatusSent(501, old(sink.header))]))
      && (route.Upstream? && roundTrip(route.request).Err? ==>
            err == Some(ForwardingError + roundTrip(route.request).error) && read == 0 && written == 0
            && sink.trace == [StatusSent(500, old(sink.header))])
      && (route.Upstream? && roundTrip(route.request).Ok? ==>
            Responded(sink, roundTrip(route.request).value, route.request.header, c, err, read, written))
    }

    /** `handle` from the `Accept-Encoding` rewrite on: the proxy's own pages, or forwarding. */
    method Serve(sink: Sink, r: Request, hostname: Option<string>, c: Codecs,
                 roundTrip: Request -> Result<Origin>, page: (nat, nat) -> seq<byte>, serveFile: string -> ServedFile)
      returns (err: Option<string>, read: nat, written: nat)
      requires sink.Valid() && sink.trace == []
      modifies this`readCount, this`writeCount, sink`header, sink`wroteHeader, sink`trace
      ensures sink.Valid()
      ensures readCount == old(readCount) + read && writeCount == old(writeCount) + written
      ensures Served(sink, Dispatch(old(Configured()), r, hostname), c, roundTrip, page, serveFile, err, read, written)
    {
      read, written := 0, 0;
      ghost var route := Dispatch(Configured(), r, hostname);
      var req := r;
      var rewritten := RewriteAcceptEncoding(req.header);
      req := req.(header := rewritten);
      assert route == if IsLocal(host, TargetHost(req), hostname) then Local(LocalRoute(req.httpMethod, req.url.path, cert))
                      else Upstream(Normalized(req));

      var target := req.url.host;
      if target == "" {
        target := req.host;
      }
      if target == host || (hostname.Some? && target == hostname.value + host) {
        HandleLocalRequest(sink, req, page, serveFile);
        return None, 0, 0;
      }

      var sent, resp := Forward(req, roundTrip);
      if resp.Err? {
        sink.WriteHeader(500);
        return Some(ForwardingError + resp.error), 0, 0;
      }
      err, read, written := Respond(sink, resp.value, req.header, c);
    }

    /**
     * What `handle` answers for origin response `o` to a request forwarded
     * with headers `headers`: without a transcoder for its media type, the
     * origin's status, merged headers and body; with one, what that
     * transcoder delivers after `setChunked`, with its error prefixed. The
     * counts are the client's body bytes and, when the body was read, the
     * origin's raw ones.
     */
    twostate predicate Responded(sink: Sink, o: Origin, headers: H.Header, c: Codecs, new err: Option<string>, read: nat, written: nat)
      reads this`transcoders, sink
    {
      var ct := MediaType(H.Get(o.header, "Content-Type"));
      && sink.Valid()
      && written == |BodyOf(sink.trace)| && (read == 0 || read == |o.body.data|)
      && (ct !in transcoders ==>
            read == |o.body.data| && BodyOf(sink.trace) == o.body.data && err == o.body.err
            && sink.header == Merged(old(sink.header), o.header)
            && [StatusSent(o.statusCode, sink.header)] <= sink.trace)
      && (ct in transcoders ==>
            var out := Transcoding(transcoders[ct], TookHeaders(PipelineState(o.header, old(sink.header), [], [])), headers, c, o.body);
            Delivered(sink, o.statusCode, out) && err == out.err
            && "Content-Length" !in sink.header && (err.Some? ==> HasPrefix(err.value, TranscodingError))
            && StatusWithout(sink.trace, 0, "Content-Length"))
    }

    /** The part of `handle` after a successful round trip: transcode the response and count the bytes. */
    method Respond(sink: Sink, o: Origin, headers: H.Header, c: Codecs) returns (err: Option<string>, read: nat, written: nat)
      requires sink.Valid() && sink.trace == []
      modifies this`readCount, this`writeCount, sink`header, sink`wroteHeader, sink`trace
      ensures readCount == old(readCount) + read && writeCount == old(writeCount) + written
      ensures Responded(sink, o, headers, c, err, read, written)
    {
      err, read, written := Answer(sink, o, headers, c);
      readCount := readCount + read;
      writeCount := writeCount + written;
    }

    /** `proxyResponse` on fresh adapters over the client's writer and the origin's response, and the two counts. */
    method Answer(sink: Sink, o: Origin, headers: H.Header, c: Codecs) returns (err: Option<string>, read: nat, written: nat)
      requires sink.Valid() && sink.trace == []
      modifies sink`header, sink`wroteHeader, sink`trace
      ensures Responded(sink, o, headers, c, err, read, written)
    {
      var rw := new ResponseWriter(sink);
      var rr := new ResponseReader(o.statusCode, o.header, o.body);
      ghost var s0, st0 := Snap(rw), StateOf(rw, rr);
      assert s0 == Snapshot([], [], false, false);
      ghost var ct := rr.ContentType();
      err := ProxyResponse(rw, rr, headers, c);
      read, written := rr.Count(), rw.Count();
      if ct in transcoders {
        ghost var out := Transcoding(transcoders[ct], TookHeaders(st0), headers, c, o.body);
        assert Transcoded(rw, s0, out, err);
        OnFreshWriter(Snap(rw), rw.sink.header, rw.statusCode, out, err);
        assert Delivered(sink, o.statusCode, out);
      }
    }

    /** `NotFound` of net/http: a plain-text 404 page. */
    static method NotFound(sink: Sink)
      requires sink.Valid() && sink.trace == []
      modifies sink`header, sink`wroteHeader, sink`trace
      ensures sink.Valid()
      ensures sink.trace == [StatusSent(404, sink.header), Bytes(FromString(NotFoundBody))]
      ensures H.Get(sink.header, "Content-Type") == "text/plain; charset=utf-8"
      ensures sink.header == NotFoundHeader(old(sink.header))
    {
      sink.header := H.Set(sink.header, "Content-Type", "text/plain; charset=utf-8");
      sink.header := H.Set(sink.header, "X-Content-Type-Options", "nosniff");
      sink.WriteHeader(404);
      sink.Write(FromString(NotFoundBody));
    }
  }

  /** The transcoding branch of `proxyResponse`, once `Content-Length` is gone: its error is prefixed. */
  method TranscodeChunked(t: Transcoders.Transcoder, w: ResponseWriter, r: ResponseReader, headers: H.Header, c: Codecs)
    returns (err: Option<string>)
    requires w.Valid() && "Content-Length" !in w.sink.header
    modifies r`header, r`decoders, r`drained, w`headersDone, w`layers, w.sink`header, w.sink`wroteHeader, w.sink`trace
    ensures w.Valid() && Encoders(w.layers) == Encoders(old(w.layers))
    ensures "Content-Length" !in w.sink.header
    ensures err.Some? ==> HasPrefix(err.value, TranscodingError)
    ensures var o := Transcoders.Run(t, old(StateOf(w, r)), headers, c, r.body);
      Transcoded(w, old(Snap(w)), o.(err := Prefixed(o.err)), err)
    ensures StatusWithout(w.sink.trace, old(|w.sink.trace|), "Content-Length")
  {
    ghost var s0, st0 := Snap(w), StateOf(w, r);
    var e := Transcoders.Transcode(t, w, r, headers, c);
    ghost var o := Transcoders.Run(t, st0, headers, c, r.body);
    Transcoders.RunTouchesOnlyCoding(t, st0, headers, c, r.body);
    StatusCarriesFinalHeader(s0, Snap(w), w.sink.header, w.statusCode, o, e);
    if e.Some? {
      return Some(TranscodingError + e.value);
    }
    return None;
  }

  /** The `Accept-Encoding` rewrite of `handle`, reading the client's list from `Accept-Encoding` itself. */
  method RewriteAcceptEncoding(h: H.Header) returns (r: H.Header)
    ensures r == AcceptEncoding.IntendedRewrite(h)
  {
    r := h;
    if H.Get(r, "Accept-Encoding") != "" {
      var supported := AcceptEncoding.StripUnsupportedEncodings(H.Get(r, "Accept-Encoding"));
      if supported != "" {
        r := H.Set(r, "Accept-Encoding", supported);
      } else {
        r := H.Del(r, "Accept-Encoding");
      }
    }
  }

  const TranscodingError := "transcoding error: "
  const ForwardingError := "error forwarding request: "

  /** `forward`: fill in the scheme and host, clear `RequestURI`, then one call of the transport. */
  method Forward(r: Request, roundTrip: Request -> Result<Origin>) returns (sent: Request, resp: Result<Origin>)
    ensures sent == Normalized(r) && resp == roundTrip(sent)
  {
    sent := r;
    if sent.url.scheme == "" {
      if sent.tls.Some? && sent.tls.value == sent.host {
        sent := sent.(url := sent.url.(scheme := "https"));
      } else {
        sent := sent.(url := sent.url.(scheme := "http"));
      }
    }
    if sent.url.host == "" {
      sent := sent.(url := sent.url.(host := sent.host));
    }
    sent := sent.(requestURI := "");
    resp := roundTrip(sent);
  }
}
