/**
 * The revocation CORS proxy of worker/src/index.ts: a stateless request
 * classifier in front of OCSP responders and CRL/certificate hosts.
 *
 * The three destination regular expressions and the preview-origin
 * expression are written as string predicates. Each is proved equal to a
 * decomposition of the URL that reads like the expression itself. The
 * upstream `fetch` is an oracle from the destination URL to its outcome.
 */
module CorsProxy {
  import opened Wrappers
  import opened Text

  // ----- Origins ------------------------------------------------------------

  const AllowedOrigins: seq<string> := ["https://edocviewer.app", "https://www.edocviewer.app", "http://localhost:8080"]

  const PreviewPrefix := "https://"
  const PreviewSuffix := ".edocviewer.pages.dev"

  /** `[a-z0-9]` */
  predicate LowerAlnum(c: char) {
    'a' <= c <= 'z' || '0' <= c <= '9'
  }

  predicate AllLowerAlnum(s: string) {
    forall i :: 0 <= i < |s| ==> LowerAlnum(s[i])
  }

  /** `^https:\/\/[a-z0-9]+\.edocviewer\.pages\.dev$` (no flags, so `$` is the end of the text). */
  predicate IsPreviewOrigin(origin: string) {
    |origin| > |PreviewPrefix| + |PreviewSuffix|
    && StartsWith(origin, PreviewPrefix)
    && EndsWith(origin, PreviewSuffix)
    && AllLowerAlnum(origin[|PreviewPrefix|..|origin| - |PreviewSuffix|])
  }

  /** `isAllowedOrigin`: a missing or empty `Origin` header is refused. */
  predicate IsAllowedOrigin(origin: Option<string>) {
    Truthy(origin) && (origin.value in AllowedOrigins || IsPreviewOrigin(origin.value))
  }

  /**
   * The preview origins are exactly `https://<sub>.edocviewer.pages.dev`
   * for a non-empty lower-case alphanumeric `sub`.
   */
  lemma PreviewOriginShape(sub: string)
    ensures IsPreviewOrigin(PreviewPrefix + sub + PreviewSuffix) <==> |sub| >= 1 && AllLowerAlnum(sub)
  {
    var o := PreviewPrefix + sub + PreviewSuffix;
    assert o[..|PreviewPrefix|] == PreviewPrefix;
    assert o[|o| - |PreviewSuffix|..] == PreviewSuffix;
    assert o[|PreviewPrefix|..|o| - |PreviewSuffix|] == sub;
  }

  /** Every preview origin has that form, its sub-domain being the text between the fixed parts. */
  lemma PreviewOriginParts(origin: string)
    requires IsPreviewOrigin(origin)
    ensures origin == PreviewPrefix + origin[|PreviewPrefix|..|origin| - |PreviewSuffix|] + PreviewSuffix
  {
    assert origin == origin[..|PreviewPrefix|] + origin[|PreviewPrefix|..|origin| - |PreviewSuffix|]
      + origin[|origin| - |PreviewSuffix|..];
  }

  // ----- Destinations -------------------------------------------------------

  /** What follows `^https?:\/\/`, when the URL starts that way. */
  function AfterScheme(url: string): (r: Option<string>)
    ensures r.Some? <==> StartsWith(url, "https://") || StartsWith(url, "http://")
    ensures r.Some? ==> url == "https://" + r.value || url == "http://" + r.value
  {
    if StartsWith(url, "https://") then Some(url[8..])
    else if StartsWith(url, "http://") then Some(url[7..])
    else None
  }

  /** The text before the first `c` (all of `s` when there is none). */
  function UpTo(s: string, c: char): (r: string)
    ensures c !in r && |r| <= |s| && r == s[..|r|]
    ensures |r| < |s| ==> s[|r|] == c
  {
    if s == [] || s[0] == c then "" else [s[0]] + UpTo(s[1..], c)
  }

  /** A position before which there is no `c` and at which there is one is the first `c`. */
  lemma {:induction false} UpToAt(s: string, c: char, j: int)
    requires 0 <= j < |s| && c !in s[..j] && s[j] == c
    ensures |UpTo(s, c)| == j
  {
    if j > 0 {
      assert s[0] in s[..j];
      assert s[1..][..j - 1] == s[..j][1..];
      UpToAt(s[1..], c, j - 1);
    }
  }

  /** The host of `rest` is `[^/]*` up to the first slash, which must be there. */
  predicate HasPath(rest: string) {
    |UpTo(rest, '/')| < |rest|
  }

  /** `[^/]*\.sk\.ee\/` on the text after the scheme. */
  predicate SkEeRest(rest: string) {
    HasPath(rest) && EndsWith(UpTo(rest, '/'), ".sk.ee")
  }

  /** `^https?:\/\/[^/]*\.sk\.ee\/`, case-sensitive: an SK ID Solutions host. */
  predicate MatchesSkEe(url: string) {
    AfterScheme(url).Some? && SkEeRest(AfterScheme(url).value)
  }

  /** `ocsp\.[^/]+\/` on the text after the scheme. */
  predicate OcspRest(rest: string) {
    StartsWith(rest, "ocsp.") && |UpTo(rest[5..], '/')| >= 1 && HasPath(rest[5..])
  }

  /** `^https?:\/\/ocsp\.[^/]+\/`, case-sensitive: an OCSP responder host. */
  predicate MatchesOcsp(url: string) {
    AfterScheme(url).Some? && OcspRest(AfterScheme(url).value)
  }

  /** The characters that JavaScript's `.` does not match. */
  predicate LineTerminator(c: char) {
    c == '\n' || c == '\r' || c == '\U{2028}' || c == '\U{2029}'
  }

  predicate NoLineTerminator(s: string) {
    forall i :: 0 <= i < |s| ==> !LineTerminator(s[i])
  }

  const CertExtensions: seq<string> := ["crl", "crt", "cer", "der"]

  /** At `i` the tail reads `.` + a certificate extension, followed by its end or by `?`. */
  predicate ExtensionAt(tail: string, i: int) {
    0 <= i && i + 4 <= |tail| && tail[i] == '.' && tail[i + 1..i + 4] in CertExtensions
    && (i + 4 == |tail| || tail[i + 4] == '?')
  }

  /** A right-to-left scan for `\.(crl|crt|cer|der)(\?.*)?$` at a position below `bound`. */
  function FindExtension(tail: string, bound: nat): (found: bool)
    ensures found ==> exists i :: 0 <= i < bound && ExtensionAt(tail, i)
  {
    if bound == 0 then false
    else ExtensionAt(tail, bound - 1) || FindExtension(tail, bound - 1)
  }

  lemma {:induction false} FindExtensionComplete(tail: string, bound: nat, i: int)
    requires 0 <= i < bound && ExtensionAt(tail, i)
    ensures FindExtension(tail, bound)
  {
    if i < bound - 1 {
      FindExtensionComplete(tail, bound - 1, i);
    }
  }

  /** `[^/]+\/.*\.(crl|crt|cer|der)(\?.*)?$` on the text after the scheme. */
  predicate CertFileRest(rest: string) {
    var host := UpTo(rest, '/');
    |host| >= 1 && HasPath(rest)
    && NoLineTerminator(rest[|host| + 1..])
    && FindExtension(rest[|host| + 1..], |rest| - |host|)
  }

  /**
   * `^https?:\/\/[^/]+\/.*\.(crl|crt|cer|der)(\?.*)?$` with the `i` flag.
   * The flag is applied by lower-casing the ASCII letters of the URL; the
   * expression has no other letters whose case could matter.
   */
  predicate MatchesCertFile(url: string) {
    AfterScheme(Lower(url)).Some? && CertFileRest(AfterScheme(Lower(url)).value)
  }

  /** `isAllowedDestination`: some pattern matches. */
  predicate IsAllowedDestination(url: string) {
    MatchesSkEe(url) || MatchesOcsp(url) || MatchesCertFile(url)
  }

  // The three patterns, read as decompositions of the text after the scheme.

  /** `[^/]*` runs up to `k`, then `.sk.ee/` follows. */
  ghost predicate SkEeShape(rest: string) {
    exists k :: 0 <= k && k + 7 <= |rest| && '/' !in rest[..k] && rest[k..k + 7] == ".sk.ee/"
  }

  /** `ocsp.` then `[^/]+` up to `k`, where a `/` follows. */
  ghost predicate OcspShape(rest: string) {
    exists k :: 5 < k < |rest| && rest[..5] == "ocsp." && '/' !in rest[5..k] && rest[k] == '/'
  }

  ghost predicate HasExtension(tail: string) {
    exists i :: ExtensionAt(tail, i)
  }

  /** `[^/]+` up to `h`, a `/`, then a tail without line terminators that ends in a certificate extension. */
  ghost predicate CertFileShape(rest: string) {
    exists h :: 0 < h < |rest| && '/' !in rest[..h] && rest[h] == '/'
      && NoLineTerminator(rest[h + 1..]) && HasExtension(rest[h + 1..])
  }

  lemma SkEeSound(rest: string)
    requires SkEeRest(rest)
    ensures SkEeShape(rest)
  {
    var host := UpTo(rest, '/');
    var k := |host| - 6;
    SkEeAt(rest, host, k);
    assert 0 <= k && k + 7 <= |rest| && '/' !in rest[..k] && rest[k..k + 7] == ".sk.ee/";
  }

  /** Where the host ends in `.sk.ee` and a slash follows it, `.sk.ee/` sits six characters before the slash. */
  lemma SkEeAt(rest: string, host: string, k: int)
    requires host == UpTo(rest, '/') && |host| < |rest| && EndsWith(host, ".sk.ee") && k == |host| - 6
    ensures '/' !in rest[..k] && rest[k..k + 7] == ".sk.ee/"
  {
    assert host == rest[..|host|];
    assert rest[..k] == host[..k];
    assert rest[k..|host|] == host[k..];
    SkEeSuffixAt(rest, |host|);
  }

  lemma SkEeSuffixAt(rest: string, n: int)
    requires 6 <= n < |rest| && rest[n - 6..n] == ".sk.ee" && rest[n] == '/'
    ensures rest[n - 6..n + 1] == ".sk.ee/"
  {
    assert rest[n - 6..n + 1] == rest[n - 6..n] + [rest[n]];
  }

  lemma SkEeComplete(rest: string)
    requires SkEeShape(rest)
    ensures SkEeRest(rest)
  {
    var k :| 0 <= k && k + 7 <= |rest| && '/' !in rest[..k] && rest[k..k + 7] == ".sk.ee/";
    assert '/' !in rest[..k + 6] by {
      assert rest[..k + 6] == rest[..k] + rest[k..k + 7][..6];
    }
    assert rest[k + 6] == rest[k..k + 7][6];
    UpToAt(rest, '/', k + 6);
    assert UpTo(rest, '/')[k..] == rest[k..k + 6];
  }

  /** The first pattern matches exactly the URLs whose text after the scheme has its shape. */
  lemma SkEeMeaning(url: string)
    ensures MatchesSkEe(url) <==> AfterScheme(url).Some? && SkEeShape(AfterScheme(url).value)
  {
    if AfterScheme(url).Some? {
      var rest := AfterScheme(url).value;
      if SkEeRest(rest) { SkEeSound(rest); }
      if SkEeShape(rest) { SkEeComplete(rest); }
    }
  }

  lemma OcspRestMeaning(rest: string)
    ensures OcspRest(rest) <==> OcspShape(rest)
  {
    if OcspRest(rest) {
      var k := 5 + |UpTo(rest[5..], '/')|;
      assert rest[5..k] == UpTo(rest[5..], '/');
    }
    if OcspShape(rest) {
      var k :| 5 < k < |rest| && rest[..5] == "ocsp." && '/' !in rest[5..k] && rest[k] == '/';
      assert rest[5..][..k - 5] == rest[5..k];
      UpToAt(rest[5..], '/', k - 5);
    }
  }

  /** The second pattern matches exactly the URLs whose text after the scheme has its shape. */
  lemma OcspMeaning(url: string)
    ensures MatchesOcsp(url) <==> AfterScheme(url).Some? && OcspShape(AfterScheme(url).value)
  {
    if AfterScheme(url).Some? {
      OcspRestMeaning(AfterScheme(url).value);
    }
  }

  lemma CertFileSound(rest: string)
    requires CertFileRest(rest)
    ensures CertFileShape(rest)
  {
    var h := |UpTo(rest, '/')|;
    assert rest[..h] == UpTo(rest, '/');
    assert HasExtension(rest[h + 1..]);
  }

  lemma CertFileComplete(rest: string)
    requires CertFileShape(rest)
    ensures CertFileRest(rest)
  {
    var h :| 0 < h < |rest| && '/' !in rest[..h] && rest[h] == '/'
      && NoLineTerminator(rest[h + 1..]) && HasExtension(rest[h + 1..]);
    CertFileAt(rest, h);
  }

  lemma CertFileAt(rest: string, h: int)
    requires 0 < h < |rest| && '/' !in rest[..h] && rest[h] == '/'
    requires NoLineTerminator(rest[h + 1..]) && HasExtension(rest[h + 1..])
    ensures CertFileRest(rest)
  {
    UpToAt(rest, '/', h);
    var tail := rest[h + 1..];
    var i :| ExtensionAt(tail, i);
    assert i < |tail|;
    FindExtensionComplete(tail, |rest| - h, i);
  }

  /**
   * The third pattern matches exactly the URLs whose lower-cased text
   * after the scheme has its shape.
   */
  lemma CertFileMeaning(url: string)
    ensures MatchesCertFile(url) <==> AfterScheme(Lower(url)).Some? && CertFileShape(AfterScheme(Lower(url)).value)
  {
    if AfterScheme(Lower(url)).Some? {
      var rest := AfterScheme(Lower(url)).value;
      if CertFileRest(rest) { CertFileSound(rest); }
      if CertFileShape(rest) { CertFileComplete(rest); }
    }
  }

  // ----- The request handler -----------------------------------------------

  /** The parts of the incoming request the handler reads; `urlParam` is `searchParams.get('url')`. */
  datatype Request = Request(origin: Option<string>, httpMethod: string, urlParam: Option<string>)

  /** What the upstream `fetch` does: answer with a status and a Content-Type header, or throw. */
  datatype Upstream = Fetched(status: int, contentType: Option<string>) | FetchError(message: string)

  /** A response body: none, a text, or the upstream body passed through unread. */
  datatype Body = NoBody | Text(text: string) | UpstreamBody

  datatype Header = Header(name: string, value: string)

  /** A response; `headers` lists only the headers the handler sets itself. */
  datatype Response = Response(status: int, body: Body, headers: seq<Header>)

  /** The request sent upstream: the destination URL and the headers set on it. */
  datatype UpstreamRequest = UpstreamRequest(url: string, headers: seq<Header>)

  /** The response and the request sent upstream, if the handler fetched at all. */
  datatype Handled = Handled(response: Response, fetched: Option<UpstreamRequest>)

  const UserAgent := "edocviewer-cors-proxy/1.0"

  /** The upstream request for a URL: it identifies the proxy by its `User-Agent`. */
  function Outgoing(url: string): UpstreamRequest {
    UpstreamRequest(url, [Header("User-Agent", UserAgent)])
  }

  const CacheControl := "public, max-age=3600"
  const DefaultContentType := "application/octet-stream"

  function PreflightHeaders(origin: string): seq<Header> {
    [Header("Access-Control-Allow-Origin", origin),
     Header("Access-Control-Allow-Methods", "GET"),
     Header("Access-Control-Max-Age", "86400")]
  }

  function ProxiedHeaders(origin: string, contentType: Option<string>): seq<Header> {
    [Header("Access-Control-Allow-Origin", origin),
     Header("Content-Type", OrElse(contentType, Some(DefaultContentType)).value),
     Header("Cache-Control", CacheControl)]
  }

  /** The `fetch` handler: the checks in order, each returning early, and the upstream fetch last. */
  function Handle(req: Request, fetch: UpstreamRequest -> Upstream): Handled {
    if !IsAllowedOrigin(req.origin) then Handled(Response(403, Text("Forbidden"), []), None)
    else if req.httpMethod == "OPTIONS" then Handled(Response(200, NoBody, PreflightHeaders(req.origin.value)), None)
    else if req.httpMethod != "GET" then Handled(Response(405, Text("Method not allowed"), []), None)
    else if !Truthy(req.urlParam) then Handled(Response(400, Text("Missing url parameter"), []), None)
    else if !IsAllowedDestination(req.urlParam.value) then Handled(Response(400, Text("Destination not allowed"), []), None)
    else
      var url := req.urlParam.value;
      match fetch(Outgoing(url))
      case Fetched(status, contentType) =>
        Handled(Response(status, UpstreamBody, ProxiedHeaders(req.origin.value, contentType)), Some(Outgoing(url)))
      case FetchError(message) =>
        Handled(Response(502, Text("Proxy error: " + message), []), Some(Outgoing(url)))
  }

  /**
   * The handler fetches exactly the requested URL, and only when every
   * check passes; the upstream request carries the proxy's `User-Agent`.
   */
  lemma FetchOnlyWhenAllowed(req: Request, fetch: UpstreamRequest -> Upstream)
    ensures Handle(req, fetch).fetched.Some? <==>
      IsAllowedOrigin(req.origin) && req.httpMethod == "GET" && Truthy(req.urlParam)
      && IsAllowedDestination(req.urlParam.value)
    ensures Handle(req, fetch).fetched.Some? ==>
      && Handle(req, fetch).fetched.value.url == req.urlParam.value
      && Header("User-Agent", "edocviewer-cors-proxy/1.0") in Handle(req, fetch).fetched.value.headers
  {
  }

  /** A disallowed origin is refused whatever the method and URL. */
  lemma ForbiddenOrigin(req: Request, fetch: UpstreamRequest -> Upstream)
    requires !IsAllowedOrigin(req.origin)
    ensures Handle(req, fetch) == Handled(Response(403, Text("Forbidden"), []), None)
  {
  }

  /** A preflight from an allowed origin is answered without looking at the URL. */
  lemma Preflight(req: Request, fetch: UpstreamRequest -> Upstream, otherUrl: Option<string>)
    requires IsAllowedOrigin(req.origin) && req.httpMethod == "OPTIONS"
    ensures var h := Handle(req, fetch);
      && h.response.status == 200 && h.response.body == NoBody && h.fetched == None
      && Header("Access-Control-Allow-Origin", req.origin.value) in h.response.headers
      && Header("Access-Control-Allow-Methods", "GET") in h.response.headers
      && Header("Access-Control-Max-Age", "86400") in h.response.headers
    ensures Handle(req, fetch) == Handle(req.(urlParam := otherUrl), fetch)
  {
  }

  /** Any method but GET and OPTIONS from an allowed origin is refused. */
  lemma MethodNotAllowed(req: Request, fetch: UpstreamRequest -> Upstream)
    requires IsAllowedOrigin(req.origin) && req.httpMethod != "OPTIONS" && req.httpMethod != "GET"
    ensures Handle(req, fetch) == Handled(Response(405, Text("Method not allowed"), []), None)
  {
  }

  /** A GET without a usable `url` parameter, or to a destination outside the patterns, is refused without fetching. */
  lemma BadDestination(req: Request, fetch: UpstreamRequest -> Upstream)
    requires IsAllowedOrigin(req.origin) && req.httpMethod == "GET"
    ensures !Truthy(req.urlParam) ==>
      Handle(req, fetch) == Handled(Response(400, Text("Missing url parameter"), []), None)
    ensures Truthy(req.urlParam) && !IsAllowedDestination(req.urlParam.value) ==>
      Handle(req, fetch) == Handled(Response(400, Text("Destination not allowed"), []), None)
  {
  }

  /**
   * A successful upstream answer keeps its status and body, is readable
   * by the calling origin, keeps its Content-Type (or becomes
   * `application/octet-stream` without one) and may be cached for an hour.
   */
  lemma ProxiedResponse(req: Request, fetch: UpstreamRequest -> Upstream)
    requires IsAllowedOrigin(req.origin) && req.httpMethod == "GET" && Truthy(req.urlParam)
    requires IsAllowedDestination(req.urlParam.value)
    requires fetch(Outgoing(req.urlParam.value)).Fetched?
    ensures var h := Handle(req, fetch);
      var up := fetch(Outgoing(req.urlParam.value));
      && h.response.status == up.status && h.response.body == UpstreamBody
      && Header("Access-Control-Allow-Origin", req.origin.value) in h.response.headers
      && Header("Cache-Control", "public, max-age=3600") in h.response.headers
      && (Truthy(up.contentType) ==> Header("Content-Type", up.contentType.value) in h.response.headers)
      && (!Truthy(up.contentType) ==> Header("Content-Type", "application/octet-stream") in h.response.headers)
  {
  }

  /** A fetch that throws becomes a 502 carrying the error message. */
  lemma ProxyError(req: Request, fetch: UpstreamRequest -> Upstream)
    requires IsAllowedOrigin(req.origin) && req.httpMethod == "GET" && Truthy(req.urlParam)
    requires IsAllowedDestination(req.urlParam.value)
    requires fetch(Outgoing(req.urlParam.value)).FetchError?
    ensures Handle(req, fetch).response
         == Response(502, Text("Proxy error: " + fetch(Outgoing(req.urlParam.value)).message), [])
  {
  }

  /** The host `sk.ee` itself does not match: the pattern wants a dot before `sk.ee`. */
  lemma BareSkEeNotAllowed()
    ensures !MatchesSkEe("https://sk.ee/")
  {
    var rest := "sk.ee/";
    assert "https://sk.ee/" == "https://" + rest;
    UpToAt(rest, '/', 5);
  }

  /** An OCSP host without a path does not match: the pattern requires the slash. */
  lemma OcspWithoutPathNotAllowed()
    ensures !MatchesOcsp("https://ocsp.example.com")
  {
    var rest := "ocsp.example.com";
    assert "https://ocsp.example.com" == "https://" + rest;
    assert '/' !in rest[5..];
  }
}
