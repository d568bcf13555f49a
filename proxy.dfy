/** The `/proxy` request handler (index.js:166-265): the request gate, the
    outbound header allow-list, the Cache-Control and playlist classifiers,
    the playlist branch and the passthrough branch with its allow-listed header
    copy. The network is a parameter: `fetch` answers the one outbound request
    the handler makes. */
module Proxy {
  import opened Wrappers
  import opened Text
  import opened Playlist
  import UriReference

  const MissingUrlMessage := "Missing url query param"
  const FailureMessage := "Proxy failed"
  const CacheForever := "public, max-age=31536000, immutable"
  const NoCache := "no-cache"
  const PlaylistMime := "application/vnd.apple.mpegurl"

  /** The query string and request headers the handler reads: `req.query.url`
      and `req.headers.range`, each possibly absent. */
  datatype ProxyRequest = ProxyRequest(url: Option<string>, range: Option<string>)

  /** The request handed to `fetch`: target URL and header object. */
  datatype Outbound = Outbound(target: string, headers: map<string, string>)

  /** What `fetch` settles to: a rejection (network error, bad URL), or the
      upstream response with its headers as `Headers.forEach` lists them.
      The model takes any list; the lists `fetch` produces satisfy
      `IsHeaderList`, on which a lookup and the copy loop agree
      (`LookupAgreesWithCopy`). */
  datatype Upstream =
    | FetchFailed
    | Upstream(status: int, headers: seq<(string, string)>, body: string)

  /** The body of the reply: nothing yet, a text sent with `res.send`, or the
      upstream body relayed with `upstream.body.pipe(res)`. */
  datatype Body = NoBody | Text(text: string) | Relay

  /** Status, headers (names in lower case, as Node keeps them) and body. */
  datatype Reply = Reply(status: int, headers: map<string, string>, body: Body)

  /** A fresh Express response. */
  const Fresh := Reply(200, map[], NoBody)

  /** The header object sent upstream: `range`, verbatim, and nothing else. */
  function RequestHeaders(range: Option<string>): (h: map<string, string>)
    ensures h.Keys <= {"range"}
    ensures "range" in h <==> IsTruthy(range)
    ensures "range" in h ==> h["range"] == range.value
  {
    if IsTruthy(range) then map["range" := range.value] else map[]
  }

  /** `upstream.headers.get(name)`: the value listed for `name`, if any. */
  function HeaderValue(hs: seq<(string, string)>, name: string): (r: Option<string>)
    ensures r.Some? <==> exists i :: 0 <= i < |hs| && hs[i].0 == name
    ensures r.Some? ==> exists i :: 0 <= i < |hs| && hs[i] == (name, r.value)
    decreases |hs|
  {
    if hs == [] then None
    else if hs[0].0 == name then Some(hs[0].1)
    else
      var r := HeaderValue(hs[1..], name);
      assert forall i :: 1 <= i < |hs| ==> hs[i] == hs[1..][i - 1];
      r
  }

  /** A header name as `Headers` reports it: no upper-case letter. */
  predicate IsLowerCaseName(name: string) {
    forall i :: 0 <= i < |name| ==> !('A' <= name[i] <= 'Z')
  }

  /** The header lists `Headers.forEach` produces: each name once, in lower
      case (values of a repeated name are already combined). */
  predicate IsHeaderList(hs: seq<(string, string)>) {
    (forall i :: 0 <= i < |hs| ==> IsLowerCaseName(hs[i].0)) &&
    (forall i, j :: 0 <= i < j < |hs| ==> hs[i].0 != hs[j].0)
  }

  /** `upstream.headers.get("content-type") || ""` */
  function ContentTypeOf(hs: seq<(string, string)>): string {
    HeaderValue(hs, "content-type").GetOr("")
  }

  /** Segments cache forever: the content type mentions `video` or the URL
      ends with `.ts` (index.js:195). */
  predicate IsCacheable(contentType: string, url: string) {
    Includes(contentType, "video") || EndsWith(url, ".ts")
  }

  /** Playlists are rewritten: one of the two HLS content types (a
      case-sensitive substring test) or a URL ending with `.m3u8`
      (index.js:204-208). */
  predicate IsPlaylist(contentType: string, url: string) {
    Includes(contentType, "application/vnd.apple.mpegurl") ||
    Includes(contentType, "application/x-mpegURL") ||
    EndsWith(url, ".m3u8")
  }

  /** The Cache-Control value (index.js:195-199): immutable for a video type
      or a `.ts` URL, otherwise `no-cache`. */
  function CacheControl(contentType: string, url: string): (v: string)
    ensures v == CacheForever || v == NoCache
    ensures v == CacheForever <==> Includes(contentType, "video") || EndsWith(url, ".ts")
  {
    if IsCacheable(contentType, url) then CacheForever else NoCache
  }

  /** The upstream headers the passthrough branch copies. */
  predicate IsForwardedHeader(name: string) {
    name == "content-type" || name == "content-length" ||
    name == "content-range" || name == "accept-ranges"
  }

  /** The headers the copy loop sets, in order, later ones overwriting earlier
      ones of the same name. */
  function ForwardedHeaders(hs: seq<(string, string)>): (m: map<string, string>)
    ensures forall k :: k in m ==> IsForwardedHeader(k)
    decreases |hs|
  {
    if hs == [] then map[]
    else
      var m := ForwardedHeaders(hs[..|hs| - 1]);
      var (k, v) := hs[|hs| - 1];
      if IsForwardedHeader(k) then m[k := v] else m
  }

  /** The copied headers are exactly the allow-listed names present upstream,
      each with the value of its last occurrence. */
  lemma {:induction false} ForwardedHeadersExactly(hs: seq<(string, string)>)
    ensures forall k :: k in ForwardedHeaders(hs) <==> IsForwardedHeader(k) && exists i :: 0 <= i < |hs| && hs[i].0 == k
    ensures forall i :: 0 <= i < |hs| && IsForwardedHeader(hs[i].0) &&
                        (forall j :: i < j < |hs| ==> hs[j].0 != hs[i].0)
                        ==> ForwardedHeaders(hs)[hs[i].0] == hs[i].1
    decreases |hs|
  {
    if hs != [] {
      var init := hs[..|hs| - 1];
      ForwardedHeadersExactly(init);
      assert forall i :: 0 <= i < |hs| - 1 ==> hs[i] == init[i];
    }
  }

  /** One more turn of the copy loop sets one more header, on top of any
      headers already set. */
  lemma ForwardedStep(base: map<string, string>, hs: seq<(string, string)>, i: nat)
    requires i < |hs|
    ensures base + ForwardedHeaders(hs[..i + 1]) ==
            if IsForwardedHeader(hs[i].0) then (base + ForwardedHeaders(hs[..i]))[hs[i].0 := hs[i].1]
            else base + ForwardedHeaders(hs[..i])
  {
    assert hs[..i + 1][..i] == hs[..i];
  }

  function CorsHeaders(): map<string, string> {
    map["access-control-allow-origin" := "*", "access-control-allow-headers" := "*"]
  }

  /** The reply once the upstream has answered with `status`, headers `hs`
      and `body`, for a request to `target`. */
  function UpstreamReply(target: string, status: int, hs: seq<(string, string)>, body: string): (r: Reply)
    ensures "access-control-allow-origin" in r.headers && !r.body.NoBody?
    ensures r.body.Relay? <==> !IsPlaylist(ContentTypeOf(hs), target)
    ensures r.body.Relay? ==> r.status == status
    ensures r.body.Text? ==> (r.status == 200 <==> RewritePlaylist(body, target).Some?)
  {
    var contentType := ContentTypeOf(hs);
    var headers := CorsHeaders()["cache-control" := CacheControl(contentType, target)];
    if IsPlaylist(contentType, target) then
      match RewritePlaylist(body, target)
      case Some(text) => Reply(200, headers["content-type" := PlaylistMime], Text(text))
      case None => Reply(500, headers, Text(FailureMessage))
    else
      Reply(status, headers + ForwardedHeaders(hs), Relay)
  }

  /** The reply the handler produces for `req` when the network answers
      with `fetch`. */
  function ProxyReply(req: ProxyRequest, fetch: Outbound -> Upstream): (r: Reply)
    ensures !r.body.NoBody?
    ensures r.headers == map[] <==>
              !IsTruthy(req.url) || fetch(Outbound(req.url.value, RequestHeaders(req.range))).FetchFailed?
  {
    if !IsTruthy(req.url) then Reply(400, map[], Text(MissingUrlMessage))
    else
      var target := req.url.value;
      match fetch(Outbound(target, RequestHeaders(req.range)))
      case FetchFailed => Reply(500, map[], Text(FailureMessage))
      case Upstream(status, hs, body) => UpstreamReply(target, status, hs, body)
  }

  // ---------------------------------------------------------------------
  // Properties of the reply

  /** A missing or empty `url` is answered with 400 whatever the network
      would say: `fetch` is never consulted. */
  lemma MissingUrlNeverFetches(req: ProxyRequest, f: Outbound -> Upstream, g: Outbound -> Upstream)
    requires !IsTruthy(req.url)
    ensures ProxyReply(req, f) == ProxyReply(req, g) == Reply(400, map[], Text(MissingUrlMessage))
  {
  }

  /** With a `url`, the handler consults `fetch` for exactly one request: the
      target URL with the `range` header, if any; a rejection is a 500 with
      no header, and an answer is handled by `UpstreamReply`. */
  lemma FetchesOnlyTarget(req: ProxyRequest, f: Outbound -> Upstream, g: Outbound -> Upstream)
    requires IsTruthy(req.url)
    requires f(Outbound(req.url.value, RequestHeaders(req.range))) == g(Outbound(req.url.value, RequestHeaders(req.range)))
    ensures ProxyReply(req, f) == ProxyReply(req, g)
    ensures var up := f(Outbound(req.url.value, RequestHeaders(req.range)));
            ProxyReply(req, f) ==
              if up.FetchFailed? then Reply(500, map[], Text(FailureMessage))
              else UpstreamReply(req.url.value, up.status, up.headers, up.body)
  {
  }

  /** Every reply to an upstream answer carries the CORS headers and exactly
      one Cache-Control value, decided by content type and URL alone, before
      and whatever the playlist test decides. */
  lemma CacheControlDecided(target: string, status: int, hs: seq<(string, string)>, body: string)
    ensures var r := UpstreamReply(target, status, hs, body);
            "cache-control" in r.headers &&
            (r.headers["cache-control"] == CacheForever <==> IsCacheable(ContentTypeOf(hs), target)) &&
            (r.headers["cache-control"] == NoCache <==> !IsCacheable(ContentTypeOf(hs), target)) &&
            r.headers["access-control-allow-origin"] == "*" &&
            r.headers["access-control-allow-headers"] == "*"
  {
    var fw := ForwardedHeaders(hs);
    var cc := CacheControl(ContentTypeOf(hs), target);
    var headers := CorsHeaders()["cache-control" := cc];
    assert "cache-control" !in fw;
    assert "access-control-allow-origin" !in fw;
    assert "access-control-allow-headers" !in fw;
    assert CacheForever != NoCache;
    var r := UpstreamReply(target, status, hs, body);
    if IsPlaylist(ContentTypeOf(hs), target) {
      assert r.headers == headers || r.headers == headers["content-type" := PlaylistMime];
    } else {
      assert r.headers == headers + fw;
    }
  }

  /** The playlist branch: status 200 whatever upstream said, the rewritten
      text as body, the HLS content type, and no upstream header. */
  lemma PlaylistReply(target: string, status: int, hs: seq<(string, string)>, body: string)
    requires IsPlaylist(ContentTypeOf(hs), target)
    requires UriReference.Parse(target).scheme.Some?
    ensures var r := UpstreamReply(target, status, hs, body);
            r.status == 200 &&
            r.body == Text(RewritePlaylist(body, target).value) &&
            r.headers.Keys == {"access-control-allow-origin", "access-control-allow-headers", "cache-control", "content-type"} &&
            r.headers["content-type"] == PlaylistMime
  {
    RewriteSucceedsOnAbsoluteBase(body, target);
  }

  /** The names the copy loop sets are the allow-listed names upstream sent. */
  lemma ForwardedNames(hs: seq<(string, string)>)
    ensures ForwardedHeaders(hs).Keys == set i | 0 <= i < |hs| && IsForwardedHeader(hs[i].0) :: hs[i].0
  {
    var names := set i | 0 <= i < |hs| && IsForwardedHeader(hs[i].0) :: hs[i].0;
    ForwardedHeadersExactly(hs);
    forall k | k in names ensures k in ForwardedHeaders(hs) {
      var i :| 0 <= i < |hs| && IsForwardedHeader(hs[i].0) && hs[i].0 == k;
    }
  }

  /** The passthrough branch: the upstream status, the upstream body relayed,
      and of the upstream headers only the four allow-listed ones. */
  lemma PassthroughReply(target: string, status: int, hs: seq<(string, string)>, body: string)
    requires !IsPlaylist(ContentTypeOf(hs), target)
    ensures var r := UpstreamReply(target, status, hs, body);
            r.status == status && r.body == Relay &&
            r.headers.Keys == {"access-control-allow-origin", "access-control-allow-headers", "cache-control"} +
                              set i | 0 <= i < |hs| && IsForwardedHeader(hs[i].0) :: hs[i].0
  {
    ForwardedNames(hs);
  }

  /** A `.m3u8` served with a video content type is rewritten as a playlist
      and still cached forever: the two classifiers do not interact. */
  lemma VideoTypedPlaylistCachedForever(target: string, status: int, hs: seq<(string, string)>, body: string)
    requires EndsWith(target, ".m3u8") && Includes(ContentTypeOf(hs), "video")
    requires UriReference.Parse(target).scheme.Some?
    ensures UpstreamReply(target, status, hs, body).body.Text?
    ensures UpstreamReply(target, status, hs, body).headers["cache-control"] == CacheForever
  {
    RewriteSucceedsOnAbsoluteBase(body, target);
  }

  /** A playlist that cannot be rewritten is a 500 that keeps the CORS and
      cache headers but has no playlist content type. */
  lemma RewriteFailureReply(target: string, status: int, hs: seq<(string, string)>, body: string)
    requires IsPlaylist(ContentTypeOf(hs), target)
    requires RewritePlaylist(body, target).None?
    ensures var r := UpstreamReply(target, status, hs, body);
            r.status == 500 && r.body == Text(FailureMessage) && "content-type" !in r.headers &&
            "cache-control" in r.headers
  {
  }

  /** Both classifiers read as occurrences in the content type and suffixes
      of the URL. */
  lemma ClassifiersByOccurrence(ct: string, url: string)
    ensures IsCacheable(ct, url) <==>
              (exists i :: OccursAt(ct, "video", i)) || (|url| >= 3 && url[|url| - 3..] == ".ts")
    ensures IsPlaylist(ct, url) <==>
              (exists i :: OccursAt(ct, "application/vnd.apple.mpegurl", i)) ||
              (exists i :: OccursAt(ct, "application/x-mpegURL", i)) ||
              (|url| >= 5 && url[|url| - 5..] == ".m3u8")
  {
    IncludesIffOccurs(ct, "video");
    IncludesIffOccurs(ct, "application/vnd.apple.mpegurl");
    IncludesIffOccurs(ct, "application/x-mpegURL");
  }

  /** On the header lists `fetch` produces, the content type the classifiers
      read is the one the copy loop forwards, and so is every other forwarded
      value. */
  lemma LookupAgreesWithCopy(hs: seq<(string, string)>)
    requires IsHeaderList(hs)
    ensures forall name :: name in ForwardedHeaders(hs) ==> HeaderValue(hs, name) == Some(ForwardedHeaders(hs)[name])
  {
    ForwardedHeadersExactly(hs);
    forall name | name in ForwardedHeaders(hs)
      ensures HeaderValue(hs, name) == Some(ForwardedHeaders(hs)[name])
    {
      var i :| 0 <= i < |hs| && hs[i].0 == name;
      assert forall j :: i < j < |hs| ==> hs[j].0 != hs[i].0;
      var v := HeaderValue(hs, name).value;
      var k :| 0 <= k < |hs| && hs[k] == (name, v);
      assert k == i;
    }
  }

  // ---------------------------------------------------------------------
  // The passthrough branch on a web stream body

  /** The reply as index.js:181-263 produces it when `fetch` is the built-in
      one of Node: `upstream.body` is then a web `ReadableStream`, which has no
      `pipe`, so index.js:260 throws after the status and headers are set,
      and the catch answers 500 with the failure text over them. */
  function UpstreamReplyWebStream(target: string, status: int, hs: seq<(string, string)>, body: string): (r: Reply)
    ensures !IsPlaylist(ContentTypeOf(hs), target) ==> r.status == 500 && r.body == Text(FailureMessage)
    ensures IsPlaylist(ContentTypeOf(hs), target) ==> r == UpstreamReply(target, status, hs, body)
  {
    var intended := UpstreamReply(target, status, hs, body);
    if intended.body.Relay? then intended.(status := 500, body := Text(FailureMessage)) else intended
  }

  /** A `.ts` segment answered 200 fails as written, while the intended reply
      relays it with its own status. */
  lemma SegmentFailsOnWebStream()
    ensures UpstreamReplyWebStream("https://cdn.example/seg1.ts", 200, [], "").status == 500
    ensures UpstreamReply("https://cdn.example/seg1.ts", 200, [], "").status == 200
    ensures UpstreamReply("https://cdn.example/seg1.ts", 200, [], "").body == Relay
  {
    var url := "https://cdn.example/seg1.ts";
    assert url[|url| - 1] == 's';
    assert !IsPlaylist(ContentTypeOf([]), url);
  }

  /** A query string after `.m3u8` defeats the suffix test. */
  lemma QueryDefeatsPlaylistSuffix()
    ensures !IsPlaylist("", "https://cdn.example/x.m3u8?tok=1")
    ensures IsPlaylist("", "https://cdn.example/x.m3u8")
  {
    var url := "https://cdn.example/x.m3u8?tok=1";
    assert url[|url| - 1] == '1';
  }

  /** The lower-case spelling `application/x-mpegurl` is not one of the two
      playlist content types: the test is case-sensitive. */
  lemma LowerCaseMimeIsNotPlaylist()
    ensures !IsPlaylist("application/x-mpegurl", "https://cdn.example/live")
  {
    var ct := "application/x-mpegurl";
    var url := "https://cdn.example/live";
    IncludesIffOccurs(ct, "application/vnd.apple.mpegurl");
    IncludesIffOccurs(ct, "application/x-mpegURL");
    assert ct[19] != "application/x-mpegURL"[19];
    assert !OccursAt(ct, "application/x-mpegURL", 0);
    assert url[|url| - 1] == 'e';
  }

  // ---------------------------------------------------------------------
  // The Express response, changed step by step

  class Response {
    var status: int
    var headers: map<string, string>
    var body: Body

    constructor ()
      ensures Snapshot() == Fresh
    {
      status, headers, body := 200, map[], NoBody;
    }

    function Snapshot(): Reply
      reads this
    {
      Reply(status, headers, body)
    }

    /** `res.status(code)` */
    method Status(code: int)
      modifies this
      ensures Snapshot() == old(Snapshot()).(status := code)
    {
      status := code;
    }

    /** `res.setHeader(name, value)` */
    method SetHeader(name: string, value: string)
      modifies this
      ensures Snapshot() == old(Snapshot()).(headers := old(headers)[name := value])
    {
      headers := headers[name := value];
    }

    /** `res.send(text)` */
    method Send(text: string)
      modifies this
      ensures Snapshot() == old(Snapshot()).(body := Text(text))
    {
      body := Text(text);
    }

    /** `upstream.body.pipe(res)` */
    method Pipe()
      modifies this
      ensures Snapshot() == old(Snapshot()).(body := Relay)
    {
      body := Relay;
    }

    /** The `upstream.headers.forEach` loop (index.js:249-258). */
    method CopyForwardedHeaders(hs: seq<(string, string)>)
      modifies this
      ensures Snapshot() == old(Snapshot()).(headers := old(headers) + ForwardedHeaders(hs))
    {
      var i := 0;
      while i < |hs|
        invariant 0 <= i <= |hs|
        invariant status == old(status) && body == old(body)
        invariant headers == old(headers) + ForwardedHeaders(hs[..i])
      {
        var (key, value) := hs[i];
        ForwardedStep(old(headers), hs, i);
        if IsForwardedHeader(key) {
          SetHeader(key, value);
        }
        i := i + 1;
      }
      assert hs[..|hs|] == hs;
    }
  }

  /** The handler, step by step as index.js:166-265 runs it, on a fresh
      response. */
  method HandleProxy(req: ProxyRequest, fetch: Outbound -> Upstream, res: Response)
    requires res.Snapshot() == Fresh
    modifies res
    ensures res.Snapshot() == ProxyReply(req, fetch)
  {
    if !IsTruthy(req.url) {
      res.Status(400);
      res.Send(MissingUrlMessage);
      return;
    }
    var targetUrl := req.url.value;
    var headers: map<string, string> := map[];
    if IsTruthy(req.range) {
      headers := headers["range" := req.range.value];
    }
    var upstream := fetch(Outbound(targetUrl, headers));
    if upstream.FetchFailed? {
      res.Status(500);
      res.Send(FailureMessage);
      return;
    }
    var contentType := ContentTypeOf(upstream.headers);
    res.SetHeader("access-control-allow-origin", "*");
    res.SetHeader("access-control-allow-headers", "*");
    if IsCacheable(contentType, targetUrl) {
      res.SetHeader("cache-control", CacheForever);
    } else {
      res.SetHeader("cache-control", NoCache);
    }
    if IsPlaylist(contentType, targetUrl) {
      var playlist := upstream.body;
      playlist := ProxyAbsoluteUrls(playlist);
      var rewritten := ProxyUriLines(playlist, targetUrl);
      if rewritten.None? {
        res.Status(500);
        res.Send(FailureMessage);
        return;
      }
      playlist := rewritten.value;
      res.SetHeader("content-type", PlaylistMime);
      res.Send(playlist);
      return;
    }
    res.Status(upstream.status);
    res.CopyForwardedHeaders(upstream.headers);
    res.Pipe();
  }
}
