# HLS proxy and YouTube metadata service, modelled in Dafny

The service is a small Express server (`index.js`). The largest part is the
`/proxy` endpoint. It fetches one upstream URL, classifies the answer as a
cacheable segment and/or an HLS playlist, and does one of two things:

- it rewrites every URI in a playlist so that the player fetches it back
  through `/proxy?url=…`;
- or it relays the upstream body with an allow-listed set of headers.

The other endpoints reshape the records returned by an RSS parser and by
yt-dlp: channel feed entries, the video/audio format lists, and a live check.

The project has these modules:

| module | file | what it holds |
|---|---|---|
| `Wrappers` | `wrappers.dfy` | `Option`, for missing fields and steps that may throw |
| `Text` | `text.dfy` | `startsWith`/`endsWith`/`includes`, `indexOf`, `replace` with a string pattern, and splitting a text on `"\n"` |
| `UriComponent` | `uri_component.dfy` | `encodeURIComponent` (section 19.2.6 of ECMA-262, UTF-8 per RFC 3629) and its inverse `decodeURIComponent` |
| `UriReference` | `uri_reference.dfy` | reference parsing (appendix B of RFC 3986), recomposition (section 5.3), merge and remove_dot_segments (5.2.3, 5.2.4), and reference resolution (5.2.2), which stands for `new URL(line, base)` |
| `Playlist` | `playlist.dfy` | the two `playlist.replace` passes, modelled regex by regex |
| `Proxy` | `proxy.dfy` | the request gate, the outbound header map, both classifiers, the reply as a pure function, a `Response` class changed step by step, and the handler method proved equal to the pure reply |
| `Metadata` | `metadata.dfy` | the format filters, the thumbnail fallback chain, the video-id derivation, the channel entries and the details and live endpoints |

The network and the two foreign tools are parameters:

- `fetch` is a function from the outbound request to the upstream response (or a rejection);
- yt-dlp is a function from the watch URL to its JSON record (or a failure);
- the feed items are an input sequence.

### What the playlist rewriter does to particular lines

The comment at index.js:212-216 says the rewrite covers every URL in the
playlist, absolute and relative. The two regular expressions do less than
that, and the model follows them:

- **Absolute URI lines.** A line that is one `https?://` URL comes out of both
  passes as its proxy reference (`Playlist.AbsoluteUriLine`, built on
  `Playlist.RunReplaced`).
- **Relative segment paths.** These are resolved as `new URL(line, targetUrl)`
  does, which replaces only the last segment of the playlist URL. So
  `segment001.ts` against `https://cdn.example/a/b/index.m3u8` gives
  `https://cdn.example/a/b/segment001.ts` (`UriReference.ResolveBesideBase`).
- **Relative URIs in tag attributes are not proxied.** Pass 1 only matches
  `http`, and pass 2 leaves `#` lines alone. So `URI="key.bin"` in
  `#EXT-X-KEY` stays as it is, as do the URI attributes of `#EXT-X-MAP` and
  `#EXT-X-MEDIA` (section 4.3 of RFC 8216). The player then resolves them
  against `/proxy`, not against the upstream playlist
  (`Playlist.TagUriWithoutUrlKept`, `Playlist.RelativeKeyUriKept`).
- **Quoted absolute URIs take in what follows them.** Pass 1 matches up to
  the next whitespace. The closing quote becomes part of the match and is
  encoded as `%22` (`Playlist.ClosingQuoteJoinsRun`), and so are the
  attributes after it. `URI="https://k/key",IV=0x1` becomes one proxy
  reference that encodes `https://k/key",IV=0x1`, and the tag loses its `IV`
  attribute (`Playlist.QuotedUriTakesLaterAttributes`).
- **Pass 1 can make a raw URL.** In `http:/https://x` only the inner URL is
  replaced. The output reads `http://proxy?url=…`, which pass 1's own pattern
  would match again (`Playlist.SweepCreatesUrl`). So it is not true that no
  upstream URL survives pass 1.
- **Lines already starting with `/proxy`.** A relative line that begins with
  `/proxy` is passed through unresolved, even when it is an upstream path.
- **The multiline `^` anchor.** In pass 2, `^` under the `m` flag also fires
  after `\r`, U+2028 and U+2029. So a `#` line containing one of these has its
  tail after the break rewritten. The model reproduces this exactly
  (`Playlist.FirstMatchStart`, `Playlist.RewriteLine`). A `#` line free of
  line terminators is left untouched (`Playlist.HashLineKept`), as RFC 8216
  expects of tags and comments.

## Model

| member | source | states |
|---|---|---|
| Text.IncludesIffOccurs | index.js:195 | `includes` holds exactly when the pattern occurs at some index |
| Text.IndexOf | index.js:24 | the result is -1 when the pattern does not occur, otherwise an index where it occurs with no earlier occurrence |
| Text.ReplaceFirst | index.js:24 | replacing with a string pattern rewrites only the first occurrence, and leaves a text without one unchanged |
| Text.Lines | index.js:223 | splitting on line feeds gives at least one piece, and no piece contains a line feed |
| Text.JoinLines | index.js:223 | joining the pieces with line feeds gives back the text |
| Text.LinesJoin | index.js:223 | splitting a join of line-feed-free pieces gives back the pieces |
| Text.LineCount | index.js:223 | a text has one more line than it has line feeds |
| UriComponent.HexRoundTrip | index.js:219 | every hex digit written by the encoder reads back as its value |
| UriComponent.Utf8 | index.js:219 | every code point becomes 1 to 4 octets, each below 256 |
| UriComponent.Encode | index.js:219 | the encoded text contains only unreserved characters and `%` and is never shorter than the input; it is the input itself exactly when every character is unreserved |
| UriComponent.Decode | index.js:219 | decoding never lengthens a text, and a text without `%` decodes to itself |
| UriComponent.DecodeEscape | index.js:219 | a decoded escape sequence consumes at least three and at most all remaining characters |
| UriComponent.DecodeEncode | index.js:219 | decoding the encoding of any text gives the text back |
| UriReference.RecomposeParse | index.js:231 | recomposing the five parsed components gives back the reference text |
| UriReference.Parse | index.js:231 | a scheme is reported only when the text starts with a valid scheme followed by `:` |
| UriReference.Directory | index.js:231 | the merge directory is a prefix of the path that ends with `/` (or is empty), and no `/` follows it |
| UriReference.Merge | index.js:231 | the merged path is the reference path after `/` (base with authority and empty path) or after the base path up to and including its last `/` (section 5.2.3) |
| UriReference.RemoveDots | index.js:231 | removing dot segments never makes the path longer than the two buffers together |
| UriReference.RemoveDotsIdentity | index.js:231 | remove_dot_segments leaves a path without `.` or `..` segments unchanged |
| UriReference.RemoveDotsClean | index.js:231 | from a rooted input buffer and a rooted output buffer free of dot segments, the loop of section 5.2.4 of RFC 3986 ends in a rooted path with no `.` or `..` segment |
| UriReference.RemoveDotSegmentsClean | index.js:231 | remove_dot_segments leaves no `.` or `..` segment in a path that is empty or starts with `/` |
| UriReference.DropLastSegmentClean | index.js:231 | step C (dropping the last output segment) keeps the output rooted and free of dot segments |
| UriReference.AppendSegment | index.js:231 | step E (moving a segment whose name is not `.` or `..`) keeps the output rooted and free of dot segments |
| UriReference.Transform | index.js:231 | the target of a resolution always has a scheme and keeps the reference's fragment |
| UriReference.TransformRemovesDotSegments | index.js:231 | a relative or absolute-path reference resolved against a base with an authority leaves no `.` or `..` segment in the target path |
| UriReference.Resolve | index.js:231 | RFC 3986 resolution fails exactly when the base has no scheme (one of the cases where `new URL` throws) |
| UriReference.ResolvedKeepsBaseScheme | index.js:231 | a relative reference resolved against an absolute base succeeds and takes the base's scheme |
| UriReference.SiblingTarget | index.js:231 | a plain relative path replaces the last segment of the base path and drops the base's query and fragment |
| UriReference.ResolveBesideBase | index.js:231 | a file name resolved against `scheme://host/dir/last` gives `scheme://host/dir/name` |
| Playlist.ProxyUrl | index.js:219 | a proxied URL starts with `/proxy` and contains no whitespace |
| Playlist.ProxyUrlRoundTrip | index.js:219 | decoding the `url` parameter of a proxied URL gives the original URL |
| Playlist.MatchLengthIsLongestMatch | index.js:218 | the pass 1 match at a position is an `https?://` run, and is the longest one starting there (greedy) |
| Playlist.ProxyAbsoluteUrls | index.js:217-220 | pass 1 gives an empty text exactly for an empty input |
| Playlist.ProxyAbsoluteUrlsShape | index.js:217-220 | pass 1 keeps a leading `#` (and adds none), and adds no line feed or line terminator |
| Playlist.RunReplaced | index.js:217-220 | a URL run at the end of the text or before whitespace becomes exactly its proxy reference, and the rest is swept on its own |
| Playlist.KeptWithoutH | index.js:217-220 | text without a lower-case `h` starts no match and is kept as it is |
| Playlist.SweepAcrossBreak | index.js:217-220 | pass 1 commutes with any whitespace character: no match spans one |
| Playlist.SweepLines | index.js:217-220 | pass 1 over the whole text equals pass 1 over each line: it never joins or splits lines |
| Playlist.ClosingQuoteJoinsRun | index.js:218 | a quote right after a URL run is swallowed into the match |
| Playlist.FirstMatchStart | index.js:223 | the pass 2 match in a line starts at the least position where `^` can fire and no `#` follows |
| Playlist.HashCheckUnreachable | index.js:223-226 | a pass 2 match never starts with `#`, so the callback's `#` test never fires |
| Playlist.RewriteUri | index.js:224-233 | the callback fails only when the resolution fails, and whatever it changes becomes a proxy reference |
| Playlist.RewriteUriTarget | index.js:227-232 | the `url` parameter of a rewritten line decodes to the line itself when it starts with `http`, otherwise to the line resolved against the playlist URL |
| Playlist.RewriteLine | index.js:222-234 | a line fails only when the playlist URL has no scheme, and the text before the match start is kept |
| Playlist.RewriteUriProxied | index.js:224-233 | every callback result starts with `/proxy` and adds no line feed |
| Playlist.RewriteLineShape | index.js:222-234 | a rewritten line has no line feed; it is empty iff the input was; it starts with `#` iff the input did; a non-`#` line starts with `/proxy`; a break-free `#` line is unchanged |
| Playlist.RewriteLineIdempotent | index.js:225 | rewriting a rewritten line changes nothing |
| Playlist.RewriteEach | index.js:222-234 | rewriting the lines succeeds line by line, and fails exactly when some line fails |
| Playlist.ProxyUriLines | index.js:222-234 | pass 2 fails exactly when some line fails, which only a playlist URL without a scheme can cause |
| Playlist.RewritePlaylist | index.js:217-234 | the two passes fail only when the playlist URL has no scheme |
| Playlist.RewritePlaylistLines | index.js:217-234 | the rewritten playlist has as many lines as the input, each the two passes applied to its own input line |
| Playlist.RewritePlaylistShape | index.js:217-234 | empty lines stay empty, `#` lines still start with `#`, and all other lines start with `/proxy` |
| Playlist.ProxyUriLinesIdempotent | index.js:222-234 | pass 2 applied to its own output changes nothing |
| Playlist.RewriteSucceedsOnAbsoluteBase | index.js:231 | under RFC 3986 resolution, a playlist URL with a scheme never makes the rewrite fail |
| Playlist.RelativeLineLikeAbsolute | index.js:227-232 | a relative line is proxied exactly as its resolved absolute URL would be |
| Playlist.HashLineKept | index.js:222-234 | pass 2 leaves a `#` line free of line terminators unchanged |
| Playlist.AbsoluteUriLine | index.js:217-229 | a line that is one absolute URL comes out of both passes as its proxy reference |
| Playlist.TagUriWithoutUrlKept | index.js:217-234 | a tag line without `h` and without line terminators comes out of both passes unchanged, relative attribute URIs included |
| Playlist.RelativeKeyUriKept | index.js:217-234 | `#EXT-X-KEY:METHOD=AES-128,URI="key.bin"` is left as it is |
| Playlist.TagEndingInRun | index.js:217-234 | in a tag line ending in a URL run, the whole run becomes one proxy reference and pass 2 keeps the line |
| Playlist.QuotedUriTakesLaterAttributes | index.js:217-220 | in `URI="https://k/key",IV=0x1` the quote and the `IV` attribute are encoded into the proxy reference |
| Playlist.SweepCreatesUrl | index.js:217-220 | `http:/https://x` becomes `http:/` followed by a proxy reference, and the result again holds a match of pass 1 |
| Proxy.RequestHeaders | index.js:174-179 | the outbound headers hold `range`, verbatim, exactly when the inbound request has a non-empty one, and nothing else |
| Proxy.HeaderValue | index.js:183 | a header lookup finds a value exactly when the name is listed, and the value is one listed for it |
| Proxy.LookupAgreesWithCopy | index.js:183-258 | on header lists with one entry per name, as `Headers` gives them, a lookup finds the value the copy loop forwards |
| Proxy.CacheControl | index.js:195-199 | the value is one of the two constants, immutable exactly when the type includes `video` or the URL ends with `.ts` |
| Proxy.ClassifiersByOccurrence | index.js:195-208 | cacheable exactly when `video` occurs in the type or the URL ends with `.ts`; a playlist exactly when one of the two HLS types occurs or the URL ends with `.m3u8` |
| Proxy.ForwardedHeaders | index.js:249-258 | only allow-listed header names are ever copied |
| Proxy.ForwardedHeadersExactly | index.js:249-258 | the copied headers are exactly the allow-listed names present upstream, each with the value of its last occurrence |
| Proxy.ForwardedStep | index.js:249-258 | each loop turn sets one more allow-listed header on top of those already set |
| Proxy.MissingUrlNeverFetches | index.js:169-171 | a missing or empty `url` gives 400 "Missing url query param" whatever `fetch` would answer |
| Proxy.ProxyReply | index.js:166-265 | every request gets a body, and the reply has no header exactly when `url` is missing or the fetch is rejected |
| Proxy.UpstreamReply | index.js:183-260 | the body is relayed exactly when the answer is not a playlist, and then with the upstream status; a rewritten playlist has status 200 exactly when the rewrite succeeds; the CORS header is always set |
| Proxy.FetchesOnlyTarget | index.js:173-181 | the reply depends on `fetch` only through the one request for the target with the range header; a rejected fetch gives 500 "Proxy failed" with no header |
| Proxy.CacheControlDecided | index.js:188-199 | every fetched reply has the CORS headers and one Cache-Control value, immutable iff the type includes `video` or the URL ends with `.ts` |
| Proxy.PlaylistReply | index.js:204-241 | a playlist is answered with status 200, the rewritten text, the HLS content type and no upstream header |
| Proxy.ForwardedNames | index.js:249-258 | the header names the copy loop sets are exactly the allow-listed names upstream sent |
| Proxy.PassthroughReply | index.js:247-260 | any other answer keeps the upstream status, relays the body, and carries exactly the allow-listed upstream headers |
| Proxy.VideoTypedPlaylistCachedForever | index.js:195-208 | a `.m3u8` served as video is rewritten and still cached forever |
| Proxy.RewriteFailureReply | index.js:231-264 | a playlist whose rewrite throws gives 500 "Proxy failed", keeping the cache header but without the playlist content type |
| Proxy.QueryDefeatsPlaylistSuffix | index.js:207 | `x.m3u8?tok=1` is not a playlist by suffix, while `x.m3u8` is |
| Proxy.LowerCaseMimeIsNotPlaylist | index.js:205-206 | the content-type test is case-sensitive: `application/x-mpegurl` does not match |
| Proxy.UpstreamReplyWebStream | index.js:181-263 | with a web stream body, every answer that is not a playlist ends in 500 "Proxy failed"; playlists are answered as intended |
| Proxy.SegmentFailsOnWebStream | index.js:258-263 | a `.ts` segment answered 200 becomes a 500 as written, but is relayed with status 200 as intended |
| Proxy.Response.constructor | index.js:166 | a fresh response has status 200, no headers and no body |
| Proxy.Response.Status | index.js:247 | `res.status` changes the status only |
| Proxy.Response.SetHeader | index.js:188 | `res.setHeader` sets one header and changes nothing else |
| Proxy.Response.Send | index.js:241 | `res.send` sets the body only |
| Proxy.Response.Pipe | index.js:260 | piping sets the body to the relayed upstream body only |
| Proxy.Response.CopyForwardedHeaders | index.js:249-258 | the copy loop adds exactly the allow-listed upstream headers to those already set |
| Proxy.HandleProxy | index.js:166-265 | the handler, run step by step on a fresh response, leaves exactly the reply the pure model gives |
| Metadata.Filter | index.js:69 | a filter keeps exactly the elements that pass, and never grows |
| Metadata.FilterKeepsOrder | index.js:68-84 | a filter keeps the input order |
| Metadata.FilterPartition | index.js:68-84 | three exclusive and exhaustive filters together account for every element |
| Metadata.MappedKept | index.js:68-84 | the entries made from a filter's output are exactly the images of the kept elements |
| Metadata.QualityLabel | index.js:71 | the label is `format_note` when that is truthy, and `resolution` otherwise; it is set whenever either is |
| Metadata.VideoQualities | index.js:68-76 | the details video list holds an entry for every format with video and only such entries, never more entries than formats |
| Metadata.AudioQualities | index.js:78-84 | the details audio list holds an entry for every audio-only format and only such entries |
| Metadata.LiveVideoQualities | index.js:130-137 | the live video list holds an entry for every format with video and only such entries |
| Metadata.LiveAudioQualities | index.js:139-144 | the live audio list holds an entry for every audio-only format and only such entries |
| Metadata.FormatPartition | index.js:68-84 | every format is video, audio-only or has neither codec, and the lists together count every format |
| Metadata.FormatListsSelect | index.js:68-84 | video entries are exactly the formats whose vcodec is not "none", audio entries exactly the audio-only ones, each list in input order, and formats with neither codec in neither list |
| Metadata.LiveQualityHasNoFallback | index.js:130-137 | unlike the details list, the live list takes no resolution fallback for its quality label |
| Metadata.VideoIdOfFeedId | index.js:24 | `yt:video:` followed by an id gives back that id |
| Metadata.VideoIdWithoutPrefix | index.js:24 | an id without the prefix is kept whole |
| Metadata.VideoIdRemovesFirstOnly | index.js:24 | a doubled prefix loses only its first copy |
| Metadata.VideoId | index.js:24 | the video id is the feed id, or the feed id less the nine characters of `yt:video:` |
| Metadata.FallbackThumbnail | index.js:34 | the fallback image URL is under `https://i.ytimg.com/vi/` and ends with `/hqdefault.jpg` |
| Metadata.FirstTruthy | index.js:29-35 | the choice is the first truthy candidate, else the fallback, and is never empty when the fallback is not |
| Metadata.Thumbnail | index.js:27-35 | every entry has a non-empty thumbnail |
| Metadata.ThumbnailPriority | index.js:27-35 | the thumbnail chain is the priority list: media thumbnail, first group thumbnail, standard image |
| Metadata.ChannelVideoOf | index.js:23-44 | an entry carries the derived video id; its thumbnail is the first truthy entry of media thumbnail, first group thumbnail and standard image, never empty; title, link and date are copied; the description is the item's, or `""` when that is falsy |
| Metadata.ChannelVideos | index.js:23-45 | one entry per feed item, in feed order, each the entry of its own item |
| Metadata.ChannelFeed | index.js:16-52 | the endpoint fails with "Unable to fetch channel videos" exactly when the feed cannot be read, and otherwise lists one entry per item |
| Metadata.VideoDetails | index.js:54-99 | the details fail with "Unable to extract video details" exactly when yt-dlp fails; otherwise they carry yt-dlp's `title`, `upload_date` and `thumbnail` and the two format lists |
| Metadata.LiveCheck | index.js:102-159 | the live endpoint fails with "Unable to fetch live stream" exactly when the feed cannot be read, is empty, or the newest video cannot be probed |
| Metadata.LiveCheckOutcome | index.js:102-153 | when the newest video can be probed, the answer is live exactly when `is_live` is true, and then carries that video's id, title and thumbnail and exactly the live video and audio lists of its formats; otherwise the fixed message |
| Metadata.EmptyFeedFails | index.js:108-112 | an empty feed gives the 500 error whatever yt-dlp would say |

## Left out

- Express wiring: the `cors()` and `express.json()` middleware, `app.listen` and the `PORT` default. These are framework plumbing.
- The network, streaming and backpressure. `fetch` and `upstream.text()` are a function parameter, and `upstream.body.pipe(res)` is a `Relay` body marker. A rejection of `upstream.text()` is not modelled separately.
- Proxy.Response.Pipe: assumes `upstream.body` is a Node stream that has `pipe`. `Proxy.HandleProxy` and `Proxy.PassthroughReply` describe that intended relay. With Node's built-in `fetch` the body is a web stream without `pipe`, and the passthrough branch ends in a 500. `Proxy.UpstreamReplyWebStream` models that case (see Findings).
- The upstream header list is any list of pairs. `Headers.forEach` gives each name once, in lower case. `Proxy.IsHeaderList` states that domain. `Proxy.HeaderValue` takes the first entry for a name and `Proxy.ForwardedHeaders` the last; they agree on such lists (`Proxy.LookupAgreesWithCopy`).
- `console.error` logging.
- The RSS parser and the yt-dlp process. They are function parameters. Only their result records are modelled, and each failure becomes the endpoint's 500 outcome. The `/` endpoint's fixed greeting is not modelled.
- Exceptions are reduced to one failure outcome per step. A `format` list that is missing (a `TypeError` in `data.formats.filter`) is not modelled, because the formats are always a sequence.
- Header names are kept in lower case, as Node's `getHeader` reports them. Case-insensitive matching of `setHeader` names is not modelled.
- `res.send` adds a `; charset=utf-8` suffix to the content type and a default `text/html` type for the 400 and 500 texts. Neither is modelled.
- An Express query with a repeated `url` parameter is an array. The model takes `url` as an optional string.
- UriReference.RemoveDotSegmentsClean: proved for paths that are empty or start with `/`. These are the paths a playlist line resolves to against an `http` URL. A path such as `a/../b`, which only a reference with its own scheme and no authority produces, is not covered.
- UriReference.Resolve: models RFC 3986 resolution, not the WHATWG URL parser behind `new URL`. `new URL` also throws for an invalid host or port, such as in a line `//cdn.example:99999/a.ts` or `//a b/x`. It also throws for a relative line under an opaque base such as a `data:` URL. The handler then answers 500 "Proxy failed". The model's resolution fails only for a base without a scheme. Host parsing, IDNA, percent-encoding normalisation, the `/` given to an empty path with an authority, and the stripping of stray whitespace and `\r` are not modelled. Non-special schemes (neither `http` nor `https`) may serialise differently in the WHATWG parser.
- UriComponent.Encode: a lone surrogate, for which `encodeURIComponent` throws `URIError`, cannot occur. Dafny's `char` holds Unicode scalar values only, so that failure path is not modelled.
- `fps` and `abr` are copied through as optional numbers with no arithmetic.
- Playlist.RewriteSucceedsOnAbsoluteBase: holds for the RFC 3986 resolution of the model only. For the invalid hosts, ports and opaque bases named under `UriReference.Resolve`, the source's rewrite throws. `Proxy.RewriteFailureReply`'s 500 covers that outcome, but the model reaches it only with a base that has no scheme.
- Whole playlists are not proved before and after as literal strings. The line-by-line lemmas cover them: `RewritePlaylistLines`, `RewritePlaylistShape`, `AbsoluteUriLine`, `ResolveBesideBase` and `ProxyUrlRoundTrip`.

## Findings

| source | as written | input that shows it | evidently intended | confidence | as-written member | corrected member |
|---|---|---|---|---|---|---|
| index.js:181-263 | `upstream.body.pipe(res)` on the body of Node's built-in `fetch`, a web `ReadableStream` without `pipe`: the call throws after the status and headers are set, and the catch answers 500 "Proxy failed" | any answer that is not a playlist, such as `https://cdn.example/seg1.ts` answered 200 | relay the upstream body with the upstream status and the allow-listed headers | depends on which `fetch` the runtime provides; not executed | Proxy.UpstreamReplyWebStream, Proxy.SegmentFailsOnWebStream | Proxy.UpstreamReply, Proxy.PassthroughReply |
