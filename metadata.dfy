/** The metadata transformers of the three YouTube endpoints: the channel
    feed entries (index.js:16-52), the format lists of `/video/:id/details`
    (index.js:54-99) and the live check of `/channel/:id/live`
    (index.js:102-159). The feed parser and yt-dlp are parameters: their
    result records are the inputs. */
module Metadata {
  import opened Wrappers
  import opened Text

  // ---------------------------------------------------------------------
  // Keeping order while filtering

  /** `s.filter(keep)` */
  function Filter<T(!new)>(s: seq<T>, keep: T -> bool): (r: seq<T>)
    ensures |r| <= |s|
    ensures forall x :: x in r <==> x in s && keep(x)
    decreases |s|
  {
    if s == [] then []
    else
      var rest := Filter(s[1..], keep);
      assert forall x :: x in s <==> x == s[0] || x in s[1..];
      if keep(s[0]) then [s[0]] + rest else rest
  }

  /** `r` is `s` with some elements dropped, the rest in their order. */
  predicate IsSubsequence<T(==)>(r: seq<T>, s: seq<T>)
    decreases |s|
  {
    if r == [] then true
    else if s == [] then false
    else if r[0] == s[0] then IsSubsequence(r[1..], s[1..])
    else IsSubsequence(r, s[1..])
  }

  lemma {:induction false} SubsequenceSkip<T>(r: seq<T>, x: T, s: seq<T>)
    requires IsSubsequence(r, s)
    ensures IsSubsequence(r, [x] + s)
    decreases |s|, 1
  {
    if r != [] && r[0] == x {
      // matched at x instead: the rest of r must be a subsequence of s
      SubsequenceTail(r, s);
      assert ([x] + s)[1..] == s;
    } else {
      assert ([x] + s)[1..] == s;
    }
  }

  lemma {:induction false} SubsequenceTail<T>(r: seq<T>, s: seq<T>)
    requires r != [] && IsSubsequence(r, s)
    ensures IsSubsequence(r[1..], s)
    decreases |s|, 0
  {
    if r[0] == s[0] {
      SubsequenceSkip(r[1..], s[0], s[1..]);
      assert [s[0]] + s[1..] == s;
    } else {
      SubsequenceTail(r, s[1..]);
      SubsequenceSkip(r[1..], s[0], s[1..]);
      assert [s[0]] + s[1..] == s;
    }
  }

  /** Filtering keeps the input order. */
  lemma {:induction false} FilterKeepsOrder<T(!new)>(s: seq<T>, keep: T -> bool)
    ensures IsSubsequence(Filter(s, keep), s)
    decreases |s|
  {
    if s != [] {
      FilterKeepsOrder(s[1..], keep);
      if keep(s[0]) {
        assert Filter(s, keep)[1..] == Filter(s[1..], keep);
      } else {
        SubsequenceSkip(Filter(s[1..], keep), s[0], s[1..]);
        assert [s[0]] + s[1..] == s;
      }
    }
  }

  /** Three filters whose tests are exclusive and exhaustive split the input:
      their lengths add up to its length. */
  lemma {:induction false} FilterPartition<T(!new)>(s: seq<T>, p: T -> bool, q: T -> bool, o: T -> bool)
    requires forall x :: x in s ==> (p(x) || q(x) || o(x))
    requires forall x :: x in s ==> !(p(x) && q(x)) && !(p(x) && o(x)) && !(q(x) && o(x))
    ensures |Filter(s, p)| + |Filter(s, q)| + |Filter(s, o)| == |s|
    decreases |s|
  {
    if s != [] {
      assert forall x :: x in s[1..] ==> x in s;
      FilterPartition(s[1..], p, q, o);
      assert s[0] in s;
    }
  }

  // ---------------------------------------------------------------------
  // yt-dlp formats

  /** A yt-dlp format record; each field may be missing. `fps` and `abr` are
      copied through untouched. */
  datatype Format = Format(
    vcodec: Option<string>, acodec: Option<string>,
    format_note: Option<string>, resolution: Option<string>,
    fps: Option<real>, abr: Option<real>,
    url: Option<string>, ext: Option<string>)

  /** `f.vcodec !== "none"`: a missing codec counts as video. */
  predicate HasVideo(f: Format) {
    f.vcodec != Some("none")
  }

  /** `f.acodec !== "none" && f.vcodec === "none"` */
  predicate IsAudioOnly(f: Format) {
    f.acodec != Some("none") && f.vcodec == Some("none")
  }

  /** Neither codec: such a format is listed nowhere. */
  predicate HasNoStream(f: Format) {
    f.acodec == Some("none") && f.vcodec == Some("none")
  }

  /** The entries of `videoQualities` and `audioQualities` of the details
      endpoint, and their slimmer live counterparts. */
  datatype VideoQuality = VideoQuality(
    quality: Option<string>, resolution: Option<string>, fps: Option<real>,
    url: Option<string>, ext: Option<string>)
  datatype AudioQuality = AudioQuality(bitrate: Option<real>, url: Option<string>, ext: Option<string>)
  datatype LiveVideoQuality = LiveVideoQuality(
    quality: Option<string>, resolution: Option<string>, fps: Option<real>, url: Option<string>)
  datatype LiveAudioQuality = LiveAudioQuality(bitrate: Option<real>, url: Option<string>)

  /** `f.format_note || f.resolution` */
  function QualityLabel(f: Format): (q: Option<string>)
    ensures IsTruthy(f.format_note) ==> q == f.format_note
    ensures !IsTruthy(f.format_note) ==> q == f.resolution
    ensures IsTruthy(f.format_note) || IsTruthy(f.resolution) ==> IsTruthy(q)
  {
    if IsTruthy(f.format_note) then f.format_note else f.resolution
  }

  function VideoQualityOf(f: Format): VideoQuality {
    VideoQuality(QualityLabel(f), f.resolution, f.fps, f.url, f.ext)
  }

  function AudioQualityOf(f: Format): AudioQuality {
    AudioQuality(f.abr, f.url, f.ext)
  }

  function LiveVideoQualityOf(f: Format): LiveVideoQuality {
    LiveVideoQuality(f.format_note, f.resolution, f.fps, f.url)
  }

  function LiveAudioQualityOf(f: Format): LiveAudioQuality {
    LiveAudioQuality(f.abr, f.url)
  }

  /** The entries made from what a filter keeps are exactly the images of
      the kept elements. */
  lemma MappedKept<T(!new), U>(s: seq<T>, keep: T -> bool, kept: seq<T>, r: seq<U>, f: T -> U)
    requires kept == Filter(s, keep)
    requires |r| == |kept| && forall k :: 0 <= k < |r| ==> r[k] == f(kept[k])
    ensures forall x :: x in s && keep(x) ==> f(x) in r
    ensures forall y :: y in r ==> exists x :: x in s && keep(x) && y == f(x)
  {
    forall x | x in s && keep(x) ensures f(x) in r {
      var k :| 0 <= k < |kept| && kept[k] == x;
      assert r[k] == f(x);
    }
    forall y | y in r ensures exists x :: x in s && keep(x) && y == f(x) {
      var k :| 0 <= k < |r| && r[k] == y;
      assert kept[k] in kept;
    }
  }

  /** index.js:68-76 */
  function VideoQualities(fs: seq<Format>): (r: seq<VideoQuality>)
    ensures |r| <= |fs|
    ensures forall f :: f in fs && HasVideo(f) ==> VideoQualityOf(f) in r
    ensures forall q :: q in r ==> exists f :: f in fs && HasVideo(f) && q == VideoQualityOf(f)
  {
    var kept := Filter(fs, HasVideo);
    var r := seq(|kept|, k requires 0 <= k < |kept| => VideoQualityOf(kept[k]));
    MappedKept(fs, HasVideo, kept, r, VideoQualityOf);
    r
  }

  /** index.js:78-84 */
  function AudioQualities(fs: seq<Format>): (r: seq<AudioQuality>)
    ensures |r| <= |fs|
    ensures forall f :: f in fs && IsAudioOnly(f) ==> AudioQualityOf(f) in r
    ensures forall q :: q in r ==> exists f :: f in fs && IsAudioOnly(f) && q == AudioQualityOf(f)
  {
    var kept := Filter(fs, IsAudioOnly);
    var r := seq(|kept|, k requires 0 <= k < |kept| => AudioQualityOf(kept[k]));
    MappedKept(fs, IsAudioOnly, kept, r, AudioQualityOf);
    r
  }

  /** index.js:130-137 */
  function LiveVideoQualities(fs: seq<Format>): (r: seq<LiveVideoQuality>)
    ensures |r| <= |fs|
    ensures forall f :: f in fs && HasVideo(f) ==> LiveVideoQualityOf(f) in r
    ensures forall q :: q in r ==> exists f :: f in fs && HasVideo(f) && q == LiveVideoQualityOf(f)
  {
    var kept := Filter(fs, HasVideo);
    var r := seq(|kept|, k requires 0 <= k < |kept| => LiveVideoQualityOf(kept[k]));
    MappedKept(fs, HasVideo, kept, r, LiveVideoQualityOf);
    r
  }

  /** index.js:139-144 */
  function LiveAudioQualities(fs: seq<Format>): (r: seq<LiveAudioQuality>)
    ensures |r| <= |fs|
    ensures forall f :: f in fs && IsAudioOnly(f) ==> LiveAudioQualityOf(f) in r
    ensures forall q :: q in r ==> exists f :: f in fs && IsAudioOnly(f) && q == LiveAudioQualityOf(f)
  {
    var kept := Filter(fs, IsAudioOnly);
    var r := seq(|kept|, k requires 0 <= k < |kept| => LiveAudioQualityOf(kept[k]));
    MappedKept(fs, IsAudioOnly, kept, r, LiveAudioQualityOf);
    r
  }

  /** Every format lands in exactly one of the video list, the audio list, or
      neither (both codecs "none"); the two lists together with the dropped
      ones account for every input format. */
  lemma FormatPartition(fs: seq<Format>)
    ensures forall f :: f in fs ==> (HasVideo(f) && !IsAudioOnly(f) && !HasNoStream(f)) ||
                                    (!HasVideo(f) && IsAudioOnly(f) && !HasNoStream(f)) ||
                                    (!HasVideo(f) && !IsAudioOnly(f) && HasNoStream(f))
    ensures |VideoQualities(fs)| + |AudioQualities(fs)| + |Filter(fs, HasNoStream)| == |fs|
    ensures |LiveVideoQualities(fs)| + |LiveAudioQualities(fs)| + |Filter(fs, HasNoStream)| == |fs|
  {
    FilterPartition(fs, HasVideo, IsAudioOnly, HasNoStream);
  }

  /** The video list holds exactly the formats with a video codec, in input
      order; the audio list exactly the audio-only ones, in input order. */
  lemma FormatListsSelect(fs: seq<Format>)
    ensures forall f :: f in Filter(fs, HasVideo) <==> f in fs && f.vcodec != Some("none")
    ensures forall f :: f in Filter(fs, IsAudioOnly) <==> f in fs && f.acodec != Some("none") && f.vcodec == Some("none")
    ensures IsSubsequence(Filter(fs, HasVideo), fs)
    ensures IsSubsequence(Filter(fs, IsAudioOnly), fs)
    ensures forall f :: f in fs && HasNoStream(f) ==> f !in Filter(fs, HasVideo) && f !in Filter(fs, IsAudioOnly)
    ensures forall k :: 0 <= k < |VideoQualities(fs)| ==> VideoQualities(fs)[k] == VideoQualityOf(Filter(fs, HasVideo)[k])
    ensures forall k :: 0 <= k < |AudioQualities(fs)| ==> AudioQualities(fs)[k] == AudioQualityOf(Filter(fs, IsAudioOnly)[k])
  {
    FilterKeepsOrder(fs, HasVideo);
    FilterKeepsOrder(fs, IsAudioOnly);
  }

  /** The details list falls back to the resolution when the note is missing;
      the live list does not, so a live format with a resolution but no note
      has no quality label. */
  lemma LiveQualityHasNoFallback()
    ensures var f := Format(None, Some("none"), None, Some("1280x720"), None, None, None, None);
            VideoQualities([f]) == [VideoQuality(Some("1280x720"), Some("1280x720"), None, None, None)] &&
            LiveVideoQualities([f]) == [LiveVideoQuality(None, Some("1280x720"), None, None)]
  {
    var f := Format(None, Some("none"), None, Some("1280x720"), None, None, None, None);
    assert Filter([f], HasVideo) == [f];
  }

  // ---------------------------------------------------------------------
  // Channel feed entries

  datatype Thumb = Thumb(url: Option<string>)
  /** `media.group.thumbnail`, read as an array. */
  datatype Group = Group(thumbnail: Option<seq<Thumb>>)
  datatype Media = Media(thumbnail: Option<Thumb>, group: Option<Group>)

  /** A feed item as the RSS parser returns it. */
  datatype Item = Item(
    id: string, title: Option<string>, link: Option<string>,
    description: Option<string>, published: Option<string>,
    media: Option<Media>)

  /** `item.media?.thumbnail?.url` */
  function MediaThumbnail(item: Item): Option<string> {
    if item.media.Some? && item.media.value.thumbnail.Some? then item.media.value.thumbnail.value.url
    else None
  }

  /** `item.media?.group?.thumbnail?.[0]?.url` */
  function GroupThumbnail(item: Item): Option<string> {
    if item.media.Some? && item.media.value.group.Some? &&
       item.media.value.group.value.thumbnail.Some? &&
       |item.media.value.group.value.thumbnail.value| > 0
    then item.media.value.group.value.thumbnail.value[0].url
    else None
  }

  /** `item.id.replace("yt:video:", "")`: a string pattern, so only the first
      occurrence goes. */
  function VideoId(id: string): (v: string)
    ensures v == id || |v| + |VideoIdPrefix| == |id|
  {
    ReplaceFirst(id, VideoIdPrefix, "")
  }

  const VideoIdPrefix := "yt:video:"

  /** A feed id is the prefix followed by the video id. */
  lemma VideoIdOfFeedId(v: string)
    ensures VideoId(VideoIdPrefix + v) == v
  {
    var id := VideoIdPrefix + v;
    assert OccursAt(id, VideoIdPrefix, 0);
    assert IndexOf(id, VideoIdPrefix) == 0;
    assert id[9..] == v;
  }

  /** An id without the prefix is kept whole. */
  lemma VideoIdWithoutPrefix(id: string)
    requires !Includes(id, VideoIdPrefix)
    ensures VideoId(id) == id
  {
    IncludesIffOccurs(id, VideoIdPrefix);
  }

  /** Only the first occurrence goes: a doubled prefix leaves one behind. */
  lemma VideoIdRemovesFirstOnly(v: string)
    ensures VideoId(VideoIdPrefix + (VideoIdPrefix + v)) == VideoIdPrefix + v
  {
    VideoIdOfFeedId(VideoIdPrefix + v);
  }

  /** `https://i.ytimg.com/vi/${videoId}/hqdefault.jpg` */
  function FallbackThumbnail(videoId: string): (url: string)
    ensures StartsWith(url, "https://i.ytimg.com/vi/")
    ensures EndsWith(url, "/hqdefault.jpg")
  {
    var url := "https://i.ytimg.com/vi/" + videoId + "/hqdefault.jpg";
    assert url[..|"https://i.ytimg.com/vi/"|] == "https://i.ytimg.com/vi/";
    assert url[|url| - |"/hqdefault.jpg"|..] == "/hqdefault.jpg";
    url
  }

  /** A priority list read left to right: the first truthy candidate, else
      the fallback. */
  function FirstTruthy(candidates: seq<Option<string>>, fallback: string): (r: string)
    ensures r == fallback || exists i :: 0 <= i < |candidates| && IsTruthy(candidates[i]) && r == candidates[i].value
    ensures r != fallback ==> exists i :: 0 <= i < |candidates| && IsTruthy(candidates[i]) && r == candidates[i].value &&
                                  forall j :: 0 <= j < i ==> !IsTruthy(candidates[j])
    ensures (forall i :: 0 <= i < |candidates| ==> !IsTruthy(candidates[i])) ==> r == fallback
    ensures fallback != [] ==> r != []
    decreases |candidates|
  {
    if candidates == [] then fallback
    else if IsTruthy(candidates[0]) then candidates[0].value
    else
      var r := FirstTruthy(candidates[1..], fallback);
      assert forall i :: 1 <= i < |candidates| ==> candidates[i] == candidates[1..][i - 1];
      r
  }

  /** The thumbnail chain (index.js:27-35): the item's own thumbnail, else
      the first group thumbnail, else the standard image of the video. */
  function Thumbnail(item: Item, videoId: string): (url: string)
    ensures url != []
  {
    if IsTruthy(MediaThumbnail(item)) then MediaThumbnail(item).value
    else if IsTruthy(GroupThumbnail(item)) then GroupThumbnail(item).value
    else FallbackThumbnail(videoId)
  }

  /** The thumbnail chain is the priority list media, group, fallback. */
  lemma ThumbnailPriority(item: Item, videoId: string)
    ensures Thumbnail(item, videoId) ==
            FirstTruthy([MediaThumbnail(item), GroupThumbnail(item)], FallbackThumbnail(videoId))
  {
    var cs := [MediaThumbnail(item), GroupThumbnail(item)];
    if !IsTruthy(cs[0]) && !IsTruthy(cs[1]) {
      assert cs[1..][1..] == [];
    }
  }

  /** The entry the channel endpoint returns for one feed item. */
  datatype ChannelVideo = ChannelVideo(
    title: Option<string>, videoId: string, link: Option<string>,
    thumbnail: string, description: string, published: Option<string>)

  function ChannelVideoOf(item: Item): (v: ChannelVideo)
    ensures v.videoId == VideoId(item.id)
    ensures v.thumbnail == Thumbnail(item, v.videoId)
    ensures v.thumbnail == FirstTruthy([MediaThumbnail(item), GroupThumbnail(item)], FallbackThumbnail(v.videoId))
    ensures v.thumbnail != []
    ensures v.title == item.title && v.link == item.link && v.published == item.published
    ensures IsTruthy(item.description) ==> v.description == item.description.value
    ensures !IsTruthy(item.description) ==> v.description == ""
  {
    var videoId := VideoId(item.id);
    ThumbnailPriority(item, videoId);
    ChannelVideo(item.title, videoId, item.link, Thumbnail(item, videoId),
                 if IsTruthy(item.description) then item.description.value else "",
                 item.published)
  }

  /** index.js:23-45: one entry per item, in feed order. */
  function ChannelVideos(items: seq<Item>): (vs: seq<ChannelVideo>)
    ensures |vs| == |items|
    ensures forall k :: 0 <= k < |vs| ==> vs[k] == ChannelVideoOf(items[k])
    ensures forall k :: 0 <= k < |vs| ==>
              vs[k].videoId == VideoId(items[k].id) && vs[k].thumbnail == Thumbnail(items[k], vs[k].videoId)
  {
    seq(|items|, k requires 0 <= k < |items| => ChannelVideoOf(items[k]))
  }

  /** `https://www.youtube.com/feeds/videos.xml?channel_id=${channelId}` */
  function FeedUrl(channelId: string): string {
    "https://www.youtube.com/feeds/videos.xml?channel_id=" + channelId
  }

  /** An endpoint's answer: its JSON value, or 500 with an error message. */
  datatype Outcome<T> = Ok(value: T) | Failed(error: string)

  const ChannelFailure := "Unable to fetch channel videos"

  /** `/channel/:id/videos` (index.js:16-52); `rss` stands for the feed
      parser, `None` for its failure (network, XML). */
  function ChannelFeed(channelId: string, rss: string -> Option<seq<Item>>): (r: Outcome<seq<ChannelVideo>>)
    ensures r.Failed? <==> rss(FeedUrl(channelId)).None?
    ensures r.Failed? ==> r.error == ChannelFailure
    ensures r.Ok? ==> |r.value| == |rss(FeedUrl(channelId)).value| &&
                      forall k :: 0 <= k < |r.value| ==> r.value[k] == ChannelVideoOf(rss(FeedUrl(channelId)).value[k])
  {
    match rss(FeedUrl(channelId))
    case None => Failed(ChannelFailure)
    case Some(items) => Ok(ChannelVideos(items))
  }

  // ---------------------------------------------------------------------
  // The details and live endpoints

  /** The fields of yt-dlp's JSON dump the endpoints read. */
  datatype VideoData = VideoData(
    title: Option<string>, upload_date: Option<string>, thumbnail: Option<string>,
    is_live: Option<bool>, formats: seq<Format>)

  datatype Details = Details(
    title: Option<string>, upload_date: Option<string>, thumbnail: Option<string>,
    videoQualities: seq<VideoQuality>, audioQualities: seq<AudioQuality>)

  datatype LiveStatus =
    | NotLive(message: string)
    | Live(title: Option<string>, videoId: string, thumbnail: Option<string>,
           videoQualities: seq<LiveVideoQuality>, audioQualities: seq<LiveAudioQuality>)

  const DetailsFailure := "Unable to extract video details"
  const LiveFailure := "Unable to fetch live stream"
  const NotLiveMessage := "Channel is not live right now."

  /** `https://www.youtube.com/watch?v=${videoId}` */
  function WatchUrl(videoId: string): string {
    "https://www.youtube.com/watch?v=" + videoId
  }

  /** `/video/:id/details` (index.js:54-99); `probe` stands for yt-dlp. */
  function VideoDetails(videoId: string, probe: string -> Option<VideoData>): (r: Outcome<Details>)
    ensures probe(WatchUrl(videoId)).None? <==> r == Failed(DetailsFailure)
    ensures probe(WatchUrl(videoId)).Some? ==> r.Ok?
    ensures r.Ok? ==>
              var data := probe(WatchUrl(videoId)).value;
              r.value.title == data.title && r.value.upload_date == data.upload_date &&
              r.value.thumbnail == data.thumbnail
    ensures r.Ok? ==>
              r.value.videoQualities == VideoQualities(probe(WatchUrl(videoId)).value.formats) &&
              r.value.audioQualities == AudioQualities(probe(WatchUrl(videoId)).value.formats)
  {
    match probe(WatchUrl(videoId))
    case None => Failed(DetailsFailure)
    case Some(data) =>
      Ok(Details(data.title, data.upload_date, data.thumbnail,
                 VideoQualities(data.formats), AudioQualities(data.formats)))
  }

  /** `/channel/:id/live` (index.js:102-159): the newest feed item is probed.
      A failed feed, an empty feed (`rss.items[0].id` throws) or a failed
      probe is a 500. */
  function LiveCheck(channelId: string, rss: string -> Option<seq<Item>>, probe: string -> Option<VideoData>): (r: Outcome<LiveStatus>)
    ensures r.Failed? ==> r.error == LiveFailure
    ensures r.Failed? <==>
              rss(FeedUrl(channelId)).None? || rss(FeedUrl(channelId)).value == [] ||
              probe(WatchUrl(VideoId(rss(FeedUrl(channelId)).value[0].id))).None?
  {
    match rss(FeedUrl(channelId))
    case None => Failed(LiveFailure)
    case Some(items) =>
      if items == [] then Failed(LiveFailure)
      else
        var videoId := VideoId(items[0].id);
        match probe(WatchUrl(videoId))
        case None => Failed(LiveFailure)
        case Some(data) =>
          if data.is_live != Some(true) then Ok(NotLive(NotLiveMessage))
          else Ok(Live(data.title, videoId, data.thumbnail,
                       LiveVideoQualities(data.formats), LiveAudioQualities(data.formats)))
  }

  /** When the newest video can be probed, the answer is live exactly when
      `is_live` is true, and then carries that video's id and its live format
      lists; otherwise the fixed message. */
  lemma LiveCheckOutcome(channelId: string, rss: string -> Option<seq<Item>>, probe: string -> Option<VideoData>)
    requires rss(FeedUrl(channelId)).Some? && rss(FeedUrl(channelId)).value != []
    requires probe(WatchUrl(VideoId(rss(FeedUrl(channelId)).value[0].id))).Some?
    ensures var newest := rss(FeedUrl(channelId)).value[0];
            var data := probe(WatchUrl(VideoId(newest.id))).value;
            var r := LiveCheck(channelId, rss, probe);
            r.Ok? &&
            (r.value.Live? <==> data.is_live == Some(true)) &&
            (r.value.NotLive? ==> r.value.message == NotLiveMessage) &&
            (r.value.Live? ==> r.value.videoId == VideoId(newest.id) &&
                               r.value.title == data.title && r.value.thumbnail == data.thumbnail &&
                               r.value.videoQualities == LiveVideoQualities(data.formats) &&
                               r.value.audioQualities == LiveAudioQualities(data.formats) &&
                               |r.value.videoQualities| + |r.value.audioQualities| <= |data.formats|)
  {
    var data := probe(WatchUrl(VideoId(rss(FeedUrl(channelId)).value[0].id))).value;
    FormatPartition(data.formats);
  }

  /** An empty feed is a 500 whatever yt-dlp would say: the probe is never
      consulted. */
  lemma EmptyFeedFails(channelId: string, rss: string -> Option<seq<Item>>,
                       probe: string -> Option<VideoData>, other: string -> Option<VideoData>)
    requires rss(FeedUrl(channelId)) == Some([])
    ensures LiveCheck(channelId, rss, probe) == LiveCheck(channelId, rss, other) == Failed(LiveFailure)
  {
  }
}
