/**
 * The two route handlers that open a chat: `/c/:id` looks a channel's live
 * stream up (src/routes/channel.ts) and `/v/:id` takes a video id
 * (src/routes/stream.ts). What they do before and after the page fetch is
 * modelled; the fetch itself (`getVideoData`) is a function parameter, and
 * `createChatObject` is the reply the handler ends in.
 */
module Routes {
  import opened JsonTree
  import Text

  const Site := "https://www.youtube.com/"
  const WatchPrefix := "https://www.youtube.com/watch?v="

  /** The parsed page data `getVideoData` resolves to; `config` is passed on
      to the chat object untouched. */
  datatype VideoData = VideoData(initialData: Json, config: Json)

  /** What `getVideoData(urls)` answers: an error pair or the page data. */
  datatype Fetched = FetchError(message: string, status: int) | Fetched(data: VideoData)

  /** How a handler ends: `notFound`, an `err([message, status])`, an
      exception escaping the `traverseJSON` callback, or
      `ok(createChatObject(videoId, data, …))`. */
  datatype Reply =
    | NotFoundReply
    | Failure(message: string, status: int)
    | Raised
    | CreateChat(videoId: Json, data: VideoData)

  // ---------------------------------------------------------------- channel

  /** `/^UC.{22}$/.test(id)`: "UC" and then exactly 22 characters, none of
      which is a line terminator (`.` refuses those). */
  predicate IsChannelId(id: string) {
    |id| == 24 && id[0] == 'U' && id[1] == 'C'
    && forall i :: 2 <= i < 24 ==> !Text.IsLineTerminator(id[i])
  }

  /** One candidate page: `https://www.youtube.com/${part}/${channelId}/live`. */
  function LiveUrl(part: string, id: string): string {
    Site + part + "/" + id + "/live"
  }

  /** The order in which `getChannelLiveUrl` tries the three kinds of channel
      page: a channel id first as `channel`, any other name first as `c`. */
  function LiveUrlParts(id: string): (parts: seq<string>)
    ensures |parts| == 3
    ensures IsChannelId(id) <==> parts[0] == "channel"
    ensures !IsChannelId(id) <==> parts[2] == "channel"
  {
    if IsChannelId(id) then ["channel", "c", "user"] else ["c", "user", "channel"]
  }

  /** `getChannelLiveUrl(channelId)`. */
  function ChannelLiveUrls(id: string): seq<string> {
    var parts := LiveUrlParts(id);
    [LiveUrl(parts[0], id), LiveUrl(parts[1], id), LiveUrl(parts[2], id)]
  }

  /** A candidate page URL gives its part and the channel back: it is the
      site, the part, a slash, the id and "/live", in that order. */
  lemma LiveUrlParsesBack(part: string, id: string)
    ensures var u := LiveUrl(part, id);
      && |u| == |Site| + |part| + |id| + 6
      && u[..|Site|] == Site
      && u[|Site|..|Site| + |part|] == part
      && u[|Site| + |part|] == '/'
      && u[|Site| + |part| + 1..|Site| + |part| + 1 + |id|] == id
      && u[|Site| + |part| + 1 + |id|..] == "/live"
  {
    var u := LiveUrl(part, id);
    assert u == Site + (part + ("/" + (id + "/live")));
  }

  /** Different parts give different pages of the same channel. */
  lemma LiveUrlInjective(p: string, q: string, id: string)
    requires LiveUrl(p, id) == LiveUrl(q, id)
    ensures p == q
  {
    LiveUrlParsesBack(p, id);
    LiveUrlParsesBack(q, id);
  }

  /** The channel's `channel`, `c` and `user` pages are three different URLs. */
  lemma DistinctPages(id: string)
    ensures LiveUrl("channel", id) != LiveUrl("c", id)
    ensures LiveUrl("channel", id) != LiveUrl("user", id)
    ensures LiveUrl("c", id) != LiveUrl("user", id)
  {
    if LiveUrl("channel", id) == LiveUrl("c", id) { LiveUrlInjective("channel", "c", id); }
    if LiveUrl("channel", id) == LiveUrl("user", id) { LiveUrlInjective("channel", "user", id); }
    if LiveUrl("c", id) == LiveUrl("user", id) { LiveUrlInjective("c", "user", id); }
  }

  /** The three URLs are the channel's `channel`, `c` and `user` pages, each
      exactly once. */
  lemma ChannelUrlsArePermutation(id: string)
    ensures var urls := ChannelLiveUrls(id);
      && multiset(urls) == multiset{LiveUrl("channel", id), LiveUrl("c", id), LiveUrl("user", id)}
      && urls[0] != urls[1] && urls[0] != urls[2] && urls[1] != urls[2]
  {
    var urls := ChannelLiveUrls(id);
    var channel, c, user := LiveUrl("channel", id), LiveUrl("c", id), LiveUrl("user", id);
    DistinctPages(id);
    if IsChannelId(id) {
      assert urls == [channel, c, user];
    } else {
      assert urls == [c, user, channel];
    }
  }

  /** The page tried first is the `channel` page exactly for channel ids and
      the `c` page exactly for every other name; the `channel` page is
      otherwise tried last. A channel id then tries `c` and `user`, in that
      order; any other name tries `user` second. */
  lemma ChannelUrlsOrder(id: string)
    ensures IsChannelId(id) <==> ChannelLiveUrls(id)[0] == LiveUrl("channel", id)
    ensures !IsChannelId(id) <==> ChannelLiveUrls(id)[0] == LiveUrl("c", id)
    ensures !IsChannelId(id) <==> ChannelLiveUrls(id)[2] == LiveUrl("channel", id)
    ensures IsChannelId(id) ==> ChannelLiveUrls(id)[1] == LiveUrl("c", id) && ChannelLiveUrls(id)[2] == LiveUrl("user", id)
    ensures !IsChannelId(id) ==> ChannelLiveUrls(id)[1] == LiveUrl("user", id)
  {
    var parts := LiveUrlParts(id);
    if ChannelLiveUrls(id)[0] == LiveUrl("channel", id) { LiveUrlInjective(parts[0], "channel", id); }
    if ChannelLiveUrls(id)[0] == LiveUrl("c", id) { LiveUrlInjective(parts[0], "c", id); }
    if ChannelLiveUrls(id)[2] == LiveUrl("channel", id) { LiveUrlInjective(parts[2], "channel", id); }
  }

  /** The callback of `getChannel`: on the entry keyed
      `currentVideoEndpoint`, `value?.watchEndpoint?.videoId`. Optional
      chaining turns every missing step into `undefined`, so it never throws. */
  function VideoIdProbe(value: Json, key: string): Probe {
    if key != "currentVideoEndpoint" then Miss
    else
      match Property(value, "watchEndpoint")
      case None => Miss
      case Some(endpoint) =>
        match Property(endpoint, "videoId")
        case None => Miss
        case Some(v) => Hit(v)
  }

  /** The entry yields a video id that passes the `!videoId` guard. */
  predicate NamesVideo(entry: Field) {
    var p := VideoIdProbe(entry.value, entry.key);
    p.Hit? && Truthy(p.value)
  }

  /** `getChannel`, with `getVideoData` as `fetch`. */
  function GetChannel(id: string, fetch: seq<string> -> Fetched): Reply {
    if id == "" then NotFoundReply
    else
      match fetch(ChannelLiveUrls(id))
      case FetchError(message, status) => Failure(message, status)
      case Fetched(data) =>
        match TraverseJson(data.initialData, VideoIdProbe)
        case Found(v) => CreateChat(v, data)
        case NotFound => Failure("Stream not found", 404)
        case Threw => Raised
  }

  /** Searching entries with `VideoIdProbe` never throws, and finds nothing
      exactly when no entry names a video. */
  lemma {:induction false} VideoIdSearch(entries: seq<Field>)
    ensures !FirstHit(entries, VideoIdProbe).Threw?
    ensures FirstHit(entries, VideoIdProbe).NotFound? <==>
              forall i :: 0 <= i < |entries| ==> !NamesVideo(entries[i])
  {
    if entries != [] {
      VideoIdSearch(entries[1..]);
      if !NamesVideo(entries[0]) {
        forall i | 0 < i < |entries|
          ensures NamesVideo(entries[i]) == NamesVideo(entries[1..][i - 1])
        {
        }
      }
    }
  }

  /** What `getChannel` answers: `notFound` exactly for an empty id; the
      fetch's own error; 'Stream not found' (404) exactly when no
      `currentVideoEndpoint` entry below the page root names a video; and
      otherwise a chat for the first video so named, in pre-order. The
      callback never throws. */
  lemma GetChannelReplies(id: string, fetch: seq<string> -> Fetched)
    ensures GetChannel(id, fetch) == NotFoundReply <==> id == ""
    ensures GetChannel(id, fetch) != Raised
    ensures id != "" && fetch(ChannelLiveUrls(id)).FetchError? ==>
              GetChannel(id, fetch) == Failure(fetch(ChannelLiveUrls(id)).message, fetch(ChannelLiveUrls(id)).status)
    ensures id != "" && fetch(ChannelLiveUrls(id)).Fetched? ==>
              var entries := PreOrder(fetch(ChannelLiveUrls(id)).data.initialData);
              ((GetChannel(id, fetch) == Failure("Stream not found", 404))
               <==> (forall i :: 0 <= i < |entries| ==> !NamesVideo(entries[i])))
    ensures id != "" && fetch(ChannelLiveUrls(id)).Fetched? ==>
              var entries := PreOrder(fetch(ChannelLiveUrls(id)).data.initialData);
              ((exists i :: 0 <= i < |entries| && NamesVideo(entries[i])) ==>
                 GetChannel(id, fetch).CreateChat? && GetChannel(id, fetch).data == fetch(ChannelLiveUrls(id)).data)
    ensures GetChannel(id, fetch).CreateChat? ==>
              var r := GetChannel(id, fetch);
              var entries := PreOrder(r.data.initialData);
              && fetch(ChannelLiveUrls(id)) == Fetched(r.data)
              && Truthy(r.videoId)
              && exists i :: 0 <= i < |entries| && NamesVideo(entries[i])
                             && VideoIdProbe(entries[i].value, entries[i].key) == Hit(r.videoId)
                             && forall k :: 0 <= k < i ==> !NamesVideo(entries[k])
  {
    if id != "" && fetch(ChannelLiveUrls(id)).Fetched? {
      var data := fetch(ChannelLiveUrls(id)).data;
      var entries := PreOrder(data.initialData);
      TraverseIsPreOrderSearch(data.initialData, VideoIdProbe);
      VideoIdSearch(entries);
      var found := FirstHit(entries, VideoIdProbe);
      if found.Found? {
        var i := FirstVideo(entries);
        assert VideoIdProbe(entries[i].value, entries[i].key) == Hit(found.value);
      }
    }
  }

  /** The entry whose answer the search returns: the first one that names a
      video. */
  lemma {:induction false} FirstVideo(entries: seq<Field>) returns (i: int)
    requires FirstHit(entries, VideoIdProbe).Found?
    ensures 0 <= i < |entries| && NamesVideo(entries[i])
    ensures VideoIdProbe(entries[i].value, entries[i].key) == Hit(FirstHit(entries, VideoIdProbe).value)
    ensures forall k :: 0 <= k < i ==> !NamesVideo(entries[k])
  {
    if NamesVideo(entries[0]) {
      i := 0;
    } else {
      var j := FirstVideo(entries[1..]);
      i := j + 1;
      assert entries[i] == entries[1..][j];
      forall k | 0 < k < i
        ensures !NamesVideo(entries[k])
      {
        assert entries[k] == entries[1..][k - 1];
      }
    }
  }

  // ----------------------------------------------------------------- stream

  /** A character of the class `[A-Za-z0-9_-]`. */
  predicate IsVideoIdChar(c: char) {
    ('A' <= c <= 'Z') || ('a' <= c <= 'z') || ('0' <= c <= '9') || c == '_' || c == '-'
  }

  /** `/^[A-Za-z0-9_-]{11}$/.test(id)`. */
  predicate IsVideoId(id: string) {
    |id| == 11 && forall i :: 0 <= i < |id| ==> IsVideoIdChar(id[i])
  }

  /** The one page `getStream` fetches: `https://www.youtube.com/watch?v=${id}`. */
  function WatchUrl(id: string): string {
    WatchPrefix + id
  }

  /** The watch URL gives the video id back. */
  lemma WatchUrlParsesBack(id: string)
    ensures WatchUrl(id)[..|WatchPrefix|] == WatchPrefix
    ensures WatchUrl(id)[|WatchPrefix|..] == id
  {
  }

  /** `getStream`, with `getVideoData` as `fetch`. */
  function GetStream(id: string, fetch: seq<string> -> Fetched): Reply {
    if id == "" then NotFoundReply
    else if !IsVideoId(id) then NotFoundReply
    else
      match fetch([WatchUrl(id)])
      case FetchError(message, status) => Failure(message, status)
      case Fetched(data) => CreateChat(JStr(id), data)
  }

  /** What `getStream` answers: `notFound` exactly when the id is empty, not
      11 characters long, or holds a character outside `[A-Za-z0-9_-]`;
      otherwise the answer to fetching the id's watch page alone, a chat for
      that very id on success. */
  lemma GetStreamReplies(id: string, fetch: seq<string> -> Fetched)
    ensures GetStream(id, fetch) == NotFoundReply <==>
              id == "" || |id| != 11 || exists i :: 0 <= i < |id| && !IsVideoIdChar(id[i])
    ensures IsVideoId(id) && fetch([WatchUrl(id)]).FetchError? ==>
              GetStream(id, fetch) == Failure(fetch([WatchUrl(id)]).message, fetch([WatchUrl(id)]).status)
    ensures IsVideoId(id) && fetch([WatchUrl(id)]).Fetched? ==>
              GetStream(id, fetch) == CreateChat(JStr(id), fetch([WatchUrl(id)]).data)
    ensures GetStream(id, fetch).CreateChat? ==>
              && IsVideoId(id)
              && GetStream(id, fetch).videoId == JStr(id)
              && fetch([WatchUrl(id)]) == Fetched(GetStream(id, fetch).data)
    ensures GetStream(id, fetch) != Raised
  {
  }

  /** The empty-id guard of `getStream` never decides anything the pattern
      guard would not: the empty string is no video id. */
  lemma EmptyIsNoVideoId()
    ensures !IsVideoId("")
  {
  }
}
