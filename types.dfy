/**
 * The shapes of the provider's live-chat payload (src/util/types.ts): formatted
 * strings, chat item renderers, actions and poll responses.
 */
module Types {
  import opened Wrappers
  import opened JsonTree

  /** `parseUnix(timestampUsec)`: `Math.round(Number(timestampUsec) / 1000)`
      on a non-negative integer, i.e. the nearest integer to a thousandth,
      halves rounded up. */
  function ParseUnix(timestampUsec: nat): (unix: nat)
    ensures unix * 1000 <= timestampUsec + 500 < unix * 1000 + 1000
  {
    (timestampUsec + 500) / 1000
  }

  datatype Thumbnail = Thumbnail(url: string)

  /** `YTImage`: thumbnails plus the optional accessibility label. */
  datatype YTImage = YTImage(thumbnails: seq<Thumbnail>, accessibilityLabel: Option<string>)

  /** `EmojiRun['emoji']`; an absent `isCustomEmoji` is `false`. */
  datatype Emoji = Emoji(emojiId: string, searchTerms: seq<string>, image: YTImage, isCustomEmoji: bool)

  /** A run of a formatted string: `TextRun` or `EmojiRun`. */
  datatype Run = TextRun(text: string) | EmojiRun(emoji: Emoji)

  /** `isTextRun(run)`: the run is present and has a `text` field. */
  predicate IsTextRun(run: Option<Run>) {
    run.Some? && run.value.TextRun?
  }

  /** `YTString`: an optional `simpleText` and optional `runs`. */
  datatype YTString = YTString(simpleText: Option<string>, runs: Option<seq<Run>>)

  datatype Icon = Icon(iconType: string)

  /** `YTBadge['liveChatAuthorBadgeRenderer']`. */
  datatype AuthorBadge = AuthorBadge(customThumbnail: Option<YTImage>, icon: Option<Icon>, tooltip: string)

  /** The renderer under an action's `item`. The four renderer types the adapters
      read have their own variant; `OtherRenderer` stands for every other type
      tag (ticker items, stickers, moderation notices, ...), of which only the
      `id` field, if any, is ever read. `timestampUsec` is the decimal string of
      the source read as a natural number. */
  datatype Renderer =
    | TextMessage(id: string, message: YTString, authorName: YTString, timestampUsec: nat,
                  authorExternalChannelId: string, authorBadges: Option<seq<AuthorBadge>>)
    | Membership(id: string, timestampUsec: nat, authorExternalChannelId: string, authorName: YTString)
    | PaidMessage(id: string, timestampUsec: nat, authorName: YTString, purchaseAmountText: YTString,
                  message: YTString, authorExternalChannelId: string)
    | GiftRedemption(id: string, timestampUsec: nat, authorExternalChannelId: string,
                     authorName: YTString, message: YTString)
    | OtherRenderer(rendererType: string, otherId: Option<string>)

  /** The object under an action's `item`: its first key names the renderer
      type; `renderer == None` is an item object with no keys at all. */
  datatype ChatItem = ChatItem(renderer: Option<Renderer>)

  /** One own property of a `LiveChatAction` object, in key order: either the
      `clickTrackingParams` string or the action-type key, whose value carries
      the (possibly missing) `item`. */
  datatype ActionField =
    | TrackingParams(params: string)
    | ActionEntry(actionType: string, item: Option<ChatItem>)

  /** The properties left after `delete data.clickTrackingParams`. */
  function WithoutTracking(fields: seq<ActionField>): (r: seq<ActionField>)
    ensures forall i :: 0 <= i < |r| ==> r[i].ActionEntry?
    ensures |r| <= |fields|
  {
    if fields == [] then []
    else if fields[0].TrackingParams? then WithoutTracking(fields[1..])
    else [fields[0]] + WithoutTracking(fields[1..])
  }

  predicate NoTracking(fields: seq<ActionField>) {
    forall i :: 0 <= i < |fields| ==> fields[i].ActionEntry?
  }

  /** Deleting the tracking property keeps every action entry, in order, and
      removes nothing else; deleting it twice is deleting it once. */
  lemma {:induction false} WithoutTrackingKeepsEntries(fields: seq<ActionField>)
    ensures forall f :: f in WithoutTracking(fields) <==> f in fields && f.ActionEntry?
    ensures NoTracking(fields) ==> WithoutTracking(fields) == fields
    ensures WithoutTracking(WithoutTracking(fields)) == WithoutTracking(fields)
  {
    if fields != [] {
      WithoutTrackingKeepsEntries(fields[1..]);
      assert fields == [fields[0]] + fields[1..];
      if fields[0].ActionEntry? {
        var r := WithoutTracking(fields);
        assert r[0] == fields[0] && r[1..] == WithoutTracking(fields[1..]);
      }
    }
  }

  /** The renderer an action's first property leads to (`data[Object.keys(data)[0]]?.item`),
      when it is an item with a renderer; `None` for a missing item, an item
      without keys, or a first property that is the tracking string. */
  function FirstRenderer(fields: seq<ActionField>): Option<Renderer> {
    if fields == [] || fields[0].TrackingParams? || fields[0].item.None? then None
    else fields[0].item.value.renderer
  }

  /** A `LiveChatAction` object. Adapters and the relay share one such object
      per action and `delete` its tracking property in place. */
  class ActionObject {
    var fields: seq<ActionField>

    constructor (fields: seq<ActionField>)
      ensures this.fields == fields
    {
      this.fields := fields;
    }

    /** `delete data.clickTrackingParams` */
    method DeleteClickTrackingParams()
      modifies this
      ensures fields == WithoutTracking(old(fields))
    {
      fields := WithoutTracking(fields);
    }
  }

  /** `liveChatContinuation` of a poll response. Each continuation is kept as
      parsed JSON: an object whose first key names the continuation kind.
      Each action is kept as the list of its properties; parsing the response
      makes one `ActionObject` of each. */
  datatype LiveChatContinuation =
    LiveChatContinuation(continuations: Option<seq<Json>>, actions: Option<seq<seq<ActionField>>>)

  /** `continuationContents`: its `liveChatContinuation` may be missing. */
  datatype ContinuationContents = ContinuationContents(liveChatContinuation: Option<LiveChatContinuation>)

  /** `LiveChatResponse`: `continuationContents` is optional. */
  datatype LiveChatResponse = LiveChatResponse(continuationContents: Option<ContinuationContents>)
}
