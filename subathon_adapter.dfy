/**
 * The subathon-timer adapter (src/adapters/subathon.ts): only the actions that
 * extend a subathon (new members, paid messages, gifted memberships) become
 * events.
 */
module SubathonAdapter {
  import opened Wrappers
  import opened Types
  import opened YouTube
  import JsonAdapter

  /** `ChatEvent` of this adapter. Every variant carries `id` and `unix`. */
  datatype ChatEvent =
    | MemberEvent(id: string, authorId: string, authorName: string, unix: nat)
    | SuperchatEvent(id: string, message: string, amountText: string, authorId: string, authorName: string, unix: nat)
    | MemberGiftEvent(id: string, recipientId: string, recipientName: string, gifter: string, unix: nat)

  const UnknownGifter: string := "Unknown"

  /** The gifter of a gift redemption, read off its message: the second run's
      text when the message has exactly two runs and the second is a text run,
      otherwise "Unknown". */
  function GifterOf(message: YTString): string {
    var runs := message.runs;
    if runs.Some? && |runs.value| == 2 && runs.value[1].TextRun? then runs.value[1].text else UnknownGifter
  }

  /** The `switch` on the renderer type. */
  function EventOf(r: Renderer): Option<ChatEvent> {
    match r
    case Membership(id, timestampUsec, authorId, authorName) =>
      Some(MemberEvent(id, authorId, ParseYTString(Some(authorName)), ParseUnix(timestampUsec)))
    case PaidMessage(id, timestampUsec, authorName, purchaseAmountText, message, authorId) =>
      Some(SuperchatEvent(id, ParseYTString(Some(message)), ParseYTString(Some(purchaseAmountText)), authorId,
                          ParseYTString(Some(authorName)), ParseUnix(timestampUsec)))
    case GiftRedemption(id, timestampUsec, authorId, authorName, message) =>
      Some(MemberGiftEvent(id, authorId, ParseYTString(Some(authorName)), GifterOf(message), ParseUnix(timestampUsec)))
    case _ => None
  }

  /** The event of an action whose properties were `fields` before
      `parseAction` deleted the tracking property. */
  function ParsedEvent(fields: seq<ActionField>): Option<ChatEvent> {
    var renderer := FirstRenderer(WithoutTracking(fields));
    if renderer.None? then None else EventOf(renderer.value)
  }

  /** Exactly the membership, paid-message and gift-redemption renderers give
      an event (text messages do not); its `id` is the renderer's, its `unix`
      the rounded timestamp; a gift's recipient is the renderer's author, and
      its gifter is the second run of the announcement when the message has
      exactly two runs and the second is a text run, otherwise "Unknown". */
  lemma EventOfSpec(r: Renderer)
    ensures EventOf(r).Some? <==> r.Membership? || r.PaidMessage? || r.GiftRedemption?
    ensures EventOf(r).Some? ==>
      var e := EventOf(r).value;
      && e.id == r.id
      && e.unix * 1000 <= JsonAdapter.TimestampOf(r) + 500 < e.unix * 1000 + 1000
      && (e.MemberEvent? <==> r.Membership?)
      && (e.SuperchatEvent? <==> r.PaidMessage?)
      && (e.MemberGiftEvent? <==> r.GiftRedemption?)
    ensures r.GiftRedemption? ==>
      var e := EventOf(r).value;
      && e.recipientId == r.authorExternalChannelId
      && e.recipientName == ParseYTString(Some(r.authorName))
      && (r.message.runs.Some? && |r.message.runs.value| == 2 && r.message.runs.value[1].TextRun? ==>
            e.gifter == r.message.runs.value[1].text)
      && (r.message.runs.None? || |r.message.runs.value| != 2 || !r.message.runs.value[1].TextRun? ==>
            e.gifter == UnknownGifter)
  {
  }

  /** Member and superchat events are built field for field as the JSON
      adapter builds them, with the same timestamp rounding; a text message,
      which the JSON adapter reports, gives nothing here. */
  lemma AgreesWithJsonAdapter(r: Renderer)
    ensures r.Membership? ==>
      var e := EventOf(r).value;
      var j := JsonAdapter.EventOf(r).value;
      j.MemberEvent? && e.id == j.id && e.authorId == j.authorId && e.authorName == j.authorName && e.unix == j.unix
    ensures r.PaidMessage? ==>
      var e := EventOf(r).value;
      var j := JsonAdapter.EventOf(r).value;
      && j.SuperchatEvent? && e.id == j.id && e.message == j.message && e.amountText == j.amountText
      && e.authorId == j.authorId && e.authorName == j.authorName && e.unix == j.unix
    ensures r.TextMessage? ==> EventOf(r).None? && JsonAdapter.EventOf(r).Some?
  {
  }

  /** Deleting the tracking property again does not change the event. */
  lemma ParsedEventIgnoresTracking(fields: seq<ActionField>)
    ensures ParsedEvent(WithoutTracking(fields)) == ParsedEvent(fields)
    ensures ParsedEvent(fields).Some? ==> FirstRenderer(WithoutTracking(fields)).Some?
  {
    WithoutTrackingKeepsEntries(fields);
  }

  /** `parseAction(data)`: deletes the tracking property in place, then reads
      the first property. */
  method ParseAction(data: ActionObject) returns (event: Option<ChatEvent>)
    modifies data
    ensures data.fields == WithoutTracking(old(data.fields))
    ensures event == ParsedEvent(old(data.fields))
  {
    data.DeleteClickTrackingParams();
    var renderer := FirstRenderer(data.fields);
    if renderer.None? {
      return None;
    }
    var r := renderer.value;
    if r.Membership? {
      event := Some(MemberEvent(r.id, r.authorExternalChannelId, ParseYTString(Some(r.authorName)),
                                ParseUnix(r.timestampUsec)));
    } else if r.PaidMessage? {
      event := Some(SuperchatEvent(r.id, ParseYTString(Some(r.message)), ParseYTString(Some(r.purchaseAmountText)),
                                   r.authorExternalChannelId, ParseYTString(Some(r.authorName)),
                                   ParseUnix(r.timestampUsec)));
    } else if r.GiftRedemption? {
      var messageRuns := r.message.runs;
      var gifter := UnknownGifter;
      if messageRuns.Some? && |messageRuns.value| == 2 && messageRuns.value[1].TextRun? {
        gifter := messageRuns.value[1].text;
      }
      event := Some(MemberGiftEvent(r.id, r.authorExternalChannelId, ParseYTString(Some(r.authorName)), gifter,
                                    ParseUnix(r.timestampUsec)));
    } else {
      event := None;
    }
  }
}
