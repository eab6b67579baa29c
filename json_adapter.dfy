/**
 * The default adapter (src/adapters/json.ts): text messages, new members and
 * paid messages become flat events; every other action is dropped.
 */
module JsonAdapter {
  import opened Wrappers
  import opened Types
  import opened YouTube

  /** `type: 'icon' | 'custom'` of a badge. */
  datatype BadgeKind = IconKind | CustomKind

  datatype Badge = Badge(tooltip: string, kind: BadgeKind, badge: string)

  /** `ChatEvent` of this adapter. Every variant carries `id` and `unix`. */
  datatype ChatEvent =
    | MessageEvent(id: string, message: string, authorId: string, authorName: string, badges: seq<Badge>, unix: nat)
    | MemberEvent(id: string, authorId: string, authorName: string, unix: nat)
    | SuperchatEvent(id: string, message: string, amountText: string, authorId: string, authorName: string, unix: nat)

  /** `customThumbnail?.thumbnails?.[0]?.url ?? ''` */
  function FirstThumbnailUrl(image: Option<YTImage>): string {
    if image.None? || image.value.thumbnails == [] then "" else image.value.thumbnails[0].url
  }

  /** One author badge as the event lists it. */
  function BadgeOf(b: AuthorBadge): Badge {
    if b.icon.Some? then Badge(b.tooltip, IconKind, b.icon.value.iconType)
    else Badge(b.tooltip, CustomKind, FirstThumbnailUrl(b.customThumbnail))
  }

  /** `renderer.authorBadges?.map(...) ?? []` */
  function Badges(authorBadges: Option<seq<AuthorBadge>>): seq<Badge> {
    if authorBadges.None? then []
    else seq(|authorBadges.value|, i requires 0 <= i < |authorBadges.value| => BadgeOf(authorBadges.value[i]))
  }

  /** Absent badges give none; otherwise each author badge gives one entry, in
      order, with its tooltip: an icon badge names its icon type, any other
      badge its first thumbnail URL, or '' when it has none. */
  lemma BadgesSpec(authorBadges: Option<seq<AuthorBadge>>)
    ensures authorBadges.None? ==> Badges(authorBadges) == []
    ensures authorBadges.Some? ==>
      var bs := authorBadges.value;
      var r := Badges(authorBadges);
      && |r| == |bs|
      && forall i :: 0 <= i < |bs| ==>
           && r[i].tooltip == bs[i].tooltip
           && (r[i].kind == IconKind <==> bs[i].icon.Some?)
           && (bs[i].icon.Some? ==> r[i].badge == bs[i].icon.value.iconType)
           && (bs[i].icon.None? && bs[i].customThumbnail.Some? && bs[i].customThumbnail.value.thumbnails != []
               ==> r[i].badge == bs[i].customThumbnail.value.thumbnails[0].url)
           && (bs[i].icon.None? && (bs[i].customThumbnail.None? || bs[i].customThumbnail.value.thumbnails == [])
               ==> r[i].badge == "")
  {
  }

  /** The `switch` on the renderer type. */
  function EventOf(r: Renderer): Option<ChatEvent> {
    match r
    case TextMessage(id, message, authorName, timestampUsec, authorId, authorBadges) =>
      Some(MessageEvent(id, ParseYTString(Some(message)), authorId, ParseYTString(Some(authorName)),
                        Badges(authorBadges), ParseUnix(timestampUsec)))
    case Membership(id, timestampUsec, authorId, authorName) =>
      Some(MemberEvent(id, authorId, ParseYTString(Some(authorName)), ParseUnix(timestampUsec)))
    case PaidMessage(id, timestampUsec, authorName, purchaseAmountText, message, authorId) =>
      Some(SuperchatEvent(id, ParseYTString(Some(message)), ParseYTString(Some(purchaseAmountText)), authorId,
                          ParseYTString(Some(authorName)), ParseUnix(timestampUsec)))
    case _ => None
  }

  /** The event of an action whose properties were `fields` before
      `parseAction` deleted the tracking property. */
  function ParsedEvent(fields: seq<ActionField>): Option<ChatEvent> {
    var renderer := FirstRenderer(WithoutTracking(fields));
    if renderer.None? then None else EventOf(renderer.value)
  }

  /** The renderer's timestamp, for the renderers that have one. */
  function TimestampOf(r: Renderer): nat {
    match r
    case TextMessage(_, _, _, t, _, _) => t
    case Membership(_, t, _, _) => t
    case PaidMessage(_, t, _, _, _, _) => t
    case GiftRedemption(_, t, _, _, _) => t
    case OtherRenderer(_, _) => 0
  }

  /** Exactly the text-message, membership and paid-message renderers give an
      event, of the matching kind; its `id` is the renderer's and its `unix`
      is the renderer's microsecond timestamp rounded to milliseconds, the
      same rule for all three. */
  lemma EventOfSpec(r: Renderer)
    ensures EventOf(r).Some? <==> r.TextMessage? || r.Membership? || r.PaidMessage?
    ensures EventOf(r).Some? ==>
      var e := EventOf(r).value;
      && e.id == r.id
      && e.unix * 1000 <= TimestampOf(r) + 500 < e.unix * 1000 + 1000
      && (e.MessageEvent? <==> r.TextMessage?)
      && (e.MemberEvent? <==> r.Membership?)
      && (e.SuperchatEvent? <==> r.PaidMessage?)
    ensures r.TextMessage? ==>
      var e := EventOf(r).value;
      e.message == ParseYTString(Some(r.message)) && e.authorId == r.authorExternalChannelId
      && e.authorName == ParseYTString(Some(r.authorName)) && e.badges == Badges(r.authorBadges)
    ensures r.Membership? ==>
      var e := EventOf(r).value;
      e.authorId == r.authorExternalChannelId && e.authorName == ParseYTString(Some(r.authorName))
    ensures r.PaidMessage? ==>
      var e := EventOf(r).value;
      && e.message == ParseYTString(Some(r.message)) && e.amountText == ParseYTString(Some(r.purchaseAmountText))
      && e.authorId == r.authorExternalChannelId && e.authorName == ParseYTString(Some(r.authorName))
  {
  }

  /** An action with no item, an item without keys or an unrecognised
      renderer gives no event; and since deleting the tracking property twice
      is deleting it once, an action already stripped by the relay parses to
      the same event. */
  lemma ParsedEventSpec(fields: seq<ActionField>)
    ensures ParsedEvent(fields).Some? <==>
      var r := FirstRenderer(WithoutTracking(fields));
      r.Some? && (r.value.TextMessage? || r.value.Membership? || r.value.PaidMessage?)
    ensures ParsedEvent(WithoutTracking(fields)) == ParsedEvent(fields)
  {
    WithoutTrackingKeepsEntries(fields);
    var r := FirstRenderer(WithoutTracking(fields));
    if r.Some? {
      EventOfSpec(r.value);
    }
  }

  /** `parseAction(data)`: deletes the tracking property of the shared action
      object in place, then reads its first property. */
  method ParseAction(data: ActionObject) returns (event: Option<ChatEvent>)
    modifies data
    ensures data.fields == WithoutTracking(old(data.fields))
    ensures event == ParsedEvent(old(data.fields))
  {
    data.DeleteClickTrackingParams();
    var renderer := FirstRenderer(data.fields);
    if renderer.None? {
      return None;
    }
    var r := renderer.value;
    if r.TextMessage? {
      event := Some(MessageEvent(r.id, ParseYTString(Some(r.message)), r.authorExternalChannelId,
                                 ParseYTString(Some(r.authorName)), Badges(r.authorBadges), ParseUnix(r.timestampUsec)));
    } else if r.Membership? {
      event := Some(MemberEvent(r.id, r.authorExternalChannelId, ParseYTString(Some(r.authorName)),
                                ParseUnix(r.timestampUsec)));
    } else if r.PaidMessage? {
      event := Some(SuperchatEvent(r.id, ParseYTString(Some(r.message)), ParseYTString(Some(r.purchaseAmountText)),
                                   r.authorExternalChannelId, ParseYTString(Some(r.authorName)),
                                   ParseUnix(r.timestampUsec)));
    } else {
      event := None;
    }
  }
}
