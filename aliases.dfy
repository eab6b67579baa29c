/**
 * Display name, name colour and badge images of a chat author in the
 * community-enriched adapter (src/adapters/truffle/aliases.ts and the user
 * records of src/adapters/truffle/users.ts).
 */
module Aliases {
  import opened Wrappers
  import opened Types
  import opened Collections
  import YouTube
  import Hash

  /** `UserInfo`: the fields the adapter reads — display name `a`, colour `c`,
      encoded emote ownership `d` and spore badge slugs `e`. */
  datatype UserInfo = UserInfo(a: Option<string>, c: Option<string>, d: Option<string>, e: Option<seq<string>>)

  /** `CustomBadge` of the badge catalog. */
  datatype CustomBadge = CustomBadge(url: string, months: Option<int>, slug: Option<string>)

  /** `isMonthBadge(customBadge)` */
  predicate IsMonthBadge(badge: Option<CustomBadge>) {
    badge.Some? && badge.value.months.Some?
  }

  /** `isSporeBadge(customBadge)` */
  predicate IsSporeBadge(badge: Option<CustomBadge>) {
    badge.Some? && badge.value.slug.Some?
  }

  /** The image a spore badge slug shows, when the catalog has a non-empty one. */
  function SlugImage(sporeYoutubeBadges: map<string, string>): string -> Option<string> {
    (slug: string) => if slug in sporeYoutubeBadges && sporeYoutubeBadges[slug] != "" then Some(sporeYoutubeBadges[slug]) else None
  }

  /** The spore badge images of a user: one per distinct slug, in first-seen
      order, for the slugs whose catalog image is non-empty; none for an
      unknown user. */
  function SporeBadgeImages(userInfo: Option<UserInfo>, sporeYoutubeBadges: map<string, string>): seq<string> {
    if userInfo.None? then []
    else FilterMap(Distinct(userInfo.value.e.GetOr([])), SlugImage(sporeYoutubeBadges))
  }

  /** `getSporeUserBadges(userInfo, sporeYoutubeBadges)` */
  method GetSporeUserBadges(userInfo: Option<UserInfo>, sporeYoutubeBadges: map<string, string>)
    returns (youtubeBadges: seq<string>)
    ensures youtubeBadges == SporeBadgeImages(userInfo, sporeYoutubeBadges)
  {
    youtubeBadges := [];
    if userInfo.Some? {
      var badges := Distinct(userInfo.value.e.GetOr([]));
      for i := 0 to |badges|
        invariant youtubeBadges == FilterMap(badges[..i], SlugImage(sporeYoutubeBadges))
      {
        assert badges[..i + 1][..i] == badges[..i];
        var badgeSlug := badges[i];
        if badgeSlug in sporeYoutubeBadges && sporeYoutubeBadges[badgeSlug] != "" {
          youtubeBadges := youtubeBadges + [sporeYoutubeBadges[badgeSlug]];
        }
      }
      assert badges[..|badges|] == badges;
    }
  }

  /** Every spore badge image shown is the non-empty catalog image of one of
      the user's slugs; every such slug shows its image; a slug listed twice
      shows once. */
  lemma SporeBadgesSpec(info: UserInfo, sporeYoutubeBadges: map<string, string>)
    ensures var shown := SporeBadgeImages(Some(info), sporeYoutubeBadges);
      var slugs := info.e.GetOr([]);
      && |shown| <= |Distinct(slugs)|
      && (forall image :: image in shown <==>
            exists slug :: slug in slugs && slug in sporeYoutubeBadges
                           && sporeYoutubeBadges[slug] == image && image != "")
  {
    var slugs := info.e.GetOr([]);
    var d := Distinct(slugs);
    FilterMapMembers(d, SlugImage(sporeYoutubeBadges));
    forall image ensures image in SporeBadgeImages(Some(info), sporeYoutubeBadges) <==>
            exists slug :: slug in slugs && slug in sporeYoutubeBadges
                           && sporeYoutubeBadges[slug] == image && image != "" {
      if exists slug :: slug in slugs && slug in sporeYoutubeBadges && sporeYoutubeBadges[slug] == image && image != "" {
        var slug :| slug in slugs && slug in sporeYoutubeBadges && sporeYoutubeBadges[slug] == image && image != "";
        var i :| 0 <= i < |d| && d[i] == slug;
        assert SlugImage(sporeYoutubeBadges)(d[i]) == Some(image);
      }
      if image in SporeBadgeImages(Some(info), sporeYoutubeBadges) {
        var i :| 0 <= i < |d| && SlugImage(sporeYoutubeBadges)(d[i]) == Some(image);
        assert d[i] in slugs;
      }
    }
  }

  /** The spore badge images appear in the order in which their slugs first
      occur in the user's list: the `k`-th image shown is the catalog image of
      the distinct slug at position `Sources(..)[k]`, and those slugs' first
      occurrences strictly increase. */
  lemma SporeBadgesOrder(info: UserInfo, sporeYoutubeBadges: map<string, string>)
    ensures var shown := SporeBadgeImages(Some(info), sporeYoutubeBadges);
      var slugs := info.e.GetOr([]);
      var d, idx := Distinct(slugs), Sources(Distinct(slugs), SlugImage(sporeYoutubeBadges));
      && |idx| == |shown|
      && (forall k :: 0 <= k < |shown| ==>
            0 <= idx[k] < |d| && d[idx[k]] in slugs && d[idx[k]] in sporeYoutubeBadges
            && shown[k] == sporeYoutubeBadges[d[idx[k]]])
      && (forall k, l :: 0 <= k < l < |shown| ==> FirstIndex(slugs, d[idx[k]]) < FirstIndex(slugs, d[idx[l]]))
  {
    var slugs := info.e.GetOr([]);
    var d := Distinct(slugs);
    var f := SlugImage(sporeYoutubeBadges);
    FilterMapSources(d, f);
    DistinctOrder(slugs);
    var shown := SporeBadgeImages(Some(info), sporeYoutubeBadges);
    var idx := Sources(d, f);
    forall k | 0 <= k < |shown|
      ensures 0 <= idx[k] < |d| && d[idx[k]] in slugs && d[idx[k]] in sporeYoutubeBadges
              && shown[k] == sporeYoutubeBadges[d[idx[k]]]
    {
      assert f(d[idx[k]]) == Some(shown[k]);
      assert d[idx[k]] in d;
    }
  }

  /** The badge carries the `moderator` icon. */
  predicate IsModerator(badge: AuthorBadge) {
    badge.icon.Some? && badge.icon.value.iconType == "moderator"
  }

  /** The badge has a custom thumbnail with at least one image. */
  predicate HasThumbnail(badge: AuthorBadge) {
    badge.customThumbnail.Some? && badge.customThumbnail.value.thumbnails != []
  }

  /** The image one author badge contributes: the moderator image for the
      `moderator` icon, otherwise the first custom thumbnail if any. */
  function BadgeImage(modBadgeImage: string): AuthorBadge -> Option<string> {
    (badge: AuthorBadge) =>
      if IsModerator(badge) then Some(modBadgeImage)
      else if HasThumbnail(badge) then
        Some(badge.customThumbnail.value.thumbnails[0].url)
      else None
  }

  function YoutubeBadgeImages(authorBadges: Option<seq<AuthorBadge>>, modBadgeImage: string): seq<string> {
    FilterMap(authorBadges.GetOr([]), BadgeImage(modBadgeImage))
  }

  /** `getYoutubeBadges(message, modBadgeImage)` */
  method GetYoutubeBadges(authorBadges: Option<seq<AuthorBadge>>, modBadgeImage: string) returns (badges: seq<string>)
    ensures badges == YoutubeBadgeImages(authorBadges, modBadgeImage)
  {
    badges := [];
    var parents := authorBadges.GetOr([]);
    for i := 0 to |parents|
      invariant badges == FilterMap(parents[..i], BadgeImage(modBadgeImage))
    {
      assert parents[..i + 1][..i] == parents[..i];
      var badge := parents[i];
      if badge.icon.Some? && badge.icon.value.iconType == "moderator" {
        badges := badges + [modBadgeImage];
      } else if badge.customThumbnail.Some? && badge.customThumbnail.value.thumbnails != [] {
        badges := badges + [badge.customThumbnail.value.thumbnails[0].url];
      }
    }
    assert parents[..|parents|] == parents;
  }

  /** At most one image per provider badge, in badge order: the `k`-th image
      shown is that of badge `Sources(..)[k]`, those positions increase, and
      every badge with an image is among them. A moderator badge shows the
      moderator image even when it has a custom thumbnail; any other badge
      with a thumbnail shows the first thumbnail's URL; any other badge shows
      nothing. */
  lemma YoutubeBadgesSpec(badges: seq<AuthorBadge>, modBadgeImage: string)
    ensures var shown := YoutubeBadgeImages(Some(badges), modBadgeImage);
      && |shown| <= |badges|
      && (forall i :: 0 <= i < |badges| && badges[i].icon == Some(Icon("moderator")) ==> modBadgeImage in shown)
      && (forall i :: 0 <= i < |badges| && !IsModerator(badges[i]) && HasThumbnail(badges[i]) ==>
            badges[i].customThumbnail.value.thumbnails[0].url in shown)
      && (forall image :: image in shown && image != modBadgeImage ==>
            exists i :: 0 <= i < |badges| && badges[i].customThumbnail.Some?
                        && badges[i].customThumbnail.value.thumbnails != []
                        && badges[i].customThumbnail.value.thumbnails[0].url == image)
    ensures var shown := YoutubeBadgeImages(Some(badges), modBadgeImage);
      var idx := Sources(badges, BadgeImage(modBadgeImage));
      && |idx| == |shown|
      && (forall k, l :: 0 <= k < l < |idx| ==> idx[k] < idx[l])
      && (forall k :: 0 <= k < |shown| ==>
            && 0 <= idx[k] < |badges|
            && (IsModerator(badges[idx[k]]) ==> shown[k] == modBadgeImage)
            && (!IsModerator(badges[idx[k]]) ==>
                  HasThumbnail(badges[idx[k]]) && shown[k] == badges[idx[k]].customThumbnail.value.thumbnails[0].url))
      && (forall i :: 0 <= i < |badges| && (IsModerator(badges[i]) || HasThumbnail(badges[i])) ==> i in idx)
  {
    var f := BadgeImage(modBadgeImage);
    FilterMapSpec(badges, f);
    forall i | 0 <= i < |badges| && (IsModerator(badges[i]) || HasThumbnail(badges[i]))
      ensures f(badges[i]).Some? && f(badges[i]).value in YoutubeBadgeImages(Some(badges), modBadgeImage)
    {
      assert f(badges[i]).Some?;
    }
  }

  /** `getUsername(message, userInfo)`: a non-empty alias is URI-decoded
      (`None` when `decodeURIComponent` throws); otherwise the flattened
      provider author name. */
  function Username(authorName: YTString, userInfo: Option<UserInfo>, decodeUri: string -> Option<string>): Option<string> {
    if userInfo.Some? && userInfo.value.a.Some? && userInfo.value.a.value != "" then decodeUri(userInfo.value.a.value)
    else Some(YouTube.ParseYTString(Some(authorName)))
  }

  /** Name, colour and badge images of an author. */
  datatype Alias = Alias(username: string, color: string, badges: seq<string>)

  /** The alias `addAliasesToMessage` builds; `None` when decoding the alias throws. */
  function AliasFor(message: Renderer, users: map<string, UserInfo>, sporeYoutubeBadges: map<string, string>,
                    modBadgeImage: string, decodeUri: string -> Option<string>): Option<Alias>
    requires message.TextMessage?
  {
    var userInfo := if message.authorExternalChannelId in users then Some(users[message.authorExternalChannelId]) else None;
    var username := Username(message.authorName, userInfo, decodeUri);
    if username.None? then None
    else
      var color := if userInfo.Some? && userInfo.value.c.Some? then userInfo.value.c.value else Hash.UsernameColor(username.value);
      Some(Alias(username.value, color,
                 YoutubeBadgeImages(message.authorBadges, modBadgeImage) + SporeBadgeImages(userInfo, sporeYoutubeBadges)))
  }

  /** `addAliasesToMessage(message, users, sporeYoutubeBadges, modBadgeImage)` */
  method AddAliasesToMessage(message: Renderer, users: map<string, UserInfo>, sporeYoutubeBadges: map<string, string>,
                             modBadgeImage: string, decodeUri: string -> Option<string>) returns (alias: Option<Alias>)
    requires message.TextMessage?
    ensures alias == AliasFor(message, users, sporeYoutubeBadges, modBadgeImage, decodeUri)
  {
    var userInfo := if message.authorExternalChannelId in users then Some(users[message.authorExternalChannelId]) else None;
    var username := Username(message.authorName, userInfo, decodeUri);
    if username.None? {
      return None;
    }
    var color := if userInfo.Some? && userInfo.value.c.Some? then userInfo.value.c.value else Hash.UsernameColor(username.value);
    var youtubeBadges := GetYoutubeBadges(message.authorBadges, modBadgeImage);
    var sporeBadges := GetSporeUserBadges(userInfo, sporeYoutubeBadges);
    alias := Some(Alias(username.value, color, youtubeBadges + sporeBadges));
  }

  /** The alias exists unless decoding a non-empty display name throws. A
      stored colour is used as is, even when empty; without one the colour is a
      palette entry picked by the name's hash. A non-empty display name is
      shown URI-decoded, any other author shows the flattened provider name.
      The badges are the provider badges followed by the spore badges. An author without a user record gets the flattened
      provider name and no spore badges. */
  lemma AliasSpec(message: Renderer, users: map<string, UserInfo>, sporeYoutubeBadges: map<string, string>,
                  modBadgeImage: string, decodeUri: string -> Option<string>)
    requires message.TextMessage?
    ensures var alias := AliasFor(message, users, sporeYoutubeBadges, modBadgeImage, decodeUri);
      var id := message.authorExternalChannelId;
      && (alias.None? <==> id in users && users[id].a.Some? && users[id].a.value != "" && decodeUri(users[id].a.value).None?)
      && (alias.Some? && id in users && users[id].c.Some? ==> alias.value.color == users[id].c.value)
      && (alias.Some? && (id !in users || users[id].c.None?) ==>
            alias.value.color in Hash.Colors && alias.value.color == Hash.UsernameColor(alias.value.username))
      && (alias.Some? ==> alias.value.badges == YoutubeBadgeImages(message.authorBadges, modBadgeImage)
                                                 + SporeBadgeImages(if id in users then Some(users[id]) else None,
                                                                    sporeYoutubeBadges))
      && (alias.Some? && id in users && users[id].a.Some? && users[id].a.value != "" ==>
            alias == Some(Alias(decodeUri(users[id].a.value).value, alias.value.color, alias.value.badges)))
      && (alias.Some? && (id !in users || users[id].a.None? || users[id].a.value == "") ==>
            alias.value.username == YouTube.ParseYTString(Some(message.authorName)))
      && (id !in users ==> alias == Some(Alias(YouTube.ParseYTString(Some(message.authorName)),
                                               Hash.UsernameColor(YouTube.ParseYTString(Some(message.authorName))),
                                               YoutubeBadgeImages(message.authorBadges, modBadgeImage))))
  {
    if message.authorExternalChannelId !in users {
      assert YoutubeBadgeImages(message.authorBadges, modBadgeImage) + [] == YoutubeBadgeImages(message.authorBadges, modBadgeImage);
    }
  }
}
