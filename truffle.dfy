/**
 * The community-enriched adapter (src/adapters/truffle.ts): it keeps emote,
 * user and badge catalogs refreshed from a companion service, and turns text
 * messages into events whose text is split into plain pieces and emote
 * images, with aliased author names, colours and badges.
 */
module Truffle {
  import opened Wrappers
  import opened Text
  import opened Types
  import opened Collections
  import opened Emotes
  import opened Aliases

  const ModBadgeImage: string := "https://overlay.truffle.vip/mod.png"

  /** Catalogs older than a minute are refetched (`1000 * 60` ms). */
  const RefreshMs: int := 60000

  /** An `emoteMap` entry. */
  datatype EmoteEntry = EmoteEntry(image: string, isSporeEmote: bool)

  /** `TruffleChatEvent` (always of type `message`). */
  datatype TruffleChatEvent = TruffleChatEvent(id: string, message: seq<Segment>, authorName: string,
                                               authorColor: string, authorId: string, authorBadges: seq<string>,
                                               unix: nat)

  /** The adapter's catalogs at one moment. */
  datatype Catalog = Catalog(emoteMap: map<string, EmoteEntry>, encodedEmoteMap: map<string, int>,
                             users: map<string, UserInfo>, sporeYoutubeBadges: map<string, string>)

  /** The three requests `fetchAll` issues, in order. */
  function FetchUrls(apiBase: string, youtubeChannelId: string): seq<string> {
    [apiBase + "/gateway/emotes", apiBase + "/gateway/users/c/" + youtubeChannelId, apiBase + "/gateway/badges"]
  }

  /** The `emoteMap` entry an emote of the catalog response produces. */
  function EmotePair(apiBase: string): Emote -> Option<(string, EmoteEntry)> {
    (emote: Emote) =>
      var image := GetEmoteImage(emote, apiBase);
      if image.None? then None else Some((emote.name, EmoteEntry(image.value, emote.provider == Spore)))
  }

  /** The `encodedEmoteMap` entry: only emotes with an image and a bit index. */
  function BitIndexPair(apiBase: string): Emote -> Option<(string, int)> {
    (emote: Emote) =>
      if GetEmoteImage(emote, apiBase).None? || emote.bitIndex.None? then None
      else Some((emote.name, emote.bitIndex.value))
  }

  /** `body.filter(isSporeBadge)` */
  function SporeBadges(body: seq<CustomBadge>): seq<CustomBadge> {
    FilterMap(body, (badge: CustomBadge) => if IsSporeBadge(Some(badge)) then Some(badge) else None)
  }

  /** The `sporeYoutubeBadges` entry of a spore badge. */
  function SlugPair(): CustomBadge -> Option<(string, string)> {
    (badge: CustomBadge) => if badge.slug.Some? then Some((badge.slug.value, badge.url)) else None
  }

  /** The getter passed to `addEmotesToMessage`. A spore emote is withheld
      exactly when the author has a user record with a non-empty ownership
      string, the emote has a bit index, and that index is not among the
      decoded indices; any other known emote shows its image. */
  function ResolveEmote(cat: Catalog, name: string, userId: string): Option<string> {
    if name !in cat.emoteMap then None
    else
      var emote := cat.emoteMap[name];
      if emote.isSporeEmote && userId in cat.users && Present(cat.users[userId].d)
         && name in cat.encodedEmoteMap && cat.encodedEmoteMap[name] !in Decoded(cat.users[userId].d.value)
      then None
      else Some(emote.image)
  }

  function Resolver(cat: Catalog): (string, string) -> Option<string> {
    (name: string, userId: string) => ResolveEmote(cat, name, userId)
  }

  /** Emote gating at the level of bits: a known spore emote is hidden from an
      author with a non-empty ownership string `d` exactly when the emote has a
      bit index `x` and bit `x % 6` of character `|d| - 1 - x / 6` (value
      `charCode − 35`) is clear or `x` is outside `[0, 6·|d|)`; emotes of other
      providers, authors without a record and authors whose ownership string
      is absent or empty always see the image. */
  lemma ResolveEmoteSpec(cat: Catalog, name: string, userId: string)
    ensures ResolveEmote(cat, name, userId).Some? ==>
              name in cat.emoteMap && ResolveEmote(cat, name, userId).value == cat.emoteMap[name].image
    ensures name in cat.emoteMap && (!cat.emoteMap[name].isSporeEmote || userId !in cat.users) ==>
              ResolveEmote(cat, name, userId) == Some(cat.emoteMap[name].image)
    ensures name in cat.emoteMap && userId in cat.users && !Present(cat.users[userId].d) ==>
              ResolveEmote(cat, name, userId) == Some(cat.emoteMap[name].image)
    ensures name in cat.emoteMap && userId in cat.users && Present(cat.users[userId].d) ==>
              var d := cat.users[userId].d.value;
              (ResolveEmote(cat, name, userId).None? <==>
                 cat.emoteMap[name].isSporeEmote && name in cat.encodedEmoteMap
                 && var x := cat.encodedEmoteMap[name];
                    !(0 <= x < 6 * |d| && BitSet(d[|d| - 1 - x / 6] as int - 35, x % 6)))
  {
    if userId in cat.users && Present(cat.users[userId].d) {
      DecodedSpec(cat.users[userId].d.value);
    }
  }

  /** The event `parseAction` builds from an action's properties: nothing
      unless the first property leads to a text-message renderer; an exception
      when the alias cannot be decoded. */
  function ParsedEvent(cat: Catalog, decodeUri: string -> Option<string>, fields: seq<ActionField>): Outcome<TruffleChatEvent> {
    var renderer := FirstRenderer(fields);
    if renderer.None? || !renderer.value.TextMessage? then Silent
    else
      var r := renderer.value;
      var alias := AliasFor(r, cat.users, cat.sporeYoutubeBadges, ModBadgeImage, decodeUri);
      if alias.None? then Throws
      else
        Emit(TruffleChatEvent(r.id, MessageSegments(r.message.runs.GetOr([]), Resolver(cat), r.authorExternalChannelId),
                              alias.value.username, alias.value.color, r.authorExternalChannelId, alias.value.badges,
                              ParseUnix(r.timestampUsec)))
  }

  /** Only text messages produce events; the event carries the message id,
      author id and rounded timestamp, the message runs with emotes resolved
      against the catalogs, and the name, colour and badges of the
      author's alias built with the moderator badge image. A text message
      throws exactly when its author's non-empty display name cannot be
      decoded. */
  lemma ParsedEventSpec(cat: Catalog, decodeUri: string -> Option<string>, fields: seq<ActionField>)
    ensures var out := ParsedEvent(cat, decodeUri, fields);
      var renderer := FirstRenderer(fields);
      && (out.Silent? <==> renderer.None? || !renderer.value.TextMessage?)
      && (out.Throws? <==>
            (renderer.Some? && renderer.value.TextMessage?
             && var id := renderer.value.authorExternalChannelId;
                id in cat.users && Present(cat.users[id].a) && decodeUri(cat.users[id].a.value).None?))
      && (out.Emit? ==> out.value.id == renderer.value.id
                        && out.value.authorId == renderer.value.authorExternalChannelId
                        && out.value.unix * 1000 <= renderer.value.timestampUsec + 500 < out.value.unix * 1000 + 1000)
      && (out.Emit? ==>
            out.value.message == MessageSegments(renderer.value.message.runs.GetOr([]), Resolver(cat),
                                                 renderer.value.authorExternalChannelId))
      && (out.Emit? ==>
            var alias := AliasFor(renderer.value, cat.users, cat.sporeYoutubeBadges, ModBadgeImage, decodeUri);
            && alias.Some?
            && out.value.authorName == alias.value.username
            && out.value.authorColor == alias.value.color
            && out.value.authorBadges == alias.value.badges)
  {
    var renderer := FirstRenderer(fields);
    if renderer.Some? && renderer.value.TextMessage? {
      AliasSpec(renderer.value, cat.users, cat.sporeYoutubeBadges, ModBadgeImage, decodeUri);
    }
  }

  /** A message made of one text run in which no word names a shown emote is
      passed on as that run's text. */
  lemma PlainRunPassesThrough(cat: Catalog, text: string, userId: string)
    requires MatchedWords(Words(text), Resolver(cat), userId) == []
    ensures MessageSegments([TextRun(text)], Resolver(cat), userId) == [Text(text)]
  {
    TextRunRebuilds(text, Resolver(cat), userId);
    assert [TextRun(text)][..0] == [];
  }

  /** One turn of the word loop of `addEmotesToMessage`: the next word is the
      next slice of the run text, so the pending text grows by exactly that word. */
  lemma WordStep(words: seq<string>, j: int, text: string, startOfText: int, index: int)
    requires 0 <= j < |words| && Concat(words) == text
    requires 0 <= startOfText <= index <= |text| && Concat(words[..j]) == text[..index]
    ensures index + |words[j]| <= |text| && Concat(words[..j + 1]) == text[..index + |words[j]|]
    ensures text[startOfText..index + |words[j]|] == text[startOfText..index] + words[j]
  {
    var word := words[j];
    var next := words[..j + 1];
    assert next[..j] == words[..j] && next[j] == word;
    assert Concat(next) == text[..index] + word;
    ConcatPrefix(words, j + 1);
    var end := index + |word|;
    assert end == |Concat(next)| <= |text|;
    assert Concat(next) == text[..end];
    assert text[startOfText..end] == text[..end][startOfText..];
    assert text[startOfText..index] == text[..index][startOfText..];
  }

  /** The loop state of the word walk, read off the run text: the pushed
      segments, the pending text `text[startOfText..index]`, the length walked
      and whether an emote was seen. */
  predicate WalkState(words: seq<string>, j: int, text: string, getEmote: (string, string) -> Option<string>, userId: string,
                      pushed: seq<Segment>, startOfText: int, index: int, hasEmote: bool)
  {
    && 0 <= j <= |words| && Concat(words) == text
    && 0 <= startOfText <= index <= |text| && Concat(words[..j]) == text[..index]
    && WalkWords(words[..j], getEmote, userId) == WordWalk(pushed, text[startOfText..index], index, hasEmote)
  }

  /** One turn of the word loop keeps the loop state, on both branches. */
  lemma WalkStateStep(words: seq<string>, j: int, text: string, getEmote: (string, string) -> Option<string>, userId: string,
                      pushed: seq<Segment>, startOfText: int, index: int, hasEmote: bool)
    requires WalkState(words, j, text, getEmote, userId, pushed, startOfText, index, hasEmote) && j < |words|
    ensures var word := words[j];
      var emote := getEmote(LookupName(word), userId);
      var next := index + |word|;
      && next <= |text|
      && (Present(emote) && index > 0 ==>
            WalkState(words, j + 1, text, getEmote, userId,
                      pushed + [Text(text[startOfText..index])] + [Image(emote.value)], next, next, true))
      && (Present(emote) && index == 0 ==>
            WalkState(words, j + 1, text, getEmote, userId, pushed + [Image(emote.value)], next, next, true))
      && (!Present(emote) ==> WalkState(words, j + 1, text, getEmote, userId, pushed, startOfText, next, hasEmote))
  {
    WordStep(words, j, text, startOfText, index);
    WalkWordsSnoc(words, j, getEmote, userId);
    var next := index + |words[j]|;
    assert text[next..next] == "";
  }

  /** After the last word, the segments pushed so far and the pending text
      make up the text run's segments. */
  lemma WalkStateDone(words: seq<string>, text: string, getEmote: (string, string) -> Option<string>, userId: string,
                      pushed: seq<Segment>, startOfText: int, index: int, hasEmote: bool)
    requires WalkState(words, |words|, text, getEmote, userId, pushed, startOfText, index, hasEmote)
    requires words == Words(text)
    ensures index == |text|
    ensures hasEmote ==> pushed + [Text(text[startOfText..index])] == TextRunSegments(text, getEmote, userId)
    ensures !hasEmote ==> pushed + [Text(text)] == TextRunSegments(text, getEmote, userId)
  {
    assert words[..|words|] == words;
    WalkWordsRebuilds(words, getEmote, userId);
  }

  /** `TruffleMessageAdapter`. The asynchronous catalog requests are recorded
      in `requestedUrls`; their responses arrive through the three `Receive`
      methods, in whatever order and at whatever time the network delivers
      them. */
  class TruffleAdapter {
    const apiBase: string
    const youtubeChannelId: string
    /** `decodeURIComponent`; `None` when it throws a `URIError`. */
    const decodeUri: string -> Option<string>
    const emoteIndicesMap: EmoteIndexCache
    var emoteMap: map<string, EmoteEntry>
    var encodedEmoteMap: map<string, int>
    var users: map<string, UserInfo>
    var sporeYoutubeBadges: map<string, string>
    var lastFetched: int
    var requestedUrls: seq<string>

    /** The decode memo only holds true decodes. */
    ghost predicate Valid()
      reads this, emoteIndicesMap
    {
      emoteIndicesMap.Faithful()
    }

    function Snapshot(): Catalog
      reads this
    {
      Catalog(emoteMap, encodedEmoteMap, users, sporeYoutubeBadges)
    }

    /** `new TruffleMessageAdapter(env, youtubeChannelId)`: empty catalogs and
        an immediate `fetchAll`. */
    constructor (apiBase: string, youtubeChannelId: string, decodeUri: string -> Option<string>, now: int)
      ensures Valid() && fresh(emoteIndicesMap)
      ensures this.apiBase == apiBase && this.youtubeChannelId == youtubeChannelId && this.decodeUri == decodeUri
      ensures Snapshot() == Catalog(map[], map[], map[], map[]) && emoteIndicesMap.entries == map[]
      ensures lastFetched == now && requestedUrls == FetchUrls(apiBase, youtubeChannelId)
    {
      this.apiBase := apiBase;
      this.youtubeChannelId := youtubeChannelId;
      this.decodeUri := decodeUri;
      emoteIndicesMap := new EmoteIndexCache();
      emoteMap := map[];
      encodedEmoteMap := map[];
      users := map[];
      sporeYoutubeBadges := map[];
      lastFetched := now;
      requestedUrls := FetchUrls(apiBase, youtubeChannelId);
    }

    /** `fetchAll()`: stamps the time and issues the three requests. */
    method FetchAll(now: int)
      modifies this
      ensures lastFetched == now && requestedUrls == old(requestedUrls) + FetchUrls(apiBase, youtubeChannelId)
      ensures Snapshot() == old(Snapshot())
    {
      lastFetched := now;
      requestedUrls := requestedUrls + FetchUrls(apiBase, youtubeChannelId);
    }

    /** The emote catalog response: each emote with an image is set under its
        name, and its bit index too when it has one. */
    method ReceiveEmotes(body: seq<Emote>)
      modifies this
      ensures emoteMap == Upserts(old(emoteMap), FilterMap(body, EmotePair(apiBase)))
      ensures encodedEmoteMap == Upserts(old(encodedEmoteMap), FilterMap(body, BitIndexPair(apiBase)))
      ensures users == old(users) && sporeYoutubeBadges == old(sporeYoutubeBadges)
      ensures lastFetched == old(lastFetched) && requestedUrls == old(requestedUrls)
    {
      for i := 0 to |body|
        invariant emoteMap == Upserts(old(emoteMap), FilterMap(body[..i], EmotePair(apiBase)))
        invariant encodedEmoteMap == Upserts(old(encodedEmoteMap), FilterMap(body[..i], BitIndexPair(apiBase)))
        invariant users == old(users) && sporeYoutubeBadges == old(sporeYoutubeBadges)
        invariant lastFetched == old(lastFetched) && requestedUrls == old(requestedUrls)
      {
        var emote := body[i];
        UpsertsFilterMapSnoc(old(emoteMap), body, i, EmotePair(apiBase));
        UpsertsFilterMapSnoc(old(encodedEmoteMap), body, i, BitIndexPair(apiBase));
        var image := GetEmoteImage(emote, apiBase);
        if image.None? {
          assert EmotePair(apiBase)(emote).None? && BitIndexPair(apiBase)(emote).None?;
          continue;
        }
        assert EmotePair(apiBase)(emote) == Some((emote.name, EmoteEntry(image.value, emote.provider == Spore)));
        emoteMap := emoteMap[emote.name := EmoteEntry(image.value, emote.provider == Spore)];
        if emote.bitIndex.Some? {
          assert BitIndexPair(apiBase)(emote) == Some((emote.name, emote.bitIndex.value));
          encodedEmoteMap := encodedEmoteMap[emote.name := emote.bitIndex.value];
        } else {
          assert BitIndexPair(apiBase)(emote).None?;
        }
      }
      assert body[..|body|] == body;
    }

    /** The user catalog response: `new Map(body)` replaces the user table. */
    method ReceiveUsers(body: seq<(string, UserInfo)>)
      modifies this
      ensures users == Upserts(map[], body)
      ensures emoteMap == old(emoteMap) && encodedEmoteMap == old(encodedEmoteMap)
      ensures sporeYoutubeBadges == old(sporeYoutubeBadges)
      ensures lastFetched == old(lastFetched) && requestedUrls == old(requestedUrls)
    {
      users := Upserts(map[], body);
    }

    /** The badge catalog response: each spore badge's image is set under its slug. */
    method ReceiveBadges(body: seq<CustomBadge>)
      modifies this
      ensures sporeYoutubeBadges == Upserts(old(sporeYoutubeBadges), FilterMap(SporeBadges(body), SlugPair()))
      ensures emoteMap == old(emoteMap) && encodedEmoteMap == old(encodedEmoteMap) && users == old(users)
      ensures lastFetched == old(lastFetched) && requestedUrls == old(requestedUrls)
    {
      var sporeBadges := SporeBadges(body);
      for i := 0 to |sporeBadges|
        invariant sporeYoutubeBadges == Upserts(old(sporeYoutubeBadges), FilterMap(sporeBadges[..i], SlugPair()))
        invariant emoteMap == old(emoteMap) && encodedEmoteMap == old(encodedEmoteMap) && users == old(users)
        invariant lastFetched == old(lastFetched) && requestedUrls == old(requestedUrls)
      {
        var badge := sporeBadges[i];
        FilterMapSnoc(sporeBadges, i, SlugPair());
        if badge.slug.Some? {
          AppendPair(old(sporeYoutubeBadges), FilterMap(sporeBadges[..i], SlugPair()), (badge.slug.value, badge.url));
          sporeYoutubeBadges := sporeYoutubeBadges[badge.slug.value := badge.url];
        }
      }
      assert sporeBadges[..|sporeBadges|] == sporeBadges;
    }

    /** The getter closure of `parseAction`; it consults the decode memo. */
    method GetEmote(name: string, userId: string) returns (image: Option<string>)
      requires Valid()
      modifies emoteIndicesMap
      ensures Valid()
      ensures image == ResolveEmote(Snapshot(), name, userId)
    {
      var emote := if name in emoteMap then Some(emoteMap[name]) else None;
      var user := if userId in users then Some(users[userId]) else None;
      if emote.Some? && emote.value.isSporeEmote {
        if user.Some? {
          var encodedUserEmotes := user.value.d;
          if encodedUserEmotes.Some? && encodedUserEmotes.value != "" {
            var emoteIndex := if name in encodedEmoteMap then Some(encodedEmoteMap[name]) else None;
            var decodedUserEmoteIndices := DecodeEmotes(encodedUserEmotes.value, emoteIndicesMap, true);
            if emoteIndex.Some? && emoteIndex.value !in decodedUserEmoteIndices {
              return None;
            }
          }
        }
      }
      image := if emote.Some? then Some(emote.value.image) else None;
    }

    /** One turn of the word loop of `addEmotesToMessage`: a word that names
        an emote closes the pending text and pushes the image. */
    method AddWord(words: seq<string>, j: int, text: string, userId: string,
                   pushed0: seq<Segment>, startOfText0: int, index0: int, hasEmote0: bool)
      returns (pushed: seq<Segment>, startOfText: int, index: int, hasEmote: bool)
      requires Valid() && j < |words|
      requires WalkState(words, j, text, Resolver(Snapshot()), userId, pushed0, startOfText0, index0, hasEmote0)
      modifies emoteIndicesMap
      ensures Valid()
      ensures WalkState(words, j + 1, text, Resolver(Snapshot()), userId, pushed, startOfText, index, hasEmote)
    {
      pushed, startOfText, index, hasEmote := pushed0, startOfText0, index0, hasEmote0;
      var word := words[j];
      WalkStateStep(words, j, text, Resolver(Snapshot()), userId, pushed, startOfText, index, hasEmote);
      var emote := GetEmote(LookupName(word), userId);
      if emote.Some? && emote.value != "" {
        hasEmote := true;
        if index > 0 {
          pushed := pushed + [Text(text[startOfText..index])];
        }
        pushed := pushed + [Image(emote.value)];
        startOfText := index + |word|;
      }
      index := index + |word|;
    }

    /** The text-run branch of `addEmotesToMessage`. */
    method AddTextRun(text: string, userId: string) returns (pushed: seq<Segment>)
      requires Valid()
      modifies emoteIndicesMap
      ensures Valid()
      ensures pushed == TextRunSegments(text, Resolver(Snapshot()), userId)
    {
      ghost var cat := Snapshot();
      ghost var getEmote := Resolver(cat);
      pushed := [];
      var index := 0;
      var startOfText := 0;
      var words := SplitWords(text);
      WordsSpec(text);
      var hasEmote := false;
      for j := 0 to |words|
        invariant Valid() && Snapshot() == cat
        invariant WalkState(words, j, text, getEmote, userId, pushed, startOfText, index, hasEmote)
      {
        pushed, startOfText, index, hasEmote := AddWord(words, j, text, userId, pushed, startOfText, index, hasEmote);
      }
      WalkStateDone(words, text, getEmote, userId, pushed, startOfText, index, hasEmote);
      if hasEmote {
        pushed := pushed + [Text(text[startOfText..index])];
      } else {
        pushed := pushed + [Text(text)];
      }
    }

    /** The emoji-run branch of `addEmotesToMessage`. */
    method AddEmojiRun(emoji: Emoji, userId: string) returns (pushed: seq<Segment>)
      requires Valid()
      modifies emoteIndicesMap
      ensures Valid()
      ensures pushed == EmojiRunSegments(emoji, Resolver(Snapshot()), userId)
    {
      if emoji.emojiId == KappaGlyph {
        var emote := GetEmote("Kappa", userId);
        pushed := if emote.Some? && emote.value != "" then [Image(emote.value)] else [];
      } else {
        pushed := [Image(if emoji.image.thumbnails == [] then "" else emoji.image.thumbnails[0].url)];
      }
    }

    /** One run of `addEmotesToMessage`: what it pushes. */
    method AddRun(run: Run, userId: string) returns (pushed: seq<Segment>)
      requires Valid()
      modifies emoteIndicesMap
      ensures Valid()
      ensures pushed == RunSegments(run, Resolver(Snapshot()), userId)
    {
      if run.TextRun? {
        pushed := AddTextRun(run.text, userId);
      } else {
        pushed := AddEmojiRun(run.emoji, userId);
      }
    }

    /** `addEmotesToMessage(message, getEmote)` with this adapter's getter. */
    method AddEmotesToMessage(runs: Option<seq<Run>>, userId: string) returns (segments: seq<Segment>)
      requires Valid()
      modifies emoteIndicesMap
      ensures Valid()
      ensures segments == MessageSegments(runs.GetOr([]), Resolver(Snapshot()), userId)
    {
      ghost var cat := Snapshot();
      var all := runs.GetOr([]);
      segments := [];
      for r := 0 to |all|
        invariant Valid() && Snapshot() == cat
        invariant segments == MessageSegments(all[..r], Resolver(cat), userId)
      {
        MessageSegmentsSnoc(all, r, Resolver(cat), userId);
        var pushed := AddRun(all[r], userId);
        segments := segments + pushed;
      }
      assert all[..|all|] == all;
    }

    /** `parseAction(data)`: reads the action without changing it. */
    method ParseAction(data: ActionObject) returns (parsed: Outcome<TruffleChatEvent>)
      requires Valid()
      modifies emoteIndicesMap
      ensures Valid()
      ensures parsed == ParsedEvent(Snapshot(), decodeUri, data.fields)
    {
      var renderer := FirstRenderer(data.fields);
      if renderer.None? || !renderer.value.TextMessage? {
        return Silent;
      }
      var r := renderer.value;
      var alias := AddAliasesToMessage(r, users, sporeYoutubeBadges, ModBadgeImage, decodeUri);
      if alias.None? {
        return Throws;
      }
      var message := AddEmotesToMessage(r.message.runs, r.authorExternalChannelId);
      parsed := Emit(TruffleChatEvent(r.id, message, alias.value.username, alias.value.color,
                                      r.authorExternalChannelId, alias.value.badges, ParseUnix(r.timestampUsec)));
    }

    /** `transform(action)`: refetch the catalogs when the last fetch is more
        than a minute old, then parse the action against the current catalogs. */
    method Transform(data: ActionObject, now: int) returns (out: Outcome<TruffleChatEvent>)
      requires Valid()
      modifies this, emoteIndicesMap
      ensures Valid()
      ensures out == ParsedEvent(old(Snapshot()), decodeUri, data.fields)
      ensures Snapshot() == old(Snapshot())
      ensures old(lastFetched) < now - RefreshMs ==>
                lastFetched == now && requestedUrls == old(requestedUrls) + FetchUrls(apiBase, youtubeChannelId)
      ensures old(lastFetched) >= now - RefreshMs ==>
                lastFetched == old(lastFetched) && requestedUrls == old(requestedUrls)
    {
      if lastFetched < now - RefreshMs {
        FetchAll(now);
      }
      out := ParseAction(data);
    }
  }

  /** After an emote catalog response, a name some emote with an image carries
      maps to the entry of the last such emote; other names are untouched. */
  lemma ReceivedEmoteLookup(old_: map<string, EmoteEntry>, body: seq<Emote>, apiBase: string, name: string)
    ensures (forall i :: 0 <= i < |body| ==> body[i].name != name || GetEmoteImage(body[i], apiBase).None?) ==>
              (name in Upserts(old_, FilterMap(body, EmotePair(apiBase))) <==> name in old_)
    ensures forall i :: 0 <= i < |body| && body[i].name == name && GetEmoteImage(body[i], apiBase).Some?
                        && (forall j :: i < j < |body| ==> body[j].name != name || GetEmoteImage(body[j], apiBase).None?) ==>
              name in Upserts(old_, FilterMap(body, EmotePair(apiBase)))
              && Upserts(old_, FilterMap(body, EmotePair(apiBase)))[name]
                == EmoteEntry(GetEmoteImage(body[i], apiBase).value, body[i].provider == Spore)
  {
    var f := EmotePair(apiBase);
    if forall i :: 0 <= i < |body| ==> body[i].name != name || GetEmoteImage(body[i], apiBase).None? {
      UpsertsFilterMapUntouched(old_, body, f, name);
    }
    forall i | 0 <= i < |body| && body[i].name == name && GetEmoteImage(body[i], apiBase).Some?
                && (forall j :: i < j < |body| ==> body[j].name != name || GetEmoteImage(body[j], apiBase).None?)
      ensures name in Upserts(old_, FilterMap(body, f))
              && Upserts(old_, FilterMap(body, f))[name] == EmoteEntry(GetEmoteImage(body[i], apiBase).value, body[i].provider == Spore)
    {
      UpsertsFilterMapLast(old_, body, f, name, i);
    }
  }

  /** `filter(isSporeBadge)` keeps exactly the badges that have a slug. */
  lemma ReceivedSporeBadgesSpec(body: seq<CustomBadge>)
    ensures forall b :: b in SporeBadges(body) <==> b in body && b.slug.Some?
  {
    var f := (badge: CustomBadge) => if IsSporeBadge(Some(badge)) then Some(badge) else None;
    FilterMapMembers(body, f);
    forall b ensures b in SporeBadges(body) <==> b in body && b.slug.Some? {
      if b in body && b.slug.Some? {
        var k :| 0 <= k < |body| && body[k] == b;
        assert f(body[k]) == Some(b);
      }
    }
  }

  /** After a badge catalog response, the slug of the last spore badge
      carrying it shows that badge's URL, and slugs no badge carries are
      untouched. */
  lemma ReceivedBadgeLookup(old_: map<string, string>, body: seq<CustomBadge>, slug: string)
    ensures (forall i :: 0 <= i < |body| ==> body[i].slug != Some(slug)) ==>
              (slug in Upserts(old_, FilterMap(SporeBadges(body), SlugPair())) <==> slug in old_)
    ensures forall i :: 0 <= i < |SporeBadges(body)| && SporeBadges(body)[i].slug == Some(slug)
                        && (forall j :: i < j < |SporeBadges(body)| ==> SporeBadges(body)[j].slug != Some(slug)) ==>
              slug in Upserts(old_, FilterMap(SporeBadges(body), SlugPair()))
              && Upserts(old_, FilterMap(SporeBadges(body), SlugPair()))[slug] == SporeBadges(body)[i].url
  {
    var spore := SporeBadges(body);
    if forall i :: 0 <= i < |body| ==> body[i].slug != Some(slug) {
      ReceivedSporeBadgesSpec(body);
      forall i | 0 <= i < |spore| ensures !Yields(SlugPair(), spore[i], slug) {
        assert spore[i] in spore;
      }
      UpsertsFilterMapUntouched(old_, spore, SlugPair(), slug);
    }
    forall i | 0 <= i < |spore| && spore[i].slug == Some(slug)
                && (forall j :: i < j < |spore| ==> spore[j].slug != Some(slug))
      ensures slug in Upserts(old_, FilterMap(spore, SlugPair()))
              && Upserts(old_, FilterMap(spore, SlugPair()))[slug] == spore[i].url
    {
      UpsertsFilterMapLast(old_, spore, SlugPair(), slug, i);
    }
  }
}
