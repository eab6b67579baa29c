# youtube-websocket, modelled in Dafny

This project models the core of `youtube-websocket`, a Cloudflare Worker that
relays the live chat of a YouTube stream to WebSocket clients. The model
covers two pieces and the helpers they share.

- **The per-stream relay** (`YoutubeChat`, module `Relay`). It is a class
  whose fields are the ones the source mutates:
  - the `initialized` flag and the channel id;
  - the dedup table `seenMessages` (id to timestamp);
  - `nextContinuationToken`;
  - the adapter registry, keyed by the requested type string and kept in
    `Map` insertion order;
  - each adapter's socket set;
  - the close listener of each open socket.

  Its operations are `init`, one answered poll of `fetchChat` (the action
  loop with `getId`, dedup and `broadcast`, then `finally`),
  `clearSeenMessages`, `makeAdapter`, `handleWebsocket` after the upgrade,
  and the close listener. Time is a `now` parameter. The provider's answer
  to a poll is a value. A socket is an id, and the relay keeps what each
  socket has been sent as an outbox sequence.
- **The message adapters** turn one chat action into what is sent to the
  adapter's sockets.
  - The JSON adapter (`JsonAdapter`) and the subathon adapter
    (`SubathonAdapter`) each dispatch on the renderer type. Both delete the
    action's tracking property in place.
  - The truffle adapter (`Truffle`, with `Emotes`, `Aliases` and `Hash`)
    enriches a text message with an alias, a colour and badge images from
    three catalogs. It also swaps words for emote images, hiding spore
    emotes the author does not own. Ownership is decoded from a 6-bits-per-
    character string, and the decode is memoised in a shared table.
  - The IRC adapter always throws and the raw adapter passes the action on.
  - `adapterMap` selects among the five (`Adapters`).
- **Shared helpers**:
  - `traverseJSON`, a pre-order first-match search over parsed JSON
    (`JsonTree`);
  - `parseYTString` and `getContinuationToken` (`YouTube`);
  - the data model of chat actions and poll responses (`Types`);
  - JavaScript's whitespace, `trim` and decimal printing (`Text`);
  - the `Map.set` loop and `new Set` iteration order (`Collections`);
  - the channel and stream route guards and their page URLs (`Routes`).

The loops that update local variables or fields step by step are `method`s
with a `while` or `for` loop, each proved against a function that specifies
it:
- the string hash (`Hash.GetStringHash`);
- the word split and the ownership decode (`Emotes.SplitWords`,
  `Emotes.DecodeEmotesCold`);
- the two badge loops (`Aliases.GetYoutubeBadges`, `Aliases.GetSporeUserBadges`);
- the emote walk and the catalog refreshes (`Truffle.TruffleAdapter.AddTextRun`,
  `AddEmotesToMessage`, `ReceiveEmotes`, `ReceiveBadges`);
- the relay's action loop, broadcast, socket sends and dedup sweep
  (`Relay.YoutubeChat.ActionLoop`, `Broadcast`, `SendToSockets`,
  `ClearSeenMessages`).

Other iterations are recursive functions (folds), because the source writes
them as recursion or as one library call:
- `traverseJSON`'s recursive walk (`JsonTree`);
- `new Map(body)` and `new Set(array)` (`Collections.Upserts`,
  `Collections.Distinct`);
- `.filter(isSporeBadge)` (`Truffle.SporeBadges`);
- `parseYTString`'s `map` and `join` (`YouTube.RunTexts`, `Text.Concat`);
- `trim` and decimal printing (`Text`).

The specifying functions carry the lemmas that state what the source
promises. The relay's registry is checked against invariants
stated as predicates on a `Registry` value:
- every entry was made for its key;
- the insertion order lists each key once;
- every open socket's listener names a registered type whose set holds it.

`makeAdapter`, the socket joining and the close listener keep these
invariants.

## Model

| member | source | states |
|---|---|---|
| Hash.ToInt32 | src/adapters/truffle/hash.ts:7 | `hash \|= 0` yields a signed 32-bit integer congruent to its input modulo 2^32 |
| Hash.StringHash | src/adapters/truffle/hash.ts:1-10 | the specified hash `h := int32(31·h + charCode)` from 0 is always a signed 32-bit integer |
| Hash.ShiftStepIsTimes31 | src/adapters/truffle/hash.ts:6-7 | `(hash << 5) - hash + chr` followed by `\|= 0` is 31·hash + chr wrapped to 32 bits |
| Hash.GetStringHash | src/adapters/truffle/hash.ts:1-10 | the shift-and-subtract loop computes the specified hash (0 for the empty string), and it stays in 32 bits |
| Hash.JsRemainder | src/adapters/truffle/hash.ts:14 | JavaScript `%` has magnitude below the divisor and equals the Euclidean remainder for a non-negative dividend |
| Hash.JsRemainderNormalised | src/adapters/truffle/hash.ts:35-37 | `((a % n) + n) % n` in JavaScript is the non-negative residue of `a` for every sign of `a` |
| Hash.PaletteIndex | src/adapters/truffle/hash.ts:35-37 | the palette index is in [0, 14) and is the non-negative residue of the hash |
| Hash.UsernameColor | src/adapters/truffle/hash.ts:17-38 | the colour is always one of the fourteen palette entries, the one at the hash's residue mod 14 |
| Hash.Hue | src/adapters/truffle/hash.ts:14 | the hue is a multiple of 6 in [0, 354], six times the hash's residue mod 60 |
| Hash.HashColor | src/adapters/truffle/hash.ts:12-15 | the string is "hsl(", decimal digits, then "deg, 100%, 70%)", and the digits read back as the hash's hue (six times its residue mod 60) |
| Text.TrimStartSpec | src/util/youtube.ts:94 | the start trim keeps a suffix that does not begin with whitespace and drops only whitespace |
| Text.TrimEndSpec | src/util/youtube.ts:94 | the end trim keeps a prefix that does not end with whitespace and drops only whitespace |
| Text.TrimSpec | src/util/youtube.ts:94 | `trim` returns a contiguous piece of its input with no whitespace at either end, and everything cut off is whitespace |
| Text.Concat | src/util/youtube.ts:93 | `join('')` is as long as its pieces together |
| Text.ConcatAppend | src/util/youtube.ts:93 | joining two lists of pieces is joining each and concatenating |
| Text.NatToDecimal | src/adapters/truffle/hash.ts:14 | a template literal prints a non-negative integer as decimal digits, with no leading zero |
| Text.DecimalRoundTrip | src/adapters/truffle/hash.ts:14 | reading the printed digits back gives the number |
| JsonTree.IsObjectCases | src/util/util.ts:36-38 | `isObject` admits null and key-value objects and nothing else; the truthy values it admits are exactly the objects |
| JsonTree.PreOrderOfFalsy | src/util/util.ts:15 | a falsy root has no entries to search |
| JsonTree.TraverseIsPreOrderSearch | src/util/util.ts:10-25 | `traverseJSON` equals the first-match search over the entries below the root in pre-order; the root itself is never asked |
| JsonTree.FieldsArePreOrderSearch | src/util/util.ts:16-23 | over an object's entries, the loop is the first-match search over their pre-order listing |
| JsonTree.ItemsArePreOrderSearch | src/util/util.ts:16-23 | over an array's items, keyed by their decimal indices, the loop is the first-match search over their pre-order listing |
| JsonTree.VisitIsPreOrderSearch | src/util/util.ts:19-22 | one entry is asked before the search descends into its value, and the later entries follow |
| JsonTree.FirstHitAppend | src/util/util.ts:16-23 | searching two lists one after the other gives the first list's answer unless it found nothing |
| JsonTree.FoundIsTruthyAnswer | src/util/util.ts:19-20 | a found result is truthy and is the callback's answer for one of the entries; falsy answers are not results |
| Types.ParseUnix | src/adapters/json.ts:45-47 | `unix` is the nearest integer to a thousandth of the microsecond timestamp, halves rounded up |
| Types.WithoutTracking | src/adapters/json.ts:58 | after the delete, only action entries remain, and no more of them than before |
| Types.WithoutTrackingKeepsEntries | src/adapters/json.ts:58 | deleting the tracking property keeps exactly the action entries, changes nothing without it, and deleting twice is deleting once |
| Types.ActionObject.DeleteClickTrackingParams | src/adapters/json.ts:58 | the shared action object loses its tracking property in place |
| Types.ActionObject.constructor | src/util/types.ts:151-157 | a parsed action object holds the given properties |
| YouTube.RunTexts | src/util/youtube.ts:76-92 | each run contributes one text, in run order |
| YouTube.ParseYTStringCases | src/util/youtube.ts:73-96 | a missing string or one with neither a non-empty `simpleText` nor runs gives ''; a non-empty `simpleText` wins over runs; otherwise the run texts are joined in order and trimmed |
| YouTube.PlainRunsFlatten | src/util/youtube.ts:76-94 | text runs whose joined text has no whitespace at either end flatten to exactly that joined text |
| YouTube.RunTextsOfTextRuns | src/util/types.ts:20-33 | a text run contributes its own text |
| YouTube.GetContinuationToken | src/util/youtube.ts:68-71 | the token is present exactly when the value under the first key is an object with a `continuation` field, and it is that field |
| JsonAdapter.BadgesSpec | src/adapters/json.ts:73-82 | absent badges give none; otherwise there is one entry per author badge, in order: an icon badge gives its icon type, any other badge its first thumbnail URL or '' |
| JsonAdapter.EventOfSpec | src/adapters/json.ts:59-115 | exactly text messages, memberships and paid messages give an event, of the matching kind, with the renderer's id and the rounded timestamp, built from the stated fields |
| JsonAdapter.ParsedEventSpec | src/adapters/json.ts:57-63 | an event exists exactly when the first property leads to one of the three renderers; an action the relay already stripped parses to the same event |
| JsonAdapter.ParseAction | src/adapters/json.ts:57-121 | the action loses its tracking property in place and the event is that of the original properties |
| SubathonAdapter.EventOfSpec | src/adapters/subathon.ts:52-112 | exactly memberships, paid messages and gift redemptions give an event, with the renderer's id and the rounded timestamp; a gift's recipient is the renderer's author, and its gifter is the second run's text when the message has exactly two runs and the second is a text run, else 'Unknown' |
| SubathonAdapter.AgreesWithJsonAdapter | src/adapters/subathon.ts:59-87 | member and superchat events match the JSON adapter field for field; a text message gives nothing here but an event there |
| SubathonAdapter.ParsedEventIgnoresTracking | src/adapters/subathon.ts:53-58 | deleting the tracking property again does not change the event |
| SubathonAdapter.ParseAction | src/adapters/subathon.ts:52-112 | the action loses its tracking property in place and the event is that of the original properties |
| Collections.LastIndexOf | src/adapters/truffle.ts:54-66 | finds the last pair for a key, or reports that no pair names it |
| Collections.UpsertsLookup | src/adapters/truffle.ts:54-66 | after a `Map.set` loop, a key holds the value of its last pair, and any other key is as before |
| Collections.UpsertsKeys | src/adapters/truffle.ts:54-66 | the keys after the loop are the old keys plus every key a pair names |
| Collections.Distinct | src/adapters/truffle/aliases.ts:34-36 | `new Set(s)` holds exactly the elements of `s`, each once, and is no longer than `s` |
| Collections.FirstIndex | src/adapters/truffle/aliases.ts:34 | the position of an element's first occurrence: it holds the element and no earlier position does |
| Collections.DistinctOrder | src/adapters/truffle/aliases.ts:34-36 | `new Set(s)` iterates its elements in the order of their first occurrences in `s` |
| Collections.FilterMapSpec | src/adapters/truffle/aliases.ts:63-74 | a push loop pushes exactly the present values, at most one per element; the `k`-th value pushed is that of element `Sources(..)[k]`, these positions strictly increase, and every element with a value is among them |
| Collections.UpsertsFilterMapUntouched | src/adapters/truffle.ts:54-66 | a key that no element yields keeps its presence and value |
| Collections.UpsertsFilterMapLast | src/adapters/truffle.ts:54-66 | a key gets the value of the last element that yields it |
| Emotes.GetEmoteImage | src/adapters/truffle/emotes.ts:47-64 | there is no image exactly for an unknown provider or a spore emote without an extension; any image is non-empty |
| Emotes.Words | src/adapters/truffle/emotes.ts:66-79 | the split always yields at least one piece |
| Emotes.WordsSpec | src/adapters/truffle/emotes.ts:66-79 | the words concatenate back to the text; '' gives ['']; a non-empty text splits into maximal runs of one class of `[\s.,?!]` |
| Emotes.PiecesSpec | src/adapters/truffle/emotes.ts:66-79 | the same, for any character class |
| Emotes.PiecesPrefixStep | src/adapters/truffle/emotes.ts:72-76 | the split of one more character grows the last piece or starts a new one |
| Emotes.SplitStep | src/adapters/truffle/emotes.ts:72-76 | one turn of the split loop, on either branch, keeps the pieces equal to the split of the text read so far |
| Emotes.GrowSpec | src/adapters/truffle/emotes.ts:72-76 | one more character keeps the pieces a well split of the text read |
| Emotes.SplitWords | src/adapters/truffle/emotes.ts:66-79 | the loop returns exactly the specified words |
| Emotes.WalkWordsSnoc | src/adapters/truffle/emotes.ts:95-107 | a word that resolves to an emote pushes the pending text (unless nothing was walked yet) and the image; any other word extends the pending text |
| Emotes.MessageSegmentsSnoc | src/adapters/truffle/emotes.ts:88 | runs contribute their segments in run order |
| Emotes.WalkWordsRebuilds | src/adapters/truffle/emotes.ts:95-107 | the pushed pieces with the matched words put back, followed by the pending text, are the text walked; an emote was seen exactly when a word matched |
| Emotes.RebuiltStep | src/adapters/truffle/emotes.ts:96-106 | one step of the word walk keeps that reconstruction |
| Emotes.TextRunRebuilds | src/adapters/truffle/emotes.ts:89-112 | a text run with no matched word is pushed unchanged; otherwise putting the matched words back in place of their images rebuilds the run text exactly |
| Emotes.BitsBelowSpec | src/adapters/truffle/emotes.ts:145-151 | the bit loop pushes `i·6 + b` for exactly the set bits `b` of the value, ascending |
| Emotes.PositionIndicesSpec | src/adapters/truffle/emotes.ts:142-152 | a position contributes exactly its set bits below 6, ascending, within `[6i, 6i + 6)` |
| Emotes.ZeroHasNoBits | src/adapters/truffle/emotes.ts:143 | skipping a zero value skips nothing the bit loop would push |
| Emotes.DecodedPrefixOrder | src/adapters/truffle/emotes.ts:142-152 | the first `n` positions decode to a strictly ascending list within `[0, 6n)` |
| Emotes.DecodedPrefixMembers | src/adapters/truffle/emotes.ts:142-152 | index `x` comes from the first `n` positions exactly when `x < 6n` and bit `x % 6` of position `x / 6` is set |
| Emotes.DecodedSpec | src/adapters/truffle/emotes.ts:135-154 | index `i·6 + b` is decoded exactly when bit `b < 6` of `charCode(s[len-1-i]) − 35` is set; the result is strictly ascending within `[0, 6·len)` |
| Emotes.DecodeK | src/adapters/truffle/emotes.ts:137-152 | 'K' decodes to [3, 5] |
| Emotes.DecodeEmotesCold | src/adapters/truffle/emotes.ts:135-154 | the reverse-then-collect loops compute the specified decode |
| Emotes.EmoteIndexCache.constructor | src/adapters/truffle.ts:44 | the shared memo starts empty |
| Emotes.DecodeEmotes | src/adapters/truffle/emotes.ts:130-167 | with `preferCache`, a memoised entry is returned as is and a miss stores the decode; without it the memo is neither read nor written; a memo of true decodes stays so, and the result is then the decode |
| Aliases.GetSporeUserBadges | src/adapters/truffle/aliases.ts:27-46 | the loop returns the specified spore badge images |
| Aliases.SporeBadgesSpec | src/adapters/truffle/aliases.ts:27-46 | the images shown are exactly the non-empty catalog images of the user's slugs, at most one per distinct slug |
| Aliases.SporeBadgesOrder | src/adapters/truffle/aliases.ts:33-42 | each image shown is the catalog image of one of the user's distinct slugs, and the images follow the order of their slugs' first occurrences in the user's list |
| Aliases.GetYoutubeBadges | src/adapters/truffle/aliases.ts:59-75 | the loop returns the specified provider badge images |
| Aliases.YoutubeBadgesSpec | src/adapters/truffle/aliases.ts:59-75 | at most one image per badge, in badge order; a `moderator` icon shows the moderator image even when the badge has a thumbnail; any other badge with a thumbnail shows its first thumbnail's URL; a badge with neither shows nothing |
| Aliases.AddAliasesToMessage | src/adapters/truffle/aliases.ts:77-93 | returns the specified alias |
| Aliases.AliasSpec | src/adapters/truffle/aliases.ts:49-93 | the alias fails exactly when decoding a non-empty display name throws; a stored colour wins even when empty, else the palette colour of the name; a non-empty display name is shown decoded, otherwise the provider name; the badges are the provider badges followed by the spore badges; an unknown author gets the provider name and no spore badges |
| Truffle.ResolveEmoteSpec | src/adapters/truffle.ts:111-141 | any image returned is the catalog's for that name; a known non-spore emote, any emote for an author without a record, and any emote for an author whose ownership string is absent or empty, shows; for an author with an ownership string, a spore emote is hidden exactly when it has a bit index whose bit is not set |
| Truffle.ParsedEventSpec | src/adapters/truffle.ts:95-154 | only text messages give an event, with the renderer's id, author id and rounded timestamp, the message runs with emotes resolved against the catalogs, and the name, colour and badges of the author's alias with the moderator badge URL; a text message throws exactly when its author's non-empty display name fails to decode |
| Truffle.PlainRunPassesThrough | src/adapters/truffle/emotes.ts:108-112 | a single text run with no shown emote is passed on as its text |
| Truffle.WordStep | src/adapters/truffle/emotes.ts:95-106 | the next word is the next slice of the run text, so the pending text grows by exactly that word |
| Truffle.WalkStateStep | src/adapters/truffle/emotes.ts:95-107 | one turn of the word loop keeps the loop state on all three branches |
| Truffle.WalkStateDone | src/adapters/truffle/emotes.ts:108-112 | after the last word, the pushed segments and the tail (or the unchanged run text) are the run's segments |
| Truffle.ReceivedEmoteLookup | src/adapters/truffle.ts:54-66 | after an emote response, a name held by an emote with an image maps to the last such emote's image and spore flag; other names are untouched |
| Truffle.ReceivedSporeBadgesSpec | src/adapters/truffle.ts:79 | `filter(isSporeBadge)` keeps exactly the badges with a slug |
| Truffle.ReceivedBadgeLookup | src/adapters/truffle.ts:79-83 | after a badge response, a slug shows the URL of the last spore badge carrying it; other slugs are untouched |
| Truffle.TruffleAdapter.constructor | src/adapters/truffle.ts:34-48 | empty catalogs, an empty memo, and the first `fetchAll` |
| Truffle.TruffleAdapter.FetchAll | src/adapters/truffle.ts:49-85 | stamps `lastFetched` and requests the emote, user and badge catalogs in that order; no catalog changes until a response arrives |
| Truffle.TruffleAdapter.ReceiveEmotes | src/adapters/truffle.ts:53-67 | each emote with an image is set under its name, with a bit-index entry when it has one; nothing is removed; the other catalogs are unchanged |
| Truffle.TruffleAdapter.ReceiveUsers | src/adapters/truffle.ts:73-75 | the user table is replaced by the response |
| Truffle.TruffleAdapter.ReceiveBadges | src/adapters/truffle.ts:78-84 | each spore badge's URL is set under its slug; the other catalogs are unchanged |
| Truffle.TruffleAdapter.GetEmote | src/adapters/truffle.ts:111-142 | the getter answers the specified gating and keeps the memo faithful |
| Truffle.TruffleAdapter.AddWord | src/adapters/truffle/emotes.ts:95-107 | one turn of the word loop keeps the loop state |
| Truffle.TruffleAdapter.AddTextRun | src/adapters/truffle/emotes.ts:89-112 | a text run pushes exactly its specified segments |
| Truffle.TruffleAdapter.AddEmojiRun | src/adapters/truffle/emotes.ts:113-125 | the Kappa glyph becomes the Kappa emote or nothing; any other emoji becomes its first thumbnail or '' |
| Truffle.TruffleAdapter.AddRun | src/adapters/truffle/emotes.ts:88-125 | one run pushes its specified segments |
| Truffle.TruffleAdapter.AddEmotesToMessage | src/adapters/truffle/emotes.ts:81-128 | the message becomes the segments of its runs in order; absent runs give none |
| Truffle.TruffleAdapter.ParseAction | src/adapters/truffle.ts:95-154 | the event is the specified one for the current catalogs, and the action is not changed |
| Truffle.TruffleAdapter.Transform | src/adapters/truffle.ts:87-93 | the catalogs are refetched exactly when the last fetch is more than a minute old; the result is the parse against the catalogs held |
| Adapters.KindOfSpec | src/YoutubeChat.ts:18-27 | each of the five keys selects its own factory, and every other string selects the JSON adapter |
| Adapters.InheritedNameBypassesFallback | src/YoutubeChat.ts:198 | as written, 'toString' and 'constructor' select an inherited member instead of the JSON factory |
| Adapters.AsWrittenAgreesElsewhere | src/YoutubeChat.ts:198 | the lookup as written and the corrected one agree on every string except the inherited member names |
| Adapters.TransformedSpec | src/YoutubeChat.ts:70-71 | IRC always throws and raw always passes the action on; JSON and subathon emit exactly when their parse yields an event and never throw; truffle emits and throws exactly as its parse does |
| Adapters.MessageAdapter.constructor | src/YoutubeChat.ts:22-26 | a factory call gives a fresh adapter of its kind with empty catalogs; a truffle adapter stamps the time and issues its first catalog requests |
| Adapters.MessageAdapter.Transform | src/YoutubeChat.ts:70 | returns the specified outcome, deletes the tracking property for the JSON and subathon kinds, and refreshes stale truffle catalogs |
| Adapters.SendAll | src/YoutubeChat.ts:72-74 | each socket of the set gets the frame appended once; other sockets get nothing |
| Adapters.DeliverSnoc | src/YoutubeChat.ts:69-75 | the broadcast visits the adapters in registry order |
| Adapters.DeliverStops | src/YoutubeChat.ts:68-76 | once an adapter throws, the adapters after it change nothing |
| Adapters.DeliverCompletion | src/YoutubeChat.ts:68-76 | on a stripped action, the broadcast runs to the end exactly when no adapter throws |
| Adapters.DeliverMissesSocket | src/YoutubeChat.ts:72-74 | a socket of no adapter is sent nothing |
| Adapters.DeliverToSocket | src/YoutubeChat.ts:68-76 | a socket of one adapter gets that adapter's frame once when no earlier adapter threw and it emitted, and nothing otherwise; falsy results are skipped |
| Adapters.DeliverToSent | src/YoutubeChat.ts:70-74 | what one more adapter sends to a socket |
| Relay.TemplateText | src/adapters/truffle.ts:69-71 | a missing channel id prints as 'undefined', a string as itself, null as 'null' |
| Relay.LiveChatFound | src/YoutubeChat.ts:91-95 | the continuation `init` finds is truthy and is the `continuation` of an entry titled 'Live chat' below the root |
| Relay.ChannelIdFound | src/YoutubeChat.ts:86-90 | the channel id found is truthy and is the `browseId` under the `browseEndpoint` of a `channelNavigationEndpoint` entry |
| Relay.NextTokenSpec | src/YoutubeChat.ts:145-154 | a non-ok response or no first continuation keeps the token; the token only changes to the non-null `continuation` under the first continuation's first key, and it takes that token whenever there is one |
| Relay.IdOfSpec | src/YoutubeChat.ts:184-192 | `getId` throws exactly on an item without keys; it returns the first renderer's id; that id is the id of the JSON or subathon event for the same action |
| Relay.StepSpec | src/YoutubeChat.ts:160-166 | a seen id is skipped for every adapter; a fresh non-empty id is stored with the current time before the broadcast, even when it throws; a missing or empty id is broadcast and never stored |
| Relay.PollFromAborted | src/YoutubeChat.ts:160-176 | after an exception, the remaining actions change nothing |
| Relay.PollAppend | src/YoutubeChat.ts:160-174 | the loop over two runs of actions is the loop over the second started where the first stopped |
| Relay.PollAbortStays | src/YoutubeChat.ts:160-176 | once the loop has aborted, the later actions change nothing |
| Relay.PollKeepsSeen | src/YoutubeChat.ts:160-166 | within a poll the dedup table only grows: old ids keep their stamps and new ids carry the poll time |
| Relay.PollRecordsId | src/YoutubeChat.ts:160-166 | the non-empty id of an action the loop reaches is in the table at the end of the poll |
| Relay.PollSkipsRepeat | src/YoutubeChat.ts:162-163 | an action repeating an earlier action's non-empty id changes nothing |
| Relay.SweptSpec | src/YoutubeChat.ts:121-129 | the sweep deletes exactly the entries stamped before `now − 60000`, keeps the rest with their stamps, and sweeping again at the same or an earlier time changes nothing |
| Relay.Remove | src/YoutubeChat.ts:230 | `Map.delete` removes the key from the insertion order and keeps the keys unique |
| Relay.RemoveAt | src/YoutubeChat.ts:230 | deleting a key drops its position and keeps the other keys in order |
| Relay.RemoveAbsent | src/YoutubeChat.ts:230 | deleting an absent key changes nothing |
| Relay.ListsAppend | src/YoutubeChat.ts:204 | `Map.set` of a new key appends it to the insertion order |
| Relay.ListsRemove | src/YoutubeChat.ts:230 | `Map.delete` keeps the order a listing of the keys |
| Relay.RegisterKeeps | src/YoutubeChat.ts:196-206 | `makeAdapter` keeps every entry made for its key and the order a listing of the keys |
| Relay.RegisterListening | src/YoutubeChat.ts:204 | a new entry with no sockets leaves every listener valid |
| Relay.RegisterHeld | src/YoutubeChat.ts:204 | a new empty socket set leaves the other sets as they were |
| Relay.JoinKeeps | src/YoutubeChat.ts:225-231 | a socket joining a registered type keeps the registry and the listeners, and fills its set |
| Relay.JoinListening | src/YoutubeChat.ts:228-231 | the new listener names the type and its adapter, whose set holds the socket |
| Relay.JoinHeld | src/YoutubeChat.ts:225 | the joining socket's set gains it with a listener naming that type |
| Relay.ConnectKeeps | src/YoutubeChat.ts:224-231 | `makeAdapter` then the join keeps the registry and the listeners |
| Relay.CloseKeeps | src/YoutubeChat.ts:228-231 | the close listener keeps the registry and the listeners |
| Relay.CloseEvicts | src/YoutubeChat.ts:228-231 | closing deletes the socket's type exactly when it was that set's last socket; no other entry changes, and the order loses only that type |
| Relay.NextSocketUnused | src/YoutubeChat.ts:215-217 | a new socket is not yet in any set or listener |
| Relay.JoinThenClose | src/YoutubeChat.ts:224-231 | a socket that joins and closes right away leaves the registry as it was |
| Relay.JoinThenCloseCached | src/YoutubeChat.ts:224-231 | the same, when the type already had sockets |
| Relay.JoinThenCloseNew | src/YoutubeChat.ts:224-231 | the same, when the type was new |
| Relay.YoutubeChat.constructor | src/YoutubeChat.ts:53-66 | a new relay is uninitialised, with an empty table, an empty registry and no token |
| Relay.YoutubeChat.Init | src/YoutubeChat.ts:78-117 | an initialised relay answers 200 and changes nothing; no truthy continuation or token resets the flag and answers 404; a found token is the one polling starts with; a throwing callback leaves the flag set |
| Relay.YoutubeChat.ClearSeenMessages | src/YoutubeChat.ts:121-129 | the table becomes the specified sweep |
| Relay.YoutubeChat.GetId | src/YoutubeChat.ts:184-192 | the action loses its tracking property, and the id is read from what is left |
| Relay.YoutubeChat.SendToSockets | src/YoutubeChat.ts:72-74 | each socket of the set is sent the frame once |
| Relay.YoutubeChat.Broadcast | src/YoutubeChat.ts:68-76 | the outbox, the action and whether the loop completed are those of the specified broadcast over the adapters in registry order |
| Relay.YoutubeChat.DeliverOne | src/YoutubeChat.ts:69-75 | one turn of the broadcast loop extends the broadcast by one adapter or ends it |
| Relay.YoutubeChat.DeliverStep | src/YoutubeChat.ts:70-74 | one adapter's transform and send |
| Relay.YoutubeChat.SendFrame | src/YoutubeChat.ts:72-74 | the frame goes to that adapter's sockets and no adapter changes |
| Relay.YoutubeChat.TransformOne | src/YoutubeChat.ts:70 | the adapter's transform, with no catalog changing |
| Relay.YoutubeChat.TransformAt | src/YoutubeChat.ts:70 | the transform of the adapter under a type string, with no catalog changing |
| Relay.YoutubeChat.ProcessAction | src/YoutubeChat.ts:160-166 | one turn of the action loop leaves the specified table, outbox and abort flag |
| Relay.YoutubeChat.ReadAction | src/YoutubeChat.ts:160-161 | a fresh action object, stripped of its tracking property, and its id |
| Relay.YoutubeChat.MarkSeen | src/YoutubeChat.ts:164 | the id is stamped with the current time |
| Relay.YoutubeChat.FetchChat | src/YoutubeChat.ts:131-182 | the action loop leaves the specified table and outbox; `finally` stores the chosen token; the next poll is scheduled with that token after 250 ms exactly when an adapter is registered |
| Relay.YoutubeChat.Finally | src/YoutubeChat.ts:177-181 | stores the token and schedules the next poll exactly when an adapter is registered |
| Relay.YoutubeChat.ActionLoop | src/YoutubeChat.ts:160-174 | the loop leaves the table and outbox of the specified poll |
| Relay.YoutubeChat.MakeAdapter | src/YoutubeChat.ts:196-206 | a cached entry is returned as is; otherwise a fresh adapter of the kind the string names is registered under it, last in order, with no sockets; a truffle adapter gets the relay's channel id |
| Relay.YoutubeChat.Enroll | src/YoutubeChat.ts:204 | the registry gains the new entry |
| Relay.YoutubeChat.HandleWebsocket | src/YoutubeChat.ts:208-234 | the next socket joins the adapter for the requested type or 'json'; a new poll starts exactly when a truthy token is stored |
| Relay.YoutubeChat.Attach | src/YoutubeChat.ts:225-231 | the socket joins the set and its listener is recorded |
| Relay.YoutubeChat.OnClose | src/YoutubeChat.ts:228-231 | the registry becomes the specified close |
| Relay.YoutubeChat.Leave | src/YoutubeChat.ts:229 | the socket leaves its set |
| Relay.YoutubeChat.Evict | src/YoutubeChat.ts:230 | the type's entry is deleted |
| Relay.ReadResponse | src/YoutubeChat.ts:148-158 | the token `finally` stores and the actions the loop runs over |
| Relay.SendAllStep | src/YoutubeChat.ts:72-74 | sending to one more socket appends the frame to that socket alone |
| Routes.LiveUrlParts | src/routes/channel.ts:30-33 | three parts: `channel` first exactly for ids matching `^UC.{22}$`, last otherwise |
| Routes.LiveUrlParsesBack | src/routes/channel.ts:34-36 | a live URL is the site, the part, '/', the id and '/live', in that order |
| Routes.LiveUrlInjective | src/routes/channel.ts:34-36 | different parts give different pages of the same channel |
| Routes.DistinctPages | src/routes/channel.ts:34-36 | the `channel`, `c` and `user` pages are three different URLs |
| Routes.ChannelUrlsArePermutation | src/routes/channel.ts:32-36 | the three URLs are the `channel`, `c` and `user` pages, each exactly once |
| Routes.ChannelUrlsOrder | src/routes/channel.ts:30-33 | the first page is `channel` exactly for channel ids and `c` exactly for other names; otherwise `channel` is last; a channel id then tries `c` before `user`, and any other name tries `user` second |
| Routes.VideoIdSearch | src/routes/channel.ts:17-21 | the video-id search never throws and finds nothing exactly when no entry names a video |
| Routes.GetChannelReplies | src/routes/channel.ts:7-27 | `notFound` exactly for an empty id; a fetch error is passed on; 'Stream not found' (404) exactly when no entry names a video; a fetched page on which some entry names a video gives a chat with that page's data, for the first named video in pre-order |
| Routes.FirstVideo | src/routes/channel.ts:17-21 | the search returns the answer of the first entry that names a video |
| Routes.WatchUrlParsesBack | src/routes/stream.ts:11 | the watch URL gives the video id back |
| Routes.GetStreamReplies | src/routes/stream.ts:7-23 | `notFound` exactly when the id is empty, not 11 characters long, or has a character outside `[A-Za-z0-9_-]`; otherwise the answer to fetching that id's watch page alone: its error, or on success a chat for that id with the fetched data |
| Routes.EmptyIsNoVideoId | src/routes/stream.ts:8-10 | the empty-id guard decides nothing that the pattern guard would not |

## Left out

- Network I/O is not modelled:
  - the poll request of `fetchChat`;
  - the three catalog requests of `fetchAll`;
  - `getVideoData` and `getMatch`, which do HTTP, scrape HTML and parse JSON.

  A poll's answer is a `PollResponse` value. The catalog bodies arrive through the truffle adapter's `Receive` methods, in any order and at any time. `getVideoData` is a function parameter of the route models.
- Timers and concurrency are not modelled: `setTimeout`, `setInterval` and `blockConcurrencyWhile`.
  - `FetchChat` returns the timer it would arm.
  - `Init` and `HandleWebsocket` return the token a new poll chain starts with.
  - The interleaving of several poll chains is not modelled: every join with a stored token starts another chain.
- Relay.YoutubeChat.FetchChat: starts from the provider's answer, so it does not model `res.json()` failing on a malformed body. The loop over actions that then follows is modelled in full.
- The WebSocket and Durable Object plumbing is left out. This covers the upgrade check, `WebSocketPair`, `createChatObject`, the Worker router in src/index.ts and its error-to-Response mapping. Sockets are ids with outbox sequences, and a route's successful answer is the `CreateChat` reply.
- `JSON.stringify` is left out: frames are the event values themselves.
- Relay.YoutubeChat.SendToSockets: a socket set is a Dafny `set`, so the order in which one adapter's sockets are sent a frame is not modelled. What each socket receives is.
- `decodeURIComponent` is a function-valued parameter, with `None` for a `URIError`. The model does not define its behaviour.
- `Number(timestampUsec)` and `Math.round` are taken on a natural number, as `(n + 500) / 1000`. A timestamp string that is not a non-negative integer, and floating point in general, are not modelled. JSON numbers are integers.
- `Date.now` is the `now` parameter. `console.error` is dropped. `env.TRUFFLE_API_BASE` is the `apiBase` parameter.
- Hash.StringHash: Dafny characters are Unicode scalar values, whereas JavaScript strings are UTF-16 code units. The same holds for `Emotes.DecodedSpec`, `Routes.IsChannelId` and the other string lengths. A character outside the Basic Multilingual Plane counts once here but twice in the source.
- src/adapters/truffle/users.ts is only partly modelled: of `UserInfo`, only the four fields the adapter reads are kept.
- The `notFound` constant is the `NotFoundReply` reply. `youtubeHeaders` is not part of this model.
- Hiding spore emotes from authors without a user record is not modelled. The comment at src/adapters/truffle.ts:114-118 says such authors do not see spore emotes. The code at lines 119-141 only consults the ownership string of an author who has a record, and otherwise returns the emote's image. The model follows the code, and `Truffle.ResolveEmoteSpec` states that such authors see the image.
- `Aliases.BadgeImage` compares `iconType` with 'moderator', as src/adapters/truffle/aliases.ts:68 does. The type at src/util/types.ts:140 lists 'MODERATOR' but also admits any string. The model follows the code and does not decide which spelling the provider sends.
- `isMonthBadge` is modelled as the predicate `Aliases.IsMonthBadge`; it has no row, because nothing in the core uses it.

## Findings

| source | as written | input that shows it | evidently intended | confidence | as-written member | corrected member |
|---|---|---|---|---|---|---|
| src/YoutubeChat.ts:198 | `adapterMap[adapterType] ?? adapterMap.json` falls back only when the lookup yields `undefined`. An inherited member of `Object.prototype` is not `undefined`, so it is returned as the factory. For `toString` and `constructor`, line 203 calls it and gets a value that is no adapter: the string "[object Undefined]", or `env` itself. Line 204 stores that value in `adapters`. `adapter.sockets.add(ws)` then throws at line 225, before the close listener of line 228 is attached, so the entry is never evicted. Every later broadcast calls `.transform` on it (line 70), which throws and ends that poll's action loop. The other inherited names make line 203 throw: `__proto__` is not callable, and the remaining methods cannot convert an `undefined` receiver to an object. For these names the request fails and no registry entry is left. | `?adapter=toString` or `?adapter=constructor`: the lookup yields a function that is no adapter factory (`Adapters.InheritedNameBypassesFallback`) | every type string that is not one of the five keys gets the JSON adapter (`Adapters.KindOfSpec`, used by `makeAdapter`) | not executed | Adapters.FactoryAsWritten | Adapters.KindOf |
