/**
 * The per-video chat relay (src/YoutubeChat.ts). One `YoutubeChat` object
 * bootstraps from the video page's data, polls YouTube's live-chat endpoint,
 * drops actions whose id it has already seen, and broadcasts every other
 * action to the adapters of the connected websockets, in registry order.
 */
module Relay {
  import opened Wrappers
  import opened JsonTree
  import Text
  import opened Types
  import opened YouTube
  import opened Adapters

  /** How long an id stays in the dedup table: `1000 * 60` ms. */
  const SeenTtlMs: int := 60000

  /** The delay before the next poll: `chatInterval`. */
  const ChatIntervalMs: int := 250

  // ----------------------------------------------------------- init

  /** `${value}` for a value `traverseJSON` returned, or for `undefined`. */
  function TemplateText(v: Option<Json>): (r: string)
    ensures v.None? ==> r == "undefined"
    ensures v.Some? && v.value.JStr? ==> r == v.value.s
    ensures v.Some? && v.value.JNull? ==> r == "null"
  {
    if v.None? then "undefined" else JsonText(v.value)
  }

  function JsonText(j: Json): string
    decreases j, 1
  {
    match j
    case JNull => "null"
    case JBool(b) => if b then "true" else "false"
    case JNum(n) => if n < 0 then "-" + Text.NatToDecimal(-n) else Text.NatToDecimal(n)
    case JStr(s) => s
    case JArr(items) => JoinedText(items)
    case JObj(_) => "[object Object]"
  }

  /** `items.join(',')`: a null element contributes nothing. */
  function JoinedText(items: seq<Json>): string
    decreases items, 0
  {
    if items == [] then ""
    else
      (if items[0].JNull? then "" else JsonText(items[0]))
      + (if |items| == 1 then "" else "," + JoinedText(items[1..]))
  }

  /** The first callback of `init`: on the entry keyed
      `channelNavigationEndpoint`, its `browseEndpoint?.browseId`. Reading a
      property of a null value throws. */
  function ChannelIdProbe(value: Json, key: string): Probe {
    if key != "channelNavigationEndpoint" then Miss
    else if value.JNull? then Fault
    else
      match Property(value, "browseEndpoint")
      case None => Miss
      case Some(endpoint) =>
        match Property(endpoint, "browseId")
        case None => Miss
        case Some(id) => Hit(id)
  }

  /** The second callback of `init`: the `continuation` of an entry whose
      `title` is the string "Live chat". `value.title` throws on a null
      value, whatever its key. */
  function LiveChatProbe(value: Json, key: string): Probe {
    if value.JNull? then Fault
    else if Property(value, "title") == Some(JStr("Live chat")) then
      match Property(value, "continuation")
      case None => Miss
      case Some(c) => Hit(c)
    else Miss
  }

  /** The continuation `init` finds is truthy (so `getContinuationToken` can
      be applied to it) and is the `continuation` of an entry titled
      "Live chat" somewhere below the root of the page data. */
  lemma LiveChatFound(data: Json)
    ensures TraverseJson(data, LiveChatProbe).Found? ==>
      var c := TraverseJson(data, LiveChatProbe).value;
      && Truthy(c)
      && exists i :: 0 <= i < |PreOrder(data)|
                     && Property(PreOrder(data)[i].value, "title") == Some(JStr("Live chat"))
                     && Property(PreOrder(data)[i].value, "continuation") == Some(c)
  {
    TraverseIsPreOrderSearch(data, LiveChatProbe);
    FoundIsTruthyAnswer(PreOrder(data), LiveChatProbe);
  }

  /** The channel id `init` finds is truthy and is the `browseId` under the
      `browseEndpoint` of an entry keyed `channelNavigationEndpoint`. */
  lemma ChannelIdFound(data: Json)
    ensures TraverseJson(data, ChannelIdProbe).Found? ==>
      var id := TraverseJson(data, ChannelIdProbe).value;
      && Truthy(id)
      && exists i :: 0 <= i < |PreOrder(data)|
                     && PreOrder(data)[i].key == "channelNavigationEndpoint"
                     && Property(PreOrder(data)[i].value, "browseEndpoint").Some?
                     && Property(Property(PreOrder(data)[i].value, "browseEndpoint").value, "browseId") == Some(id)
  {
    TraverseIsPreOrderSearch(data, ChannelIdProbe);
    FoundIsTruthyAnswer(PreOrder(data), ChannelIdProbe);
  }

  /** What `init` answers: an empty 200, the 404 'Failed to load chat', or
      the exception a callback threw. */
  datatype InitStatus = InitOk | FailedToLoadChat | InitThrew

  // ----------------------------------------------------------- poll step

  /** The provider's answer to one poll: a non-ok status (or a failed
      request), or the parsed body. */
  datatype PollResponse = NotOk | Ok(data: LiveChatResponse)

  /** `setTimeout(() => this.fetchChat(token), delay)` */
  datatype PollTimer = PollTimer(token: Json, delayMs: int)

  /** `data.continuationContents?.liveChatContinuation.continuations?.[0]`;
      `None` also where that expression throws (a non-ok response, or
      contents without `liveChatContinuation`). */
  function FirstContinuation(response: PollResponse): Option<Json> {
    if response.NotOk? || response.data.continuationContents.None? then None
    else
      var lcc := response.data.continuationContents.value.liveChatContinuation;
      if lcc.None? || lcc.value.continuations.None? || lcc.value.continuations.value == [] then None
      else Some(lcc.value.continuations.value[0])
  }

  /** `nextToken` when `finally` runs: the first continuation's token when
      the continuation is truthy and its token is neither null nor missing,
      otherwise the current token. */
  function NextToken(current: Json, response: PollResponse): Json {
    var first := FirstContinuation(response);
    if first.None? || !Truthy(first.value) then current
    else
      var token := GetContinuationToken(first.value);
      if token.None? || token.value.JNull? then current else token.value
  }

  /** The token only ever changes to the `continuation` found under the
      first key of the first continuation; a non-ok response keeps it. */
  lemma NextTokenSpec(current: Json, response: PollResponse)
    ensures response.NotOk? ==> NextToken(current, response) == current
    ensures FirstContinuation(response).None? ==> NextToken(current, response) == current
    ensures NextToken(current, response) != current ==>
      var first := FirstContinuation(response);
      && first.Some? && Truthy(first.value)
      && FirstEntryValue(first.value).Some? && FirstEntryValue(first.value).value.JObj?
      && Field("continuation", NextToken(current, response)) in FirstEntryValue(first.value).value.fields
      && !NextToken(current, response).JNull?
    ensures FirstContinuation(response).Some? && Truthy(FirstContinuation(response).value)
            && GetContinuationToken(FirstContinuation(response).value).Some?
            && !GetContinuationToken(FirstContinuation(response).value).value.JNull?
            ==> NextToken(current, response) == GetContinuationToken(FirstContinuation(response).value).value
  {
  }

  /** `data.continuationContents?.liveChatContinuation.actions ?? []`, and
      nothing when the poll threw before reaching it. */
  function ActionsOf(response: PollResponse): seq<seq<ActionField>> {
    if response.NotOk? || response.data.continuationContents.None? then []
    else
      var lcc := response.data.continuationContents.value.liveChatContinuation;
      if lcc.None? || lcc.value.actions.None? then [] else lcc.value.actions.value
  }

  /** What `getId` returns: `undefined`, an id, or the `TypeError` of
      reading `id` off a missing renderer. */
  datatype IdResult = NoId | Id(id: string) | IdThrows

  /** `renderer.id` for each renderer type. */
  function RendererId(r: Renderer): Option<string> {
    match r
    case TextMessage(id, _, _, _, _, _) => Some(id)
    case Membership(id, _, _, _) => Some(id)
    case PaidMessage(id, _, _, _, _, _) => Some(id)
    case GiftRedemption(id, _, _, _, _) => Some(id)
    case OtherRenderer(_, id) => id
  }

  /** `getId` on an action whose properties are `fields` once the tracking
      property is deleted. */
  function IdOf(fields: seq<ActionField>): IdResult {
    if fields == [] || fields[0].TrackingParams? || fields[0].item.None? then NoId
    else
      match fields[0].item.value.renderer
      case None => IdThrows
      case Some(r) => if RendererId(r).None? then NoId else Id(RendererId(r).value)
  }

  /** `getId` fails exactly on an item without keys; its id is the first
      renderer's; and the id the relay deduplicates on is the `id` of the
      event the JSON and subathon adapters build from the same action. */
  lemma IdOfSpec(fields: seq<ActionField>)
    ensures var f := WithoutTracking(fields);
      IdOf(f).IdThrows? <==> f != [] && f[0].item.Some? && f[0].item.value.renderer.None?
    ensures var f := WithoutTracking(fields);
      IdOf(f).Id? <==> FirstRenderer(f).Some? && RendererId(FirstRenderer(f).value).Some?
    ensures var f := WithoutTracking(fields);
      IdOf(f).Id? ==> IdOf(f).id == RendererId(FirstRenderer(f).value).value
    ensures JsonAdapter.ParsedEvent(fields).Some? ==>
      IdOf(WithoutTracking(fields)) == Id(JsonAdapter.ParsedEvent(fields).value.id)
    ensures SubathonAdapter.ParsedEvent(fields).Some? ==>
      IdOf(WithoutTracking(fields)) == Id(SubathonAdapter.ParsedEvent(fields).value.id)
  {
    var f := WithoutTracking(fields);
    if FirstRenderer(f).Some? {
      JsonAdapter.EventOfSpec(FirstRenderer(f).value);
      SubathonAdapter.EventOfSpec(FirstRenderer(f).value);
    }
  }

  /** The relay's state during one poll: the dedup table, what each socket
      has been sent, and whether an exception ended the action loop. */
  datatype PollState = PollState(seen: map<string, int>, outbox: map<SocketId, seq<Frame>>, aborted: bool)

  /** One turn of the action loop of `fetchChat` (`raw` are the properties of
      the action as parsed): extract the id, skip a non-empty id already
      seen, record a fresh one, then broadcast. */
  function Step(views: seq<View>, tf: Transformer, st: PollState,
                raw: seq<ActionField>, now: int): PollState
  {
    var fields := WithoutTracking(raw);
    var id := IdOf(fields);
    if id.IdThrows? then st.(aborted := true)
    else if id.Id? && id.id != "" && id.id in st.seen then st
    else
      var seen := if id.Id? && id.id != "" then st.seen[id.id := now] else st.seen;
      var d := Deliver(views, tf, fields, st.outbox);
      PollState(seen, d.outbox, !d.completed)
  }

  /** The action loop over `actions`, in order; an exception ends it. */
  function Poll(views: seq<View>, tf: Transformer, st: PollState,
                actions: seq<seq<ActionField>>, now: int): PollState
  {
    if actions == [] then st
    else
      var prev := Poll(views, tf, st, actions[..|actions| - 1], now);
      if prev.aborted then prev else Step(views, tf, prev, actions[|actions| - 1], now)
  }

  /** A seen id is skipped for every adapter; an id that throws stops the
      loop with nothing sent; otherwise a non-empty id is stored with the
      current time, even when the broadcast then throws, an empty or missing
      id is never stored, and the loop goes on exactly when no adapter
      throws. */
  lemma StepSpec(views: seq<View>, tf: Transformer, st: PollState,
                 raw: seq<ActionField>, now: int)
    ensures var id := IdOf(WithoutTracking(raw));
      var r := Step(views, tf, st, raw, now);
      && (id.IdThrows? ==> r.aborted && r.seen == st.seen && r.outbox == st.outbox)
      && (id.Id? && id.id != "" && id.id in st.seen ==> r == st)
      && (!id.IdThrows? && !(id.Id? && id.id != "" && id.id in st.seen) ==>
            && (id.Id? && id.id != "" ==> r.seen == st.seen[id.id := now])
            && (!(id.Id? && id.id != "") ==> r.seen == st.seen)
            && r.outbox == Deliver(views, tf, WithoutTracking(raw), st.outbox).outbox
            && (r.aborted <==> exists j :: 0 <= j < |views|
                                && tf(views[j].kind, views[j].catalog, WithoutTracking(raw)).Throws?))
  {
    var fields := WithoutTracking(raw);
    WithoutTrackingKeepsEntries(raw);
    assert NoTracking(fields);
    DeliverCompletion(views, tf, fields, st.outbox);
  }

  /** An aborted poll state stays as it is. */
  lemma {:induction false} PollFromAborted(views: seq<View>, tf: Transformer, st: PollState,
                                           actions: seq<seq<ActionField>>, now: int)
    requires st.aborted
    ensures Poll(views, tf, st, actions, now) == st
  {
    if actions != [] {
      PollFromAborted(views, tf, st, actions[..|actions| - 1], now);
    }
  }

  /** The loop over `a + b` is the loop over `b` started where the loop over
      `a` stopped. */
  lemma {:induction false} PollAppend(views: seq<View>, tf: Transformer, st: PollState,
                                      a: seq<seq<ActionField>>, b: seq<seq<ActionField>>, now: int)
    ensures Poll(views, tf, st, a + b, now)
         == Poll(views, tf, Poll(views, tf, st, a, now), b, now)
  {
    if b == [] {
      assert a + b == a;
    } else {
      var b' := b[..|b| - 1];
      assert (a + b)[..|a + b| - 1] == a + b';
      assert (a + b)[|a + b| - 1] == b[|b| - 1];
      PollAppend(views, tf, st, a, b', now);
    }
  }

  /** Once the loop has aborted, the later actions change nothing. */
  lemma PollAbortStays(views: seq<View>, tf: Transformer, st: PollState,
                       actions: seq<seq<ActionField>>, k: int, now: int)
    requires 0 <= k <= |actions|
    requires Poll(views, tf, st, actions[..k], now).aborted
    ensures Poll(views, tf, st, actions, now) == Poll(views, tf, st, actions[..k], now)
  {
    assert actions == actions[..k] + actions[k..];
    PollAppend(views, tf, st, actions[..k], actions[k..], now);
    PollFromAborted(views, tf, Poll(views, tf, st, actions[..k], now), actions[k..], now);
  }

  /** The dedup table only grows during a poll: an id keeps the timestamp it
      had, and every new entry carries the poll's time. */
  lemma {:induction false} PollKeepsSeen(views: seq<View>, tf: Transformer, st: PollState,
                                         actions: seq<seq<ActionField>>, now: int)
    ensures var r := Poll(views, tf, st, actions, now);
      && (forall id :: id in st.seen ==> id in r.seen && r.seen[id] == st.seen[id])
      && (forall id :: id in r.seen ==> id in st.seen || r.seen[id] == now)
  {
    if actions != [] {
      PollKeepsSeen(views, tf, st, actions[..|actions| - 1], now);
    }
  }

  /** A broadcast id is in the table: an action the loop reaches leaves its
      non-empty id in the dedup table at the end of the poll. */
  lemma PollRecordsId(views: seq<View>, tf: Transformer, st: PollState,
                      actions: seq<seq<ActionField>>, now: int, i: int)
    requires 0 <= i < |actions|
    requires !Poll(views, tf, st, actions[..i], now).aborted
    requires IdOf(WithoutTracking(actions[i])).Id? && IdOf(WithoutTracking(actions[i])).id != ""
    ensures IdOf(WithoutTracking(actions[i])).id in Poll(views, tf, st, actions, now).seen
  {
    assert actions[..i + 1][..i] == actions[..i];
    var mid := Poll(views, tf, st, actions[..i + 1], now);
    assert actions == actions[..i + 1] + actions[i + 1..];
    PollAppend(views, tf, st, actions[..i + 1], actions[i + 1..], now);
    PollKeepsSeen(views, tf, mid, actions[i + 1..], now);
  }

  /** Dedup within a poll: when the loop reaches an action whose non-empty
      id an earlier action already carried, that action changes nothing. */
  lemma PollSkipsRepeat(views: seq<View>, tf: Transformer, st: PollState,
                        actions: seq<seq<ActionField>>, now: int, i: int, j: int)
    requires 0 <= i < j < |actions|
    requires !Poll(views, tf, st, actions[..j], now).aborted
    requires IdOf(WithoutTracking(actions[i])).Id? && IdOf(WithoutTracking(actions[i])).id != ""
    requires IdOf(WithoutTracking(actions[j])) == IdOf(WithoutTracking(actions[i]))
    ensures Poll(views, tf, st, actions[..j + 1], now) == Poll(views, tf, st, actions[..j], now)
  {
    var pre := actions[..j];
    assert pre[..i] == actions[..i] && pre[i] == actions[i];
    if Poll(views, tf, st, actions[..i], now).aborted {
      PollAbortStays(views, tf, st, pre, i, now);
      assert false;
    }
    PollRecordsId(views, tf, st, pre, now, i);
    assert actions[..j + 1][..j] == pre;
  }

  // ----------------------------------------------------------- dedup sweep

  /** The dedup table after `clearSeenMessages` at time `now`. */
  function Swept(seen: map<string, int>, now: int): map<string, int> {
    map id | id in seen && seen[id] >= now - SeenTtlMs :: seen[id]
  }

  /** The sweep deletes exactly the entries stamped before `now - 60000`,
      keeps the others with their timestamps, and sweeping again at the same
      or an earlier time changes nothing more. */
  lemma SweptSpec(seen: map<string, int>, now: int, earlier: int)
    requires earlier <= now
    ensures forall id :: id in Swept(seen, now) <==> id in seen && seen[id] >= now - SeenTtlMs
    ensures forall id :: id in Swept(seen, now) ==> Swept(seen, now)[id] == seen[id]
    ensures Swept(Swept(seen, now), earlier) == Swept(seen, now)
    ensures Swept(seen, now).Keys <= Swept(seen, earlier).Keys
  {
  }

  // ----------------------------------------------------------- registry order

  /** No type string occurs twice. */
  predicate Unique(order: seq<string>) {
    order == [] || (order[|order| - 1] !in order[..|order| - 1] && Unique(order[..|order| - 1]))
  }

  /** The insertion order of a `Map` after `delete(t)`. */
  function Remove(order: seq<string>, t: string): (r: seq<string>)
    ensures forall x :: x in r <==> x in order && x != t
    ensures Unique(order) ==> Unique(r)
  {
    if order == [] then []
    else
      var init := Remove(order[..|order| - 1], t);
      assert forall x :: x in order <==> x in order[..|order| - 1] || x == order[|order| - 1];
      assert Unique(order) ==> Unique(order[..|order| - 1]) && order[|order| - 1] !in order[..|order| - 1];
      if order[|order| - 1] == t then init else init + [order[|order| - 1]]
  }

  /** Deleting a key that sits at position `k` of the insertion order removes
      that position and keeps the other keys in order. */
  lemma {:induction false} RemoveAt(order: seq<string>, t: string, k: int)
    requires Unique(order) && 0 <= k < |order| && order[k] == t
    ensures Remove(order, t) == order[..k] + order[k + 1..]
  {
    var n := |order| - 1;
    if k == n {
      RemoveLast(order, t);
      assert order[k + 1..] == [];
    } else {
      var init := order[..n];
      assert init[k] == t && order[n] != t;
      RemoveAt(init, t, k);
      ghost var r := Remove(init, t);
      assert Remove(order, t) == r + [order[n]];
      DropInside(order, k);
    }
  }

  /** Deleting the key inserted last drops the last position. */
  lemma RemoveLast(order: seq<string>, t: string)
    requires Unique(order) && order != [] && order[|order| - 1] == t
    ensures Remove(order, t) == order[..|order| - 1]
  {
    var init := order[..|order| - 1];
    assert t !in init;
    RemoveAbsent(init, t);
  }

  /** Dropping position `k < |s| - 1` commutes with dropping the last element. */
  lemma DropInside<T>(s: seq<T>, k: int)
    requires 0 <= k < |s| - 1
    ensures s[..|s| - 1][..k] + s[..|s| - 1][k + 1..] + [s[|s| - 1]] == s[..k] + s[k + 1..]
  {
    var n := |s| - 1;
    assert s[..n][..k] == s[..k];
    assert s[..n][k + 1..] + [s[n]] == s[k + 1..];
  }

  lemma {:induction false} RemoveAbsent(order: seq<string>, t: string)
    requires t !in order
    ensures Remove(order, t) == order
  {
    if order != [] {
      var n := |order| - 1;
      assert order[..n] + [order[n]] == order;
      RemoveAbsent(order[..n], t);
    }
  }

  // ----------------------------------------------------------- the registry

  /** The adapter registry and the open sockets: `this.adapters` by type
      string, the insertion order of that `Map`, the socket set of the
      adapter registered under each type string, the close listener of each
      open socket (the type string and the adapter it captured), and the id
      the next socket gets. */
  datatype Registry = Registry(adapters: map<string, MessageAdapter>, order: seq<string>,
                               sockets: map<string, set<SocketId>>,
                               attachments: map<SocketId, (string, MessageAdapter)>,
                               nextSocket: nat)

  /** `a` is what `makeAdapter(t)` creates for a relay whose
      `decodeURIComponent` is `decodeUri`: an adapter of the kind `t` names,
      with state of its own only when `t` is "truffle". */
  ghost predicate Made(a: MessageAdapter, t: string, decodeUri: string -> Option<string>) {
    && a.kind == KindOf(t) && a.decodeUri == decodeUri && a.Shaped()
    && (t != "truffle" ==> a.Repr == {})
  }

  /** Every entry was made for its type string. */
  ghost predicate AllMade(adapters: map<string, MessageAdapter>, decodeUri: string -> Option<string>) {
    forall t :: t in adapters ==> Made(adapters[t], t, decodeUri)
  }

  /** `order` lists each key of `keys` once, and nothing else. */
  ghost predicate Lists(order: seq<string>, keys: set<string>) {
    && (forall t :: t in keys ==> t in order)
    && (forall i :: 0 <= i < |order| ==> order[i] in keys)
    && Unique(order)
  }

  /** Every entry was made for its type string and has a socket set, and
      `order` lists each key once. */
  ghost predicate Registered(r: Registry, decodeUri: string -> Option<string>) {
    AllMade(r.adapters, decodeUri) && r.sockets.Keys == r.adapters.Keys && Lists(r.order, r.adapters.Keys)
  }

  /** Every open socket's listener names a registered type and captured the
      adapter registered under it, whose socket set holds the socket; ids
      are handed out in order. */
  ghost predicate Listening(adapters: map<string, MessageAdapter>, sockets: map<string, set<SocketId>>,
                            attachments: map<SocketId, (string, MessageAdapter)>, nextSocket: nat) {
    forall ws :: ws in attachments ==>
      && ws < nextSocket
      && attachments[ws].0 in adapters && attachments[ws].0 in sockets
      && adapters[attachments[ws].0] == attachments[ws].1
      && ws in sockets[attachments[ws].0]
  }

  /** Every socket in a set has a listener naming that set's type. */
  ghost predicate Held(sockets: map<string, set<SocketId>>, attachments: map<SocketId, (string, MessageAdapter)>) {
    forall t, ws {:trigger ws in sockets[t]} :: t in sockets && ws in sockets[t] ==> ws in attachments && attachments[ws].0 == t
  }

  /** No socket set is empty. */
  ghost predicate Occupied(sockets: map<string, set<SocketId>>) {
    forall t :: t in sockets ==> sockets[t] != {}
  }

  /** No socket set other than `t`'s is empty. */
  ghost predicate OccupiedBut(sockets: map<string, set<SocketId>>, t: string) {
    forall u :: u in sockets && u != t ==> sockets[u] != {}
  }

  /** The close listeners agree with the socket sets. */
  ghost predicate Attached(r: Registry) {
    Listening(r.adapters, r.sockets, r.attachments, r.nextSocket) && Held(r.sockets, r.attachments) && Occupied(r.sockets)
  }

  /** `makeAdapter(t)`, with `a` the adapter the factory creates on a miss:
      a cached entry stays as it is, otherwise `a` is registered under `t`,
      last in order, with no sockets. */
  function Register(r: Registry, t: string, a: MessageAdapter): Registry {
    if t in r.adapters then r
    else r.(adapters := r.adapters[t := a], order := r.order + [t], sockets := r.sockets[t := {}])
  }

  /** The socket `r.nextSocket` joining adapter `a` under `t`: it is added to
      the socket set and its close listener captures `t` and `a`. */
  function Join(r: Registry, t: string, a: MessageAdapter): Registry {
    var ws := r.nextSocket;
    r.(sockets := r.sockets[t := (if t in r.sockets then r.sockets[t] else {}) + {ws}],
       attachments := r.attachments[ws := (t, a)],
       nextSocket := ws + 1)
  }

  /** The close listener of `ws`: the socket leaves the set of the type it
      joined, and the entry of that type is deleted when no socket is left.
      A socket without a listener changes nothing. */
  function Close(r: Registry, ws: SocketId): Registry {
    if ws !in r.attachments then r
    else
      var t := r.attachments[ws].0;
      var left := (if t in r.sockets then r.sockets[t] else {}) - {ws};
      if left == {} then
        r.(adapters := r.adapters - {t}, order := Remove(r.order, t), sockets := r.sockets - {t},
           attachments := r.attachments - {ws})
      else
        r.(sockets := r.sockets[t := left], attachments := r.attachments - {ws})
  }

  /** Appending a new key keeps the order a listing of the keys. */
  lemma ListsAppend(order: seq<string>, keys: set<string>, t: string)
    requires Lists(order, keys) && t !in keys
    ensures Lists(order + [t], keys + {t})
  {
    assert order == (order + [t])[..|order|];
  }

  /** Deleting a key keeps the order a listing of the keys. */
  lemma ListsRemove(order: seq<string>, keys: set<string>, t: string)
    requires Lists(order, keys)
    ensures Lists(Remove(order, t), keys - {t})
  {
    var o := Remove(order, t);
    assert forall i :: 0 <= i < |o| ==> o[i] in o;
  }

  /** `makeAdapter` keeps the registry. */
  lemma RegisterKeeps(r: Registry, t: string, a: MessageAdapter, decodeUri: string -> Option<string>)
    requires Registered(r, decodeUri)
    requires t !in r.adapters ==> Made(a, t, decodeUri)
    ensures Registered(Register(r, t, a), decodeUri)
  {
    if t !in r.adapters {
      ListsAppend(r.order, r.adapters.Keys, t);
      assert r.adapters[t := a].Keys == r.adapters.Keys + {t};
    }
  }

  /** A socket joining a registered type keeps the registry and the
      listeners, and fills the type's socket set even when it was empty. */
  lemma JoinKeeps(r: Registry, t: string, a: MessageAdapter, decodeUri: string -> Option<string>)
    requires Registered(r, decodeUri)
    requires Listening(r.adapters, r.sockets, r.attachments, r.nextSocket) && Held(r.sockets, r.attachments)
    requires OccupiedBut(r.sockets, t)
    requires t in r.adapters && a == r.adapters[t]
    ensures Registered(Join(r, t, a), decodeUri)
    ensures Attached(Join(r, t, a))
  {
    var r1 := Join(r, t, a);
    assert r1.sockets.Keys == r.sockets.Keys;
    assert r1.sockets == r.sockets[t := r.sockets[t] + {r.nextSocket}];
    JoinListening(r.adapters, r.sockets, r.attachments, r.nextSocket, t, a);
    JoinHeld(r.sockets, r.attachments, r.nextSocket, t, a);
  }

  /** The new listener names `t` and its adapter, and the socket is in `t`'s set. */
  lemma JoinListening(adapters: map<string, MessageAdapter>, sockets: map<string, set<SocketId>>,
                      attachments: map<SocketId, (string, MessageAdapter)>, ws: nat, t: string, a: MessageAdapter)
    requires Listening(adapters, sockets, attachments, ws)
    requires t in adapters && t in sockets && a == adapters[t]
    ensures Listening(adapters, sockets[t := sockets[t] + {ws}], attachments[ws := (t, a)], ws + 1)
  {
  }

  /** A socket id not yet in use joins the set of `t` with a listener naming `t`. */
  lemma JoinHeld(sockets: map<string, set<SocketId>>, attachments: map<SocketId, (string, MessageAdapter)>,
                 ws: SocketId, t: string, a: MessageAdapter)
    requires Held(sockets, attachments) && ws !in attachments && t in sockets
    ensures Held(sockets[t := sockets[t] + {ws}], attachments[ws := (t, a)])
  {
  }

  /** `handleWebsocket` (`makeAdapter`, then the socket joins) keeps the
      registry and the listeners. */
  lemma ConnectKeeps(r: Registry, t: string, a: MessageAdapter, decodeUri: string -> Option<string>)
    requires Registered(r, decodeUri) && Attached(r)
    requires t in r.adapters ==> a == r.adapters[t]
    requires t !in r.adapters ==> Made(a, t, decodeUri)
    ensures Registered(Join(Register(r, t, a), t, a), decodeUri)
    ensures Attached(Join(Register(r, t, a), t, a))
  {
    RegisterKeeps(r, t, a, decodeUri);
    if t !in r.adapters {
      RegisterListening(r.adapters, r.sockets, r.attachments, r.nextSocket, t, a);
      RegisterHeld(r.sockets, r.attachments, t);
    }
    JoinKeeps(Register(r, t, a), t, a, decodeUri);
  }

  /** A new type with no sockets leaves every listener valid. */
  lemma RegisterListening(adapters: map<string, MessageAdapter>, sockets: map<string, set<SocketId>>,
                          attachments: map<SocketId, (string, MessageAdapter)>, ws: nat, t: string, a: MessageAdapter)
    requires Listening(adapters, sockets, attachments, ws) && t !in adapters
    ensures Listening(adapters[t := a], sockets[t := {}], attachments, ws)
  {
  }

  /** An empty socket set for a new type leaves every set held, and every
      other set as full as it was. */
  lemma RegisterHeld(sockets: map<string, set<SocketId>>, attachments: map<SocketId, (string, MessageAdapter)>, t: string)
    requires Held(sockets, attachments) && Occupied(sockets)
    ensures Held(sockets[t := {}], attachments)
    ensures OccupiedBut(sockets[t := {}], t)
  {
  }

  /** The close listener keeps the registry and the listeners. */
  lemma CloseKeeps(r: Registry, ws: SocketId, decodeUri: string -> Option<string>)
    requires Registered(r, decodeUri) && Attached(r)
    ensures Registered(Close(r, ws), decodeUri)
    ensures Attached(Close(r, ws))
  {
    if ws in r.attachments {
      var t := r.attachments[ws].0;
      if r.sockets[t] - {ws} == {} {
        ListsRemove(r.order, r.adapters.Keys, t);
        assert (r.adapters - {t}).Keys == r.adapters.Keys - {t};
      }
    }
  }

  /** Closing deletes the entry of the socket's type exactly when the socket
      was the last one in its set; no other entry changes, and the order
      loses only that type. */
  lemma CloseEvicts(r: Registry, ws: SocketId, decodeUri: string -> Option<string>)
    requires Registered(r, decodeUri) && Attached(r) && ws in r.attachments
    ensures var t := r.attachments[ws].0;
      && (t !in Close(r, ws).adapters <==> r.sockets[t] == {ws})
      && (forall u :: u != t ==> (u in Close(r, ws).adapters <==> u in r.adapters))
      && (forall u :: u in Close(r, ws).adapters ==> Close(r, ws).adapters[u] == r.adapters[u])
      && (t in Close(r, ws).adapters ==> Close(r, ws).order == r.order)
      && ws !in Close(r, ws).attachments
  {
    var t := r.attachments[ws].0;
    if r.sockets[t] - {ws} == {} {
      assert r.sockets[t] == {ws};
    } else {
      assert r.sockets[t] != {ws};
    }
  }

  /** The next socket id is not in use. */
  lemma NextSocketUnused(r: Registry)
    requires Attached(r)
    ensures r.nextSocket !in r.attachments
    ensures forall u :: u in r.sockets ==> r.nextSocket !in r.sockets[u]
  {
  }

  /** A socket that joins and closes right away leaves the registry as it
      was: a new entry made for it is deleted again. */
  lemma JoinThenClose(r: Registry, t: string, a: MessageAdapter, decodeUri: string -> Option<string>)
    requires Registered(r, decodeUri) && Attached(r)
    requires t in r.adapters ==> a == r.adapters[t]
    ensures Close(Join(Register(r, t, a), t, a), r.nextSocket) == r.(nextSocket := r.nextSocket + 1)
  {
    NextSocketUnused(r);
    if t in r.adapters {
      JoinThenCloseCached(r, t, a);
    } else {
      assert t !in r.sockets && t !in r.order;
      JoinThenCloseNew(r, t, a);
    }
  }

  lemma JoinThenCloseCached(r: Registry, t: string, a: MessageAdapter)
    requires t in r.adapters && t in r.sockets && r.sockets[t] != {}
    requires r.nextSocket !in r.attachments && r.nextSocket !in r.sockets[t]
    ensures Close(Join(Register(r, t, a), t, a), r.nextSocket) == r.(nextSocket := r.nextSocket + 1)
  {
    var ws := r.nextSocket;
    var r2 := Join(r, t, a);
    assert r2.attachments - {ws} == r.attachments;
    assert r2.sockets[t] - {ws} == r.sockets[t];
    assert r2.sockets[t := r.sockets[t]] == r.sockets;
  }

  lemma JoinThenCloseNew(r: Registry, t: string, a: MessageAdapter)
    requires t !in r.adapters && t !in r.sockets && t !in r.order
    requires r.nextSocket !in r.attachments
    ensures Close(Join(Register(r, t, a), t, a), r.nextSocket) == r.(nextSocket := r.nextSocket + 1)
  {
    var ws := r.nextSocket;
    var r2 := Join(Register(r, t, a), t, a);
    assert r2.attachments[ws].0 == t && r2.sockets[t] == {ws};
    var order := r.order + [t];
    assert order[..|order| - 1] == r.order;
    RemoveAbsent(r.order, t);
    assert Remove(order, t) == r.order;
    assert r2.attachments - {ws} == r.attachments;
    assert r2.adapters - {t} == r.adapters;
    assert r2.sockets - {t} == r.sockets;
  }

  // ----------------------------------------------------------- the relay

  /** A `YoutubeChat` durable object. Sockets are abstract ids; `outbox`
      holds what each socket has been sent. `attachments` holds the close
      listener of each open socket: the type string and the adapter it
      captured. `adapterOrder` is the insertion order of `adapters`. */
  class YoutubeChat {
    const apiBase: string
    /** `decodeURIComponent`, as the runtime provides it. */
    const decodeUri: string -> Option<string>
    /** The adapters' `transform` with that `decodeURIComponent`
        (`TransformerFor(decodeUri)`, from construction on). */
    const transform: Transformer
    var initialized: bool
    var channelId: Option<Json>
    var seenMessages: map<string, int>
    var nextContinuationToken: Option<Json>
    var adapterOrder: seq<string>
    var adapters: map<string, MessageAdapter>
    /** The socket set of the adapter registered under each type string. */
    var sockets: map<string, set<SocketId>>
    var attachments: map<SocketId, (string, MessageAdapter)>
    var outbox: map<SocketId, seq<Frame>>
    var nextSocket: nat

    /** The registry and the close listeners as a value. */
    function State(): Registry
      reads this`adapters, this`adapterOrder, this`sockets, this`attachments, this`nextSocket
    {
      Registry(adapters, adapterOrder, sockets, attachments, nextSocket)
    }

    /** The registry holds what `makeAdapter` made, and the only adapter
        state (that of the truffle adapter) is not the relay. */
    ghost predicate RegistryOk()
      reads this`adapters, this`adapterOrder, this`sockets, this`attachments, this`nextSocket
    {
      this !in Parts() && Registered(State(), decodeUri)
    }

    /** The state of the registered adapters: only the adapter registered
        under "truffle" has any (its delegate and the decode memo). */
    ghost function Parts(): set<object>
      reads this`adapters
    {
      if "truffle" in adapters then adapters["truffle"].Repr else {}
    }

    /** The truffle adapter's decode memo only holds true decodes. */
    ghost predicate Healthy()
      reads this`adapters, Parts()
    {
      "truffle" in adapters ==> adapters["truffle"].Valid()
    }

    ghost predicate Valid()
      reads this`adapters, this`adapterOrder, this`sockets, this`attachments, this`nextSocket, Parts()
    {
      RegistryOk() && Healthy() && Attached(State())
    }

    /** `views` are the adapters as `this.adapters.values()` yields them. */
    ghost predicate ViewsAre(views: seq<View>)
      reads this`adapters, this`adapterOrder, this`sockets, this`attachments, this`nextSocket, Parts()
      requires RegistryOk()
    {
      && |views| == |adapterOrder|
      && forall i :: 0 <= i < |views| ==>
           views[i] == View(adapters[adapterOrder[i]].kind, adapters[adapterOrder[i]].CatalogNow(), sockets[adapterOrder[i]])
    }

    constructor (apiBase: string, decodeUri: string -> Option<string>)
      ensures Valid()
      ensures this.apiBase == apiBase && this.decodeUri == decodeUri && transform == TransformerFor(decodeUri)
      ensures !initialized && channelId.None? && nextContinuationToken.None?
      ensures seenMessages == map[] && adapters == map[] && adapterOrder == []
      ensures sockets == map[] && attachments == map[] && outbox == map[]
    {
      this.apiBase := apiBase;
      this.decodeUri := decodeUri;
      transform := TransformerFor(decodeUri);
      initialized := false;
      channelId := None;
      seenMessages := map[];
      nextContinuationToken := None;
      adapterOrder := [];
      adapters := map[];
      sockets := map[];
      attachments := map[];
      outbox := map[];
      nextSocket := 0;
    }

    /** `init` with the page's `initialData`. `start` is the token the first
        `fetchChat` is started with (the dedup sweep timer starts with it). */
    method Init(initialData: Json) returns (status: InitStatus, start: Option<Json>)
      modifies this`initialized, this`channelId
      ensures old(initialized) ==> status == InitOk && start.None? && initialized && channelId == old(channelId)
      ensures !old(initialized) ==>
        var ch := TraverseJson(initialData, ChannelIdProbe);
        var cont := TraverseJson(initialData, LiveChatProbe);
        var token := if cont.Found? && Truthy(cont.value) then GetContinuationToken(cont.value) else None;
        && (ch.Threw? ==> status == InitThrew && initialized && channelId == old(channelId) && start.None?)
        && (!ch.Threw? ==> channelId == (if ch.Found? then Some(ch.value) else None))
        && (!ch.Threw? && cont.Threw? ==> status == InitThrew && initialized && start.None?)
        && (!ch.Threw? && !cont.Threw? && (token.None? || !Truthy(token.value)) ==>
              status == FailedToLoadChat && !initialized && start.None?)
        && (!ch.Threw? && !cont.Threw? && token.Some? && Truthy(token.value) ==>
              status == InitOk && initialized && start == token)
    {
      if initialized {
        return InitOk, None;
      }
      initialized := true;
      var ch := TraverseJson(initialData, ChannelIdProbe);
      if ch.Threw? {
        return InitThrew, None;
      }
      channelId := if ch.Found? then Some(ch.value) else None;
      var continuation := TraverseJson(initialData, LiveChatProbe);
      if continuation.Threw? {
        return InitThrew, None;
      }
      if continuation.NotFound? {
        initialized := false;
        return FailedToLoadChat, None;
      }
      LiveChatFound(initialData);
      var token := GetContinuationToken(continuation.value);
      if token.None? || !Truthy(token.value) {
        initialized := false;
        return FailedToLoadChat, None;
      }
      return InitOk, token;
    }

    /** `clearSeenMessages()` at time `now`. */
    method ClearSeenMessages(now: int)
      modifies this`seenMessages
      ensures seenMessages == Swept(old(seenMessages), now)
    {
      var cutoff := now - SeenTtlMs;
      var pending := seenMessages.Keys;
      while pending != {}
        invariant pending <= old(seenMessages).Keys
        invariant seenMessages
               == map id | id in old(seenMessages) && (id in pending || old(seenMessages)[id] >= cutoff)
                         :: old(seenMessages)[id]
        decreases pending
      {
        var id :| id in pending;
        if seenMessages[id] < cutoff {
          seenMessages := seenMessages - {id};
        }
        pending := pending - {id};
      }
    }

    /** `getId(data)`: deletes the tracking property, then reads the first
        renderer's `id`. */
    method GetId(data: ActionObject) returns (id: IdResult)
      modifies data
      ensures data.fields == WithoutTracking(old(data.fields))
      ensures id == IdOf(data.fields)
    {
      data.DeleteClickTrackingParams();
      var fields := data.fields;
      if fields == [] || fields[0].TrackingParams? || fields[0].item.None? {
        return NoId;
      }
      var renderer := fields[0].item.value.renderer;
      if renderer.None? {
        return IdThrows;
      }
      var rid := RendererId(renderer.value);
      id := if rid.None? then NoId else Id(rid.value);
    }

    /** `for (const socket of adapter.sockets) socket.send(frame)` */
    method SendToSockets(group: set<SocketId>, frame: Frame)
      modifies this`outbox
      ensures outbox == SendAll(old(outbox), group, frame)
    {
      var pending := group;
      ghost var done: set<SocketId> := {};
      while pending != {}
        invariant done + pending == group && done !! pending
        invariant outbox == SendAll(old(outbox), done, frame)
        decreases pending
      {
        var s :| s in pending;
        SendAllStep(old(outbox), done, s, frame);
        outbox := outbox[s := Sent(outbox, s) + [frame]];
        pending, done := pending - {s}, done + {s};
      }
    }

    /** `broadcast(data)`: an exception thrown by an adapter's `transform`
        leaves the loop (`completed` is false). */
    method Broadcast(data: ActionObject, now: int, ghost views: seq<View>) returns (completed: bool)
      requires RegistryOk() && Healthy() && ViewsAre(views) && transform == TransformerFor(decodeUri)
      modifies this`outbox, data, Parts()
      ensures Healthy() && ViewsAre(views)
      ensures Deliver(views, transform, old(data.fields), old(outbox)) == Delivery(outbox, data.fields, completed)
    {
      ghost var fields0, outbox0 := data.fields, outbox;
      var i := 0;
      while i < |adapterOrder|
        invariant 0 <= i <= |adapterOrder| == |views|
        invariant Healthy() && ViewsAre(views)
        invariant Deliver(views[..i], transform, fields0, outbox0) == Delivery(outbox, data.fields, true)
      {
        var thrown := DeliverOne(i, data, now, views, fields0, outbox0);
        if thrown {
          return false;
        }
        i := i + 1;
      }
      assert views[..i] == views;
      completed := true;
    }

    /** The `i`-th turn of the loop of `broadcast`: after it, the adapters up
        to the `i`-th have been delivered to, or one has thrown and the
        broadcast is over. */
    method DeliverOne(i: int, data: ActionObject, now: int, ghost views: seq<View>,
                      ghost fields0: seq<ActionField>, ghost outbox0: map<SocketId, seq<Frame>>) returns (thrown: bool)
      requires RegistryOk() && Healthy() && ViewsAre(views) && transform == TransformerFor(decodeUri) && 0 <= i < |views|
      requires Deliver(views[..i], transform, fields0, outbox0) == Delivery(outbox, data.fields, true)
      modifies this`outbox, data, Parts()
      ensures Healthy() && ViewsAre(views)
      ensures !thrown ==> Deliver(views[..i + 1], transform, fields0, outbox0) == Delivery(outbox, data.fields, true)
      ensures thrown ==> Deliver(views, transform, fields0, outbox0) == Delivery(outbox, data.fields, false)
    {
      DeliverSnoc(views, transform, fields0, outbox0, i);
      thrown := DeliverStep(i, data, now, views);
      if thrown {
        DeliverStops(views, transform, fields0, outbox0, i + 1);
      }
    }

    /** The adapter `i`-th in registry order: its `transform` runs on the
        action, and its frame goes to its sockets. */
    method DeliverStep(i: int, data: ActionObject, now: int, ghost views: seq<View>) returns (thrown: bool)
      requires RegistryOk() && Healthy() && ViewsAre(views) && transform == TransformerFor(decodeUri) && 0 <= i < |views|
      modifies this`outbox, data, Parts()
      ensures Healthy() && ViewsAre(views)
      ensures DeliverTo(Delivery(old(outbox), old(data.fields), true), views[i], transform)
              == Delivery(outbox, data.fields, !thrown)
    {
      var out := TransformOne(i, data, now, views);
      if out.Throws? {
        return true;
      }
      if out.Emit? {
        SendFrame(i, out.value, views);
      }
      thrown := false;
    }

    /** The frame of the adapter `i`-th in registry order goes to its
        sockets; no adapter changes. */
    method SendFrame(i: int, frame: Frame, ghost views: seq<View>)
      requires RegistryOk() && Healthy() && ViewsAre(views) && 0 <= i < |views|
      modifies this`outbox
      ensures Healthy() && ViewsAre(views)
      ensures outbox == SendAll(old(outbox), views[i].sockets, frame)
    {
      SendToSockets(sockets[adapterOrder[i]], frame);
    }

    /** The `transform` of the adapter `i`-th in registry order, inside
        `broadcast`: no adapter's catalogs change. */
    method TransformOne(i: int, data: ActionObject, now: int, ghost views: seq<View>)
      returns (out: Outcome<Frame>)
      requires RegistryOk() && Healthy() && ViewsAre(views) && transform == TransformerFor(decodeUri) && 0 <= i < |views|
      modifies data, Parts()
      ensures Healthy() && ViewsAre(views)
      ensures out == transform(views[i].kind, views[i].catalog, old(data.fields))
      ensures data.fields == FieldsAfter(views[i].kind, old(data.fields))
    {
      var t := adapterOrder[i];
      assert views[i] == View(adapters[t].kind, adapters[t].CatalogNow(), sockets[t]);
      out := TransformAt(t, data, now, views);
    }

    /** The `transform` of the adapter registered under `t`: no adapter's
        catalogs change. */
    method TransformAt(t: string, data: ActionObject, now: int, ghost views: seq<View>)
      returns (out: Outcome<Frame>)
      requires RegistryOk() && Healthy() && ViewsAre(views) && t in adapters
      modifies data, adapters[t].Repr
      ensures Healthy() && ViewsAre(views)
      ensures out == Transformed(adapters[t].kind, old(adapters[t].CatalogNow()), decodeUri, old(data.fields))
      ensures data.fields == FieldsAfter(adapters[t].kind, old(data.fields))
    {
      out := adapters[t].Transform(data, now);
      forall u | u in adapters
        ensures adapters[u].CatalogNow() == old(adapters[u].CatalogNow())
      {
        if u != t {
          assert adapters[u].truffle == null || t != "truffle";
        }
      }
    }

    /** One turn of the action loop of `fetchChat`: the relay parses the
        action into a fresh object, then `getId`, dedup and `broadcast`.
        `aborted` is an exception leaving the loop. */
    method ProcessAction(raw: seq<ActionField>, now: int, ghost views: seq<View>) returns (aborted: bool)
      requires RegistryOk() && Healthy() && ViewsAre(views) && transform == TransformerFor(decodeUri)
      modifies this`outbox, this`seenMessages, Parts()
      ensures Healthy() && ViewsAre(views)
      ensures var st := Step(views, transform, PollState(old(seenMessages), old(outbox), false), raw, now);
        seenMessages == st.seen && outbox == st.outbox && aborted == st.aborted
    {
      var action, id := ReadAction(raw, views);
      if id.IdThrows? {
        return true;
      }
      if id.Id? && id.id != "" {
        if id.id in seenMessages {
          return false;
        }
        MarkSeen(id.id, now, views);
      }
      var completed := Broadcast(action, now, views);
      aborted := !completed;
    }

    /** The action as a fresh object, and its `getId`; no adapter changes. */
    method ReadAction(raw: seq<ActionField>, ghost views: seq<View>) returns (action: ActionObject, id: IdResult)
      requires RegistryOk() && Healthy() && ViewsAre(views)
      ensures fresh(action)
      ensures Healthy() && ViewsAre(views)
      ensures action.fields == WithoutTracking(raw) && id == IdOf(action.fields)
    {
      action := new ActionObject(raw);
      id := GetId(action);
    }

    /** `this.seenMessages.set(id, Date.now())`; no adapter changes. */
    method MarkSeen(id: string, now: int, ghost views: seq<View>)
      requires RegistryOk() && Healthy() && ViewsAre(views)
      modifies this`seenMessages
      ensures Healthy() && ViewsAre(views)
      ensures seenMessages == old(seenMessages)[id := now]
    {
      seenMessages := seenMessages[id := now];
    }

    /** `fetchChat(continuationToken)` once the request for it has been
        answered with `response`: the action loop, then the `finally` block,
        which stores the chosen token and schedules the next poll while any
        adapter is registered. */
    method FetchChat(continuationToken: Json, response: PollResponse, now: int, ghost views: seq<View>)
      returns (nextToken: Json, next: Option<PollTimer>)
      requires RegistryOk() && Healthy() && ViewsAre(views) && transform == TransformerFor(decodeUri)
      modifies this`outbox, this`seenMessages, this`nextContinuationToken, Parts()
      ensures Healthy() && ViewsAre(views)
      ensures nextToken == NextToken(continuationToken, response) && nextContinuationToken == Some(nextToken)
      ensures next.Some? <==> |adapters| > 0
      ensures next.Some? ==> next.value == PollTimer(nextToken, ChatIntervalMs)
      ensures var p := Poll(views, transform, PollState(old(seenMessages), old(outbox), false),
                            ActionsOf(response), now);
        seenMessages == p.seen && outbox == p.outbox
    {
      var actions;
      nextToken, actions := ReadResponse(continuationToken, response);
      ActionLoop(actions, now, views);
      next := Finally(nextToken, views);
    }

    /** The `finally` block of `fetchChat`: the token is stored, and the next
        poll is scheduled while any adapter is registered. */
    method Finally(nextToken: Json, ghost views: seq<View>) returns (next: Option<PollTimer>)
      requires RegistryOk() && Healthy() && ViewsAre(views)
      modifies this`nextContinuationToken
      ensures Healthy() && ViewsAre(views)
      ensures nextContinuationToken == Some(nextToken)
      ensures next.Some? <==> |adapters| > 0
      ensures next.Some? ==> next.value == PollTimer(nextToken, ChatIntervalMs)
    {
      nextContinuationToken := Some(nextToken);
      next := if |adapters| > 0 then Some(PollTimer(nextToken, ChatIntervalMs)) else None;
    }

    /** `for (const action of actions) { ... }`, left at the first exception. */
    method ActionLoop(actions: seq<seq<ActionField>>, now: int, ghost views: seq<View>)
      requires RegistryOk() && Healthy() && ViewsAre(views) && transform == TransformerFor(decodeUri)
      modifies this`outbox, this`seenMessages, Parts()
      ensures Healthy() && ViewsAre(views)
      ensures var p := Poll(views, transform, PollState(old(seenMessages), old(outbox), false), actions, now);
        seenMessages == p.seen && outbox == p.outbox
    {
      ghost var st0 := PollState(seenMessages, outbox, false);
      var i := 0;
      while i < |actions|
        invariant 0 <= i <= |actions|
        invariant RegistryOk() && Healthy() && ViewsAre(views)
        invariant var p := Poll(views, transform, st0, actions[..i], now);
          seenMessages == p.seen && outbox == p.outbox && !p.aborted
      {
        assert actions[..i + 1][..i] == actions[..i];
        var aborted := ProcessAction(actions[i], now, views);
        if aborted {
          PollAbortStays(views, transform, st0, actions, i + 1, now);
          return;
        }
        i := i + 1;
      }
      assert actions[..i] == actions;
    }

    /** `makeAdapter(adapterType)`: the cached adapter for this type string,
        or a new adapter of the kind the string names, registered under it
        with no sockets. */
    method MakeAdapter(adapterType: string, now: int) returns (adapter: MessageAdapter)
      requires RegistryOk() && Healthy()
      modifies this`adapters, this`adapterOrder, this`sockets
      ensures State() == Register(old(State()), adapterType, adapter)
      ensures RegistryOk() && Healthy()
      ensures adapterType in old(adapters) ==> adapter == old(adapters)[adapterType]
      ensures adapterType !in old(adapters) ==>
        && fresh(adapter) && Made(adapter, adapterType, decodeUri)
        && (adapter.truffle != null ==>
              adapter.truffle.apiBase == apiBase && adapter.truffle.youtubeChannelId == TemplateText(channelId))
    {
      if adapterType in adapters {
        return adapters[adapterType];
      }
      adapter := new MessageAdapter(KindOf(adapterType), apiBase, TemplateText(channelId), decodeUri, now);
      RegisterKeeps(State(), adapterType, adapter, decodeUri);
      Enroll(adapterType, adapter);
    }

    /** `this.adapters.set(adapterType, adapter)` for a new adapter. */
    method Enroll(adapterType: string, adapter: MessageAdapter)
      requires adapterType !in adapters && this !in Parts() && Healthy()
      requires this !in adapter.Repr && (adapterType == "truffle" ==> adapter.Valid())
      requires Registered(Register(State(), adapterType, adapter), decodeUri)
      modifies this`adapters, this`adapterOrder, this`sockets
      ensures State() == Register(old(State()), adapterType, adapter)
      ensures RegistryOk() && Healthy()
    {
      ghost var after := Register(State(), adapterType, adapter);
      adapters, adapterOrder, sockets := adapters[adapterType := adapter], adapterOrder + [adapterType], sockets[adapterType := {}];
      assert State() == after;
    }

    /** The part of `handleWebsocket` after the upgrade: the socket `ws`
        joins the adapter for `url.searchParams.get('adapter') ?? 'json'`,
        and its close listener is recorded. `start` is the token a new
        `fetchChat` is started with. */
    method HandleWebsocket(adapterParam: Option<string>, now: int) returns (ws: SocketId, start: Option<Json>)
      requires Valid()
      modifies this`adapters, this`adapterOrder, this`sockets, this`attachments, this`nextSocket
      ensures var t := adapterParam.GetOr("json");
        && t in adapters && ws == old(nextSocket)
        && State() == Join(Register(old(State()), t, adapters[t]), t, adapters[t])
        && (t !in old(adapters) ==> fresh(adapters[t]))
      ensures Valid()
      ensures start.Some? <==> nextContinuationToken.Some? && Truthy(nextContinuationToken.value)
      ensures start.Some? ==> start == nextContinuationToken
    {
      var adapterType := adapterParam.GetOr("json");
      ghost var r0 := State();
      var adapter := MakeAdapter(adapterType, now);
      ConnectKeeps(r0, adapterType, adapter, decodeUri);
      ws := Attach(adapterType, adapter);
      start := if nextContinuationToken.Some? && Truthy(nextContinuationToken.value) then nextContinuationToken else None;
    }

    /** `adapter.sockets.add(webSocket)` and the close listener: the next
        socket id joins the set under `adapterType`. */
    method Attach(adapterType: string, adapter: MessageAdapter) returns (ws: SocketId)
      requires adapterType in sockets && this !in Parts() && Healthy()
      requires Registered(Join(State(), adapterType, adapter), decodeUri) && Attached(Join(State(), adapterType, adapter))
      modifies this`sockets, this`attachments, this`nextSocket
      ensures ws == old(nextSocket)
      ensures State() == Join(old(State()), adapterType, adapter)
      ensures Valid()
    {
      ghost var after := Join(State(), adapterType, adapter);
      ws := nextSocket;
      sockets, attachments, nextSocket := sockets[adapterType := sockets[adapterType] + {ws}], attachments[ws := (adapterType, adapter)], nextSocket + 1;
      assert State() == after;
    }

    /** The close listener of socket `ws`. */
    method OnClose(ws: SocketId)
      requires Valid()
      modifies this`adapters, this`adapterOrder, this`sockets, this`attachments
      ensures State() == Close(old(State()), ws)
      ensures Valid()
    {
      if ws !in attachments {
        return;
      }
      ghost var after := Close(State(), ws);
      CloseKeeps(State(), ws, decodeUri);
      var adapterType := attachments[ws].0;
      var left := sockets[adapterType] - {ws};
      if left == {} {
        Evict(adapterType, ws, after);
      } else {
        Leave(adapterType, ws, left, after);
      }
    }

    /** Another socket of `adapterType` is still open: `adapter.sockets.delete(webSocket)`. */
    method Leave(adapterType: string, ws: SocketId, left: set<SocketId>, ghost after: Registry)
      requires this !in Parts() && Healthy()
      requires after == State().(sockets := sockets[adapterType := left], attachments := attachments - {ws})
      requires Registered(after, decodeUri) && Attached(after)
      modifies this`sockets, this`attachments
      ensures State() == after
      ensures Valid()
    {
      sockets, attachments := sockets[adapterType := left], attachments - {ws};
      assert State() == after;
    }

    /** The last socket of `adapterType` closed: `this.adapters.delete(adapterType)`. */
    method Evict(adapterType: string, ws: SocketId, ghost after: Registry)
      requires this !in Parts() && Healthy()
      requires after == State().(adapters := adapters - {adapterType}, order := Remove(adapterOrder, adapterType),
                                 sockets := sockets - {adapterType}, attachments := attachments - {ws})
      requires Registered(after, decodeUri) && Attached(after)
      modifies this`adapters, this`adapterOrder, this`sockets, this`attachments
      ensures State() == after
      ensures Valid()
    {
      adapters, adapterOrder, sockets, attachments := adapters - {adapterType}, Remove(adapterOrder, adapterType), sockets - {adapterType}, attachments - {ws};
      assert State() == after;
      assert Parts() == old(Parts()) || Parts() == {};
    }
  }

  /** The part of `fetchChat` that reads the response: the token `finally`
      stores and the actions the loop runs over. */
  method ReadResponse(continuationToken: Json, response: PollResponse)
    returns (nextToken: Json, actions: seq<seq<ActionField>>)
    ensures nextToken == NextToken(continuationToken, response)
    ensures actions == ActionsOf(response)
  {
    nextToken := continuationToken;
    actions := [];
    if response.Ok? {
      var contents := response.data.continuationContents;
      if contents.None? || contents.value.liveChatContinuation.Some? {
        var nextContinuation: Option<Json> := None;
        if contents.Some? {
          var continuations := contents.value.liveChatContinuation.value.continuations;
          if continuations.Some? && continuations.value != [] {
            nextContinuation := Some(continuations.value[0]);
          }
        }
        var token := if nextContinuation.Some? && Truthy(nextContinuation.value)
                     then GetContinuationToken(nextContinuation.value) else None;
        nextToken := if token.None? || token.value.JNull? then continuationToken else token.value;
        if contents.Some? && contents.value.liveChatContinuation.value.actions.Some? {
          actions := contents.value.liveChatContinuation.value.actions.value;
        }
      }
    }
  }

  /** Sending to one more socket. */
  lemma SendAllStep(outbox: map<SocketId, seq<Frame>>, done: set<SocketId>, s: SocketId, frame: Frame)
    requires s !in done
    ensures SendAll(outbox, done + {s}, frame)
         == SendAll(outbox, done, frame)[s := Sent(SendAll(outbox, done, frame), s) + [frame]]
  {
    var a := SendAll(outbox, done + {s}, frame);
    var b := SendAll(outbox, done, frame)[s := Sent(SendAll(outbox, done, frame), s) + [frame]];
    assert a.Keys == b.Keys;
    forall k | k in a.Keys
      ensures a[k] == b[k]
    {
      assert Sent(a, k) == Sent(b, k);
    }
  }
}
