/**
 * The message adapters a relay serves (src/adapters/index.ts, json.ts,
 * subathon.ts, truffle.ts, raw.ts, irc.ts) as one closed family: the adapter
 * a requested type string selects, what its `transform` makes of an action,
 * and how one action is broadcast through the adapters in registry order.
 */
module Adapters {
  import opened Wrappers
  import opened Types
  import opened Emotes
  import opened Truffle
  import JsonAdapter
  import SubathonAdapter

  /** The factories of `adapterMap`. */
  datatype Kind = JsonKind | IrcKind | TruffleKind | SubathonKind | RawKind

  /** The five own keys of `adapterMap`. */
  const AdapterKeys: set<string> := {"json", "irc", "truffle", "subathon", "raw"}

  /** The factory a requested adapter type selects: the own key of that name,
      and the JSON adapter for every other string. */
  function KindOf(adapterType: string): Kind {
    if adapterType == "irc" then IrcKind
    else if adapterType == "truffle" then TruffleKind
    else if adapterType == "subathon" then SubathonKind
    else if adapterType == "raw" then RawKind
    else JsonKind
  }

  /** Each of the five keys selects its own factory; any string that is not a
      key of `adapterMap` falls back to the JSON adapter. */
  lemma KindOfSpec(adapterType: string)
    ensures adapterType !in AdapterKeys ==> KindOf(adapterType) == JsonKind
    ensures KindOf(adapterType) == JsonKind <==> adapterType == "json" || adapterType !in AdapterKeys
    ensures KindOf(adapterType) == IrcKind <==> adapterType == "irc"
    ensures KindOf(adapterType) == TruffleKind <==> adapterType == "truffle"
    ensures KindOf(adapterType) == SubathonKind <==> adapterType == "subathon"
    ensures KindOf(adapterType) == RawKind <==> adapterType == "raw"
  {
  }

  // ----------------------------------------------- `adapterMap[adapterType]` as written

  /** What indexing the object literal `adapterMap` yields: an own factory, a
      member every object literal inherits from `Object.prototype`, or
      `undefined`. */
  datatype Lookup = Factory(kind: Kind) | Inherited(name: string) | Undefined

  const ObjectPrototypeMembers: set<string> := {
    "constructor", "hasOwnProperty", "isPrototypeOf", "propertyIsEnumerable", "toString",
    "toLocaleString", "valueOf", "__proto__", "__defineGetter__", "__defineSetter__",
    "__lookupGetter__", "__lookupSetter__"
  }

  function AdapterMapLookup(adapterType: string): Lookup {
    if adapterType in AdapterKeys then Factory(KindOf(adapterType))
    else if adapterType in ObjectPrototypeMembers then Inherited(adapterType)
    else Undefined
  }

  /** `adapterMap[adapterType] ?? adapterMap.json`: the fallback applies only
      to `undefined`. */
  function FactoryAsWritten(adapterType: string): Lookup {
    var found := AdapterMapLookup(adapterType);
    if found.Undefined? then Factory(JsonKind) else found
  }

  /** A requested type that names an inherited member, `toString` say, skips
      the JSON fallback and selects a value that is no adapter factory,
      whereas the corrected lookup serves it the JSON adapter. */
  lemma InheritedNameBypassesFallback()
    ensures FactoryAsWritten("toString") == Inherited("toString")
    ensures FactoryAsWritten("constructor") == Inherited("constructor")
    ensures KindOf("toString") == JsonKind && KindOf("constructor") == JsonKind
  {
  }

  /** The two lookups agree on every string except the inherited member names. */
  lemma AsWrittenAgreesElsewhere(adapterType: string)
    ensures adapterType !in ObjectPrototypeMembers ==> FactoryAsWritten(adapterType) == Factory(KindOf(adapterType))
    ensures adapterType in ObjectPrototypeMembers ==> !FactoryAsWritten(adapterType).Factory?
  {
  }

  // ----------------------------------------------------------- transform

  /** What an adapter's `transform` sends to its sockets (the value before
      `JSON.stringify`, which never yields an empty string for these). */
  datatype Frame =
    | JsonFrame(json: JsonAdapter.ChatEvent)
    | SubathonFrame(subathon: SubathonAdapter.ChatEvent)
    | TruffleFrame(truffle: TruffleChatEvent)
    | RawFrame(action: seq<ActionField>)

  type SocketId = nat

  /** An adapter as `broadcast` sees it: its kind, its catalogs (empty for
      all but the truffle adapter) and its sockets. */
  datatype View = View(kind: Kind, catalog: Catalog, sockets: set<SocketId>)

  const EmptyCatalog: Catalog := Catalog(map[], map[], map[], map[])

  /** `adapter.transform(action)` on the action's current properties, for an
      adapter of kind `kind` whose catalogs are `catalog`. */
  function Transformed(kind: Kind, catalog: Catalog, decodeUri: string -> Option<string>,
                       fields: seq<ActionField>): Outcome<Frame> {
    match kind
    case JsonKind =>
      var e := JsonAdapter.ParsedEvent(fields);
      if e.None? then Silent else Emit(JsonFrame(e.value))
    case SubathonKind =>
      var e := SubathonAdapter.ParsedEvent(fields);
      if e.None? then Silent else Emit(SubathonFrame(e.value))
    case TruffleKind =>
      var p := ParsedEvent(catalog, decodeUri, fields);
      if p.Emit? then Emit(TruffleFrame(p.value)) else if p.Silent? then Silent else Throws
    case RawKind => Emit(RawFrame(fields))
    case IrcKind => Throws
  }

  /** `transform` as `broadcast` applies it: to an adapter's kind, its
      catalogs and the action's properties. */
  type Transformer = (Kind, Catalog, seq<ActionField>) -> Outcome<Frame>

  /** `tf` is `transform` with `decodeURIComponent` being `decodeUri`. */
  ghost predicate Wired(tf: Transformer, decodeUri: string -> Option<string>) {
    forall kind, catalog, fields {:trigger Transformed(kind, catalog, decodeUri, fields)} ::
      tf(kind, catalog, fields) == Transformed(kind, catalog, decodeUri, fields)
  }

  /** The transformer a relay with `decodeUri` uses. */
  function TransformerFor(decodeUri: string -> Option<string>): (tf: Transformer)
    ensures Wired(tf, decodeUri)
  {
    (kind, catalog, fields) => Transformed(kind, catalog, decodeUri, fields)
  }

  /** The action's properties after that `transform`: the JSON and subathon
      adapters delete the tracking property. */
  function FieldsAfter(kind: Kind, fields: seq<ActionField>): seq<ActionField> {
    if kind == JsonKind || kind == SubathonKind then WithoutTracking(fields) else fields
  }

  /** The IRC adapter always throws and the raw adapter always passes the
      action on; the other three emit exactly when their `parseAction` yields an
      event, and only the truffle adapter can otherwise throw. */
  lemma TransformedSpec(kind: Kind, catalog: Catalog, decodeUri: string -> Option<string>, fields: seq<ActionField>)
    ensures kind == IrcKind ==> Transformed(kind, catalog, decodeUri, fields).Throws?
    ensures kind == RawKind ==> Transformed(kind, catalog, decodeUri, fields) == Emit(RawFrame(fields))
    ensures kind == JsonKind ==>
      !Transformed(kind, catalog, decodeUri, fields).Throws?
      && (Transformed(kind, catalog, decodeUri, fields).Emit? <==> JsonAdapter.ParsedEvent(fields).Some?)
    ensures kind == SubathonKind ==>
      !Transformed(kind, catalog, decodeUri, fields).Throws?
      && (Transformed(kind, catalog, decodeUri, fields).Emit? <==> SubathonAdapter.ParsedEvent(fields).Some?)
    ensures kind == TruffleKind ==>
      (Transformed(kind, catalog, decodeUri, fields).Emit? <==> ParsedEvent(catalog, decodeUri, fields).Emit?)
      && (Transformed(kind, catalog, decodeUri, fields).Throws? <==> ParsedEvent(catalog, decodeUri, fields).Throws?)
  {
  }

  /** A `MessageAdapter`. The truffle adapter's state lives in `truffle`; the
      other kinds are stateless. Its socket set is held by the relay, keyed by
      the type string the adapter is registered under. */
  class MessageAdapter {
    const kind: Kind
    const truffle: TruffleAdapter?
    /** `decodeURIComponent`, as the runtime provides it. */
    const decodeUri: string -> Option<string>
    ghost const Repr: set<object>

    /** Only a truffle adapter has a delegate, and its state is the delegate
        and the delegate's decode memo. */
    ghost predicate Shaped() {
      && (truffle != null <==> kind == TruffleKind)
      && (truffle != null ==> Repr == {truffle, truffle.emoteIndicesMap} && truffle.decodeUri == decodeUri)
      && (truffle == null ==> Repr == {})
    }

    ghost predicate Valid()
      reads Repr
    {
      Shaped() && (truffle != null ==> truffle.Valid())
    }

    /** The catalogs `transform` reads: the truffle delegate's, or none. */
    function CatalogNow(): Catalog
      reads truffle
    {
      if truffle != null then truffle.Snapshot() else EmptyCatalog
    }

    /** The factory call `adapterMap[...](env, channelId)`: a fresh adapter
        with no sockets; the truffle adapter starts its first catalog fetch. */
    constructor (kind: Kind, apiBase: string, channelId: string, decodeUri: string -> Option<string>, now: int)
      ensures Valid() && fresh(Repr)
      ensures this.kind == kind && this.decodeUri == decodeUri
      ensures CatalogNow() == EmptyCatalog
      ensures truffle != null ==>
        truffle.apiBase == apiBase && truffle.youtubeChannelId == channelId && truffle.lastFetched == now
        && truffle.requestedUrls == FetchUrls(apiBase, channelId)
    {
      this.kind := kind;
      this.decodeUri := decodeUri;
      if kind == TruffleKind {
        var t := new TruffleAdapter(apiBase, channelId, decodeUri, now);
        truffle := t;
        Repr := {t, t.emoteIndicesMap};
      } else {
        truffle := null;
        Repr := {};
      }
    }

    /** `transform(action)` */
    method Transform(data: ActionObject, now: int) returns (out: Outcome<Frame>)
      requires Valid()
      modifies data, Repr
      ensures Valid() && CatalogNow() == old(CatalogNow())
      ensures out == Transformed(kind, old(CatalogNow()), decodeUri, old(data.fields))
      ensures data.fields == FieldsAfter(kind, old(data.fields))
      ensures truffle != null && old(truffle.lastFetched) < now - RefreshMs ==> truffle.lastFetched == now
      ensures truffle != null && old(truffle.lastFetched) >= now - RefreshMs ==>
                truffle.lastFetched == old(truffle.lastFetched)
    {
      match kind
      case JsonKind =>
        var e := JsonAdapter.ParseAction(data);
        out := if e.None? then Silent else Emit(JsonFrame(e.value));
      case SubathonKind =>
        var e := SubathonAdapter.ParseAction(data);
        out := if e.None? then Silent else Emit(SubathonFrame(e.value));
      case TruffleKind =>
        var p := truffle.Transform(data, now);
        out := if p.Emit? then Emit(TruffleFrame(p.value)) else if p.Silent? then Silent else Throws;
      case RawKind =>
        out := Emit(RawFrame(data.fields));
      case IrcKind =>
        out := Throws;
    }
  }

  // ----------------------------------------------------------- broadcast

  /** The frames a socket has been sent, oldest first. */
  function Sent(outbox: map<SocketId, seq<Frame>>, s: SocketId): seq<Frame> {
    if s in outbox then outbox[s] else []
  }

  /** `for (const socket of sockets) socket.send(frame)` */
  function SendAll(outbox: map<SocketId, seq<Frame>>, sockets: set<SocketId>, frame: Frame): (r: map<SocketId, seq<Frame>>)
    ensures forall s :: s in sockets ==> Sent(r, s) == Sent(outbox, s) + [frame]
    ensures forall s :: s !in sockets ==> Sent(r, s) == Sent(outbox, s)
  {
    map s | s in outbox.Keys + sockets :: if s in sockets then Sent(outbox, s) + [frame] else outbox[s]
  }

  /** The state a broadcast leaves: what was sent, the action's properties,
      and whether it ran to the end (`false`: an adapter threw). */
  datatype Delivery = Delivery(outbox: map<SocketId, seq<Frame>>, fields: seq<ActionField>, completed: bool)

  /** `broadcast(action)` over the adapters in registry order: an adapter's
      frame goes to its sockets, a falsy result is skipped, and an exception
      ends the broadcast. */
  function Deliver(views: seq<View>, tf: Transformer, fields: seq<ActionField>,
                   outbox: map<SocketId, seq<Frame>>): Delivery
  {
    if views == [] then Delivery(outbox, fields, true)
    else DeliverTo(Deliver(views[..|views| - 1], tf, fields, outbox), views[|views| - 1], tf)
  }

  /** One more adapter `v` of the broadcast, unless an earlier one threw. */
  function DeliverTo(st: Delivery, v: View, tf: Transformer): Delivery {
    if !st.completed then st
    else
      var out := tf(v.kind, v.catalog, st.fields);
      var after := FieldsAfter(v.kind, st.fields);
      if out.Throws? then Delivery(st.outbox, after, false)
      else if out.Silent? then Delivery(st.outbox, after, true)
      else Delivery(SendAll(st.outbox, v.sockets, out.value), after, true)
  }

  /** The broadcast over the first `i + 1` adapters is the one over the first
      `i`, followed by adapter `i`. */
  lemma DeliverSnoc(views: seq<View>, tf: Transformer, fields: seq<ActionField>,
                    outbox: map<SocketId, seq<Frame>>, i: int)
    requires 0 <= i < |views|
    ensures Deliver(views[..i + 1], tf, fields, outbox) == DeliverTo(Deliver(views[..i], tf, fields, outbox), views[i], tf)
  {
    assert views[..i + 1][..i] == views[..i];
  }

  /** Once an adapter has thrown, the broadcast is over: the adapters after
      it change nothing. */
  lemma {:induction false} DeliverStops(views: seq<View>, tf: Transformer, fields: seq<ActionField>,
                                        outbox: map<SocketId, seq<Frame>>, k: int)
    requires 0 <= k <= |views|
    requires !Deliver(views[..k], tf, fields, outbox).completed
    ensures Deliver(views, tf, fields, outbox) == Deliver(views[..k], tf, fields, outbox)
  {
    if k < |views| {
      var init := views[..|views| - 1];
      assert init[..k] == views[..k];
      DeliverStops(init, tf, fields, outbox, k);
    } else {
      assert views[..k] == views;
    }
  }

  /** No adapter before `i` throws on the action and adapter `i` emits. */
  ghost predicate ReachedAndEmits(views: seq<View>, tf: Transformer, fields: seq<ActionField>, i: int)
    requires 0 <= i < |views|
  {
    && (forall j :: 0 <= j < i ==> !tf(views[j].kind, views[j].catalog, fields).Throws?)
    && tf(views[i].kind, views[i].catalog, fields).Emit?
  }

  /** On an action already stripped of its tracking property (as the relay's
      `getId` leaves it), the properties stay as they are and the broadcast
      runs to the end exactly when no adapter throws. */
  lemma {:induction false} DeliverCompletion(views: seq<View>, tf: Transformer,
                                             fields: seq<ActionField>, outbox: map<SocketId, seq<Frame>>)
    requires NoTracking(fields)
    ensures Deliver(views, tf, fields, outbox).fields == fields
    ensures Deliver(views, tf, fields, outbox).completed <==>
              forall j :: 0 <= j < |views| ==> !tf(views[j].kind, views[j].catalog, fields).Throws?
  {
    WithoutTrackingKeepsEntries(fields);
    if views != [] {
      var init := views[..|views| - 1];
      DeliverCompletion(init, tf, fields, outbox);
      assert forall j :: 0 <= j < |init| ==> init[j] == views[j];
    }
  }

  /** A socket of no adapter is sent nothing. */
  lemma {:induction false} DeliverMissesSocket(views: seq<View>, tf: Transformer,
                                               fields: seq<ActionField>, outbox: map<SocketId, seq<Frame>>, s: SocketId)
    requires forall j :: 0 <= j < |views| ==> s !in views[j].sockets
    ensures Sent(Deliver(views, tf, fields, outbox).outbox, s) == Sent(outbox, s)
  {
    if views != [] {
      var init := views[..|views| - 1];
      assert forall j :: 0 <= j < |init| ==> init[j] == views[j];
      DeliverMissesSocket(init, tf, fields, outbox, s);
    }
  }

  /** A socket of exactly one adapter `i` is sent that adapter's frame, once,
      when no earlier adapter threw and adapter `i` emitted, and nothing
      otherwise. */
  lemma {:induction false} DeliverToSocket(views: seq<View>, tf: Transformer,
                                           fields: seq<ActionField>, outbox: map<SocketId, seq<Frame>>,
                                           i: int, s: SocketId)
    requires NoTracking(fields)
    requires 0 <= i < |views| && s in views[i].sockets
    requires forall j :: 0 <= j < |views| && j != i ==> s !in views[j].sockets
    ensures Sent(Deliver(views, tf, fields, outbox).outbox, s)
            == Sent(outbox, s) + (if ReachedAndEmits(views, tf, fields, i)
                                  then [tf(views[i].kind, views[i].catalog, fields).value] else [])
  {
    var n := |views| - 1;
    var init := views[..n];
    assert forall j :: 0 <= j < |init| ==> init[j] == views[j];
    DeliverCompletion(init, tf, fields, outbox);
    var st := Deliver(init, tf, fields, outbox);
    assert Deliver(views, tf, fields, outbox) == DeliverTo(st, views[n], tf);
    DeliverToSent(st, views[n], tf, s);
    if i == n {
      DeliverMissesSocket(init, tf, fields, outbox, s);
    } else {
      DeliverToSocket(init, tf, fields, outbox, i, s);
      assert ReachedAndEmits(views, tf, fields, i) == ReachedAndEmits(init, tf, fields, i);
    }
  }

  /** What one more adapter `v` sends to socket `s`. */
  lemma DeliverToSent(st: Delivery, v: View, tf: Transformer, s: SocketId)
    ensures var out := tf(v.kind, v.catalog, st.fields);
      Sent(DeliverTo(st, v, tf).outbox, s)
      == Sent(st.outbox, s) + (if st.completed && out.Emit? && s in v.sockets then [out.value] else [])
  {
  }
}
