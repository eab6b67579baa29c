/**
 * Parsed JSON values and the depth-first search `traverseJSON` that the relay
 * uses to dig the live-chat continuation and the channel id out of a video
 * page's bootstrap data (src/util/util.ts).
 */
module JsonTree {
  import opened Wrappers
  import Text

  /** A value produced by `JSON.parse`. Numbers are modelled as integers; the
      fields of an object are kept in their `Object.entries` order and have
      distinct keys. */
  datatype Json =
    | JNull
    | JBool(b: bool)
    | JNum(n: int)
    | JStr(s: string)
    | JArr(items: seq<Json>)
    | JObj(fields: seq<Field>)

  datatype Field = Field(key: string, value: Json)

  /** JavaScript truthiness of a JSON value. */
  predicate Truthy(j: Json) {
    match j
    case JNull => false
    case JBool(b) => b
    case JNum(n) => n != 0
    case JStr(s) => s != ""
    case _ => true
  }

  /** `isObject(j)`: `typeof j === 'object' && !Array.isArray(j)`, so JSON null too. */
  predicate IsObject(j: Json) {
    j.JNull? || j.JObj?
  }

  /** `isObject` admits no array and no primitive other than null; the truthy
      values it admits are exactly the key-value objects. */
  lemma IsObjectCases(j: Json)
    ensures IsObject(j) ==> !j.JArr? && !j.JStr? && !j.JNum? && !j.JBool?
    ensures IsObject(JNull)
    ensures IsObject(j) && Truthy(j) <==> j.JObj?
  {
  }

  /** `j.key` on a parsed value: only objects have named properties. */
  function Property(j: Json, key: string): (r: Option<Json>)
    ensures r.Some? ==> j.JObj? && Field(key, r.value) in j.fields
  {
    match j
    case JObj(fields) => FieldValue(fields, key)
    case _ => None
  }

  function FieldValue(fields: seq<Field>, key: string): (r: Option<Json>)
    ensures r.Some? ==> Field(key, r.value) in fields
    ensures r.None? ==> forall i :: 0 <= i < |fields| ==> fields[i].key != key
  {
    if fields == [] then None
    else if fields[0].key == key then Some(fields[0].value)
    else FieldValue(fields[1..], key)
  }

  /** What one call of a `traverseJSON` callback does: it returns a value
      (which may be falsy), returns `undefined`, or throws. */
  datatype Probe = Hit(value: Json) | Miss | Fault

  /** The outcome of `traverseJSON`: a truthy callback result, `undefined`, or
      the exception of a callback propagating out. */
  datatype Search = Found(value: Json) | NotFound | Threw

  /** `traverseJSON(j, callback)`. The callback is given each entry's value and
      key (array indices as their decimal strings) before the search descends
      into that value, and the first truthy result (or exception) ends the search. */
  function TraverseJson(j: Json, callback: (Json, string) -> Probe): Search
    decreases j, 1
  {
    if !Truthy(j) then NotFound
    else
      match j
      case JArr(items) => TraverseItems(items, 0, callback)
      case JObj(fields) => TraverseFields(fields, callback)
      case _ => NotFound
  }

  function TraverseFields(fields: seq<Field>, callback: (Json, string) -> Probe): Search
    decreases fields, 0
  {
    if fields == [] then NotFound
    else VisitEntry(fields[0].key, fields[0].value, callback, TraverseFields(fields[1..], callback))
  }

  function TraverseItems(items: seq<Json>, index: nat, callback: (Json, string) -> Probe): Search
    decreases items, 0
  {
    if items == [] then NotFound
    else VisitEntry(Text.NatToDecimal(index), items[0], callback, TraverseItems(items[1..], index + 1, callback))
  }

  /** One turn of the entry loop: ask the callback, then search inside the
      value, then go on with the remaining entries (`later`). */
  function VisitEntry(key: string, value: Json, callback: (Json, string) -> Probe, later: Search): Search
    decreases value, 2
  {
    var answer := callback(value, key);
    if answer.Fault? then Threw
    else if answer.Hit? && Truthy(answer.value) then Found(answer.value)
    else
      var sub := TraverseJson(value, callback);
      if sub.NotFound? then later else sub
  }

  /** Reference definition: the entries below the root, each listed before the
      entries inside its value (pre-order). The root itself is not an entry. */
  function PreOrder(j: Json): seq<Field>
    decreases j, 1
  {
    match j
    case JArr(items) => PreOrderItems(items, 0)
    case JObj(fields) => PreOrderFields(fields)
    case _ => []
  }

  function PreOrderFields(fields: seq<Field>): seq<Field>
    decreases fields, 0
  {
    if fields == [] then []
    else [fields[0]] + PreOrder(fields[0].value) + PreOrderFields(fields[1..])
  }

  function PreOrderItems(items: seq<Json>, index: nat): seq<Field>
    decreases items, 0
  {
    if items == [] then []
    else [Field(Text.NatToDecimal(index), items[0])] + PreOrder(items[0]) + PreOrderItems(items[1..], index + 1)
  }

  /** Reference definition: ask the callback about each entry in turn and stop
      at the first truthy answer or exception. */
  function FirstHit(entries: seq<Field>, callback: (Json, string) -> Probe): Search {
    if entries == [] then NotFound
    else
      var answer := callback(entries[0].value, entries[0].key);
      if answer.Fault? then Threw
      else if answer.Hit? && Truthy(answer.value) then Found(answer.value)
      else FirstHit(entries[1..], callback)
  }

  lemma {:induction false} FirstHitAppend(a: seq<Field>, b: seq<Field>, callback: (Json, string) -> Probe)
    ensures FirstHit(a + b, callback) == if FirstHit(a, callback).NotFound? then FirstHit(b, callback) else FirstHit(a, callback)
  {
    if a != [] {
      assert (a + b)[0] == a[0];
      assert (a + b)[1..] == a[1..] + b;
      FirstHitAppend(a[1..], b, callback);
    } else {
      assert a + b == b;
    }
  }

  /** Only arrays and objects have entries, and every falsy value is a primitive. */
  lemma PreOrderOfFalsy(j: Json)
    requires !Truthy(j)
    ensures PreOrder(j) == []
  {
  }

  /** `traverseJSON` is the first-match search over the pre-order entry list:
      it never consults the callback on the root, visits entries in order,
      and returns the first truthy callback result. */
  lemma {:induction false} TraverseIsPreOrderSearch(j: Json, callback: (Json, string) -> Probe)
    ensures TraverseJson(j, callback) == FirstHit(PreOrder(j), callback)
    decreases j, 1
  {
    if !Truthy(j) {
      PreOrderOfFalsy(j);
    } else {
      match j
      case JArr(items) => ItemsArePreOrderSearch(items, 0, callback);
      case JObj(fields) => FieldsArePreOrderSearch(fields, callback);
      case _ =>
    }
  }

  lemma {:induction false} FieldsArePreOrderSearch(fields: seq<Field>, callback: (Json, string) -> Probe)
    ensures TraverseFields(fields, callback) == FirstHit(PreOrderFields(fields), callback)
    decreases fields, 0
  {
    if fields != [] {
      FieldsArePreOrderSearch(fields[1..], callback);
      VisitIsPreOrderSearch(fields[0].key, fields[0].value, callback, PreOrderFields(fields[1..]));
    }
  }

  lemma {:induction false} ItemsArePreOrderSearch(items: seq<Json>, index: nat, callback: (Json, string) -> Probe)
    ensures TraverseItems(items, index, callback) == FirstHit(PreOrderItems(items, index), callback)
    decreases items, 0
  {
    if items != [] {
      ItemsArePreOrderSearch(items[1..], index + 1, callback);
      VisitIsPreOrderSearch(Text.NatToDecimal(index), items[0], callback, PreOrderItems(items[1..], index + 1));
    }
  }

  lemma {:induction false} VisitIsPreOrderSearch(key: string, value: Json, callback: (Json, string) -> Probe, rest: seq<Field>)
    ensures VisitEntry(key, value, callback, FirstHit(rest, callback))
         == FirstHit([Field(key, value)] + PreOrder(value) + rest, callback)
    decreases value, 2
  {
    var all := [Field(key, value)] + PreOrder(value) + rest;
    assert all[0] == Field(key, value);
    assert all[1..] == PreOrder(value) + rest;
    TraverseIsPreOrderSearch(value, callback);
    FirstHitAppend(PreOrder(value), rest, callback);
  }

  /** A result the search returns is truthy and is the callback's answer for
      some entry below the root. */
  lemma {:induction false} FoundIsTruthyAnswer(entries: seq<Field>, callback: (Json, string) -> Probe)
    ensures FirstHit(entries, callback).Found? ==>
      Truthy(FirstHit(entries, callback).value)
      && exists i :: 0 <= i < |entries| && callback(entries[i].value, entries[i].key) == Hit(FirstHit(entries, callback).value)
  {
    if entries != [] {
      FoundIsTruthyAnswer(entries[1..], callback);
      if FirstHit(entries, callback).Found? && FirstHit(entries[1..], callback) == FirstHit(entries, callback) {
        var i :| 0 <= i < |entries[1..]| && callback(entries[1..][i].value, entries[1..][i].key) == Hit(FirstHit(entries, callback).value);
        assert entries[i + 1] == entries[1..][i];
      }
    }
  }
}
