/** The reference reading of a stream of documents: every tree location a walker visits, in
    pre-order, as one event log. */
module SchemaEvents {
  import opened Collections
  import opened BsonValues

  type Bytes = seq<bv8>

  // A JSON value, as its text.
  datatype Json = Json(text: string)

  /** The limits of a walker, and the two conversions the model leaves uninterpreted: BSON to
      JSON, and JSON to its serialised UTF-8 bytes. Neither is assumed injective. */
  datatype Config = Config(
    maxDepth: nat,
    maxPaths: nat,
    maxArrayElements: nat,
    distinctCap: nat,
    sampleSlots: nat,
    maxDistinctBytes: nat,
    toJson: Bson -> Json,
    serialize: Json -> Bytes)

  /** The limits compiled into the agent. */
  function DefaultConfig(toJson: Bson -> Json, serialize: Json -> Bytes): Config {
    Config(16, 5_000, 100, 1_000, 5, 256 * 1024 * 1024, toJson, serialize)
  }

  /** Document number `doc` (counted from 1) holds `value` at location `at`. */
  datatype Event = Event(doc: nat, at: Location, value: Bson)

  ghost function Path(e: Event): string {
    Render(e.at)
  }

  ghost predicate Deep(cfg: Config, e: Event) {
    |e.at| > cfg.maxDepth
  }

  ghost function EventLabel(cfg: Config, e: Event): string {
    if Deep(cfg, e) then TRUNCATED else TypeLabel(e.value)
  }

  ghost function Events(cfg: Config, doc: nat, at: Location, value: Bson): seq<Event>
    decreases value, 2
  {
    [Event(doc, at, value)] + Children(cfg, doc, at, value)
  }

  ghost function Children(cfg: Config, doc: nat, at: Location, value: Bson): seq<Event>
    decreases value, 1
  {
    if |at| > cfg.maxDepth then []
    else match value
      case Document(fields) => FieldEvents(cfg, doc, at, fields, |fields|)
      case Array(items) => ItemEvents(cfg, doc, at, items, Min(cfg.maxArrayElements, |items|))
      case _ => []
  }

  /** The events of the first `n` fields. */
  ghost function FieldEvents(cfg: Config, doc: nat, at: Location, fields: seq<Field>, n: nat): seq<Event>
    requires n <= |fields|
    decreases fields, 0, n
  {
    if n == 0 then []
    else
      FieldEvents(cfg, doc, at, fields, n - 1)
      + Events(cfg, doc, at + [Key(fields[n - 1].key)], fields[n - 1].value)
  }

  /** The events of the first `n` array elements. */
  ghost function ItemEvents(cfg: Config, doc: nat, at: Location, items: seq<Bson>, n: nat): seq<Event>
    requires n <= |items|
    decreases items, 0, n
  {
    if n == 0 then []
    else
      ItemEvents(cfg, doc, at, items, n - 1)
      + Events(cfg, doc, at + [Element], items[n - 1])
  }

  ghost function DocEvents(cfg: Config, doc: nat, fields: seq<Field>): seq<Event> {
    FieldEvents(cfg, doc, [], fields, |fields|)
  }

  /** The log of a whole sample; documents are numbered from 1. */
  ghost function LogOf(cfg: Config, docs: seq<seq<Field>>): seq<Event> {
    if docs == [] then []
    else LogOf(cfg, Front(docs)) + DocEvents(cfg, |docs|, Last(docs))
  }

  // ---------- The tree structure of a log ----------

  /** All events lie strictly below `base`, belong to document `doc`, go at most one level past
      the depth limit, and each is a child of `base` or of an earlier event. */
  ghost predicate Nested(cfg: Config, doc: nat, base: Location, evs: seq<Event>) {
    forall i :: 0 <= i < |evs| ==>
      && evs[i].doc == doc
      && base < evs[i].at
      && (|evs[i].at| <= cfg.maxDepth + 1 || |evs[i].at| == |base| + 1)
      && (Front(evs[i].at) == base || exists j :: 0 <= j < i && evs[j].at == Front(evs[i].at))
  }

  lemma NestedAppend(cfg: Config, doc: nat, base: Location, a: seq<Event>, b: seq<Event>)
    requires Nested(cfg, doc, base, a) && Nested(cfg, doc, base, b)
    ensures Nested(cfg, doc, base, a + b)
  {
    hide Front;
    var c := a + b;
    forall i | 0 <= i < |c|
      ensures Front(c[i].at) == base || exists j :: 0 <= j < i && c[j].at == Front(c[i].at)
    {
      if i < |a| {
        if Front(a[i].at) != base {
          var j :| 0 <= j < i && a[j].at == Front(a[i].at);
          assert c[j] == a[j];
        }
      } else if Front(b[i - |a|].at) != base {
        var j :| 0 <= j < i - |a| && b[j].at == Front(b[i - |a|].at);
        assert c[j + |a|] == b[j];
      }
    }
  }

  /** A node together with what is nested below it is nested below its parent. */
  lemma NestedPrepend(cfg: Config, e: Event, base: Location, kids: seq<Event>)
    requires |e.at| == |base| + 1 && base < e.at && Front(e.at) == base
    requires Nested(cfg, e.doc, e.at, kids)
    requires kids != [] ==> |e.at| <= cfg.maxDepth
    ensures Nested(cfg, e.doc, base, [e] + kids)
  {
    hide Front;
    var evs := [e] + kids;
    forall i | 1 <= i < |evs|
      ensures evs[i].doc == e.doc && base < evs[i].at && |evs[i].at| <= cfg.maxDepth + 1
      ensures exists j :: 0 <= j < i && evs[j].at == Front(evs[i].at)
    {
      var k := kids[i - 1];
      assert evs[i] == k;
      if Front(k.at) == e.at {
        assert evs[0].at == Front(k.at);
      } else {
        var j :| 0 <= j < i - 1 && kids[j].at == Front(k.at);
        assert evs[j + 1] == kids[j];
      }
    }
  }

  lemma {:induction false} EventsNested(cfg: Config, doc: nat, base: Location, s: Segment, value: Bson)
    ensures Nested(cfg, doc, base, Events(cfg, doc, base + [s], value))
    decreases value, 2
  {
    hide Nested;
    var at := base + [s];
    assert Front(at) == base;
    ChildrenNested(cfg, doc, at, value);
    NestedPrepend(cfg, Event(doc, at, value), base, Children(cfg, doc, at, value));
  }

  lemma {:induction false} ChildrenNested(cfg: Config, doc: nat, at: Location, value: Bson)
    ensures Nested(cfg, doc, at, Children(cfg, doc, at, value))
    ensures Children(cfg, doc, at, value) != [] ==> |at| <= cfg.maxDepth
    decreases value, 1
  {
    if |at| <= cfg.maxDepth {
      match value
      case Document(fields) => FieldsNested(cfg, doc, at, fields, |fields|);
      case Array(items) => ItemsNested(cfg, doc, at, items, Min(cfg.maxArrayElements, |items|));
      case _ =>
    }
  }

  lemma {:induction false} FieldsNested(cfg: Config, doc: nat, at: Location, fields: seq<Field>, n: nat)
    requires n <= |fields|
    ensures Nested(cfg, doc, at, FieldEvents(cfg, doc, at, fields, n))
    decreases fields, 0, n
  {
    if n > 0 {
      FieldsNested(cfg, doc, at, fields, n - 1);
      EventsNested(cfg, doc, at, Key(fields[n - 1].key), fields[n - 1].value);
      NestedAppend(cfg, doc, at, FieldEvents(cfg, doc, at, fields, n - 1),
                   Events(cfg, doc, at + [Key(fields[n - 1].key)], fields[n - 1].value));
    }
  }

  lemma {:induction false} ItemsNested(cfg: Config, doc: nat, at: Location, items: seq<Bson>, n: nat)
    requires n <= |items|
    ensures Nested(cfg, doc, at, ItemEvents(cfg, doc, at, items, n))
    decreases items, 0, n
  {
    if n > 0 {
      ItemsNested(cfg, doc, at, items, n - 1);
      EventsNested(cfg, doc, at, Element, items[n - 1]);
      NestedAppend(cfg, doc, at, ItemEvents(cfg, doc, at, items, n - 1),
                   Events(cfg, doc, at + [Element], items[n - 1]));
    }
  }

  // ---------- One visit per location outside arrays ----------

  /** Two events at one location only happen below an array. */
  ghost predicate OncePerLocation(evs: seq<Event>) {
    forall i, j :: 0 <= i < j < |evs| && evs[i].at == evs[j].at ==> InArray(evs[i].at)
  }

  ghost predicate Under(base: Location, evs: seq<Event>) {
    forall i :: 0 <= i < |evs| ==> base <= evs[i].at
  }

  lemma EventsUnder(cfg: Config, doc: nat, at: Location, value: Bson)
    ensures Under(at, Events(cfg, doc, at, value))
  {
    ChildrenNested(cfg, doc, at, value);
  }

  lemma {:induction false} EventsOnce(cfg: Config, doc: nat, at: Location, value: Bson)
    requires WellKeyed(value)
    ensures OncePerLocation(Events(cfg, doc, at, value))
    decreases value, 2
  {
    hide Children, Nested, OncePerLocation;
    ChildrenNested(cfg, doc, at, value);
    ChildrenOnce(cfg, doc, at, value);
    OncePrepend(cfg, Event(doc, at, value), Children(cfg, doc, at, value));
  }

  lemma OncePrepend(cfg: Config, e: Event, kids: seq<Event>)
    requires Nested(cfg, e.doc, e.at, kids) && OncePerLocation(kids)
    ensures OncePerLocation([e] + kids)
  {
    assert forall i :: 0 <= i < |kids| ==> kids[i].at != e.at;
  }

  lemma {:induction false} ChildrenOnce(cfg: Config, doc: nat, at: Location, value: Bson)
    requires WellKeyed(value)
    ensures OncePerLocation(Children(cfg, doc, at, value))
    decreases value, 1
  {
    if |at| <= cfg.maxDepth {
      match value
      case Document(fields) => FieldsOnce(cfg, doc, at, fields, |fields|);
      case Array(items) =>
        var n := Min(cfg.maxArrayElements, |items|);
        ItemsInArray(cfg, doc, at, items, n);
        assert Children(cfg, doc, at, value) == ItemEvents(cfg, doc, at, items, n);
      case _ =>
    }
  }

  /** Every event lies below one of the first `n` fields. */
  ghost predicate BelowFields(at: Location, fields: seq<Field>, n: nat, evs: seq<Event>)
    requires n <= |fields|
  {
    forall e :: e in evs ==>
      |e.at| > |at| && exists k :: 0 <= k < n && e.at[|at|] == Key(fields[k].key)
  }

  lemma {:induction false} FieldsOnce(cfg: Config, doc: nat, at: Location, fields: seq<Field>, n: nat)
    requires n <= |fields| && UniqueKeys(fields)
    ensures OncePerLocation(FieldEvents(cfg, doc, at, fields, n))
    ensures BelowFields(at, fields, n, FieldEvents(cfg, doc, at, fields, n))
    decreases fields, 0, n
  {
    if n > 0 {
      var child := at + [Key(fields[n - 1].key)];
      var a, b := FieldEvents(cfg, doc, at, fields, n - 1),
                  Events(cfg, doc, child, fields[n - 1].value);
      FieldsOnce(cfg, doc, at, fields, n - 1);
      EventsOnce(cfg, doc, child, fields[n - 1].value);
      EventsUnder(cfg, doc, child, fields[n - 1].value);
      forall i | 0 <= i < |b| ensures |b[i].at| > |at| && b[i].at[|at|] == child[|at|] {
        assert child <= b[i].at;
      }
      forall x, y | x in a && y in b ensures x.at != y.at {
        assert x.at[|at|] != child[|at|];
      }
    }
  }

  lemma {:induction false} ItemsInArray(cfg: Config, doc: nat, at: Location, items: seq<Bson>, n: nat)
    requires n <= |items|
    ensures forall e :: e in ItemEvents(cfg, doc, at, items, n) ==> InArray(e.at)
    decreases n
  {
    if n > 0 {
      ItemsInArray(cfg, doc, at, items, n - 1);
      var child := at + [Element];
      var b := Events(cfg, doc, child, items[n - 1]);
      EventsUnder(cfg, doc, child, items[n - 1]);
      forall e | e in b ensures InArray(e.at) {
        var i :| 0 <= i < |b| && b[i] == e;
        assert child <= b[i].at && child[|at|] == Element == e.at[|at|];
      }
    }
  }
}
