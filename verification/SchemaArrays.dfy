/** Array lengths: what is emitted, the longest array at a column's own path, against what is
    documented, the longest array among the `[]` ancestors of the path. */
module SchemaArrays {
  import opened Collections
  import opened BsonValues
  import opened SchemaEvents
  import opened SchemaStats
  import opened SchemaColumns
  import opened SchemaPresence
  import opened SchemaTree
  import opened Reservoir

  // ---------- Elements are visited below arrays ----------

  /** `above` is the location of an array that `at` lies in. */
  ghost predicate IsArrayAbove(above: Location, at: Location) {
    above < at && at[|above|] == Element
  }

  ghost predicate ArrayEventAt(evs: seq<Event>, at: Location) {
    exists e :: e in evs && e.at == at && e.value.Array?
  }

  /** For each step to an element, at depth `n` or below, the array it leads out of was visited. */
  ghost predicate ArraysVisited(n: nat, evs: seq<Event>) {
    forall e, k :: e in evs && n <= k < |e.at| && e.at[k] == Element ==> ArrayEventAt(evs, e.at[..k])
  }

  lemma ArraysConcat(n: nat, a: seq<Event>, b: seq<Event>)
    requires ArraysVisited(n, a) && ArraysVisited(n, b)
    ensures ArraysVisited(n, a + b)
  {
    forall e, k | e in a + b && n <= k < |e.at| && e.at[k] == Element ensures ArrayEventAt(a + b, e.at[..k]) {
      if e in a {
        var x :| x in a && x.at == e.at[..k] && x.value.Array?;
        assert x in a + b;
      } else {
        var x :| x in b && x.at == e.at[..k] && x.value.Array?;
        assert x in a + b;
      }
    }
  }

  lemma ArraysPrepend(e: Event, kids: seq<Event>)
    requires ArraysVisited(|e.at| + 1, kids)
    requires forall x :: x in kids ==> e.at < x.at && (x.at[|e.at|] == Element ==> e.value.Array?)
    ensures ArraysVisited(|e.at|, [e] + kids)
  {
    var evs := [e] + kids;
    forall x, k | x in evs && |e.at| <= k < |x.at| && x.at[k] == Element ensures ArrayEventAt(evs, x.at[..k]) {
      assert x in kids;
      if k == |e.at| {
        assert x.at[..k] == e.at && e in evs;
      } else {
        var y :| y in kids && y.at == x.at[..k] && y.value.Array?;
        assert y in evs;
      }
    }
  }

  lemma {:induction false} EventsArrays(cfg: Config, doc: nat, at: Location, value: Bson)
    ensures ArraysVisited(|at|, Events(cfg, doc, at, value))
    decreases value, 2
  {
    hide ArraysVisited;
    var e, kids := Event(doc, at, value), Children(cfg, doc, at, value);
    ChildrenArrays(cfg, doc, at, value);
    ArraysPrepend(e, kids);
  }

  lemma {:induction false} ChildrenArrays(cfg: Config, doc: nat, at: Location, value: Bson)
    ensures ArraysVisited(|at| + 1, Children(cfg, doc, at, value))
    ensures forall x :: x in Children(cfg, doc, at, value) ==>
              at < x.at && (x.at[|at|] == Element ==> value.Array?)
    decreases value, 1
  {
    if |at| <= cfg.maxDepth {
      match value
      case Document(fields) => FieldsArrays(cfg, doc, at, fields, |fields|);
      case Array(items) =>
        ItemsArrays(cfg, doc, at, items, Min(cfg.maxArrayElements, |items|));
        ChildrenNested(cfg, doc, at, value);
      case _ =>
    }
  }

  lemma StepBelow(cfg: Config, doc: nat, at: Location, s: Segment, value: Bson)
    ensures forall x :: x in Events(cfg, doc, at + [s], value) ==> at < x.at && x.at[|at|] == s
  {
    EventsUnder(cfg, doc, at + [s], value);
    forall x | x in Events(cfg, doc, at + [s], value) ensures at < x.at && x.at[|at|] == s {
      assert at + [s] <= x.at && (at + [s])[|at|] == s;
    }
  }

  lemma {:induction false} FieldsArrays(cfg: Config, doc: nat, at: Location, fields: seq<Field>, n: nat)
    requires n <= |fields|
    ensures ArraysVisited(|at| + 1, FieldEvents(cfg, doc, at, fields, n))
    ensures forall x :: x in FieldEvents(cfg, doc, at, fields, n) ==> at < x.at && x.at[|at|].Key?
    decreases fields, 0, n
  {
    if n > 0 {
      hide ArraysVisited, Events;
      var s, value := Key(fields[n - 1].key), fields[n - 1].value;
      FieldsArrays(cfg, doc, at, fields, n - 1);
      EventsArrays(cfg, doc, at + [s], value);
      StepBelow(cfg, doc, at, s, value);
      ArraysConcat(|at| + 1, FieldEvents(cfg, doc, at, fields, n - 1), Events(cfg, doc, at + [s], value));
    } else {
      assert FieldEvents(cfg, doc, at, fields, 0) == [];
    }
  }

  lemma {:induction false} ItemsArrays(cfg: Config, doc: nat, at: Location, items: seq<Bson>, n: nat)
    requires n <= |items|
    ensures ArraysVisited(|at| + 1, ItemEvents(cfg, doc, at, items, n))
    decreases items, 0, n
  {
    if n > 0 {
      hide ArraysVisited, Events;
      ItemsArrays(cfg, doc, at, items, n - 1);
      EventsArrays(cfg, doc, at + [Element], items[n - 1]);
      ArraysConcat(|at| + 1, ItemEvents(cfg, doc, at, items, n - 1), Events(cfg, doc, at + [Element], items[n - 1]));
    }
  }

  lemma {:induction false} LogArrays(cfg: Config, docs: seq<seq<Field>>)
    ensures ArraysVisited(1, LogOf(cfg, docs))
  {
    if docs != [] {
      hide ArraysVisited, FieldEvents;
      LogArrays(cfg, Front(docs));
      FieldsArrays(cfg, |docs|, [], Last(docs), |Last(docs)|);
      ArraysConcat(1, LogOf(cfg, Front(docs)), DocEvents(cfg, |docs|, Last(docs)));
    }
  }

  // ---------- The documented value ----------

  ghost function LengthsAbove(log: seq<Event>, at: Location): set<nat> {
    set e | e in log && e.value.Array? && IsArrayAbove(e.at, at) :: |e.value.items|
  }

  /** The maximum array length observed at any `[]` ancestor of a location. */
  ghost function DocumentedLength(log: seq<Event>, at: Location): Option<nat> {
    if LengthsAbove(log, at) == {} then None else Some(MaxOf(LengthsAbove(log, at)))
  }

  /** A visited location inside an array has the array among its ancestors. */
  lemma AboveObserved(cfg: Config, docs: seq<seq<Field>>, at: Location)
    requires Rooted(at) && exists e :: e in LogOf(cfg, docs) && e.at == at
    ensures LengthsAbove(LogOf(cfg, docs), at) != {} <==> InArray(at)
  {
    hide LogOf;
    var log := LogOf(cfg, docs);
    LogArrays(cfg, docs);
    if InArray(at) {
      var k :| 0 <= k < |at| && at[k] == Element;
      var e :| e in log && e.at == at;
      assert ArrayEventAt(log, at[..k]);
      var a :| a in log && a.at == at[..k] && a.value.Array?;
      assert IsArrayAbove(a.at, at);
      assert |a.value.items| in LengthsAbove(log, at);
    }
    if LengthsAbove(log, at) != {} {
      var n :| n in LengthsAbove(log, at);
      var a :| a in log && a.value.Array? && IsArrayAbove(a.at, at) && |a.value.items| == n;
      assert at[|a.at|] in at;
    }
  }

  /** The lengths, before clipping, of the arrays at a location above the depth limit. */
  ghost function LengthsHere(cfg: Config, log: seq<Event>, at: Location): set<nat> {
    set e | e in log && e.at == at && e.value.Array? && !Deep(cfg, e) :: |e.value.items|
  }

  lemma LengthsAtPath(cfg: Config, docs: seq<seq<Field>>, at: Location)
    requires PlainDocs(docs) && PlainLocation(at)
    ensures LengthsOf(cfg, At(LogOf(cfg, docs), Render(at))) == LengthsHere(cfg, LogOf(cfg, docs), at)
  {
    hide LogOf, At, Render, PlainLocation, Deep;
    var log := LogOf(cfg, docs);
    AtMembers(log, Render(at));
    PathMeansLocation(cfg, docs, at);
    assert forall e :: e in At(log, Render(at)) <==> e in log && e.at == at;
  }

  ghost predicate Dominated(a: set<nat>, b: set<nat>) {
    forall x :: x in a ==> exists y :: y in b && x <= y
  }

  lemma SameMaximum(a: set<nat>, b: set<nat>)
    requires a != {} && b != {}
    ensures MaxOf(a) == MaxOf(b) <==> Dominated(a, b) && Dominated(b, a)
  {
    if MaxOf(a) == MaxOf(b) {
      assert MaxOf(a) in a && MaxOf(b) in b;
    }
    if Dominated(a, b) && Dominated(b, a) {
      var y :| y in b && MaxOf(a) <= y;
      var x :| x in a && MaxOf(b) <= x;
    }
  }

  /** When the emitted array length is the documented one. The documented one exists exactly
      inside arrays, the emitted one exactly where an array was seen. So outside arrays they
      agree unless an array was seen at the path, and inside arrays they agree only if one was,
      and the longest there is as long as the longest above. */
  lemma DocumentedLengthExact(cfg: Config, docs: seq<seq<Field>>, at: Location)
    requires PlainDocs(docs) && PlainLocation(at)
    requires Render(at) in Tracked(cfg, LogOf(cfg, docs))
    ensures var log, emitted := LogOf(cfg, docs), ColumnOf(cfg, docs, Render(at)).arrayMaxLen;
            var here, above := LengthsHere(cfg, log, at), LengthsAbove(log, at);
            && (DocumentedLength(log, at).Some? <==> InArray(at))
            && (emitted.Some? <==> here != {})
            && (emitted == DocumentedLength(log, at) <==>
                  if InArray(at) then here != {} && Dominated(here, above) && Dominated(above, here)
                  else here == {})
  {
    hide LogOf, Render, InArray, LengthsHere, LengthsAbove, Dominated, PlainDocs, Tracked, LabelsOf, Sampled,
         LeavesOf, LiveKeys, DocsOf, NullsOf, AnyInArray, Tripped, DataType, Overfull;
    var log := LogOf(cfg, docs);
    TrackedObserved(cfg, docs, at);
    AboveObserved(cfg, docs, at);
    LengthsAtPath(cfg, docs, at);
    var here, above := LengthsHere(cfg, log, at), LengthsAbove(log, at);
    if here != {} && above != {} {
      SameMaximum(here, above);
    }
  }

  lemma TrackedObserved(cfg: Config, docs: seq<seq<Field>>, at: Location)
    requires PlainDocs(docs) && PlainLocation(at)
    requires Render(at) in Tracked(cfg, LogOf(cfg, docs))
    ensures exists e :: e in LogOf(cfg, docs) && e.at == at
  {
    hide LogOf, Render, PlainLocation, At, Tracked;
    var log := LogOf(cfg, docs);
    TrackedOccurs(cfg, log, Render(at));
    AtMembers(log, Render(at));
    PathMeansLocation(cfg, docs, at);
    var e := At(log, Render(at))[0];
    assert e in At(log, Render(at));
  }

  /** Where the documented value is to be found: for the elements of an array that is not itself
      inside another one, on the column of the array. */
  lemma LengthOnParent(cfg: Config, docs: seq<seq<Field>>, at: Location)
    requires PlainDocs(docs) && PlainLocation(at) && !InArray(at)
    requires Render(at + [Element]) in Tracked(cfg, LogOf(cfg, docs))
    ensures Render(at) in Tracked(cfg, LogOf(cfg, docs))
    ensures var log := LogOf(cfg, docs);
            DocumentedLength(log, at + [Element]) == ColumnOf(cfg, docs, Render(at)).arrayMaxLen
  {
    hide LogOf, Render, LengthsHere, LengthsAbove, PlainDocs, Tracked, LabelsOf, Sampled,
         LeavesOf, LiveKeys, DocsOf, NullsOf, AnyInArray, Tripped, DataType, Overfull;
    var child := at + [Element];
    assert Front(child) == at && PlainLocation(child);
    ParentTrackedFirst(cfg, docs, child);
    ColumnMatchesLocation(cfg, docs, child);
    LengthsAtPath(cfg, docs, at);
    OnlyParentAbove(cfg, LogOf(cfg, docs), at);
  }

  lemma OnlyParentAbove(cfg: Config, log: seq<Event>, at: Location)
    requires !InArray(at) && |at| <= cfg.maxDepth
    ensures LengthsAbove(log, at + [Element]) == LengthsHere(cfg, log, at)
  {
    var child := at + [Element];
    assert forall k :: 0 <= k < |at| ==> child[k] == at[k] != Element;
    forall above: Location ensures IsArrayAbove(above, child) <==> above == at {
    }
  }

  // ---------- A sample on which they differ ----------

  /** A document with one array of one element. */
  function OneElement(x: Bson): seq<Field> {
    [Field("a", Array([x]))]
  }

  lemma OneElementLog(cfg: Config, x: Bson)
    requires cfg.maxDepth >= 1 && cfg.maxArrayElements >= 1 && x.IsLeaf()
    ensures LogOf(cfg, [OneElement(x)]) == [Event(1, [Key("a")], Array([x])), Event(1, [Key("a"), Element], x)]
  {
    var items := [x];
    var at, child: Location := [Key("a")], [Key("a"), Element];
    assert [] + [Key("a")] == at && at + [Element] == child;
    assert Events(cfg, 1, child, x) == [Event(1, child, x)];
    assert ItemEvents(cfg, 1, at, items, 1) == [] + Events(cfg, 1, child, x);
    assert Events(cfg, 1, at, Array(items)) == [Event(1, at, Array(items))] + [Event(1, child, x)];
    assert FieldEvents(cfg, 1, [], OneElement(x), 0) == [];
    assert FieldEvents(cfg, 1, [], OneElement(x), 1) == [] + Events(cfg, 1, at, Array(items));
    assert Front([OneElement(x)]) == [];
  }

  lemma OneElementTracked(cfg: Config, log: seq<Event>)
    requires cfg.maxPaths >= 2 && |log| == 2 && Path(log[0]) == "a" && Path(log[1]) == "a[]"
    ensures "a" in Tracked(cfg, log) && "a[]" in Tracked(cfg, log)
  {
    hide Path, Firsts;
    var ps := Paths(log);
    KeepProperties(ps, cfg.maxPaths);
    assert ps == ["a", "a[]"];
    assert ToSet(ps) == {"a", "a[]"} && |{"a", "a[]"}| == 2;
    assert ps[0] in ToSet(Keep(ps, cfg.maxPaths)) && ps[1] in ToSet(Keep(ps, cfg.maxPaths));
  }

  /** For `{"a": [x]}` the length is on the column of the array and missing on that of the element,
      whose documented value it is. */
  lemma LengthNotOnElement(cfg: Config, x: Bson)
    requires cfg.maxDepth >= 1 && cfg.maxPaths >= 2 && cfg.maxArrayElements >= 1 && x.IsLeaf()
    ensures var docs := [OneElement(x)];
            && "a" in Tracked(cfg, LogOf(cfg, docs)) && "a[]" in Tracked(cfg, LogOf(cfg, docs))
            && ColumnOf(cfg, docs, "a").arrayMaxLen == Some(1)
            && ColumnOf(cfg, docs, "a[]").arrayMaxLen == None
            && DocumentedLength(LogOf(cfg, docs), [Key("a"), Element]) == Some(1)
  {
    hide LogOf, Tracked, LabelsOf, Sampled, LeavesOf, LiveKeys, DocsOf, NullsOf, AnyInArray, Tripped, DataType,
         Overfull, At, Render;
    var docs, at, child: Location := [OneElement(x)], [Key("a")], [Key("a"), Element];
    var log := LogOf(cfg, docs);
    OneElementLog(cfg, x);
    PairPaths();
    OneElementTracked(cfg, log);
    PlainSample(x);
    LengthsAtPath(cfg, docs, at);
    LengthsAtPath(cfg, docs, child);
    assert LengthsHere(cfg, log, at) == {1} by {
      assert log[0] in log;
    }
    assert LengthsHere(cfg, log, child) == {};
    assert at + [Element] == child;
    LengthOnParent(cfg, docs, at);
  }

  lemma PlainSample(x: Bson)
    requires x.IsLeaf()
    ensures PlainDocs([OneElement(x)])
    ensures PlainLocation([Key("a")]) && PlainLocation([Key("a"), Element]) && !InArray([Key("a")])
  {
    assert PlainValue(x) && PlainValue(Array([x]));
    assert PlainDoc(OneElement(x));
  }
}
