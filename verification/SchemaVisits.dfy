/** Which parts of a document are visited, and in which order, said about the document itself: a
    part is reached by a list of steps into fields and array elements. */
module SchemaVisits {
  import opened Collections
  import opened BsonValues
  import opened SchemaEvents
  import opened SchemaPresence

  /** Into the i-th field of a document, or into the i-th element of an array. */
  datatype Step = FieldAt(i: nat) | ItemAt(i: nat)

  /** The part of a value that a list of steps leads to; None if there is no such part. */
  function ValueFrom(value: Bson, steps: seq<Step>): Option<Bson>
    decreases |steps|
  {
    if steps == [] then Some(value)
    else match (value, steps[0])
      case (Document(fields), FieldAt(i)) => if i < |fields| then ValueFrom(fields[i].value, steps[1..]) else None
      case (Array(items), ItemAt(i)) => if i < |items| then ValueFrom(items[i], steps[1..]) else None
      case _ => None
  }

  /** The location that a list of steps stands for: names of fields, and "some element". */
  function LocationFrom(value: Bson, steps: seq<Step>): Location
    requires ValueFrom(value, steps).Some?
    decreases |steps|
  {
    if steps == [] then []
    else match steps[0]
      case FieldAt(i) => [Key(value.fields[i].key)] + LocationFrom(value.fields[i].value, steps[1..])
      case ItemAt(i) => [Element] + LocationFrom(value.items[i], steps[1..])
  }

  function ValueAt(doc: seq<Field>, steps: seq<Step>): Option<Bson> {
    ValueFrom(Document(doc), steps)
  }

  function LocationOf(doc: seq<Field>, steps: seq<Step>): Location
    requires ValueAt(doc, steps).Some?
  {
    LocationFrom(Document(doc), steps)
  }

  /** Only the first array elements, up to the clip, are stepped into. */
  ghost predicate Unclipped(cfg: Config, steps: seq<Step>) {
    forall k :: 0 <= k < |steps| && steps[k].ItemAt? ==> steps[k].i < cfg.maxArrayElements
  }

  /** The parts of a document that are visited: those at most one step past the depth limit and
      reached through unclipped elements. */
  ghost predicate Visited(cfg: Config, doc: seq<Field>, steps: seq<Step>) {
    1 <= |steps| <= cfg.maxDepth + 1 && Unclipped(cfg, steps) && ValueAt(doc, steps).Some?
  }

  /** Lexicographic order, a part before the parts below it: pre-order. */
  ghost predicate Precedes(a: seq<Step>, b: seq<Step>)
    decreases |a|
  {
    b != [] && (a == [] || a[0].i < b[0].i || (a[0] == b[0] && Precedes(a[1..], b[1..])))
  }

  // ---------- One value ----------

  /** The parts visited at or below a value at depth `depth`. */
  ghost predicate VisitedFrom(cfg: Config, depth: nat, value: Bson, steps: seq<Step>) {
    && (steps == [] || depth + |steps| <= cfg.maxDepth + 1)
    && Unclipped(cfg, steps)
    && ValueFrom(value, steps).Some?
  }

  ghost predicate Increasing(visits: seq<seq<Step>>) {
    forall i, j :: 0 <= i < j < |visits| ==> Precedes(visits[i], visits[j])
  }

  /** Each event stands for one visited part, in order. */
  ghost predicate StandsFor(cfg: Config, d: nat, at: Location, value: Bson, evs: seq<Event>, visits: seq<seq<Step>>) {
    && |visits| == |evs|
    && (forall i :: 0 <= i < |visits| ==>
          && VisitedFrom(cfg, |at|, value, visits[i])
          && evs[i] == Event(d, at + LocationFrom(value, visits[i]), ValueFrom(value, visits[i]).value))
    && Increasing(visits)
  }

  /** The events are those of the parts reached through one of the first `n` steps. */
  ghost predicate Below(cfg: Config, d: nat, at: Location, value: Bson, n: nat, evs: seq<Event>,
                        visits: seq<seq<Step>>)
  {
    && StandsFor(cfg, d, at, value, evs, visits)
    && (forall i :: 0 <= i < |visits| ==> visits[i] != [] && visits[i][0].i < n)
    && (forall s: seq<Step> :: VisitedFrom(cfg, |at|, value, s) && s != [] && s[0].i < n ==> s in visits)
  }

  ghost predicate AtOrBelow(cfg: Config, d: nat, at: Location, value: Bson, evs: seq<Event>,
                            visits: seq<seq<Step>>)
  {
    && StandsFor(cfg, d, at, value, evs, visits)
    && (forall s :: VisitedFrom(cfg, |at|, value, s) ==> s in visits)
  }

  ghost function Prefixed(step: Step, visits: seq<seq<Step>>): seq<seq<Step>> {
    seq(|visits|, i requires 0 <= i < |visits| => [step] + visits[i])
  }

  /** `step` leads from `value` to `child`, named by `s`. */
  ghost predicate Leads(value: Bson, step: Step, s: Segment, child: Bson) {
    match step
    case FieldAt(i) =>
      value.Document? && i < |value.fields| && child == value.fields[i].value && s == Key(value.fields[i].key)
    case ItemAt(i) => value.Array? && i < |value.items| && child == value.items[i] && s == Element
  }

  /** One step further: what is visited below a child. */
  lemma StepInto(cfg: Config, at: Location, value: Bson, step: Step, s: Segment, child: Bson, steps: seq<Step>)
    requires Leads(value, step, s, child) && |at| <= cfg.maxDepth
    requires step.ItemAt? ==> step.i < cfg.maxArrayElements
    ensures VisitedFrom(cfg, |at|, value, [step] + steps) <==> VisitedFrom(cfg, |at + [s]|, child, steps)
    ensures ValueFrom(value, [step] + steps) == ValueFrom(child, steps)
    ensures ValueFrom(child, steps).Some? ==>
              at + LocationFrom(value, [step] + steps) == (at + [s]) + LocationFrom(child, steps)
  {
    var more := [step] + steps;
    assert more[0] == step && more[1..] == steps;
    assert Unclipped(cfg, more) <==> Unclipped(cfg, steps) by {
      assert forall k :: 0 <= k < |steps| ==> more[k + 1] == steps[k];
    }
  }

  lemma PrefixedPrecedes(step: Step, a: seq<Step>, b: seq<Step>)
    ensures Precedes([step] + a, [step] + b) <==> Precedes(a, b)
  {
    assert ([step] + a)[1..] == a && ([step] + b)[1..] == b;
  }

  /** A valid first step is determined by its index. */
  lemma FirstStep(value: Bson, step: Step, s: Segment, child: Bson, steps: seq<Step>)
    requires Leads(value, step, s, child)
    requires ValueFrom(value, steps).Some? && steps != [] && steps[0].i == step.i
    ensures steps == [step] + steps[1..]
  {
  }

  lemma PrefixedStands(cfg: Config, d: nat, at: Location, value: Bson, step: Step, s: Segment, child: Bson,
                       evs: seq<Event>, visits: seq<seq<Step>>)
    requires Leads(value, step, s, child) && |at| <= cfg.maxDepth
    requires step.ItemAt? ==> step.i < cfg.maxArrayElements
    requires StandsFor(cfg, d, at + [s], child, evs, visits)
    ensures StandsFor(cfg, d, at, value, evs, Prefixed(step, visits))
  {
    hide VisitedFrom, ValueFrom, LocationFrom, Leads, Precedes;
    var all := Prefixed(step, visits);
    forall i | 0 <= i < |all|
      ensures VisitedFrom(cfg, |at|, value, all[i])
      ensures ValueFrom(value, all[i]).Some?
      ensures evs[i] == Event(d, at + LocationFrom(value, all[i]), ValueFrom(value, all[i]).value)
    {
      VisitedHasValue(cfg, |at + [s]|, child, visits[i]);
      StepInto(cfg, at, value, step, s, child, visits[i]);
    }
    forall i, j | 0 <= i < j < |all| ensures Precedes(all[i], all[j]) {
      PrefixedPrecedes(step, visits[i], visits[j]);
    }
  }

  lemma VisitedHasValue(cfg: Config, depth: nat, value: Bson, steps: seq<Step>)
    requires VisitedFrom(cfg, depth, value, steps)
    ensures ValueFrom(value, steps).Some?
  {
  }

  lemma StandsConcat(cfg: Config, d: nat, at: Location, value: Bson, a: seq<Event>, va: seq<seq<Step>>,
                     b: seq<Event>, vb: seq<seq<Step>>)
    requires StandsFor(cfg, d, at, value, a, va) && StandsFor(cfg, d, at, value, b, vb)
    requires forall i, j :: 0 <= i < |va| && 0 <= j < |vb| ==> Precedes(va[i], vb[j])
    ensures StandsFor(cfg, d, at, value, a + b, va + vb)
  {
    hide ValueFrom, LocationFrom, Precedes, Unclipped;
    var v, evs := va + vb, a + b;
    forall i | 0 <= i < |v|
      ensures VisitedFrom(cfg, |at|, value, v[i])
      ensures evs[i] == Event(d, at + LocationFrom(value, v[i]), ValueFrom(value, v[i]).value)
    {
      if i < |va| {
        assert v[i] == va[i] && evs[i] == a[i];
      } else {
        assert v[i] == vb[i - |va|] && evs[i] == b[i - |va|];
      }
    }
  }

  /** The events of one more child come after those of the children before it. */
  lemma OneMoreChild(cfg: Config, d: nat, at: Location, value: Bson, step: Step, s: Segment, child: Bson,
                     a: seq<Event>, va: seq<seq<Step>>, b: seq<Event>, vb: seq<seq<Step>>)
    requires Leads(value, step, s, child) && |at| <= cfg.maxDepth
    requires step.ItemAt? ==> step.i < cfg.maxArrayElements
    requires Below(cfg, d, at, value, step.i, a, va)
    requires AtOrBelow(cfg, d, at + [s], child, b, vb)
    ensures Below(cfg, d, at, value, step.i + 1, a + b, va + Prefixed(step, vb))
  {
    hide VisitedFrom, ValueFrom, LocationFrom, StandsFor, Leads;
    var all := Prefixed(step, vb);
    VisitsMatch(cfg, d, at + [s], child, b, vb);
    VisitsMatch(cfg, d, at, value, a, va);
    PrefixedStands(cfg, d, at, value, step, s, child, b, vb);
    StandsConcat(cfg, d, at, value, a, va, b, all);
    forall x: seq<Step> | VisitedFrom(cfg, |at|, value, x) && x != [] && x[0].i < step.i + 1 ensures x in va + all {
      if x[0].i == step.i {
        VisitedHasValue(cfg, |at|, value, x);
        FirstStep(value, step, s, child, x);
        StepInto(cfg, at, value, step, s, child, x[1..]);
        var k :| 0 <= k < |vb| && vb[k] == x[1..];
        assert all[k] == x;
      }
    }
  }

  lemma VisitsMatch(cfg: Config, d: nat, at: Location, value: Bson, evs: seq<Event>, visits: seq<seq<Step>>)
    requires StandsFor(cfg, d, at, value, evs, visits)
    ensures |visits| == |evs|
  {
  }

  lemma NoneBelow(cfg: Config, d: nat, at: Location, value: Bson)
    ensures Below(cfg, d, at, value, 0, [], [])
  {
  }

  // ---------- The recursion ----------

  lemma {:induction false} EventsVisits(cfg: Config, d: nat, at: Location, value: Bson) returns (visits: seq<seq<Step>>)
    ensures AtOrBelow(cfg, d, at, value, Events(cfg, d, at, value), visits)
    decreases value, 2
  {
    hide Below;
    var n, kids := ChildrenVisits(cfg, d, at, value);
    visits := [[]] + kids;
    PrependSelf(cfg, d, at, value, n, Children(cfg, d, at, value), kids);
  }

  /** Is a value with `n` children that may be stepped into. */
  ghost predicate Branches(cfg: Config, depth: nat, value: Bson, n: nat) {
    forall s: seq<Step> :: VisitedFrom(cfg, depth, value, s) && s != [] ==> s[0].i < n
  }

  lemma PrependSelf(cfg: Config, d: nat, at: Location, value: Bson, n: nat, kids: seq<Event>, visits: seq<seq<Step>>)
    requires Below(cfg, d, at, value, n, kids, visits) && Branches(cfg, |at|, value, n)
    ensures AtOrBelow(cfg, d, at, value, [Event(d, at, value)] + kids, [[]] + visits)
  {
    var none: seq<Step> := [];
    assert at + LocationFrom(value, none) == at;
    assert StandsFor(cfg, d, at, value, [Event(d, at, value)], [none]);
    hide VisitedFrom, LocationFrom, ValueFrom;
    StandsConcat(cfg, d, at, value, [Event(d, at, value)], [none], kids, visits);
    forall s | VisitedFrom(cfg, |at|, value, s) ensures s in [none] + visits {
      assert s == none || s in visits;
    }
  }

  lemma {:induction false} ChildrenVisits(cfg: Config, d: nat, at: Location, value: Bson)
    returns (n: nat, visits: seq<seq<Step>>)
    ensures Branches(cfg, |at|, value, n)
    ensures Below(cfg, d, at, value, n, Children(cfg, d, at, value), visits)
    decreases value, 1
  {
    n, visits := 0, [];
    if |at| <= cfg.maxDepth && value.Document? {
      n := |value.fields|;
      visits := FieldsVisits(cfg, d, at, value.fields, n);
      assert value == Document(value.fields);
    } else if |at| <= cfg.maxDepth && value.Array? {
      n := Min(cfg.maxArrayElements, |value.items|);
      visits := ItemsVisits(cfg, d, at, value.items, n);
      assert value == Array(value.items);
    } else {
      NoneBelow(cfg, d, at, value);
    }
    hide Below;
    forall s: seq<Step> | VisitedFrom(cfg, |at|, value, s) && s != [] ensures s[0].i < n {
    }
  }

  lemma {:induction false} FieldsVisits(cfg: Config, d: nat, at: Location, fields: seq<Field>, n: nat)
    returns (visits: seq<seq<Step>>)
    requires n <= |fields| && |at| <= cfg.maxDepth
    ensures Below(cfg, d, at, Document(fields), n, FieldEvents(cfg, d, at, fields, n), visits)
    decreases fields, 0, n
  {
    if n == 0 {
      visits := [];
      NoneBelow(cfg, d, at, Document(fields));
    } else {
      hide Below, AtOrBelow, Events;
      var before := FieldsVisits(cfg, d, at, fields, n - 1);
      var s, child := Key(fields[n - 1].key), fields[n - 1].value;
      var inside := EventsVisits(cfg, d, at + [s], child);
      OneMoreChild(cfg, d, at, Document(fields), FieldAt(n - 1), s, child,
                   FieldEvents(cfg, d, at, fields, n - 1), before, Events(cfg, d, at + [s], child), inside);
      visits := before + Prefixed(FieldAt(n - 1), inside);
    }
  }

  lemma {:induction false} ItemsVisits(cfg: Config, d: nat, at: Location, items: seq<Bson>, n: nat)
    returns (visits: seq<seq<Step>>)
    requires n <= Min(cfg.maxArrayElements, |items|) && |at| <= cfg.maxDepth
    ensures Below(cfg, d, at, Array(items), n, ItemEvents(cfg, d, at, items, n), visits)
    decreases items, 0, n
  {
    if n == 0 {
      visits := [];
      NoneBelow(cfg, d, at, Array(items));
    } else {
      hide Below, AtOrBelow, Events;
      var before := ItemsVisits(cfg, d, at, items, n - 1);
      var child := items[n - 1];
      var inside := EventsVisits(cfg, d, at + [Element], child);
      OneMoreChild(cfg, d, at, Array(items), ItemAt(n - 1), Element, child,
                   ItemEvents(cfg, d, at, items, n - 1), before, Events(cfg, d, at + [Element], child), inside);
      visits := before + Prefixed(ItemAt(n - 1), inside);
    }
  }

  // ---------- Documents and samples ----------

  /** Event for event, a log of one document: its visited parts, once each, in order. */
  ghost predicate Traverses(cfg: Config, d: nat, doc: seq<Field>, evs: seq<Event>, visits: seq<seq<Step>>) {
    && |visits| == |evs|
    && (forall i :: 0 <= i < |visits| ==>
          && Visited(cfg, doc, visits[i])
          && evs[i] == Event(d, LocationOf(doc, visits[i]), ValueAt(doc, visits[i]).value))
    && (forall i, j :: 0 <= i < j < |visits| ==> Precedes(visits[i], visits[j]))
    && (forall s :: Visited(cfg, doc, s) ==> s in visits)
  }

  lemma DocVisits(cfg: Config, d: nat, doc: seq<Field>) returns (visits: seq<seq<Step>>)
    ensures Traverses(cfg, d, doc, DocEvents(cfg, d, doc), visits)
  {
    hide FieldEvents, ValueFrom, LocationFrom, Precedes;
    visits := FieldsVisits(cfg, d, [], doc, |doc|);
    forall i | 0 <= i < |visits|
      ensures Visited(cfg, doc, visits[i])
      ensures DocEvents(cfg, d, doc)[i] == Event(d, LocationOf(doc, visits[i]), ValueAt(doc, visits[i]).value)
    {
      assert [] + LocationFrom(Document(doc), visits[i]) == LocationFrom(Document(doc), visits[i]);
    }
    forall s | Visited(cfg, doc, s) ensures s in visits {
      FirstField(doc, s);
    }
  }

  lemma FirstField(doc: seq<Field>, steps: seq<Step>)
    requires ValueAt(doc, steps).Some? && steps != []
    ensures steps[0].i < |doc|
  {
  }

  lemma PrecedesIrreflexive(a: seq<Step>)
    ensures !Precedes(a, a)
    decreases |a|
  {
    if a != [] {
      PrecedesIrreflexive(a[1..]);
    }
  }

  /** Is a part of document number `d` of the sample that is visited. */
  ghost predicate VisitedIn(cfg: Config, docs: seq<seq<Field>>, d: nat, steps: seq<Step>) {
    1 <= d <= |docs| && Visited(cfg, docs[d - 1], steps)
  }

  /** The steps lead, in the document of the event, to its value at its location. */
  ghost predicate Reaches(cfg: Config, docs: seq<seq<Field>>, e: Event, steps: seq<Step>) {
    && VisitedIn(cfg, docs, e.doc, steps)
    && LocationOf(docs[e.doc - 1], steps) == e.at
    && ValueAt(docs[e.doc - 1], steps) == Some(e.value)
  }

  /** What the log of a sample holds, said about the documents: an event exactly if some visited
      part of its document has this location and this value. */
  lemma LogExact(cfg: Config, docs: seq<seq<Field>>, e: Event)
    ensures e in LogOf(cfg, docs) <==> exists steps :: Reaches(cfg, docs, e, steps)
  {
    hide LogOf, DocEvents, ValueFrom, LocationFrom, Precedes, Unclipped;
    LogMember(cfg, docs, e);
    if 1 <= e.doc <= |docs| {
      var doc := docs[e.doc - 1];
      var visits := DocVisits(cfg, e.doc, doc);
      if e in DocEvents(cfg, e.doc, doc) {
        var i :| 0 <= i < |visits| && DocEvents(cfg, e.doc, doc)[i] == e;
        assert Reaches(cfg, docs, e, visits[i]);
      }
      if steps :| Reaches(cfg, docs, e, steps) {
        var i :| 0 <= i < |visits| && visits[i] == steps;
        assert DocEvents(cfg, e.doc, doc)[i] == e;
      }
    }
  }

  ghost predicate Logged(log: seq<Event>, visits: seq<seq<Step>>, d: nat, steps: seq<Step>) {
    exists i :: 0 <= i < Min(|log|, |visits|) && log[i].doc == d && visits[i] == steps
  }

  /** Event for event, a log of a sample: document after document, and for each its visited parts
      once each in lexicographic order of the steps. */
  ghost predicate TraversesAll(cfg: Config, docs: seq<seq<Field>>, log: seq<Event>, visits: seq<seq<Step>>) {
    && |visits| == |log|
    && (forall i :: 0 <= i < |log| ==> Reaches(cfg, docs, log[i], visits[i]))
    && (forall i, j :: 0 <= i < j < |log| ==>
          log[i].doc < log[j].doc || (log[i].doc == log[j].doc && Precedes(visits[i], visits[j])))
    && (forall d: nat, s :: VisitedIn(cfg, docs, d, s) ==> Logged(log, visits, d, s))
  }

  lemma {:induction false} LogVisits(cfg: Config, docs: seq<seq<Field>>) returns (visits: seq<seq<Step>>)
    ensures TraversesAll(cfg, docs, LogOf(cfg, docs), visits)
  {
    hide TraversesAll, DocEvents, Traverses;
    if docs == [] {
      visits := [];
      NothingTraversed(cfg);
    } else {
      var before := LogVisits(cfg, Front(docs));
      var last := DocVisits(cfg, |docs|, Last(docs));
      visits := before + last;
      assert docs == Front(docs) + [Last(docs)];
      TraversesOneMore(cfg, Front(docs), LogOf(cfg, Front(docs)), before,
                       Last(docs), DocEvents(cfg, |docs|, Last(docs)), last);
    }
  }

  lemma NothingTraversed(cfg: Config)
    ensures TraversesAll(cfg, [], [], [])
  {
  }

  lemma TraversesOneMore(cfg: Config, docs: seq<seq<Field>>, a: seq<Event>, va: seq<seq<Step>>,
                         doc: seq<Field>, b: seq<Event>, vb: seq<seq<Step>>)
    requires TraversesAll(cfg, docs, a, va) && Traverses(cfg, |docs| + 1, doc, b, vb)
    ensures TraversesAll(cfg, docs + [doc], a + b, va + vb)
  {
    hide Unclipped, LocationOf, ValueAt, Precedes;
    var all, log, visits := docs + [doc], a + b, va + vb;
    forall i | 0 <= i < |log|
      ensures Reaches(cfg, all, log[i], visits[i])
      ensures if i < |a| then log[i].doc <= |docs| else log[i].doc == |docs| + 1
    {
      if i < |a| {
        assert log[i] == a[i] && visits[i] == va[i];
        assert all[a[i].doc - 1] == docs[a[i].doc - 1];
      } else {
        assert log[i] == b[i - |a|] && visits[i] == vb[i - |a|];
      }
    }
    forall d: nat, s | VisitedIn(cfg, all, d, s) ensures Logged(log, visits, d, s) {
      if d <= |docs| {
        assert VisitedIn(cfg, docs, d, s);
        var i :| 0 <= i < Min(|a|, |va|) && a[i].doc == d && va[i] == s;
        assert log[i] == a[i] && visits[i] == s;
      } else {
        var i :| 0 <= i < |vb| && vb[i] == s;
        assert log[|a| + i] == b[i] && visits[|a| + i] == s;
      }
    }
  }

  /** A document mentions a path exactly if some visited part of it is flattened to that path, and
      holds null there exactly if such a part is null. */
  lemma MentionsExact(cfg: Config, doc: seq<Field>, path: string)
    ensures Mentions(cfg, doc, path) <==>
            exists steps :: Visited(cfg, doc, steps) && Render(LocationOf(doc, steps)) == path
    ensures HoldsNull(cfg, doc, path) <==>
            exists steps :: Visited(cfg, doc, steps) && Render(LocationOf(doc, steps)) == path
                            && ValueAt(doc, steps) == Some(Null)
  {
    hide DocEvents, ValueFrom, LocationFrom, Precedes, Render, Unclipped;
    var visits := DocVisits(cfg, 0, doc);
    var evs := DocEvents(cfg, 0, doc);
    forall e | e in evs && Path(e) == path
      ensures exists steps :: Visited(cfg, doc, steps) && Render(LocationOf(doc, steps)) == path
                              && ValueAt(doc, steps) == Some(e.value)
    {
      var i :| 0 <= i < |evs| && evs[i] == e;
      assert Visited(cfg, doc, visits[i]);
    }
    forall steps | Visited(cfg, doc, steps) && Render(LocationOf(doc, steps)) == path
      ensures exists e :: e in evs && Path(e) == path && ValueAt(doc, steps) == Some(e.value)
    {
      var i :| 0 <= i < |visits| && visits[i] == steps;
      assert evs[i] in evs;
    }
  }
}
