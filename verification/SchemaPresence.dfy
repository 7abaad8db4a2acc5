/** What presence and nullability say about the sampled documents. */
module SchemaPresence {
  import opened Collections
  import opened BsonValues
  import opened SchemaEvents
  import opened SchemaStats
  import opened SchemaColumns
  import opened Reservoir
  import opened Text

  // ---------- Which events a log holds ----------

  ghost function Renumber(evs: seq<Event>, doc: nat): seq<Event> {
    seq(|evs|, i requires 0 <= i < |evs| => evs[i].(doc := doc))
  }

  lemma {:induction false} RenumberEvents(cfg: Config, d: nat, doc: nat, at: Location, value: Bson)
    ensures Events(cfg, doc, at, value) == Renumber(Events(cfg, d, at, value), doc)
    decreases value, 2
  {
    if |at| <= cfg.maxDepth {
      match value
      case Document(fields) => RenumberFields(cfg, d, doc, at, fields, |fields|);
      case Array(items) => RenumberItems(cfg, d, doc, at, items, Min(cfg.maxArrayElements, |items|));
      case _ =>
    }
  }

  lemma {:induction false} RenumberFields(cfg: Config, d: nat, doc: nat, at: Location, fields: seq<Field>, n: nat)
    requires n <= |fields|
    ensures FieldEvents(cfg, doc, at, fields, n) == Renumber(FieldEvents(cfg, d, at, fields, n), doc)
    decreases fields, 0, n
  {
    if n > 0 {
      RenumberFields(cfg, d, doc, at, fields, n - 1);
      RenumberEvents(cfg, d, doc, at + [Key(fields[n - 1].key)], fields[n - 1].value);
    }
  }

  lemma {:induction false} RenumberItems(cfg: Config, d: nat, doc: nat, at: Location, items: seq<Bson>, n: nat)
    requires n <= |items|
    ensures ItemEvents(cfg, doc, at, items, n) == Renumber(ItemEvents(cfg, d, at, items, n), doc)
    decreases items, 0, n
  {
    if n > 0 {
      RenumberItems(cfg, d, doc, at, items, n - 1);
      RenumberEvents(cfg, d, doc, at + [Element], items[n - 1]);
    }
  }

  /** A document's events do not depend on its number. */
  lemma RenumberMember(cfg: Config, fields: seq<Field>, e: Event, doc: nat)
    requires e in DocEvents(cfg, e.doc, fields)
    ensures e.(doc := doc) in DocEvents(cfg, doc, fields)
  {
    var evs := DocEvents(cfg, e.doc, fields);
    var i :| 0 <= i < |evs| && evs[i] == e;
    RenumberFields(cfg, e.doc, doc, [], fields, |fields|);
    assert DocEvents(cfg, doc, fields)[i] == e.(doc := doc);
  }

  lemma {:induction false} LogMember(cfg: Config, docs: seq<seq<Field>>, e: Event)
    ensures e in LogOf(cfg, docs) <==>
            1 <= e.doc <= |docs| && e in DocEvents(cfg, e.doc, docs[e.doc - 1])
  {
    if docs != [] {
      LogMember(cfg, Front(docs), e);
      FieldsNested(cfg, |docs|, [], Last(docs), |Last(docs)|);
    }
  }

  // ---------- Presence ----------

  /** The document has a value (of any type) at the path. */
  ghost predicate Mentions(cfg: Config, doc: seq<Field>, path: string) {
    exists e :: e in DocEvents(cfg, 0, doc) && Path(e) == path
  }

  /** The document has an explicit null at the path. */
  ghost predicate HoldsNull(cfg: Config, doc: seq<Field>, path: string) {
    exists e :: e in DocEvents(cfg, 0, doc) && Path(e) == path && e.value == Null
  }

  ghost predicate MentionsAt(cfg: Config, docs: seq<seq<Field>>, d: nat, path: string) {
    1 <= d <= |docs| && Mentions(cfg, docs[d - 1], path)
  }

  /** The numbers of the documents that mention a path. */
  ghost function Mentioning(cfg: Config, docs: seq<seq<Field>>, path: string): set<nat> {
    set d | d in UpTo(|docs|) && MentionsAt(cfg, docs, d, path)
  }

  ghost function UpTo(n: nat): (s: set<nat>)
    ensures |s| == n
    ensures forall d :: d in s <==> 1 <= d <= n
  {
    if n == 0 then {} else UpTo(n - 1) + {n}
  }

  lemma DocsMentioning(cfg: Config, docs: seq<seq<Field>>, path: string)
    ensures DocsOf(At(LogOf(cfg, docs), path)) == Mentioning(cfg, docs, path)
  {
    hide LogOf, DocEvents, FieldEvents, At;
    var log := LogOf(cfg, docs);
    AtMembers(log, path);
    forall d: nat ensures d in DocsOf(At(log, path)) <==> d in Mentioning(cfg, docs, path) {
      if d in DocsOf(At(log, path)) {
        var e :| e in At(log, path) && e.doc == d;
        LogMember(cfg, docs, e);
        RenumberMember(cfg, docs[d - 1], e, 0);
      }
      if d in Mentioning(cfg, docs, path) {
        var e :| e in DocEvents(cfg, 0, docs[d - 1]) && Path(e) == path;
        FieldsNested(cfg, 0, [], docs[d - 1], |docs[d - 1]|);
        assert e.doc == 0 by { DocNumber(cfg, 0, docs[d - 1], e); }
        RenumberMember(cfg, docs[d - 1], e, d);
        LogMember(cfg, docs, e.(doc := d));
      }
    }
  }

  lemma DocNumber(cfg: Config, doc: nat, fields: seq<Field>, e: Event)
    requires e in DocEvents(cfg, doc, fields)
    ensures e.doc == doc
  {
    FieldsNested(cfg, doc, [], fields, |fields|);
  }

  lemma SetOfDocsBounded(s: set<nat>, n: nat)
    requires s <= UpTo(n)
    ensures |s| <= n
    ensures |s| == n <==> forall d :: 1 <= d <= n ==> d in s
  {
    SubsetCardinality(s, UpTo(n));
    var rest := UpTo(n) - s;
    assert |rest| == n - |s|;
    if |s| == n {
      assert rest == {};
      forall d | 1 <= d <= n ensures d in s {
        assert d in UpTo(n);
      }
    } else {
      var d :| d in rest;
      assert 1 <= d <= n && d !in s;
    }
  }

  lemma NullsSome(evs: seq<Event>)
    ensures |NullsOf(evs)| > 0 <==> exists e :: e in evs && e.value == Null
  {
    if e :| e in evs && e.value == Null {
      var i :| 0 <= i < |evs| && evs[i] == e;
      assert i in NullsOf(evs);
    }
    if |NullsOf(evs)| > 0 {
      var i :| i in NullsOf(evs);
      assert evs[i] in evs;
    }
  }

  /** The seen count is the number of documents with the path, between 1 and all of them, and a
      column is reported as not nullable exactly when every sampled document has the path and
      none holds null there. */
  lemma NullableMeaning(cfg: Config, docs: seq<seq<Field>>, path: string)
    requires path in Tracked(cfg, LogOf(cfg, docs))
    ensures var log := LogOf(cfg, docs);
            StatsOf(cfg, log, log, path).seenCount == |Mentioning(cfg, docs, path)|
    ensures 1 <= |Mentioning(cfg, docs, path)| <= |docs|
    ensures var c := ColumnOf(cfg, docs, path);
            && 0.0 < c.presenceRate <= 1.0
            && (c.presenceRate == 1.0 <==> forall d :: d in docs ==> Mentions(cfg, d, path))
            && (!c.nullable <==> forall d :: d in docs ==> Mentions(cfg, d, path) && !HoldsNull(cfg, d, path))
  {
    hide LogOf, DocEvents, FieldEvents, At, Tracked, LiveLog, Mentions, DataType, KeptBytes, LiveKeys,
         Sampled, LeavesOf;
    var log := LogOf(cfg, docs);
    TrackedOccurs(cfg, log, path);
    var seen := Mentioning(cfg, docs, path);
    DocsMentioning(cfg, docs, path);
    assert At(log, path)[0].doc in DocsOf(At(log, path));
    SetOfDocsBounded(seen, |docs|);
    NullsSome(At(log, path));
    NullsInDocs(cfg, docs, path);
    assert (forall d :: d in docs ==> Mentions(cfg, d, path)) <==>
           (forall d :: 1 <= d <= |docs| ==> d in seen) by {
      AllMentioning(cfg, docs, path);
    }
    RateOne(|seen|, |docs|);
  }

  lemma RateOne(a: nat, b: nat)
    requires 1 <= a <= b
    ensures 0.0 < a as real / b as real <= 1.0
    ensures a as real / b as real == 1.0 <==> a == b
  {
  }

  lemma AllMentioning(cfg: Config, docs: seq<seq<Field>>, path: string)
    ensures (forall d :: d in docs ==> Mentions(cfg, d, path)) <==>
            (forall d :: 1 <= d <= |docs| ==> d in Mentioning(cfg, docs, path))
  {
    hide Mentions;
    if forall d :: 1 <= d <= |docs| ==> d in Mentioning(cfg, docs, path) {
      forall d | d in docs ensures Mentions(cfg, d, path) {
        var i :| 0 <= i < |docs| && docs[i] == d;
        assert i + 1 in Mentioning(cfg, docs, path);
      }
    }
  }

  lemma TrackedOccurs(cfg: Config, log: seq<Event>, path: string)
    requires path in Tracked(cfg, log)
    ensures At(log, path) != []
  {
    KeepProperties(Paths(log), cfg.maxPaths);
    AtMembers(log, path);
  }

  lemma NullsInDocs(cfg: Config, docs: seq<seq<Field>>, path: string)
    ensures (exists e :: e in At(LogOf(cfg, docs), path) && e.value == Null) <==>
            exists d :: d in docs && HoldsNull(cfg, d, path)
  {
    hide LogOf, DocEvents, FieldEvents, At;
    var log := LogOf(cfg, docs);
    AtMembers(log, path);
    if e :| e in At(log, path) && e.value == Null {
      LogMember(cfg, docs, e);
      RenumberMember(cfg, docs[e.doc - 1], e, 0);
      assert HoldsNull(cfg, docs[e.doc - 1], path);
    }
    if d :| d in docs && HoldsNull(cfg, d, path) {
      var i :| 0 <= i < |docs| && docs[i] == d;
      var e :| e in DocEvents(cfg, 0, d) && Path(e) == path && e.value == Null;
      DocNumber(cfg, 0, d, e);
      RenumberMember(cfg, d, e, i + 1);
      LogMember(cfg, docs, e.(doc := i + 1));
      assert e.(doc := i + 1) in At(log, path);
    }
  }

  // ---------- Types and array lengths ----------

  /** The reported type is the one label observed at the path, or "mixed" exactly when two
      events at the path have different labels; the label list is complete and alphabetical. */
  lemma DataTypeMeaning(cfg: Config, docs: seq<seq<Field>>, path: string)
    requires path in Tracked(cfg, LogOf(cfg, docs))
    ensures var c, evs := ColumnOf(cfg, docs, path), At(LogOf(cfg, docs), path);
            && c.bsonTypes.Some? && ToSet(c.bsonTypes.value) == LabelsOf(cfg, evs)
            && StrictlyAlphabetical(c.bsonTypes.value)
            && c.dataType != "unknown"
            && (c.dataType == "mixed" <==>
                  exists e, e' :: e in evs && e' in evs && EventLabel(cfg, e) != EventLabel(cfg, e'))
            && (c.dataType != "mixed" ==> forall e :: e in evs ==> EventLabel(cfg, e) == c.dataType)
  {
    hide LogOf, Tracked, LiveLog, KeptBytes, LiveKeys, Sampled, LeavesOf, At, EventLabel, DataType,
         DocsOf, NullsOf;
    var evs := At(LogOf(cfg, docs), path);
    var labels := LabelsOf(cfg, evs);
    TrackedOccurs(cfg, LogOf(cfg, docs), path);
    assert evs[0] in evs && EventLabel(cfg, evs[0]) in labels;
    forall e | e in evs ensures EventLabel(cfg, e) in labels {
    }
    DataTypeOf(labels, EventLabel(cfg, evs[0]));
    forall l | l in labels ensures l != "mixed" && l != "unknown" {
      var e :| e in evs && EventLabel(cfg, e) == l;
      LabelIsProper(cfg, e);
    }
  }

  lemma LabelIsProper(cfg: Config, e: Event)
    ensures EventLabel(cfg, e) != "mixed" && EventLabel(cfg, e) != "unknown"
  {
  }

  lemma DataTypeOf(types: set<string>, t: string)
    requires t in types
    ensures types == {t} ==> DataType(types) == t
    ensures types != {t} ==> DataType(types) == "mixed" && exists u :: u in types && u != t
  {
    if |types| == 1 {
      SingletonElement(types);
    }
    if types != {t} {
      assert types - {t} != {};
      var u :| u in types - {t};
      assert u in types && u != t;
    }
  }

  /** The reported array length is the largest one, before clipping, of any array observed at the
      path above the depth limit. */
  lemma ArrayLengthMeaning(cfg: Config, docs: seq<seq<Field>>, path: string)
    requires path in Tracked(cfg, LogOf(cfg, docs))
    ensures var c, evs := ColumnOf(cfg, docs, path), At(LogOf(cfg, docs), path);
            match c.arrayMaxLen
            case None => forall e :: e in evs && e.value.Array? ==> Deep(cfg, e)
            case Some(n) =>
              && (exists e :: e in evs && e.value.Array? && !Deep(cfg, e) && |e.value.items| == n)
              && (forall e :: e in evs && e.value.Array? && !Deep(cfg, e) ==> |e.value.items| <= n)
  {
    hide LogOf, Tracked, LiveLog, KeptBytes, LiveKeys, Sampled, LeavesOf, At, EventLabel, DataType,
         DocsOf, NullsOf, LabelsOf, Deep;
    var evs := At(LogOf(cfg, docs), path);
    forall e | e in evs && e.value.Array? && !Deep(cfg, e) ensures |e.value.items| in LengthsOf(cfg, evs) {
    }
  }

  // ---------- Null counts ----------

  ghost predicate OneNullPerDoc(evs: seq<Event>) {
    forall i, j :: 0 <= i < j < |evs| && evs[i].value == Null && evs[j].value == Null ==> evs[i].doc != evs[j].doc
  }

  ghost function NullDocs(evs: seq<Event>): set<nat> {
    set e | e in evs && e.value == Null :: e.doc
  }

  lemma OneNullAppend(f: seq<Event>, e: Event)
    ensures OneNullPerDoc(f + [e]) <==> OneNullPerDoc(f) && (e.value == Null ==> e.doc !in NullDocs(f))
    ensures NullDocs(f + [e]) == NullDocs(f) + if e.value == Null then {e.doc} else {}
  {
    var evs := f + [e];
    assert evs[|f|] == e;
    assert forall i :: 0 <= i < |f| ==> evs[i] == f[i] && (f[i].value == Null ==> f[i].doc in NullDocs(f));
    if e.value == Null && e.doc in NullDocs(f) {
      var x :| x in f && x.value == Null && x.doc == e.doc;
      var i :| 0 <= i < |f| && f[i] == x;
      assert evs[i].doc == evs[|f|].doc;
    }
  }

  /** The null count is a number of occurrences. It is the number of documents holding a null
      exactly when no document holds two of them at the path. */
  lemma {:induction false} NullCountMeaning(evs: seq<Event>)
    ensures |NullDocs(evs)| <= |NullsOf(evs)|
    ensures |NullsOf(evs)| == |NullDocs(evs)| <==> OneNullPerDoc(evs)
  {
    if evs != [] {
      hide NullDocs, OneNullPerDoc, NullsOf;
      assert evs == Front(evs) + [Last(evs)];
      NullCountMeaning(Front(evs));
      NullsAppend(Front(evs), Last(evs));
      OneNullAppend(Front(evs), Last(evs));
    } else {
      assert NullsOf(evs) == {};
    }
  }
}
