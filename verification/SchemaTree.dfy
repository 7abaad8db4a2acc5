/** With field names that cannot be mistaken for path syntax, the flat columns still carry the
    tree: parents are tracked before their children, and what is said about a path is said
    about one location. */
module SchemaTree {
  import opened Collections
  import opened BsonValues
  import opened SchemaEvents
  import opened SchemaStats
  import opened SchemaColumns
  import opened SchemaPresence
  import opened Reservoir
  import opened Text

  ghost predicate PlainValue(value: Bson) {
    match value
    case Document(fields) => PlainDoc(fields)
    case Array(items) => forall i :: 0 <= i < |items| ==> PlainValue(items[i])
    case _ => true
  }

  ghost predicate PlainDoc(fields: seq<Field>) {
    forall i :: 0 <= i < |fields| ==> PlainName(fields[i].key) && PlainValue(fields[i].value)
  }

  ghost predicate PlainDocs(docs: seq<seq<Field>>) {
    forall d :: d in docs ==> PlainDoc(d)
  }

  ghost predicate PlainEvents(evs: seq<Event>) {
    forall e :: e in evs ==> PlainLocation(e.at)
  }

  lemma {:induction false} EventsPlain(cfg: Config, doc: nat, at: Location, value: Bson)
    requires PlainLocation(at) && PlainValue(value)
    ensures PlainEvents(Events(cfg, doc, at, value))
    decreases value, 2
  {
    if |at| <= cfg.maxDepth {
      match value
      case Document(fields) => FieldsPlain(cfg, doc, at, fields, |fields|);
      case Array(items) => ItemsPlain(cfg, doc, at, items, Min(cfg.maxArrayElements, |items|));
      case _ =>
    }
  }

  lemma {:induction false} FieldsPlain(cfg: Config, doc: nat, at: Location, fields: seq<Field>, n: nat)
    requires n <= |fields| && (at == [] || PlainLocation(at)) && PlainDoc(fields)
    ensures PlainEvents(FieldEvents(cfg, doc, at, fields, n))
    decreases fields, 0, n
  {
    if n > 0 {
      FieldsPlain(cfg, doc, at, fields, n - 1);
      EventsPlain(cfg, doc, at + [Key(fields[n - 1].key)], fields[n - 1].value);
    }
  }

  lemma {:induction false} ItemsPlain(cfg: Config, doc: nat, at: Location, items: seq<Bson>, n: nat)
    requires n <= |items| && PlainLocation(at)
    requires forall i :: 0 <= i < |items| ==> PlainValue(items[i])
    ensures PlainEvents(ItemEvents(cfg, doc, at, items, n))
    decreases items, 0, n
  {
    if n > 0 {
      ItemsPlain(cfg, doc, at, items, n - 1);
      EventsPlain(cfg, doc, at + [Element], items[n - 1]);
    }
  }

  lemma {:induction false} LogPlain(cfg: Config, docs: seq<seq<Field>>)
    requires PlainDocs(docs)
    ensures PlainEvents(LogOf(cfg, docs))
  {
    if docs != [] {
      LogPlain(cfg, Front(docs));
      FieldsPlain(cfg, |docs|, [], Last(docs), |Last(docs)|);
    }
  }

  /** In a log of plain documents a path string stands for one location. */
  lemma PathMeansLocation(cfg: Config, docs: seq<seq<Field>>, at: Location)
    requires PlainDocs(docs) && PlainLocation(at)
    ensures forall e :: e in LogOf(cfg, docs) ==> (Path(e) == Render(at) <==> e.at == at)
  {
    hide LogOf, Render, PlainLocation;
    LogPlain(cfg, docs);
    forall e | e in LogOf(cfg, docs) ensures Path(e) == Render(at) <==> e.at == at {
      RenderInjective(e.at, at);
    }
  }

  /** Every event below the top level is preceded by one for its parent, in its document. */
  ghost predicate ParentsFirst(cfg: Config, log: seq<Event>) {
    forall i :: 0 <= i < |log| ==>
      && 1 <= |log[i].at| <= cfg.maxDepth + 1
      && (|log[i].at| >= 2 ==>
            exists j :: 0 <= j < i && log[j].doc == log[i].doc && log[j].at == Front(log[i].at))
  }

  lemma {:induction false} LogParentsFirst(cfg: Config, docs: seq<seq<Field>>)
    ensures ParentsFirst(cfg, LogOf(cfg, docs))
  {
    if docs != [] {
      var a, b := LogOf(cfg, Front(docs)), DocEvents(cfg, |docs|, Last(docs));
      LogParentsFirst(cfg, Front(docs));
      FieldsNested(cfg, |docs|, [], Last(docs), |Last(docs)|);
      NestedParentsFirst(cfg, |docs|, a, b);
    }
  }

  lemma NestedParentsFirst(cfg: Config, doc: nat, a: seq<Event>, b: seq<Event>)
    requires ParentsFirst(cfg, a) && Nested(cfg, doc, [], b)
    ensures ParentsFirst(cfg, a + b)
  {
    var c := a + b;
    forall i | 0 <= i < |c|
      ensures 1 <= |c[i].at| <= cfg.maxDepth + 1
      ensures |c[i].at| >= 2 ==> exists j :: 0 <= j < i && c[j].doc == c[i].doc && c[j].at == Front(c[i].at)
    {
      if i < |a| {
        assert c[i] == a[i];
        if |a[i].at| >= 2 {
          var j :| 0 <= j < i && a[j].doc == a[i].doc && a[j].at == Front(a[i].at);
          assert c[j] == a[j];
        }
      } else {
        var k := i - |a|;
        assert c[i] == b[k];
        if |b[k].at| >= 2 {
          var j :| 0 <= j < k && b[j].at == Front(b[k].at);
          assert c[j + |a|] == b[j];
        }
      }
    }
  }

  lemma PlainParent(at: Location)
    requires PlainLocation(at) && |at| >= 2
    ensures PlainLocation(Front(at))
  {
    forall i | 0 <= i < |Front(at)| && Front(at)[i].Key? ensures PlainName(Front(at)[i].name) {
      assert Front(at)[i] == at[i];
    }
  }

  /** Tracked paths are closed under taking parents: a tracked child's parent is tracked, has a
      smaller position, and is present in at least as many documents. */
  lemma ParentTrackedFirst(cfg: Config, docs: seq<seq<Field>>, at: Location)
    requires PlainDocs(docs) && PlainLocation(at) && |at| >= 2
    requires Render(at) in Tracked(cfg, LogOf(cfg, docs))
    ensures Render(Front(at)) in Tracked(cfg, LogOf(cfg, docs))
    ensures var parent, child := ColumnOf(cfg, docs, Render(Front(at))), ColumnOf(cfg, docs, Render(at));
            parent.position < child.position && parent.presenceRate >= child.presenceRate
  {
    hide LogOf, At, Paths, Render, PlainLocation, LiveLog, KeptBytes, LiveKeys, LeavesOf, Sampled, Keep,
         DataType, Overfull;
    var log := LogOf(cfg, docs);
    var q, c := Render(Front(at)), Render(at);
    ParentOccursFirst(cfg, docs, at);
    KeepPrecedes(Paths(log), q, c, cfg.maxPaths);
    ParentInMoreDocs(cfg, docs, at);
    SubsetCardinality(DocsOf(At(log, c)), DocsOf(At(log, q)));
    RateMonotone(|DocsOf(At(log, c))|, |DocsOf(At(log, q))|, if |docs| == 0 then 1.0 else |docs| as real);
  }

  lemma RateMonotone(a: nat, b: nat, d: real)
    requires a <= b && d > 0.0
    ensures a as real / d <= b as real / d
  {
  }

  lemma ParentOccursFirst(cfg: Config, docs: seq<seq<Field>>, at: Location)
    requires PlainDocs(docs) && PlainLocation(at) && |at| >= 2
    ensures var s, q, c := Paths(LogOf(cfg, docs)), Render(Front(at)), Render(at);
            q != c && forall i :: 0 <= i < |s| && s[i] == c ==> q in s[..i]
  {
    hide LogOf, Render, PlainLocation;
    var log := LogOf(cfg, docs);
    var s, q, c := Paths(log), Render(Front(at)), Render(at);
    PlainParent(at);
    RenderInjective(Front(at), at);
    PathMeansLocation(cfg, docs, at);
    LogParentsFirst(cfg, docs);
    forall i | 0 <= i < |s| && s[i] == c ensures q in s[..i] {
      assert log[i] in log && log[i].at == at;
      var j :| 0 <= j < i && log[j].doc == log[i].doc && log[j].at == Front(at);
      assert s[..i][j] == q;
    }
  }

  lemma ParentInMoreDocs(cfg: Config, docs: seq<seq<Field>>, at: Location)
    requires PlainDocs(docs) && PlainLocation(at) && |at| >= 2
    ensures var log := LogOf(cfg, docs);
            DocsOf(At(log, Render(at))) <= DocsOf(At(log, Render(Front(at))))
  {
    hide LogOf, Render, PlainLocation, At;
    var log := LogOf(cfg, docs);
    PathMeansLocation(cfg, docs, at);
    LogParentsFirst(cfg, docs);
    AtMembers(log, Render(at));
    AtMembers(log, Render(Front(at)));
    forall d | d in DocsOf(At(log, Render(at))) ensures d in DocsOf(At(log, Render(Front(at)))) {
      var e :| e in At(log, Render(at)) && e.doc == d;
      var i :| 0 <= i < |log| && log[i] == e;
      assert e.at == at;
      var j :| 0 <= j < i && log[j].doc == d && log[j].at == Front(at);
      assert log[j] in log && Path(log[j]) == Render(Front(at));
      assert log[j] in At(log, Render(Front(at)));
    }
  }

  /** What a column says about its location: whether it is below an array, and whether it lies
      just past the depth limit, which is as deep as tracking goes. */
  lemma ColumnMatchesLocation(cfg: Config, docs: seq<seq<Field>>, at: Location)
    requires PlainDocs(docs) && PlainLocation(at)
    requires Render(at) in Tracked(cfg, LogOf(cfg, docs))
    ensures var c := ColumnOf(cfg, docs, Render(at));
            && |at| <= cfg.maxDepth + 1
            && (c.isArrayElement <==> InArray(at))
            && (c.dataType == TRUNCATED <==> |at| == cfg.maxDepth + 1)
  {
    hide LogOf, At, Render, PlainLocation, LiveLog, KeptBytes, LiveKeys, LeavesOf, Sampled, Keep,
         Overfull, Tracked;
    var log := LogOf(cfg, docs);
    var evs := At(log, Render(at));
    PathMeansLocation(cfg, docs, at);
    AtMembers(log, Render(at));
    LogParentsFirst(cfg, docs);
    TrackedOccurs(cfg, log, Render(at));
    var e := evs[0];
    assert e in evs && e in log && e.at == at;
    var i :| 0 <= i < |log| && log[i] == e;
    assert |log[i].at| <= cfg.maxDepth + 1;
    var labels := LabelsOf(cfg, evs);
    assert EventLabel(cfg, e) in labels;
    if |at| > cfg.maxDepth {
      assert labels == {TRUNCATED};
    } else {
      assert TRUNCATED !in labels;
    }
  }

  // ---------- Outside arrays ----------

  ghost predicate OncePerDoc(log: seq<Event>) {
    forall i, j :: 0 <= i < j < |log| && log[i].doc == log[j].doc && log[i].at == log[j].at ==> InArray(log[i].at)
  }

  lemma {:induction false} LogOnce(cfg: Config, docs: seq<seq<Field>>)
    requires forall d :: d in docs ==> UniqueKeys(d)
    ensures OncePerDoc(LogOf(cfg, docs))
  {
    if docs != [] {
      var a, b := LogOf(cfg, Front(docs)), DocEvents(cfg, |docs|, Last(docs));
      LogOnce(cfg, Front(docs));
      DocsBounded(cfg, Front(docs));
      FieldsNested(cfg, |docs|, [], Last(docs), |Last(docs)|);
      FieldsOnce(cfg, |docs|, [], Last(docs), |Last(docs)|);
      assert forall i :: 0 <= i < |a| ==> a[i] in a;
    }
  }

  lemma {:induction false} AtOnce(log: seq<Event>, path: string)
    requires forall i, j :: 0 <= i < j < |log| && Path(log[i]) == path == Path(log[j]) ==> log[i].doc != log[j].doc
    ensures |DocsOf(At(log, path))| == |At(log, path)|
  {
    if log != [] {
      AtOnce(Front(log), path);
      if Path(Last(log)) == path {
        var evs := At(Front(log), path);
        DocsAppend(evs, Last(log));
        AtMembers(Front(log), path);
        forall e | e in evs ensures e.doc != Last(log).doc {
          var i :| 0 <= i < |Front(log)| && Front(log)[i] == e;
          assert log[i] == e && log[|log| - 1] == Last(log);
        }
      }
    }
  }

  lemma {:induction false} NullsAtMost(evs: seq<Event>)
    ensures |NullsOf(evs)| <= |evs|
  {
    if evs != [] {
      NullsAtMost(Front(evs));
      NullsAppend(Front(evs), Last(evs));
      assert evs == Front(evs) + [Last(evs)];
    } else {
      assert NullsOf(evs) == {};
    }
  }

  lemma CountsOutsideArrays(cfg: Config, docs: seq<seq<Field>>, at: Location)
    requires PlainDocs(docs) && PlainLocation(at) && !InArray(at)
    requires forall d :: d in docs ==> UniqueKeys(d)
    ensures var evs := At(LogOf(cfg, docs), Render(at));
            && |DocsOf(evs)| == |evs|
            && |NullsOf(evs)| == |NullDocs(evs)| <= |evs|
  {
    hide LogOf, At, Render, PlainLocation, InArray, DocsOf, NullsOf, NullDocs, UniqueKeys;
    var log := LogOf(cfg, docs);
    var path := Render(at);
    PathMeansLocation(cfg, docs, at);
    LogOnce(cfg, docs);
    forall i, j | 0 <= i < j < |log| && Path(log[i]) == path == Path(log[j])
      ensures log[i].doc != log[j].doc
    {
      assert log[i] in log && log[j] in log;
    }
    AtOnce(log, path);
    AtDistinctDocs(log, path);
    NullCountMeaning(At(log, path));
    NullsAtMost(At(log, path));
  }

  /** Outside arrays a document visits a path at most once, so the null rate is the fraction of
      documents with a null there and never exceeds the presence rate. */
  lemma NullRateOutsideArrays(cfg: Config, docs: seq<seq<Field>>, at: Location)
    requires PlainDocs(docs) && PlainLocation(at) && !InArray(at)
    requires forall d :: d in docs ==> UniqueKeys(d)
    requires Render(at) in Tracked(cfg, LogOf(cfg, docs))
    ensures var log := LogOf(cfg, docs);
            var s := StatsOf(cfg, log, log, Render(at));
            && s.seenCount == |At(log, Render(at))|
            && s.nullCount == |NullDocs(At(log, Render(at)))| <= s.seenCount
    ensures var c := ColumnOf(cfg, docs, Render(at));
            0.0 <= c.nullRate <= c.presenceRate <= 1.0
  {
    hide LogOf, At, Render, PlainLocation, LiveLog, KeptBytes, LiveKeys, LeavesOf, Sampled, Keep,
         Overfull, Tracked, DataType, InArray, DocsOf, NullsOf, NullDocs, Mentions, HoldsNull,
         Mentioning, LabelsOf, MaxLength, AnyInArray, PlainDocs, UniqueKeys, Alphabetical, Tripped;
    var evs := At(LogOf(cfg, docs), Render(at));
    CountsOutsideArrays(cfg, docs, at);
    NullableMeaning(cfg, docs, Render(at));
    RateMonotone(|NullsOf(evs)|, |DocsOf(evs)|, |docs| as real);
  }

  lemma {:induction false} AtDistinctDocs(log: seq<Event>, path: string)
    requires forall i, j :: 0 <= i < j < |log| && Path(log[i]) == path == Path(log[j]) ==> log[i].doc != log[j].doc
    ensures OneNullPerDoc(At(log, path))
  {
    if log != [] {
      AtDistinctDocs(Front(log), path);
      AtMembers(Front(log), path);
      var evs := At(Front(log), path);
      if Path(Last(log)) == path {
        forall e | e in evs ensures e.doc != Last(log).doc {
          var i :| 0 <= i < |Front(log)| && Front(log)[i] == e;
          assert log[i] == e && log[|log| - 1] == Last(log);
        }
        assert forall i :: 0 <= i < |evs| ==> evs[i] in evs;
      }
    }
  }

  /** A document with two nulls in one array. */
  function PairOfNulls(): seq<Field> {
    [Field("a", Array([Null, Null]))]
  }

  lemma PairLog(cfg: Config)
    requires cfg.maxDepth >= 2 && cfg.maxArrayElements >= 2
    ensures var at, child := [Key("a")], [Key("a"), Element];
            LogOf(cfg, [PairOfNulls()]) ==
            [Event(1, at, Array([Null, Null])), Event(1, child, Null), Event(1, child, Null)]
  {
    var items := [Null, Null];
    var at, child: Location := [Key("a")], [Key("a"), Element];
    assert [] + [Key("a")] == at && at + [Element] == child;
    var e := Event(1, child, Null);
    assert ItemEvents(cfg, 1, at, items, 1) == [e];
    assert ItemEvents(cfg, 1, at, items, 2) == [e, e];
    assert FieldEvents(cfg, 1, [], PairOfNulls(), 1) == [Event(1, at, Array(items))] + [e, e];
    assert Front([PairOfNulls()]) == [];
  }

  lemma PairPaths()
    ensures Render([Key("a")]) == "a" && Render([Key("a"), Element]) == "a[]"
  {
    assert Front([Key("a"), Element]) == [Key("a")];
  }

  lemma PairCounts(cfg: Config)
    requires cfg.maxPaths >= 2 && cfg.maxDepth >= 2 && cfg.maxArrayElements >= 2
    ensures var log := LogOf(cfg, [PairOfNulls()]);
            "a[]" in Tracked(cfg, log) && |NullsOf(At(log, "a[]"))| == 2
  {
    hide LogOf, Tracked, At, NullsOf, PairOfNulls;
    PairLog(cfg);
    PairPaths();
    TwoNulls(cfg, LogOf(cfg, [PairOfNulls()]));
  }

  /** Inside arrays it is not a rate: one document can count several nulls. */
  lemma NullRateInsideArrays(cfg: Config)
    requires cfg.maxDepth >= 2 && cfg.maxPaths >= 2 && cfg.maxArrayElements >= 2
    ensures "a[]" in Tracked(cfg, LogOf(cfg, [PairOfNulls()]))
    ensures ColumnOf(cfg, [PairOfNulls()], "a[]").nullRate == 2.0
  {
    hide LogOf, At, Tracked, NullsOf, LiveLog, KeptBytes, LiveKeys, LeavesOf, Sampled, DataType,
         Overfull, Keep, PairOfNulls;
    PairCounts(cfg);
  }

  lemma TwoNulls(cfg: Config, log: seq<Event>)
    requires cfg.maxPaths >= 2 && |log| == 3
    requires Path(log[0]) == "a" && Path(log[1]) == "a[]" == Path(log[2])
    requires log[1].value == Null == log[2].value
    ensures "a[]" in Tracked(cfg, log)
    ensures |NullsOf(At(log, "a[]"))| == 2
  {
    TwoNullsTracked(cfg, log);
    TwoNullsAt(log);
    hide Tracked, Path, At, NullsOf;
    assert |NullsOf([])| == 0 by { NullsAtMost([]); }
    NullsAppend([], log[1]);
    NullsAppend([log[1]], log[2]);
    assert [] + [log[1]] == [log[1]];
  }

  lemma TwoNullsAt(log: seq<Event>)
    requires |log| == 3 && Path(log[0]) == "a" && Path(log[1]) == "a[]" == Path(log[2])
    ensures At(log, "a[]") == [log[1]] + [log[2]]
  {
    hide Path, At;
    var e0, e1, e2 := log[0], log[1], log[2];
    assert [] + [e0] == [e0] && [e0] + [e1] == [e0, e1] && [e0, e1] + [e2] == log && [] + [e1] == [e1];
    assert At([], "a[]") == [] by { AtMembers([], "a[]"); }
    AtAppend([], e0, "a[]");
    AtAppend([e0], e1, "a[]");
    AtAppend([e0, e1], e2, "a[]");
  }

  lemma TwoNullsTracked(cfg: Config, log: seq<Event>)
    requires cfg.maxPaths >= 2 && |log| == 3
    requires Path(log[0]) == "a" && Path(log[1]) == "a[]" == Path(log[2])
    ensures "a[]" in Tracked(cfg, log)
  {
    hide Path, Firsts;
    var ps := Paths(log);
    KeepProperties(ps, cfg.maxPaths);
    assert ps == ["a", "a[]", "a[]"];
    assert ToSet(ps) == {"a", "a[]"} && |{"a", "a[]"}| == 2;
    assert ps[1] in ToSet(Keep(ps, cfg.maxPaths));
  }
}
