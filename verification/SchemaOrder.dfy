/** Order independence: which documents were sampled matters, the order in which they arrived
    does not. */
module SchemaOrder {
  import opened Collections
  import opened BsonValues
  import opened SchemaEvents
  import opened SchemaStats
  import opened SchemaColumns
  import opened SchemaPresence
  import opened SchemaDistinct
  import opened Reservoir

  // ---------- Sums over a permuted sequence ----------

  ghost function SumOf<T>(s: seq<T>, f: T -> nat): nat {
    if s == [] then 0 else SumOf(Front(s), f) + f(Last(s))
  }

  lemma {:induction false} SumRemove<T>(s: seq<T>, f: T -> nat, i: nat)
    requires i < |s|
    ensures SumOf(s, f) == SumOf(s[..i] + s[i + 1..], f) + f(s[i])
  {
    var r := s[..i] + s[i + 1..];
    if i == |s| - 1 {
      assert r == Front(s);
    } else {
      SumRemove(Front(s), f, i);
      assert Front(r) == Front(s)[..i] + Front(s)[i + 1..];
    }
  }

  lemma MultisetRemove<T>(s: seq<T>, i: nat)
    requires i < |s|
    ensures multiset(s[..i] + s[i + 1..]) == multiset(s) - multiset{s[i]}
  {
    assert s == s[..i] + [s[i]] + s[i + 1..];
  }

  lemma {:induction false} SumPermutation<T>(s: seq<T>, t: seq<T>, f: T -> nat)
    requires multiset(s) == multiset(t)
    ensures SumOf(s, f) == SumOf(t, f)
  {
    if s == [] {
      assert |multiset(t)| == 0;
    } else {
      assert Last(s) in multiset(t);
      var i :| 0 <= i < |t| && t[i] == Last(s);
      MultisetRemove(s, |s| - 1);
      assert s[..|s| - 1] + s[|s|..] == Front(s);
      MultisetRemove(t, i);
      SumPermutation(Front(s), t[..i] + t[i + 1..], f);
      SumRemove(t, f, i);
    }
  }

  // ---------- What a single document contributes ----------

  lemma NullsConcat(a: seq<Event>, b: seq<Event>)
    ensures |NullsOf(a + b)| == |NullsOf(a)| + |NullsOf(b)|
  {
    if b == [] {
      assert a + b == a && NullsOf(b) == {};
    } else {
      NullsConcat(a, Front(b));
      assert a + b == (a + Front(b)) + [Last(b)] && b == Front(b) + [Last(b)];
      NullsAppend(a + Front(b), Last(b));
      NullsAppend(Front(b), Last(b));
    }
  }

  lemma {:induction false} AtConcat(a: seq<Event>, b: seq<Event>, path: string)
    ensures At(a + b, path) == At(a, path) + At(b, path)
  {
    if b == [] {
      assert a + b == a;
    } else {
      AtConcat(a, Front(b), path);
      assert Front(a + b) == a + Front(b) && Last(a + b) == Last(b);
    }
  }

  lemma {:induction false} AtRenumber(evs: seq<Event>, doc: nat, path: string)
    ensures At(Renumber(evs, doc), path) == Renumber(At(evs, path), doc)
  {
    if evs != [] {
      AtRenumber(Front(evs), doc, path);
      assert Front(Renumber(evs, doc)) == Renumber(Front(evs), doc);
    }
  }

  ghost function DocNulls(cfg: Config, path: string): seq<Field> -> nat {
    (doc: seq<Field>) => |NullsOf(At(DocEvents(cfg, 0, doc), path))|
  }

  ghost function DocMentions(cfg: Config, path: string): seq<Field> -> nat {
    (doc: seq<Field>) => if Mentions(cfg, doc, path) then 1 else 0
  }

  lemma {:induction false} NullsAreSum(cfg: Config, docs: seq<seq<Field>>, path: string)
    ensures |NullsOf(At(LogOf(cfg, docs), path))| == SumOf(docs, DocNulls(cfg, path))
  {
    if docs == [] {
      assert NullsOf([]) == {};
    } else {
      hide At, NullsOf;
      NullsAreSum(cfg, Front(docs), path);
      var a, b := LogOf(cfg, Front(docs)), DocEvents(cfg, |docs|, Last(docs));
      AtConcat(a, b, path);
      NullsConcat(At(a, path), At(b, path));
      NullsRenumbered(cfg, Last(docs), |docs|, path);
    }
  }

  lemma NullsRenumbered(cfg: Config, doc: seq<Field>, d: nat, path: string)
    ensures |NullsOf(At(DocEvents(cfg, d, doc), path))| == DocNulls(cfg, path)(doc)
  {
    RenumberFields(cfg, 0, d, [], doc, |doc|);
    AtRenumber(DocEvents(cfg, 0, doc), d, path);
    var evs := At(DocEvents(cfg, 0, doc), path);
    assert NullsOf(Renumber(evs, d)) == NullsOf(evs);
  }

  lemma MentionsAtAppend(cfg: Config, docs: seq<seq<Field>>, doc: seq<Field>, d: nat, path: string)
    ensures MentionsAt(cfg, docs + [doc], d, path) <==>
            MentionsAt(cfg, docs, d, path) || (d == |docs| + 1 && Mentions(cfg, doc, path))
  {
    hide Mentions;
    if 1 <= d <= |docs| {
      assert (docs + [doc])[d - 1] == docs[d - 1];
    }
  }

  lemma MentioningAppend(cfg: Config, docs: seq<seq<Field>>, doc: seq<Field>, path: string)
    ensures |Mentioning(cfg, docs + [doc], path)| ==
            |Mentioning(cfg, docs, path)| + if Mentions(cfg, doc, path) then 1 else 0
  {
    hide Mentions, UpTo, MentionsAt;
    var n := |docs| + 1;
    var a, b := Mentioning(cfg, docs, path), Mentioning(cfg, docs + [doc], path);
    forall d: nat ensures d in b <==> d in a || (d == n && Mentions(cfg, doc, path)) {
      MentionsAtAppend(cfg, docs, doc, d, path);
      assert !MentionsAt(cfg, docs, n, path) by { NotMentionedYet(cfg, docs, path); }
    }
    assert b == a + if Mentions(cfg, doc, path) then {n} else {};
  }

  lemma NotMentionedYet(cfg: Config, docs: seq<seq<Field>>, path: string)
    ensures !MentionsAt(cfg, docs, |docs| + 1, path)
  {
  }

  lemma {:induction false} MentionsAreSum(cfg: Config, docs: seq<seq<Field>>, path: string)
    ensures |Mentioning(cfg, docs, path)| == SumOf(docs, DocMentions(cfg, path))
  {
    if docs != [] {
      hide Mentions, Mentioning;
      MentionsAreSum(cfg, Front(docs), path);
      MentioningAppend(cfg, Front(docs), Last(docs), path);
      assert docs == Front(docs) + [Last(docs)];
    } else {
      assert Mentioning(cfg, docs, path) == {};
    }
  }

  /** An event of one sample occurs, up to the document's number, in any permutation of it. */
  lemma EventTransfers(cfg: Config, docs: seq<seq<Field>>, docs': seq<seq<Field>>, e: Event)
    requires multiset(docs) == multiset(docs')
    requires e in LogOf(cfg, docs)
    ensures exists d: nat :: e.(doc := d) in LogOf(cfg, docs')
  {
    hide LogOf, DocEvents;
    LogMember(cfg, docs, e);
    var doc := docs[e.doc - 1];
    assert doc in multiset(docs');
    var j :| 0 <= j < |docs'| && docs'[j] == doc;
    RenumberMember(cfg, doc, e, j + 1);
    LogMember(cfg, docs', e.(doc := j + 1));
  }

  /** The sets of paths, labels, lengths, array flags and leaf keys only grow with the events
      that occur, whatever document they come from. */
  lemma StatsTransfer(cfg: Config, docs: seq<seq<Field>>, docs': seq<seq<Field>>, path: string)
    requires multiset(docs) == multiset(docs')
    ensures var a, b := LogOf(cfg, docs), LogOf(cfg, docs');
            && ToSet(Paths(a)) <= ToSet(Paths(b))
            && LabelsOf(cfg, At(a, path)) <= LabelsOf(cfg, At(b, path))
            && LengthsOf(cfg, At(a, path)) <= LengthsOf(cfg, At(b, path))
            && (AnyInArray(At(a, path)) ==> AnyInArray(At(b, path)))
            && LeafKeys(cfg, a, path) <= LeafKeys(cfg, b, path)
  {
    hide LogOf, At, KeyOf;
    var a, b := LogOf(cfg, docs), LogOf(cfg, docs');
    AtMembers(a, path);
    AtMembers(b, path);
    forall e | e in a ensures exists d: nat :: e.(doc := d) in b {
      EventTransfers(cfg, docs, docs', e);
    }
    forall p | p in ToSet(Paths(a)) ensures p in ToSet(Paths(b)) {
      var i :| 0 <= i < |a| && Path(a[i]) == p;
      assert a[i] in a;
      var d: nat :| a[i].(doc := d) in b;
      var j :| 0 <= j < |b| && b[j] == a[i].(doc := d);
      assert Paths(b)[j] == p;
    }
    forall e | e in At(a, path) ensures exists d: nat :: e.(doc := d) in At(b, path) {
      var d: nat :| e.(doc := d) in b;
      assert Path(e.(doc := d)) == path;
      assert e.(doc := d) in At(b, path);
    }
    LabelsTransfer(cfg, At(a, path), At(b, path));
    forall k | k in LeafKeys(cfg, a, path) ensures k in LeafKeys(cfg, b, path) {
      var e :| e in a && Path(e) == path && e.value.IsLeaf() && KeyOf(cfg, e.value) == k;
      var d: nat :| e.(doc := d) in b;
      assert Path(e.(doc := d)) == path;
    }
  }

  lemma LabelsTransfer(cfg: Config, a: seq<Event>, b: seq<Event>)
    requires forall e :: e in a ==> exists d: nat :: e.(doc := d) in b
    ensures LabelsOf(cfg, a) <= LabelsOf(cfg, b)
    ensures LengthsOf(cfg, a) <= LengthsOf(cfg, b)
    ensures AnyInArray(a) ==> AnyInArray(b)
  {
    forall l | l in LabelsOf(cfg, a) ensures l in LabelsOf(cfg, b) {
      var e :| e in a && EventLabel(cfg, e) == l;
      var d: nat :| e.(doc := d) in b;
      assert EventLabel(cfg, e.(doc := d)) == l;
    }
    forall n | n in LengthsOf(cfg, a) ensures n in LengthsOf(cfg, b) {
      var e :| e in a && e.value.Array? && !Deep(cfg, e) && |e.value.items| == n;
      var d: nat :| e.(doc := d) in b;
      assert !Deep(cfg, e.(doc := d));
    }
    if e :| e in a && InArray(e.at) {
      var d: nat :| e.(doc := d) in b;
      assert InArray(e.(doc := d).at);
    }
  }

  // ---------- The path cap ----------

  /** The paths a document gets tracked if it comes first. */
  ghost function OwnPaths(cfg: Config, doc: seq<Field>): seq<string> {
    Tracked(cfg, DocEvents(cfg, 1, doc))
  }

  /** No document, had it come first, would get a path tracked that the sample refuses. */
  ghost predicate NoneDisplaced(cfg: Config, docs: seq<seq<Field>>) {
    forall d, p :: d in docs && p in OwnPaths(cfg, d) ==> p in Tracked(cfg, LogOf(cfg, docs))
  }

  lemma PathsConcat(a: seq<Event>, b: seq<Event>)
    ensures Paths(a + b) == Paths(a) + Paths(b)
  {
  }

  lemma PathsRenumbered(cfg: Config, doc: seq<Field>, n: nat)
    ensures Paths(DocEvents(cfg, n, doc)) == Paths(DocEvents(cfg, 1, doc))
  {
    RenumberFields(cfg, 1, n, [], doc, |doc|);
  }

  lemma {:induction false} TrackedIsOwn(cfg: Config, docs: seq<seq<Field>>, p: string)
    requires p in Tracked(cfg, LogOf(cfg, docs))
    ensures exists d :: d in docs && p in OwnPaths(cfg, d)
  {
    hide DocEvents, Keep, Paths;
    if docs == [] {
      KeepProperties(Paths([]), cfg.maxPaths);
      assert Paths([]) == [] by { NoPaths(); }
      assert false;
    } else {
      var a, b := LogOf(cfg, Front(docs)), DocEvents(cfg, |docs|, Last(docs));
      PathsConcat(a, b);
      PathsRenumbered(cfg, Last(docs), |docs|);
      KeepConcat(Paths(a), Paths(b), cfg.maxPaths, p);
      if p in Tracked(cfg, a) {
        TrackedIsOwn(cfg, Front(docs), p);
      } else {
        assert Last(docs) in docs && p in OwnPaths(cfg, Last(docs));
      }
    }
  }

  lemma NoPaths()
    ensures Paths([]) == []
  {
  }

  /** Whatever follows, the first document gets its own paths, in its own order. */
  lemma {:induction false} FirstDocTracked(cfg: Config, doc: seq<Field>, rest: seq<seq<Field>>)
    ensures OwnPaths(cfg, doc) <= Tracked(cfg, LogOf(cfg, [doc] + rest))
  {
    hide DocEvents, Keep, Paths;
    var docs := [doc] + rest;
    if rest == [] {
      assert docs == [doc] && Front(docs) == [] && LogOf(cfg, []) == [];
      assert LogOf(cfg, docs) == [] + DocEvents(cfg, 1, doc) == DocEvents(cfg, 1, doc);
    } else {
      assert Front(docs) == [doc] + Front(rest);
      FirstDocTracked(cfg, doc, Front(rest));
      var a, b := LogOf(cfg, Front(docs)), DocEvents(cfg, |docs|, Last(docs));
      PathsConcat(a, b);
      KeepMonotone(Paths(a), Paths(b), cfg.maxPaths);
    }
  }

  /** The sample with document `k` moved to the front. */
  ghost function MovedFirst(docs: seq<seq<Field>>, k: nat): seq<seq<Field>>
    requires k < |docs|
    ensures multiset(MovedFirst(docs, k)) == multiset(docs)
  {
    MultisetRemove(docs, k);
    [docs[k]] + (docs[..k] + docs[k + 1..])
  }

  lemma SameTracked(cfg: Config, docs: seq<seq<Field>>, docs': seq<seq<Field>>)
    requires multiset(docs) == multiset(docs') && NoneDisplaced(cfg, docs)
    ensures ToSet(Tracked(cfg, LogOf(cfg, docs'))) == ToSet(Tracked(cfg, LogOf(cfg, docs)))
  {
    hide LogOf, Paths, Keep, OwnPaths;
    StatsTransfer(cfg, docs, docs', "");
    StatsTransfer(cfg, docs', docs, "");
    var p, q := Paths(LogOf(cfg, docs)), Paths(LogOf(cfg, docs'));
    assert ToSet(p) == ToSet(q);
    KeepProperties(p, cfg.maxPaths);
    KeepProperties(q, cfg.maxPaths);
    NoDuplicatesCardinality(Keep(p, cfg.maxPaths));
    NoDuplicatesCardinality(Keep(q, cfg.maxPaths));
    forall x | x in ToSet(Keep(q, cfg.maxPaths)) ensures x in ToSet(Keep(p, cfg.maxPaths)) {
      TrackedIsOwn(cfg, docs', x);
      var d :| d in docs' && x in OwnPaths(cfg, d);
      assert d in multiset(docs') && d in docs;
      assert x in Tracked(cfg, LogOf(cfg, docs));
    }
    SameSize(ToSet(Keep(q, cfg.maxPaths)), ToSet(Keep(p, cfg.maxPaths)));
  }

  lemma SameSize<T>(a: set<T>, b: set<T>)
    requires a <= b && |a| == |b|
    ensures a == b
  {
    assert |b - a| == 0;
  }

  /** Exactly when the order of the sample does not decide which paths become columns: if no
      document, had it come first, would get a path tracked that the sample refuses. */
  lemma OrderExactAtPathCap(cfg: Config, docs: seq<seq<Field>>)
    ensures NoneDisplaced(cfg, docs) <==>
            forall docs' :: multiset(docs') == multiset(docs) ==>
              ToSet(Tracked(cfg, LogOf(cfg, docs'))) == ToSet(Tracked(cfg, LogOf(cfg, docs)))
  {
    hide LogOf, Tracked, OwnPaths;
    if NoneDisplaced(cfg, docs) {
      forall docs' | multiset(docs') == multiset(docs)
        ensures ToSet(Tracked(cfg, LogOf(cfg, docs'))) == ToSet(Tracked(cfg, LogOf(cfg, docs)))
      {
        SameTracked(cfg, docs, docs');
      }
    } else {
      var d, p :| d in docs && p in OwnPaths(cfg, d) && p !in Tracked(cfg, LogOf(cfg, docs));
      var k :| 0 <= k < |docs| && docs[k] == d;
      FirstDocTracked(cfg, d, docs[..k] + docs[k + 1..]);
      assert p in ToSet(Tracked(cfg, LogOf(cfg, MovedFirst(docs, k))));
    }
  }

  /** Under the cap nothing is refused, so nothing is displaced. */
  lemma RoomForAll(cfg: Config, docs: seq<seq<Field>>)
    requires |ToSet(Paths(LogOf(cfg, docs)))| <= cfg.maxPaths
    ensures NoneDisplaced(cfg, docs)
  {
    hide LogOf, Keep, Paths, OwnPaths;
    KeepProperties(Paths(LogOf(cfg, docs)), cfg.maxPaths);
    forall d, p | d in docs && p in OwnPaths(cfg, d) ensures p in Tracked(cfg, LogOf(cfg, docs)) {
      var k :| 0 <= k < |docs| && docs[k] == d;
      var moved := MovedFirst(docs, k);
      FirstDocTracked(cfg, d, docs[..k] + docs[k + 1..]);
      StatsTransfer(cfg, moved, docs, "");
      KeepProperties(Paths(LogOf(cfg, moved)), cfg.maxPaths);
      assert p in ToSet(Paths(LogOf(cfg, moved)));
      assert p in ToSet(Keep(Paths(LogOf(cfg, docs)), cfg.maxPaths));
    }
  }

  lemma {:induction false} FirstEvent(cfg: Config, doc: nat, fields: seq<Field>, n: nat)
    requires 0 < n <= |fields|
    ensures FieldEvents(cfg, doc, [], fields, n) != []
    ensures Path(FieldEvents(cfg, doc, [], fields, n)[0]) == fields[0].key
  {
    if n > 1 {
      FirstEvent(cfg, doc, fields, n - 1);
    } else {
      assert FieldEvents(cfg, doc, [], fields, 0) == [];
      assert [] + [Key(fields[0].key)] == [Key(fields[0].key)];
    }
  }

  lemma FirstPath(cfg: Config, doc: seq<Field>)
    requires doc != []
    ensures var ps := Paths(DocEvents(cfg, 1, doc));
            ps != [] && ps[0] == doc[0].key
  {
    FirstEvent(cfg, 1, doc, |doc|);
  }

  lemma FirstPathOwn(cfg: Config, doc: seq<Field>)
    requires cfg.maxPaths >= 1 && doc != []
    ensures doc[0].key in OwnPaths(cfg, doc)
  {
    hide DocEvents, Keep;
    var ps := Paths(DocEvents(cfg, 1, doc));
    FirstPath(cfg, doc);
    assert ps == [ps[0]] + ps[1..];
    KeepMonotone([ps[0]], ps[1..], cfg.maxPaths);
    assert ps[0] in Keep([ps[0]], cfg.maxPaths) by { KeepsOnly(ps[0], cfg.maxPaths); }
  }

  lemma KeepsOnly<T>(x: T, cap: nat)
    requires cap >= 1
    ensures x in Keep([x], cap)
  {
    FirstsAppend([], x);
    assert [] + [x] == [x];
  }

  /** At the path cap the order does matter, for every cap and every sample: a document whose
      first field was refused gets it tracked when it is moved to the front. */
  lemma OrderMattersAtPathCap(cfg: Config, docs: seq<seq<Field>>, k: nat)
    requires cfg.maxPaths >= 1 && k < |docs| && docs[k] != []
    requires docs[k][0].key !in Tracked(cfg, LogOf(cfg, docs))
    ensures multiset(MovedFirst(docs, k)) == multiset(docs)
    ensures docs[k][0].key in Tracked(cfg, LogOf(cfg, MovedFirst(docs, k)))
    ensures !NoneDisplaced(cfg, docs)
  {
    hide LogOf, Tracked, OwnPaths;
    FirstPathOwn(cfg, docs[k]);
    FirstDocTracked(cfg, docs[k], docs[..k] + docs[k + 1..]);
  }

  // ---------- Everything else a column says ----------

  /** What the order of documents may change: the position, the samples, and whether a repeat
      raised the path's flag. */
  ghost function OrderFree(c: Column): Column {
    c.(position := 0, sampleValues := None, distinctCapped := false)
  }

  /** While no document is displaced at the path cap and the byte ceiling is not passed, permuting
      the sample changes neither the set of columns nor anything else a column says about its
      path. */
  lemma OrderIndependence(cfg: Config, docs: seq<seq<Field>>, docs': seq<seq<Field>>, path: string)
    requires multiset(docs) == multiset(docs')
    requires NoneDisplaced(cfg, docs)
    requires !Tripped(cfg, LogOf(cfg, docs)) && !Tripped(cfg, LogOf(cfg, docs'))
    ensures path in Tracked(cfg, LogOf(cfg, docs)) <==> path in Tracked(cfg, LogOf(cfg, docs'))
    ensures path in Tracked(cfg, LogOf(cfg, docs)) ==>
              OrderFree(ColumnOf(cfg, docs, path)) == OrderFree(ColumnOf(cfg, docs', path))
  {
    hide NoneDisplaced;
    SameTracked(cfg, docs, docs');
    assert path in ToSet(Tracked(cfg, LogOf(cfg, docs))) <==> path in ToSet(Tracked(cfg, LogOf(cfg, docs')));
    if path in Tracked(cfg, LogOf(cfg, docs)) {
      hide LogOf, StatsOf, Tripped, Tracked, EmitColumn;
      var a, b := LogOf(cfg, docs), LogOf(cfg, docs');
      SameStats(cfg, docs, docs', path);
      assert |docs| == |multiset(docs)| == |multiset(docs')| == |docs'|;
      SameColumn(path, StatsOf(cfg, a, a, path), StatsOf(cfg, b, b, path), |docs|);
    }
  }

  lemma SameColumn(path: string, s: PathStats, t: PathStats, docsSampled: nat)
    requires s.seenCount == t.seenCount && s.nullCount == t.nullCount && s.types == t.types
    requires |s.distinct| == |t.distinct| && s.arrayMaxLen == t.arrayMaxLen
    requires s.isArrayElement == t.isArrayElement
    ensures OrderFree(EmitColumn(path, s, docsSampled, false)) == OrderFree(EmitColumn(path, t, docsSampled, false))
  {
  }

  lemma SameStats(cfg: Config, docs: seq<seq<Field>>, docs': seq<seq<Field>>, path: string)
    requires multiset(docs) == multiset(docs')
    requires path in Tracked(cfg, LogOf(cfg, docs)) && path in Tracked(cfg, LogOf(cfg, docs'))
    requires !Tripped(cfg, LogOf(cfg, docs)) && !Tripped(cfg, LogOf(cfg, docs'))
    ensures var a, b := LogOf(cfg, docs), LogOf(cfg, docs');
            var s, t := StatsOf(cfg, a, a, path), StatsOf(cfg, b, b, path);
            && s.seenCount == t.seenCount && s.nullCount == t.nullCount && s.types == t.types
            && |s.distinct| == |t.distinct| && s.arrayMaxLen == t.arrayMaxLen
            && s.isArrayElement == t.isArrayElement
  {
    hide LogOf, At, Tracked, LabelsOf, LengthsOf, AnyInArray, LeafKeys, NullsOf, DocsOf, Sampled,
         LiveKeys, LeavesOf, KeysOf, Keep, Tripped, Overfull;
    var a, b := LogOf(cfg, docs), LogOf(cfg, docs');
    SameCounts(cfg, docs, docs', path);
    StatsTransfer(cfg, docs, docs', path);
    StatsTransfer(cfg, docs', docs, path);
    assert LengthsOf(cfg, At(a, path)) == LengthsOf(cfg, At(b, path));
    DistinctExact(cfg, a, path);
    DistinctExact(cfg, b, path);
    assert LeafKeys(cfg, a, path) == LeafKeys(cfg, b, path);
  }

  lemma SameCounts(cfg: Config, docs: seq<seq<Field>>, docs': seq<seq<Field>>, path: string)
    requires multiset(docs) == multiset(docs')
    ensures var a, b := LogOf(cfg, docs), LogOf(cfg, docs');
            && |DocsOf(At(a, path))| == |DocsOf(At(b, path))|
            && |NullsOf(At(a, path))| == |NullsOf(At(b, path))|
  {
    hide LogOf, At, NullsOf, DocsOf, Mentioning, DocNulls, DocMentions;
    NullsAreSum(cfg, docs, path);
    NullsAreSum(cfg, docs', path);
    SumPermutation(docs, docs', DocNulls(cfg, path));
    DocsMentioning(cfg, docs, path);
    DocsMentioning(cfg, docs', path);
    MentionsAreSum(cfg, docs, path);
    MentionsAreSum(cfg, docs', path);
    SumPermutation(docs, docs', DocMentions(cfg, path));
  }

  // ---------- The byte ceiling ----------

  ghost function LengthOf(): Bytes -> nat {
    (key: Bytes) => |key|
  }

  /** Bytes of all the distinct keys at a path, were there no caps. */
  ghost function PathBytes(cfg: Config, log: seq<Event>): string -> nat {
    (path: string) => SumOf(Firsts(KeysOf(cfg, LeavesOf(At(log, path)))), LengthOf())
  }

  /** Bytes of all the distinct keys at the tracked paths. */
  ghost function AllBytes(cfg: Config, log: seq<Event>): nat {
    SumOf(Tracked(cfg, log), PathBytes(cfg, log))
  }

  lemma {:induction false} SumLengthsIsSum(keys: seq<Bytes>)
    ensures SumLengths(keys) == SumOf(keys, LengthOf())
  {
    if keys != [] {
      SumLengthsIsSum(Front(keys));
    }
  }

  lemma {:induction false} SumPrefix<T>(s: seq<T>, f: T -> nat, n: nat)
    requires n <= |s|
    ensures SumOf(s[..n], f) <= SumOf(s, f)
  {
    if n == |s| {
      assert s[..n] == s;
    } else {
      assert s[..n] == Front(s)[..n];
      SumPrefix(Front(s), f, n);
    }
  }

  lemma {:induction false} SumSame<T>(s: seq<T>, f: T -> nat, g: T -> nat)
    requires forall x :: x in s ==> f(x) == g(x)
    ensures SumOf(s, f) == SumOf(s, g)
  {
    if s != [] {
      SumSame(Front(s), f, g);
    }
  }

  /** No path has more distinct keys than its set can hold. */
  ghost predicate WithinCap(cfg: Config, log: seq<Event>) {
    forall p :: p in Tracked(cfg, log) ==> |LeafKeys(cfg, log, p)| <= cfg.distinctCap
  }

  lemma PathKept(cfg: Config, log: seq<Event>, path: string)
    ensures SumLengths(KeptKeys(cfg, log, path)) <= PathBytes(cfg, log)(path)
    ensures |LeafKeys(cfg, log, path)| <= cfg.distinctCap ==>
              SumLengths(KeptKeys(cfg, log, path)) == PathBytes(cfg, log)(path)
  {
    hide KeysOf, LeavesOf, At, LeafKeys, SumOf;
    var keys := KeysOf(cfg, LeavesOf(At(log, path)));
    var kept := KeptKeys(cfg, log, path);
    LeafKeysSet(cfg, log, path);
    FirstsElements(keys);
    SumLengthsIsSum(kept);
    SumPrefix(Firsts(keys), LengthOf(), |kept|);
    if |LeafKeys(cfg, log, path)| <= cfg.distinctCap {
      assert kept == Firsts(keys);
    }
  }

  lemma {:induction false} PathsKept(cfg: Config, log: seq<Event>, paths: seq<string>)
    ensures SumKept(cfg, log, paths) <= SumOf(paths, PathBytes(cfg, log))
    ensures (forall p :: p in paths ==> |LeafKeys(cfg, log, p)| <= cfg.distinctCap) ==>
              SumKept(cfg, log, paths) == SumOf(paths, PathBytes(cfg, log))
  {
    if paths != [] {
      hide LeafKeys, PathBytes, KeptKeys;
      PathsKept(cfg, log, Front(paths));
      PathKept(cfg, log, Last(paths));
    }
  }

  /** The keys that are kept take no more bytes than all keys, and as many if every path is within
      the cap. */
  lemma KeptOfAll(cfg: Config, log: seq<Event>)
    ensures KeptBytes(cfg, log) <= AllBytes(cfg, log)
    ensures WithinCap(cfg, log) ==> KeptBytes(cfg, log) == AllBytes(cfg, log)
  {
    hide SumKept, SumOf, Tracked, LeafKeys;
    PathsKept(cfg, log, Tracked(cfg, log));
  }

  lemma SamePathBytes(cfg: Config, docs: seq<seq<Field>>, docs': seq<seq<Field>>, path: string)
    requires multiset(docs) == multiset(docs')
    ensures LeafKeys(cfg, LogOf(cfg, docs), path) == LeafKeys(cfg, LogOf(cfg, docs'), path)
    ensures PathBytes(cfg, LogOf(cfg, docs))(path) == PathBytes(cfg, LogOf(cfg, docs'))(path)
  {
    hide LogOf, KeysOf, LeavesOf, At, LeafKeys, SumOf, Firsts;
    var a, b := LogOf(cfg, docs), LogOf(cfg, docs');
    StatsTransfer(cfg, docs, docs', path);
    StatsTransfer(cfg, docs', docs, path);
    LeafKeysSet(cfg, a, path);
    LeafKeysSet(cfg, b, path);
    var p, q := Firsts(KeysOf(cfg, LeavesOf(At(a, path)))), Firsts(KeysOf(cfg, LeavesOf(At(b, path))));
    FirstsElements(KeysOf(cfg, LeavesOf(At(a, path))));
    FirstsElements(KeysOf(cfg, LeavesOf(At(b, path))));
    NoDuplicatesMultiset(p);
    NoDuplicatesMultiset(q);
    SumPermutation(p, q, LengthOf());
  }

  lemma SameAllBytes(cfg: Config, docs: seq<seq<Field>>, docs': seq<seq<Field>>)
    requires multiset(docs) == multiset(docs') && NoneDisplaced(cfg, docs)
    ensures AllBytes(cfg, LogOf(cfg, docs)) == AllBytes(cfg, LogOf(cfg, docs'))
    ensures WithinCap(cfg, LogOf(cfg, docs)) <==> WithinCap(cfg, LogOf(cfg, docs'))
  {
    hide LogOf, PathBytes, SumOf, LeafKeys, NoneDisplaced, Tracked;
    var a, b := LogOf(cfg, docs), LogOf(cfg, docs');
    var p, q := Tracked(cfg, a), Tracked(cfg, b);
    SameTracked(cfg, docs, docs');
    TrackedOnce(cfg, a);
    TrackedOnce(cfg, b);
    NoDuplicatesMultiset(p);
    NoDuplicatesMultiset(q);
    SumPermutation(p, q, PathBytes(cfg, a));
    forall x ensures x in p <==> x in q {
      assert x in ToSet(p) <==> x in ToSet(q);
    }
    forall x ensures PathBytes(cfg, a)(x) == PathBytes(cfg, b)(x) && LeafKeys(cfg, a, x) == LeafKeys(cfg, b, x) {
      SamePathBytes(cfg, docs, docs', x);
    }
    SumSame(q, PathBytes(cfg, a), PathBytes(cfg, b));
  }

  lemma TrackedOnce(cfg: Config, log: seq<Event>)
    ensures NoDuplicates(Tracked(cfg, log))
  {
    KeepProperties(Paths(log), cfg.maxPaths);
  }

  /** While no document is displaced and no path has more distinct keys than the cap, the order
      does not decide whether the ceiling is passed: it is if all distinct keys together are too
      large. */
  lemma CeilingInEveryOrder(cfg: Config, docs: seq<seq<Field>>, docs': seq<seq<Field>>)
    requires multiset(docs) == multiset(docs')
    requires NoneDisplaced(cfg, docs) && WithinCap(cfg, LogOf(cfg, docs))
    ensures Tripped(cfg, LogOf(cfg, docs)) <==> Tripped(cfg, LogOf(cfg, docs'))
    ensures Tripped(cfg, LogOf(cfg, docs)) <==> AllBytes(cfg, LogOf(cfg, docs)) > cfg.maxDistinctBytes
  {
    hide LogOf, Tripped, KeptBytes, AllBytes, WithinCap, NoneDisplaced;
    var a, b := LogOf(cfg, docs), LogOf(cfg, docs');
    SameAllBytes(cfg, docs, docs');
    KeptOfAll(cfg, a);
    KeptOfAll(cfg, b);
    TrippedExactly(cfg, a);
    TrippedExactly(cfg, b);
  }

  /** A sample whose distinct keys fit under the ceiling all together passes it in no order. */
  lemma RoomInEveryOrder(cfg: Config, docs: seq<seq<Field>>, docs': seq<seq<Field>>)
    requires multiset(docs) == multiset(docs') && NoneDisplaced(cfg, docs)
    requires AllBytes(cfg, LogOf(cfg, docs)) <= cfg.maxDistinctBytes
    ensures !Tripped(cfg, LogOf(cfg, docs'))
  {
    hide LogOf, Tripped, KeptBytes, AllBytes, WithinCap, NoneDisplaced;
    SameAllBytes(cfg, docs, docs');
    KeptOfAll(cfg, LogOf(cfg, docs'));
    TrippedExactly(cfg, LogOf(cfg, docs'));
  }

  /** Order independence with conditions on one order only: if no document is displaced and the
      ceiling has room for all distinct keys, every permutation gives the same columns up to what
      may depend on the order. */
  lemma EveryOrder(cfg: Config, docs: seq<seq<Field>>, docs': seq<seq<Field>>, path: string)
    requires multiset(docs) == multiset(docs') && NoneDisplaced(cfg, docs)
    requires AllBytes(cfg, LogOf(cfg, docs)) <= cfg.maxDistinctBytes
    ensures path in Tracked(cfg, LogOf(cfg, docs)) <==> path in Tracked(cfg, LogOf(cfg, docs'))
    ensures path in Tracked(cfg, LogOf(cfg, docs)) ==>
              OrderFree(ColumnOf(cfg, docs, path)) == OrderFree(ColumnOf(cfg, docs', path))
  {
    hide LogOf, Tripped, AllBytes, NoneDisplaced, Tracked, ColumnOf;
    RoomInEveryOrder(cfg, docs, docs);
    RoomInEveryOrder(cfg, docs, docs');
    OrderIndependence(cfg, docs, docs', path);
  }
}
