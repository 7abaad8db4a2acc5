/** The streaming walker. Its fields are updated event by event under all the caps at once;
    its invariant says that they equal the declarative statistics of the event log. */
module SchemaWalker {
  import opened Collections
  import opened BsonValues
  import opened SchemaEvents
  import opened SchemaStats
  import opened Reservoir
  import opened SchemaColumns

  class SchemaWalker {
    const cfg: Config

    // An insertion-ordered map: `paths` with its keys listed in `order`.
    var paths: map<string, PathStats>
    var order: seq<string>
    var docsSampled: nat
    var truncatedPaths: nat
    var distinctBytes: nat
    var distinctGloballyCapped: bool
    var nextPosition: nat

    ghost var docs: seq<seq<Field>>
    ghost var log: seq<Event>

    ghost function State(): Fields
      reads this
    {
      Fields(paths, order, truncatedPaths, distinctBytes, distinctGloballyCapped, nextPosition)
    }

    /** Between documents: the state is a function of the documents observed. */
    ghost predicate Valid()
      reads this
    {
      Summarizes(cfg, log, log, State()) && log == LogOf(cfg, docs) && docsSampled == |docs|
    }

    constructor (cfg: Config)
      ensures Valid() && docs == [] && this.cfg == cfg
    {
      this.cfg := cfg;
      paths, order := map[], [];
      docsSampled, truncatedPaths, distinctBytes := 0, 0, 0;
      distinctGloballyCapped := false;
      nextPosition := 1;
      docs, log := [], [];
      EmptySummary(cfg);
    }

    method ObserveDocument(doc: seq<Field>)
      requires Valid()
      modifies this
      ensures Valid() && docs == old(docs) + [doc]
    {
      hide StatsOf, LiveLog, KeptBytes, Tripped, Tracked, Outside, DeepCount, At, DocsOf, VisitedIn,
           Summarizes;
      VisitedNothing(cfg, docs);
      docsSampled := docsSampled + 1;
      var visited: set<string> := {};
      for i := 0 to |doc|
        invariant Summarizes(cfg, log, log, State()) && VisitedIn(cfg, log, docsSampled, visited)
        invariant log == old(log) + FieldEvents(cfg, docsSampled, [], doc, i)
        invariant docs == old(docs) && docsSampled == |docs| + 1
      {
        ghost var at: Location := [] + [Key(doc[i].key)];
        visited := ObservePath(doc[i].key, doc[i].value, 1, false, visited, at);
        assert log == old(log) + (FieldEvents(cfg, docsSampled, [], doc, i)
                                  + Events(cfg, docsSampled, at, doc[i].value));
      }
      docs := docs + [doc];
      assert Front(docs) == old(docs) && Last(docs) == doc;
    }

    /** One column per tracked path, in order of first appearance. */
    method IntoColumns() returns (columns: seq<Column>)
      requires Valid()
      ensures var tracked := Tracked(cfg, LogOf(cfg, docs));
              && |columns| == |tracked|
              && forall i :: 0 <= i < |tracked| ==>
                   && columns[i] == ColumnOf(cfg, docs, tracked[i])
                   && columns[i].name == tracked[i]
                   && columns[i].position == i + 1
    {
      hide StatsOf, Tracked, LogOf, Summarizes, EmitColumn, ColumnOf, SortByPosition;
      ColumnsInOrder(cfg, docs, State());
      var keys, stats := order, paths;
      var entries := seq(|keys|, i requires 0 <= i < |keys| && keys[i] in stats => (keys[i], stats[keys[i]]));
      SortIdentity(entries);
      entries := SortByPosition(entries);
      columns := [];
      for i := 0 to |entries|
        invariant |columns| == i
        invariant forall k :: 0 <= k < i ==> columns[k] == ColumnOf(cfg, docs, keys[k])
      {
        columns := columns + [EmitColumn(entries[i].0, entries[i].1, docsSampled, distinctGloballyCapped)];
      }
    }

    method ObservePath(path: string, value: Bson, depth: nat, inArray: bool, visited: set<string>,
                       ghost at: Location)
      returns (visited': set<string>)
      requires Summarizes(cfg, log, log, State()) && VisitedIn(cfg, log, docsSampled, visited)
      requires path == Render(at) && depth == |at| > 0 && inArray == InArray(at)
      modifies this
      ensures Summarizes(cfg, log, log, State()) && VisitedIn(cfg, log, docsSampled, visited')
      ensures log == old(log) + Events(cfg, docsSampled, at, value)
      ensures docs == old(docs) && docsSampled == old(docsSampled)
      decreases value
    {
      hide StatsOf, LiveLog, KeptBytes, Tripped, Tracked, Outside, DeepCount, At, DocsOf, VisitedIn,
           Summarizes, Render, InArray, TypeLabel;
      ghost var e := Event(docsSampled, at, value);
      if depth > cfg.maxDepth {
        visited' := RecordPath(path, TRUNCATED, value, inArray, visited, e);
        ghost var recorded := State();
        truncatedPaths := truncatedPaths + 1;
        SummarySettles(cfg, old(log), e, recorded, State());
        return;
      }

      visited' := RecordPath(path, TypeLabel(value), value, inArray, visited, e);

      match value
      case Document(inner) =>
        SummarySettles(cfg, old(log), e, State(), State());
        for i := 0 to |inner|
          invariant Summarizes(cfg, log, log, State()) && VisitedIn(cfg, log, docsSampled, visited')
          invariant log == old(log) + ([e] + FieldEvents(cfg, docsSampled, at, inner, i))
          invariant docs == old(docs) && docsSampled == old(docsSampled)
        {
          ghost var child := at + [Key(inner[i].key)];
          ChildLocation(at, Key(inner[i].key));
          visited' := ObservePath(path + "." + inner[i].key, inner[i].value, depth + 1, inArray, visited', child);
          assert log == old(log) + ([e] + (FieldEvents(cfg, docsSampled, at, inner, i)
                                           + Events(cfg, docsSampled, child, inner[i].value)));
        }
      case Array(items) =>
        MeasureArray(path, |items|, old(log), e);
        for i := 0 to Min(cfg.maxArrayElements, |items|)
          invariant Summarizes(cfg, log, log, State()) && VisitedIn(cfg, log, docsSampled, visited')
          invariant log == old(log) + ([e] + ItemEvents(cfg, docsSampled, at, items, i))
          invariant docs == old(docs) && docsSampled == old(docsSampled)
        {
          ghost var child := at + [Element];
          ChildLocation(at, Element);
          visited' := ObservePath(path + "[]", items[i], depth + 1, true, visited', child);
          assert log == old(log) + ([e] + (ItemEvents(cfg, docsSampled, at, items, i)
                                           + Events(cfg, docsSampled, child, items[i])));
        }
      case _ =>
        SummarySettles(cfg, old(log), e, State(), State());
    }

    /** Takes the length of an array into account, even if its elements are clipped. */
    method MeasureArray(path: string, len: nat, ghost before: seq<Event>, ghost e: Event)
      requires log == before + [e] && Summarizes(cfg, log, before, State())
      requires path == Path(e) && !Deep(cfg, e) && e.value.Array? && len == |e.value.items|
      modifies `paths
      ensures Summarizes(cfg, log, log, State())
    {
      hide StatsOf, LiveLog, KeptBytes, Tracked, Outside, DeepCount;
      ghost var recorded := State();
      if path in paths {
        var stats := paths[path];
        paths := paths[path := stats.(arrayMaxLen := Some(Longest(stats.arrayMaxLen, len)))];
      }
      SummarySettles(cfg, before, e, recorded, State());
    }

    method RecordPath(path: string, typeLabel: string, value: Bson, inArray: bool, visited: set<string>,
                      ghost e: Event)
      returns (visited': set<string>)
      requires Summarizes(cfg, log, log, State()) && VisitedIn(cfg, log, docsSampled, visited)
      requires e.doc == docsSampled && e.value == value
      requires path == Path(e) && typeLabel == EventLabel(cfg, e) && inArray == InArray(e.at)
      modifies this
      ensures log == old(log) + [e]
      ensures Summarizes(cfg, log, old(log), State()) && VisitedIn(cfg, log, docsSampled, visited')
      ensures docs == old(docs) && docsSampled == old(docsSampled)
    {
      hide StatsOf, LiveLog, KeptBytes, Tracked, Outside, DeepCount, At, DocsOf, VisitedIn, Summarizes,
           Before, EventLabel, Path, Tripped, InArray;
      var alreadySeenThisDoc := path in visited;
      ghost var before, was := log, State();
      log := log + [e];
      VisitedAppend(cfg, before, e, visited);

      if path !in paths && |paths| >= cfg.maxPaths {
        SummaryRefuses(cfg, before, e, was);
        truncatedPaths := truncatedPaths + 1;
        return visited;
      }

      var stats := EnterPath(path, inArray, before, e);
      stats := CountVisit(stats, typeLabel, value, alreadySeenThisDoc, inArray, before, e);
      visited' := visited + {path};
      stats := TrackDistinct(stats, value, before, e);
      stats := KeepSample(stats, value, before, e);
      paths := paths[path := stats];
      SummaryAccepts(cfg, before, e, was, State());
    }

    /** Finds the statistics of a path, giving a new path the next position. */
    method EnterPath(path: string, inArray: bool, ghost before: seq<Event>, ghost e: Event)
      returns (stats: PathStats)
      requires Summarizes(cfg, before, before, State())
      requires path == Path(e) && inArray == InArray(e.at)
      requires path in paths || |paths| < cfg.maxPaths
      modifies `order, `nextPosition
      ensures Path(e) in Tracked(cfg, before + [e])
      ensures stats == Before(cfg, before, e)
      ensures order == Tracked(cfg, before + [e]) && nextPosition == |order| + 1
      ensures distinctBytes == KeptBytes(cfg, LiveLog(cfg, before))
      ensures distinctGloballyCapped <==> Tripped(cfg, before)
    {
      hide StatsOf, LiveLog, KeptBytes, Tracked, Before, Path, Summarizes, Tripped, InArray;
      AcceptedTracked(cfg, before, e, State());
      var position := nextPosition;
      stats := if path in paths then paths[path]
               else PathStats(0, 0, {}, {}, false, [], 0, None, inArray, position);
      if path !in paths {
        order := order + [path];
      }
      if stats.firstSeenPosition == position {
        nextPosition := nextPosition + 1;
      }
    }

    /** The counters of a visit: presence, nulls, types and array membership. */
    method CountVisit(s: PathStats, typeLabel: string, value: Bson, alreadySeen: bool, inArray: bool,
                      ghost before: seq<Event>, ghost e: Event)
      returns (s': PathStats)
      requires Path(e) in Tracked(cfg, before + [e]) && s == Before(cfg, before, e)
      requires value == e.value && typeLabel == EventLabel(cfg, e) && inArray == InArray(e.at)
      requires alreadySeen <==> e.doc in DocsOf(At(before, Path(e)))
      ensures var t := StatsOf(cfg, before + [e], before, Path(e));
              s' == t.(distinct := s.distinct, distinctCapped := s.distinctCapped,
                       samples := s.samples, samplesSeen := s.samplesSeen)
    {
      hide StatsOf, Tracked, Before, At, DocsOf;
      RecordCounts(cfg, before, e);
      s' := s;
      if !alreadySeen {
        s' := s'.(seenCount := s'.seenCount + 1);
      }
      if value == Null {
        s' := s'.(nullCount := s'.nullCount + 1);
      }
      s' := s'.(types := s'.types + {typeLabel});
      if inArray {
        s' := s'.(isArrayElement := true);
      }
    }

    /** The distinct-tracking part of recording an event. */
    method TrackDistinct(s: PathStats, value: Bson, ghost before: seq<Event>, ghost e: Event)
      returns (s': PathStats)
      requires value == e.value && Path(e) in Tracked(cfg, before + [e])
      requires s.distinct == Before(cfg, before, e).distinct
      requires s.distinctCapped == Before(cfg, before, e).distinctCapped
      requires distinctBytes == KeptBytes(cfg, LiveLog(cfg, before))
      requires distinctGloballyCapped <==> Tripped(cfg, before)
      modifies `distinctBytes, `distinctGloballyCapped
      ensures var t := StatsOf(cfg, before + [e], before, Path(e));
              s' == s.(distinct := t.distinct, distinctCapped := t.distinctCapped)
      ensures distinctBytes == KeptBytes(cfg, LiveLog(cfg, before + [e]))
      ensures distinctGloballyCapped <==> Tripped(cfg, before + [e])
    {
      hide StatsOf, LiveLog, KeptBytes, Tracked, Before;
      RecordDistinct(cfg, before, e);
      RecordBytes(cfg, before, e);
      s' := s;
      if value.IsLeaf() && !s.distinctCapped && !distinctGloballyCapped {
        var key := cfg.serialize(cfg.toJson(value));
        if |s.distinct| < cfg.distinctCap {
          var added := key !in s.distinct;
          s' := s.(distinct := s.distinct + {key});
          if added {
            distinctBytes := distinctBytes + |key|;
            if distinctBytes > cfg.maxDistinctBytes {
              distinctGloballyCapped := true;
            }
          }
        } else {
          s' := s.(distinctCapped := true);
        }
      }
    }

    /** The reservoir part of recording an event. */
    method KeepSample(s: PathStats, value: Bson, ghost before: seq<Event>, ghost e: Event)
      returns (s': PathStats)
      requires value == e.value && Path(e) in Tracked(cfg, before + [e])
      requires s.samples == Before(cfg, before, e).samples
      requires s.samplesSeen == Before(cfg, before, e).samplesSeen
      ensures var t := StatsOf(cfg, before + [e], before, Path(e));
              s' == s.(samples := t.samples, samplesSeen := t.samplesSeen)
    {
      hide StatsOf, Tracked, Before, HashedIndex;
      RecordSamples(cfg, before, e);
      s' := s;
      if value.IsLeaf() {
        s' := s'.(samplesSeen := s'.samplesSeen + 1);
        var json := cfg.toJson(value);
        if |s'.samples| < cfg.sampleSlots {
          s' := s'.(samples := s'.samples + [json]);
        } else {
          var j := HashedIndex(s'.samplesSeen);
          if j < cfg.sampleSlots {
            s' := s'.(samples := s'.samples[j := json]);
          }
        }
      }
    }
  }
}
