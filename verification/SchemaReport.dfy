/** What the fields of an emitted column say about the log, event by event; and what the limits
    compiled into the agent mean for a sample. */
module SchemaReport {
  import opened Collections
  import opened BsonValues
  import opened SchemaEvents
  import opened SchemaStats
  import opened SchemaColumns
  import opened SchemaPresence
  import opened SchemaDistinct
  import opened SchemaVisits
  import opened Reservoir
  import opened Text

  // ---------- Name and rates ----------

  /** The positions in the log at which a path is null. */
  ghost function NullEvents(log: seq<Event>, path: string): set<nat> {
    set i | 0 <= i < |log| && Path(log[i]) == path && log[i].value == Null
  }

  lemma NullEventsAppend(log: seq<Event>, e: Event, path: string)
    ensures |NullEvents(log + [e], path)| ==
            |NullEvents(log, path)| + if Path(e) == path && e.value == Null then 1 else 0
  {
    hide Path;
    var all := log + [e];
    assert all[|log|] == e && forall i :: 0 <= i < |log| ==> all[i] == log[i];
    assert NullEvents(all, path) ==
           NullEvents(log, path) + if Path(e) == path && e.value == Null then {|log|} else {};
  }

  lemma {:induction false} NullsCounted(log: seq<Event>, path: string)
    ensures |NullsOf(At(log, path))| == |NullEvents(log, path)|
  {
    if log == [] {
      assert NullEvents(log, path) == {} && NullsOf([]) == {};
    } else {
      hide NullsOf, NullEvents, Path, At;
      var f, e := Front(log), Last(log);
      NullsCounted(f, path);
      assert log == f + [e];
      AtAppend(f, e, path);
      NullsAppend(At(f, path), e);
      NullEventsAppend(f, e, path);
    }
  }

  /** A column carries its path as name; its presence rate counts documents, its null rate counts
      null events, and it is an array element if some event at the path is below an array. */
  lemma NameAndRates(cfg: Config, docs: seq<seq<Field>>, path: string)
    requires path in Tracked(cfg, LogOf(cfg, docs))
    ensures var c, log := ColumnOf(cfg, docs, path), LogOf(cfg, docs);
            && c.name == path
            && c.presenceRate * |docs| as real == |Mentioning(cfg, docs, path)| as real
            && c.nullRate * |docs| as real == |NullEvents(log, path)| as real
            && (c.isArrayElement <==> exists e :: e in log && Path(e) == path && InArray(e.at))
  {
    hide LogOf, At, Tracked, LiveLog, KeptBytes, LiveKeys, LeavesOf, Sampled, DataType, Overfull, NullsOf, DocsOf,
         LabelsOf, MaxLength, NullEvents, Mentioning, Alphabetical, Path, Tripped, InArray;
    var log := LogOf(cfg, docs);
    NullableMeaning(cfg, docs, path);
    NullsCounted(log, path);
    AtMembers(log, path);
    RateTimes(|Mentioning(cfg, docs, path)|, |docs|);
    RateTimes(|NullEvents(log, path)|, |docs|);
  }

  /** The label list holds exactly the labels of the events at the path: the type of the value, or
      the truncation marker past the depth limit. */
  lemma LabelsReported(cfg: Config, docs: seq<seq<Field>>, path: string, text: string)
    requires path in Tracked(cfg, LogOf(cfg, docs))
    ensures var c := ColumnOf(cfg, docs, path);
            && c.bsonTypes.Some?
            && (text in c.bsonTypes.value <==>
                  exists e :: e in LogOf(cfg, docs) && Path(e) == path
                              && text == if |e.at| > cfg.maxDepth then "<truncated>" else TypeLabel(e.value))
  {
    hide LogOf, At, Tracked, TypeLabel, Path, ColumnOf;
    var log := LogOf(cfg, docs);
    DataTypeMeaning(cfg, docs, path);
    AtMembers(log, path);
    assert text in ColumnOf(cfg, docs, path).bsonTypes.value <==> text in LabelsOf(cfg, At(log, path));
  }

  lemma RateTimes(a: nat, b: nat)
    requires b > 0
    ensures a as real / b as real * b as real == a as real
  {
  }

  // ---------- Samples ----------

  ghost predicate LeafAt(log: seq<Event>, path: string, i: nat) {
    i < |log| && Path(log[i]) == path && log[i].value.IsLeaf()
  }

  /** The positions of the leaf events at a path, in order. */
  ghost predicate LeafPositions(log: seq<Event>, path: string, at: seq<nat>) {
    && (forall j, k :: 0 <= j < k < |at| ==> at[j] < at[k])
    && (forall k :: 0 <= k < |at| ==> LeafAt(log, path, at[k]))
    && (forall i :: LeafAt(log, path, i) ==> i in at)
  }

  lemma PositionsAppend(log: seq<Event>, e: Event, path: string, at: seq<nat>)
    requires LeafPositions(log, path, at)
    ensures LeafPositions(log + [e], path, if Path(e) == path && e.value.IsLeaf() then at + [|log|] else at)
  {
    hide Path;
    var all := log + [e];
    assert all[|log|] == e;
    forall i: nat ensures LeafAt(all, path, i) <==>
                          LeafAt(log, path, i) || (i == |log| && Path(e) == path && e.value.IsLeaf())
    {
      if i < |log| {
        assert all[i] == log[i];
      }
    }
  }

  /** The k-th leaf at a path stands at the k-th of these positions. */
  ghost predicate Positioned(log: seq<Event>, leaves: seq<Bson>, at: seq<nat>) {
    |leaves| == |at| && forall k :: 0 <= k < |at| ==> at[k] < |log| && leaves[k] == log[at[k]].value
  }

  lemma PositionedAppend(log: seq<Event>, e: Event, leaves: seq<Bson>, at: seq<nat>)
    requires Positioned(log, leaves, at)
    ensures Positioned(log + [e], leaves, at)
    ensures Positioned(log + [e], leaves + [e.value], at + [|log|])
  {
    assert (log + [e])[|log|] == e;
    forall k | 0 <= k < |at| ensures at[k] < |log| && (log + [e])[at[k]] == log[at[k]] {
    }
  }

  lemma {:induction false} LeavesPositioned(log: seq<Event>, path: string) returns (at: seq<nat>)
    ensures LeafPositions(log, path, at) && Positioned(log, LeavesOf(At(log, path)), at)
  {
    if log == [] {
      at := [];
    } else {
      hide At, LeavesOf, Path, LeafPositions, Positioned;
      var f, e := Front(log), Last(log);
      assert log == f + [e];
      AtAppend(f, e, path);
      LeavesGrow(At(f, path), e);
      at := LeavesPositioned(f, path);
      PositionsAppend(f, e, path, at);
      PositionedAppend(f, e, LeavesOf(At(f, path)), at);
      if Path(e) == path && e.value.IsLeaf() {
        at := at + [|f|];
      }
    }
  }

  lemma LeavesGrow(evs: seq<Event>, e: Event)
    ensures LeavesOf(evs + [e]) == if e.value.IsLeaf() then LeavesOf(evs) + [e.value] else LeavesOf(evs)
  {
    assert Front(evs + [e]) == evs;
  }

  /** Of `n` values the m-th is the last one put into slot `i`. */
  ghost predicate LastInSlot(n: nat, slots: nat, i: nat, m: nat) {
    1 <= m <= n && GoesTo(m, slots, i) && forall k :: m < k <= n ==> !GoesTo(k, slots, i)
  }

  lemma SlotFilled(n: nat, slots: nat, i: nat)
    requires i < Min(n, slots)
    ensures LastInSlot(n, slots, i, LastOffered(n, i, slots))
  {
    hide GoesTo, Slot;
    forall m: nat | m > 0 ensures GoesTo(m, slots, i) <==> Slot(m, slots) == i {
      GoesToExact(m, slots, i);
    }
  }

  /** The sample in slot `i` is the JSON form of the last leaf put there. */
  ghost predicate ShowsLast(cfg: Config, log: seq<Event>, at: seq<nat>, i: nat, sample: Json) {
    exists m: nat :: LastInSlot(|at|, cfg.sampleSlots, i, m)
                     && at[m - 1] < |log| && sample == cfg.toJson(log[at[m - 1]].value)
  }

  lemma SampleShown(cfg: Config, log: seq<Event>, leaves: seq<Bson>, at: seq<nat>, i: nat)
    requires Positioned(log, leaves, at) && i < Min(|at|, cfg.sampleSlots)
    ensures i < |Sampled(JsonOf(cfg, leaves), cfg.sampleSlots)|
    ensures ShowsLast(cfg, log, at, i, Sampled(JsonOf(cfg, leaves), cfg.sampleSlots)[i])
  {
    hide GoesTo, Slot, LastOffered;
    SlotFilled(|at|, cfg.sampleSlots, i);
    var m := LastOffered(|at|, i, cfg.sampleSlots);
    assert Sampled(JsonOf(cfg, leaves), cfg.sampleSlots)[i] == cfg.toJson(leaves[m - 1]);
  }

  /** The reported samples: none if the path has no leaf (or there are no slots); otherwise as many
      as there are leaves, up to the slots, each the JSON form of the last leaf put into its slot. */
  lemma SampleValues(cfg: Config, docs: seq<seq<Field>>, path: string) returns (at: seq<nat>)
    requires path in Tracked(cfg, LogOf(cfg, docs))
    ensures LeafPositions(LogOf(cfg, docs), path, at)
    ensures var c, log := ColumnOf(cfg, docs, path), LogOf(cfg, docs);
            && (c.sampleValues == None <==> at == [] || cfg.sampleSlots == 0)
            && (c.sampleValues.Some? ==>
                  var v := c.sampleValues.value;
                  && |v| == Min(|at|, cfg.sampleSlots)
                  && forall i :: 0 <= i < |v| ==> ShowsLast(cfg, log, at, i, v[i]))
  {
    hide LogOf, At, Tracked, LiveLog, KeptBytes, LiveKeys, LeavesOf, DataType, Overfull, NullsOf, DocsOf,
         LabelsOf, MaxLength, AnyInArray, Alphabetical, Tripped, ShowsLast, LeafPositions, Sampled;
    var log := LogOf(cfg, docs);
    at := LeavesPositioned(log, path);
    var leaves := LeavesOf(At(log, path));
    SampledLength(JsonOf(cfg, leaves), cfg.sampleSlots);
    forall i | 0 <= i < Min(|at|, cfg.sampleSlots)
      ensures ShowsLast(cfg, log, at, i, Sampled(JsonOf(cfg, leaves), cfg.sampleSlots)[i])
    {
      SampleShown(cfg, log, leaves, at, i);
    }
  }

  // ---------- Refused and truncated events ----------

  ghost function Outsiders(log: seq<Event>, kept: seq<string>): set<nat> {
    set i | 0 <= i < |log| && Path(log[i]) !in kept
  }

  ghost function TooDeep(cfg: Config, log: seq<Event>): set<nat> {
    set i | 0 <= i < |log| && |log[i].at| > cfg.maxDepth
  }

  /** The truncation counter: the events at untracked paths and those past the depth limit. */
  lemma TruncatedMeaning(cfg: Config, log: seq<Event>, f: Fields)
    requires Summarizes(cfg, log, log, f)
    ensures f.truncatedPaths == |Outsiders(log, Tracked(cfg, log))| + |TooDeep(cfg, log)|
  {
    hide StatsOf, LiveLog, KeptBytes, Tracked, Outsiders, TooDeep;
    OutsideCounted(log, Tracked(cfg, log));
    DeepCounted(cfg, log);
  }

  lemma OutsidersAppend(log: seq<Event>, e: Event, kept: seq<string>)
    ensures |Outsiders(log + [e], kept)| == |Outsiders(log, kept)| + if Path(e) in kept then 0 else 1
  {
    hide Path;
    var all := log + [e];
    assert all[|log|] == e && forall i :: 0 <= i < |log| ==> all[i] == log[i];
    assert Outsiders(all, kept) == Outsiders(log, kept) + if Path(e) in kept then {} else {|log|};
  }

  lemma {:induction false} OutsideCounted(log: seq<Event>, kept: seq<string>)
    ensures Outside(log, kept) == |Outsiders(log, kept)|
  {
    if log == [] {
      assert Outsiders(log, kept) == {};
    } else {
      hide Path, Outsiders;
      assert log == Front(log) + [Last(log)];
      OutsideCounted(Front(log), kept);
      OutsidersAppend(Front(log), Last(log), kept);
    }
  }

  lemma TooDeepAppend(cfg: Config, log: seq<Event>, e: Event)
    ensures |TooDeep(cfg, log + [e])| == |TooDeep(cfg, log)| + if |e.at| > cfg.maxDepth then 1 else 0
  {
    var all := log + [e];
    assert all[|log|] == e && forall i :: 0 <= i < |log| ==> all[i] == log[i];
    assert TooDeep(cfg, all) == TooDeep(cfg, log) + if |e.at| > cfg.maxDepth then {|log|} else {};
  }

  lemma {:induction false} DeepCounted(cfg: Config, log: seq<Event>)
    ensures DeepCount(cfg, log) == |TooDeep(cfg, log)|
  {
    if log == [] {
      assert TooDeep(cfg, log) == {};
    } else {
      hide TooDeep;
      assert log == Front(log) + [Last(log)];
      DeepCounted(cfg, Front(log));
      TooDeepAppend(cfg, Front(log), Last(log));
    }
  }

  // ---------- The agent's own limits ----------

  /** The limits compiled into the agent: parts are visited up to 17 steps deep and through the
      first 100 elements of an array; all paths become columns exactly if there are at most 5000;
      a column has up to 5 samples and, below the ceiling of 256 MiB, counts up to 1000 values. */
  lemma AgentLimits(toJson: Bson -> Json, serialize: Json -> Bytes, docs: seq<seq<Field>>, path: string)
    requires path in Tracked(DefaultConfig(toJson, serialize), LogOf(DefaultConfig(toJson, serialize), docs))
    ensures var cfg := DefaultConfig(toJson, serialize);
            var c, log := ColumnOf(cfg, docs, path), LogOf(cfg, docs);
            && (forall doc, steps: seq<Step> :: Visited(cfg, doc, steps) <==>
                  && 1 <= |steps| <= 17 && ValueAt(doc, steps).Some?
                  && forall k :: 0 <= k < |steps| && steps[k].ItemAt? ==> steps[k].i < 100)
            && (ToSet(Tracked(cfg, log)) == ToSet(Paths(log)) <==> |ToSet(Paths(log))| <= 5000)
            && (c.sampleValues.Some? ==> |c.sampleValues.value| == Min(|LeavesOf(At(log, path))|, 5))
            && (Tripped(cfg, log) <==> KeptBytes(cfg, log) > 268_435_456)
            && (!Tripped(cfg, log) ==> c.distinctCount == Some(Min(1000, |LeafKeys(cfg, log, path)|)))
  {
    hide LogOf, At, LiveLog, KeptBytes, LiveKeys, LeavesOf, DataType, Overfull, NullsOf, DocsOf,
         LabelsOf, MaxLength, AnyInArray, Alphabetical, Tripped, ValueAt, LeafKeys, Keep, Paths, Sampled;
    var cfg := DefaultConfig(toJson, serialize);
    var log := LogOf(cfg, docs);
    KeepProperties(Paths(log), cfg.maxPaths);
    NoDuplicatesCardinality(Keep(Paths(log), cfg.maxPaths));
    TrippedExactly(cfg, log);
    SampledLength(JsonOf(cfg, LeavesOf(At(log, path))), cfg.sampleSlots);
    if !Tripped(cfg, log) {
      DistinctExact(cfg, log, path);
    }
  }

  lemma SampledLength<T>(xs: seq<T>, slots: nat)
    ensures |Sampled(xs, slots)| == Min(|xs|, slots)
  {
  }
}
