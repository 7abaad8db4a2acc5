/** Every statistic of the walker as a declarative function of the event log. */
module SchemaStats {
  import opened Collections
  import opened BsonValues
  import opened SchemaEvents
  import opened Reservoir

  /** What the walker keeps for one path. */
  datatype PathStats = PathStats(
    seenCount: nat,
    nullCount: nat,
    types: set<string>,
    distinct: set<Bytes>,
    distinctCapped: bool,
    samples: seq<Json>,
    samplesSeen: nat,
    arrayMaxLen: Option<nat>,
    isArrayElement: bool,
    firstSeenPosition: nat)

  // ---------- Statistics of the events at one path ----------

  /** The events of the log at a path, in order. */
  ghost function At(log: seq<Event>, path: string): seq<Event> {
    if log == [] then []
    else if Path(Last(log)) == path then At(Front(log), path) + [Last(log)]
    else At(Front(log), path)
  }

  ghost function DocsOf(evs: seq<Event>): set<nat> {
    set e | e in evs :: e.doc
  }

  /** The occurrences of null, one per event. */
  ghost function NullsOf(evs: seq<Event>): set<nat> {
    set i | 0 <= i < |evs| && evs[i].value == Null
  }

  ghost function LabelsOf(cfg: Config, evs: seq<Event>): set<string> {
    set e | e in evs :: EventLabel(cfg, e)
  }

  ghost predicate AnyInArray(evs: seq<Event>) {
    exists e :: e in evs && InArray(e.at)
  }

  /** The lengths, before clipping, of the arrays that are not below the depth limit. */
  ghost function LengthsOf(cfg: Config, evs: seq<Event>): set<nat> {
    set e | e in evs && e.value.Array? && !Deep(cfg, e) :: |e.value.items|
  }

  ghost function MaxLength(cfg: Config, evs: seq<Event>): Option<nat> {
    if LengthsOf(cfg, evs) == {} then None else Some(MaxOf(LengthsOf(cfg, evs)))
  }

  ghost function LeavesOf(evs: seq<Event>): seq<Bson> {
    if evs == [] then []
    else if Last(evs).value.IsLeaf() then LeavesOf(Front(evs)) + [Last(evs).value]
    else LeavesOf(Front(evs))
  }

  ghost function JsonOf(cfg: Config, leaves: seq<Bson>): seq<Json> {
    seq(|leaves|, i requires 0 <= i < |leaves| => cfg.toJson(leaves[i]))
  }

  ghost function KeyOf(cfg: Config, value: Bson): Bytes {
    cfg.serialize(cfg.toJson(value))
  }

  ghost function KeysOf(cfg: Config, leaves: seq<Bson>): seq<Bytes> {
    seq(|leaves|, i requires 0 <= i < |leaves| => KeyOf(cfg, leaves[i]))
  }

  /** A leaf arrived when the distinct set was already full (even if its key was in it). */
  ghost predicate Overfull(keys: seq<Bytes>, cap: nat) {
    keys != [] && |Keep(Front(keys), cap)| >= cap
  }

  // ---------- Statistics of the whole log ----------

  ghost function Paths(log: seq<Event>): seq<string> {
    seq(|log|, i requires 0 <= i < |log| => Path(log[i]))
  }

  /** The tracked paths, in order: the first min(maxPaths, D) distinct paths of the log. */
  ghost function Tracked(cfg: Config, log: seq<Event>): seq<string> {
    Keep(Paths(log), cfg.maxPaths)
  }

  /** The number of events whose path is not in `kept`. */
  ghost function Outside(log: seq<Event>, kept: seq<string>): nat {
    if log == [] then 0
    else Outside(Front(log), kept) + (if Path(Last(log)) in kept then 0 else 1)
  }

  ghost function DeepCount(cfg: Config, log: seq<Event>): nat {
    if log == [] then 0
    else DeepCount(cfg, Front(log)) + (if Deep(cfg, Last(log)) then 1 else 0)
  }

  ghost function SumLengths(keys: seq<Bytes>): nat {
    if keys == [] then 0 else SumLengths(Front(keys)) + |Last(keys)|
  }

  /** The distinct keys kept at a path when nothing but the per-path cap limits them. */
  ghost function KeptKeys(cfg: Config, log: seq<Event>, path: string): seq<Bytes> {
    Keep(KeysOf(cfg, LeavesOf(At(log, path))), cfg.distinctCap)
  }

  ghost function SumKept(cfg: Config, log: seq<Event>, paths: seq<string>): nat {
    if paths == [] then 0
    else SumKept(cfg, log, Front(paths)) + SumLengths(KeptKeys(cfg, log, Last(paths)))
  }

  /** Bytes of distinct keys over all tracked paths, were there no global ceiling. */
  ghost function KeptBytes(cfg: Config, log: seq<Event>): nat {
    SumKept(cfg, log, Tracked(cfg, log))
  }

  /** The part of the log seen by distinct tracking: up to and including the event that takes
      the total over the global ceiling. */
  ghost function LiveLog(cfg: Config, log: seq<Event>): (live: seq<Event>)
    ensures live <= log
  {
    if log == [] then []
    else
      var f := LiveLog(cfg, Front(log));
      if f == Front(log) && KeptBytes(cfg, f) <= cfg.maxDistinctBytes then log else f
  }

  ghost predicate Tripped(cfg: Config, log: seq<Event>) {
    KeptBytes(cfg, LiveLog(cfg, log)) > cfg.maxDistinctBytes
  }

  /** The leaf keys of a path offered to its distinct set. */
  ghost function LiveKeys(cfg: Config, log: seq<Event>, path: string): seq<Bytes> {
    KeysOf(cfg, LeavesOf(At(LiveLog(cfg, log), path)))
  }

  /** All statistics of a tracked path. `settled` is the part of the log whose array lengths
      have been taken into account. */
  ghost function StatsOf(cfg: Config, log: seq<Event>, settled: seq<Event>, path: string): PathStats
    requires path in Tracked(cfg, log)
  {
    var evs := At(log, path);
    var liveKeys := LiveKeys(cfg, log, path);
    PathStats(
      |DocsOf(evs)|,
      |NullsOf(evs)|,
      LabelsOf(cfg, evs),
      ToSet(Keep(liveKeys, cfg.distinctCap)),
      Overfull(liveKeys, cfg.distinctCap),
      Sampled(JsonOf(cfg, LeavesOf(evs)), cfg.sampleSlots),
      |LeavesOf(evs)|,
      MaxLength(cfg, At(settled, path)),
      AnyInArray(evs),
      IndexIn(Tracked(cfg, log), path) + 1)
  }

  // ---------- How one more event changes them ----------

  lemma AtAppend(log: seq<Event>, e: Event, path: string)
    ensures At(log + [e], path) == if Path(e) == path then At(log, path) + [e] else At(log, path)
  {
    assert Front(log + [e]) == log;
  }

  lemma {:induction false} AtMembers(log: seq<Event>, path: string)
    ensures forall e :: e in At(log, path) <==> e in log && Path(e) == path
    ensures At(log, path) == [] <==> path !in Paths(log)
  {
    if log == [] {
    } else {
      AtMembers(Front(log), path);
      assert Paths(log) == Paths(Front(log)) + [Path(Last(log))];
      assert log == Front(log) + [Last(log)];
    }
  }

  lemma TrackedAppend(cfg: Config, log: seq<Event>, e: Event)
    ensures var t, p := Tracked(cfg, log), Path(e);
            Tracked(cfg, log + [e]) == if p in t || |t| >= cfg.maxPaths then t else t + [p]
    ensures Path(e) !in Tracked(cfg, log) && Path(e) in Tracked(cfg, log + [e]) ==> At(log, Path(e)) == []
    ensures NoDuplicates(Tracked(cfg, log))
    ensures |Tracked(cfg, log)| == |ToSet(Tracked(cfg, log))| <= cfg.maxPaths
  {
    assert Paths(log + [e]) == Paths(log) + [Path(e)];
    KeepAppend(Paths(log), Path(e), cfg.maxPaths);
    AtMembers(log, Path(e));
    KeepProperties(Paths(log), cfg.maxPaths);
    NoDuplicatesCardinality(Tracked(cfg, log));
  }

  /** A path that is refused once is never tracked, whatever comes later. */
  lemma {:induction false} RefusedForever(cfg: Config, log: seq<Event>, more: seq<Event>, path: string)
    requires path in Paths(log) && path !in Tracked(cfg, log)
    ensures Tracked(cfg, log + more) == Tracked(cfg, log)
  {
    hide Tracked, Paths;
    if more == [] {
      assert log + more == log;
    } else {
      RefusedForever(cfg, log, Front(more), path);
      assert log + more == (log + Front(more)) + [Last(more)];
      TrackedAppend(cfg, log + Front(more), Last(more));
      RefusedWhenFull(cfg, log, path);
    }
  }

  lemma RefusedWhenFull(cfg: Config, log: seq<Event>, path: string)
    requires path in Paths(log) && path !in Tracked(cfg, log)
    ensures |Tracked(cfg, log)| == cfg.maxPaths
  {
    KeepAppend(Paths(log), path, cfg.maxPaths);
  }

  lemma DocsAppend(evs: seq<Event>, e: Event)
    ensures |DocsOf(evs + [e])| == |DocsOf(evs)| + if e.doc in DocsOf(evs) then 0 else 1
    ensures DocsOf(evs + [e]) == DocsOf(evs) + {e.doc}
  {
    assert DocsOf(evs + [e]) == DocsOf(evs) + {e.doc};
  }

  lemma NullsAppend(evs: seq<Event>, e: Event)
    ensures |NullsOf(evs + [e])| == |NullsOf(evs)| + if e.value == Null then 1 else 0
  {
    assert NullsOf(evs + [e]) == NullsOf(evs) + if e.value == Null then {|evs|} else {};
  }

  lemma LabelsAppend(cfg: Config, evs: seq<Event>, e: Event)
    ensures LabelsOf(cfg, evs + [e]) == LabelsOf(cfg, evs) + {EventLabel(cfg, e)}
    ensures AnyInArray(evs + [e]) <==> AnyInArray(evs) || InArray(e.at)
  {
    assert e in evs + [e];
    forall x | x in evs ensures x in evs + [e] {
    }
  }

  lemma LengthsAppend(cfg: Config, evs: seq<Event>, e: Event)
    ensures LengthsOf(cfg, evs + [e]) ==
            LengthsOf(cfg, evs) + if e.value.Array? && !Deep(cfg, e) then {|e.value.items|} else {}
    ensures MaxLength(cfg, evs + [e]) ==
            if e.value.Array? && !Deep(cfg, e) then
              match MaxLength(cfg, evs)
              case None => Some(|e.value.items|)
              case Some(m) => Some(if |e.value.items| <= m then m else |e.value.items|)
            else MaxLength(cfg, evs)
  {
    assert e in evs + [e];
    var a := LengthsOf(cfg, evs);
    assert LengthsOf(cfg, evs + [e]) ==
           a + if e.value.Array? && !Deep(cfg, e) then {|e.value.items|} else {};
    if e.value.Array? && a != {} {
      MaxOfInsert(a, |e.value.items|);
    }
  }

  lemma LeavesAppend(cfg: Config, evs: seq<Event>, e: Event)
    ensures LeavesOf(evs + [e]) == if e.value.IsLeaf() then LeavesOf(evs) + [e.value] else LeavesOf(evs)
    ensures var l := LeavesOf(evs);
            && KeysOf(cfg, l + [e.value]) == KeysOf(cfg, l) + [KeyOf(cfg, e.value)]
            && JsonOf(cfg, l + [e.value]) == JsonOf(cfg, l) + [cfg.toJson(e.value)]
  {
    assert Front(evs + [e]) == evs;
  }

  lemma LiveAppend(cfg: Config, log: seq<Event>, e: Event)
    ensures LiveLog(cfg, log + [e]) ==
            if LiveLog(cfg, log) == log && !Tripped(cfg, log) then log + [e] else LiveLog(cfg, log)
    ensures LiveLog(cfg, log) != log ==> Tripped(cfg, log)
  {
    assert Front(log + [e]) == log;
    LiveUntilTripped(cfg, log);
  }

  lemma {:induction false} LiveUntilTripped(cfg: Config, log: seq<Event>)
    ensures LiveLog(cfg, log) != log ==> Tripped(cfg, log)
  {
    if log != [] {
      LiveUntilTripped(cfg, Front(log));
    }
  }

  /** The key an event adds to the distinct set of its path, when no global ceiling stops it. */
  ghost predicate AddsKey(cfg: Config, log: seq<Event>, e: Event) {
    && e.value.IsLeaf()
    && Path(e) in Tracked(cfg, log + [e])
    && KeyOf(cfg, e.value) !in KeptKeys(cfg, log, Path(e))
    && |KeptKeys(cfg, log, Path(e))| < cfg.distinctCap
  }

  lemma KeptKeysAppend(cfg: Config, log: seq<Event>, e: Event, path: string)
    requires path in Tracked(cfg, log + [e])
    ensures KeptKeys(cfg, log + [e], path) ==
            if path == Path(e) && AddsKey(cfg, log, e) then KeptKeys(cfg, log, path) + [KeyOf(cfg, e.value)]
            else KeptKeys(cfg, log, path)
  {
    AtAppend(log, e, path);
    LeavesAppend(cfg, At(log, path), e);
    KeepAppend(KeysOf(cfg, LeavesOf(At(log, path))), KeyOf(cfg, e.value), cfg.distinctCap);
  }

  lemma {:induction false} SumKeptAppend(cfg: Config, log: seq<Event>, e: Event, paths: seq<string>)
    requires NoDuplicates(paths) && ToSet(paths) <= ToSet(Tracked(cfg, log + [e]))
    ensures SumKept(cfg, log + [e], paths) == SumKept(cfg, log, paths)
              + if Path(e) in paths && AddsKey(cfg, log, e) then |KeyOf(cfg, e.value)| else 0
  {
    if paths != [] {
      assert paths == Front(paths) + [Last(paths)];
      assert ToSet(Front(paths)) <= ToSet(paths) && Last(paths) in ToSet(paths);
      SumKeptAppend(cfg, log, e, Front(paths));
      KeptKeysAppend(cfg, log, e, Last(paths));
      SumLengthsAppend(KeptKeys(cfg, log, Last(paths)), KeyOf(cfg, e.value));
    }
  }

  lemma SumLengthsAppend(keys: seq<Bytes>, k: Bytes)
    ensures SumLengths(keys + [k]) == SumLengths(keys) + |k|
  {
    assert Front(keys + [k]) == keys;
  }

  lemma KeptBytesAppend(cfg: Config, log: seq<Event>, e: Event)
    ensures KeptBytes(cfg, log + [e]) ==
            KeptBytes(cfg, log) + if AddsKey(cfg, log, e) then |KeyOf(cfg, e.value)| else 0
  {
    var t, t' := Tracked(cfg, log), Tracked(cfg, log + [e]);
    TrackedAppend(cfg, log, e);
    TrackedAppend(cfg, log + [e], e);
    SumKeptAppend(cfg, log, e, t');
    if t' != t {
      assert Front(t') == t && Last(t') == Path(e);
      assert KeptKeys(cfg, log, Path(e)) == [];
    }
  }

  /** Refused events stay refused, so counting refusals against the final set is the same as
      counting them as they happen. */
  lemma OutsideAppend(cfg: Config, log: seq<Event>, e: Event)
    ensures var t, t' := Tracked(cfg, log), Tracked(cfg, log + [e]);
            Outside(log + [e], t') == Outside(log, t) + if Path(e) in t' then 0 else 1
  {
    var t, t' := Tracked(cfg, log), Tracked(cfg, log + [e]);
    assert Front(log + [e]) == log;
    TrackedAppend(cfg, log, e);
    AtMembers(log, Path(e));
    if t' != t {
      OutsideIrrelevant(log, t, Path(e));
    }
  }

  lemma {:induction false} OutsideIrrelevant(log: seq<Event>, kept: seq<string>, path: string)
    requires path !in Paths(log)
    ensures Outside(log, kept + [path]) == Outside(log, kept)
  {
    if log != [] {
      assert Paths(log) == Paths(Front(log)) + [Path(Last(log))];
      OutsideIrrelevant(Front(log), kept, path);
    }
  }

  /** An event changes nothing at any other path. */
  lemma StatsElsewhere(cfg: Config, log: seq<Event>, e: Event, path: string)
    requires path in Tracked(cfg, log) && path != Path(e)
    ensures path in Tracked(cfg, log + [e])
    ensures StatsOf(cfg, log + [e], log, path) == StatsOf(cfg, log, log, path)
  {
    hide LiveLog, DocsOf, NullsOf, LabelsOf, MaxLength, AnyInArray, Overfull, Sampled, Keep, ToSet;
    TrackedAppend(cfg, log, e);
    AtAppend(log, e, path);
    LiveAppend(cfg, log, e);
    if Tracked(cfg, log + [e]) != Tracked(cfg, log) {
      IndexAppend(Tracked(cfg, log), [Path(e)], path);
    }
  }

  lemma StatsElsewhereAll(cfg: Config, log: seq<Event>, e: Event)
    ensures forall p :: p in Tracked(cfg, log) && p != Path(e) ==>
              && p in Tracked(cfg, log + [e])
              && StatsOf(cfg, log + [e], log, p) == StatsOf(cfg, log, log, p)
  {
    forall p | p in Tracked(cfg, log) && p != Path(e)
      ensures p in Tracked(cfg, log + [e])
      ensures StatsOf(cfg, log + [e], log, p) == StatsOf(cfg, log, log, p)
    {
      StatsElsewhere(cfg, log, e, p);
    }
  }

  /** The statistics an event starts from: those of its path, or fresh ones. */
  ghost function Before(cfg: Config, log: seq<Event>, e: Event): PathStats {
    if Path(e) in Tracked(cfg, log) then StatsOf(cfg, log, log, Path(e))
    else PathStats(0, 0, {}, {}, false, [], 0, None, InArray(e.at), |Tracked(cfg, log)| + 1)
  }

  lemma PositionAppend(cfg: Config, log: seq<Event>, e: Event)
    requires Path(e) in Tracked(cfg, log + [e])
    ensures var t, t' := Tracked(cfg, log), Tracked(cfg, log + [e]);
            IndexIn(t', Path(e)) == if Path(e) in t then IndexIn(t, Path(e)) else |t|
  {
    TrackedAppend(cfg, log, e);
    KeepProperties(Paths(log + [e]), cfg.maxPaths);
    if Path(e) !in Tracked(cfg, log) {
      IndexUnique(Tracked(cfg, log + [e]), |Tracked(cfg, log)|);
    }
  }

  lemma RecordCounts(cfg: Config, log: seq<Event>, e: Event)
    requires Path(e) in Tracked(cfg, log + [e])
    ensures var s, t := Before(cfg, log, e), StatsOf(cfg, log + [e], log, Path(e));
            && t.seenCount == s.seenCount + (if e.doc in DocsOf(At(log, Path(e))) then 0 else 1)
            && t.nullCount == s.nullCount + (if e.value == Null then 1 else 0)
            && t.types == s.types + {EventLabel(cfg, e)}
            && t.isArrayElement == (s.isArrayElement || InArray(e.at))
            && t.arrayMaxLen == s.arrayMaxLen
            && t.firstSeenPosition == s.firstSeenPosition
  {
    hide LiveKeys, Sampled, LeavesOf, Overfull, At, DocsOf, NullsOf, LabelsOf, MaxLength, AnyInArray,
         Tracked, Before;
    var evs := At(log, Path(e));
    BeforeCounts(cfg, log, e);
    AtAppend(log, e, Path(e));
    DocsAppend(evs, e);
    NullsAppend(evs, e);
    LabelsAppend(cfg, evs, e);
    PositionAppend(cfg, log, e);
  }

  lemma BeforeCounts(cfg: Config, log: seq<Event>, e: Event)
    requires Path(e) in Tracked(cfg, log + [e])
    ensures var s, evs := Before(cfg, log, e), At(log, Path(e));
            && s.seenCount == |DocsOf(evs)| && s.nullCount == |NullsOf(evs)|
            && s.types == LabelsOf(cfg, evs) && s.arrayMaxLen == MaxLength(cfg, evs)
            && (s.isArrayElement || InArray(e.at) <==> AnyInArray(evs) || InArray(e.at))
            && s.firstSeenPosition == 1 + (if Path(e) in Tracked(cfg, log) then IndexIn(Tracked(cfg, log), Path(e))
                                           else |Tracked(cfg, log)|)
  {
    if Path(e) !in Tracked(cfg, log) {
      TrackedAppend(cfg, log, e);
      assert NullsOf([]) == {} && DocsOf([]) == {};
    }
  }

  lemma RecordSamples(cfg: Config, log: seq<Event>, e: Event)
    requires Path(e) in Tracked(cfg, log + [e])
    ensures var s, t := Before(cfg, log, e), StatsOf(cfg, log + [e], log, Path(e));
            && |s.samples| == Min(s.samplesSeen, cfg.sampleSlots)
            && (!e.value.IsLeaf() ==> t.samples == s.samples && t.samplesSeen == s.samplesSeen)
            && (e.value.IsLeaf() ==>
                  && t.samplesSeen == s.samplesSeen + 1
                  && t.samples ==
                     if s.samplesSeen < cfg.sampleSlots then s.samples + [cfg.toJson(e.value)]
                     else if Slot(t.samplesSeen, cfg.sampleSlots) < cfg.sampleSlots then
                       s.samples[Slot(t.samplesSeen, cfg.sampleSlots) := cfg.toJson(e.value)]
                     else s.samples)
  {
    hide LiveKeys, DocsOf, NullsOf, LabelsOf, MaxLength, AnyInArray, Overfull, Tracked, Slot, ToSet;
    var p := Path(e);
    var leaves := LeavesOf(At(log, p));
    TrackedAppend(cfg, log, e);
    AtAppend(log, e, p);
    LeavesAppend(cfg, At(log, p), e);
    SampledAppend(JsonOf(cfg, leaves), cfg.toJson(e.value), cfg.sampleSlots);
  }

  /** Is the key of this event offered to the distinct set of its path? */
  ghost predicate OffersKey(cfg: Config, log: seq<Event>, e: Event) {
    e.value.IsLeaf() && !Before(cfg, log, e).distinctCapped && !Tripped(cfg, log)
  }

  /** Distinct tracking: a leaf key enters its path's set unless the path is full or either
      flag is up. */
  lemma RecordDistinct(cfg: Config, log: seq<Event>, e: Event)
    requires Path(e) in Tracked(cfg, log + [e])
    ensures var s, t := Before(cfg, log, e), StatsOf(cfg, log + [e], log, Path(e));
            var room := |s.distinct| < cfg.distinctCap;
            && t.distinct == s.distinct + (if OffersKey(cfg, log, e) && room then {KeyOf(cfg, e.value)} else {})
            && t.distinctCapped == (s.distinctCapped || (OffersKey(cfg, log, e) && !room))
  {
    hide Sampled, LeavesOf, At, LabelsOf, DocsOf, NullsOf, MaxLength, AnyInArray, LiveKeys, Overfull,
         Before, Tracked;
    BeforeDistinct(cfg, log, e);
    KeyArrives(LiveKeys(cfg, log, Path(e)), KeyOf(cfg, e.value), cfg.distinctCap);
    LiveKeysAppend(cfg, log, e);
  }

  /** The byte total grows by exactly the key that enters a set. */
  lemma RecordBytes(cfg: Config, log: seq<Event>, e: Event)
    requires Path(e) in Tracked(cfg, log + [e])
    ensures var s, key := Before(cfg, log, e), KeyOf(cfg, e.value);
            KeptBytes(cfg, LiveLog(cfg, log + [e])) ==
            KeptBytes(cfg, LiveLog(cfg, log))
            + (if OffersKey(cfg, log, e) && |s.distinct| < cfg.distinctCap && key !in s.distinct then |key| else 0)
    ensures !e.value.IsLeaf() ==> (Tripped(cfg, log + [e]) <==> Tripped(cfg, log))
  {
    hide LeavesOf, At, Overfull, Before, Tracked, LiveLog, KeptBytes;
    BeforeDistinct(cfg, log, e);
    KeyArrives(LiveKeys(cfg, log, Path(e)), KeyOf(cfg, e.value), cfg.distinctCap);
    LiveAppend(cfg, log, e);
    if LiveLog(cfg, log) == log && !Tripped(cfg, log) {
      KeptBytesAppend(cfg, log, e);
    }
  }

  lemma LiveKeysAppend(cfg: Config, log: seq<Event>, e: Event)
    ensures var keys := LiveKeys(cfg, log, Path(e));
            LiveKeys(cfg, log + [e], Path(e)) ==
            if e.value.IsLeaf() && !Tripped(cfg, log) then keys + [KeyOf(cfg, e.value)] else keys
  {
    LiveAppend(cfg, log, e);
    AtAppend(log, e, Path(e));
    LeavesAppend(cfg, At(log, Path(e)), e);
  }

  lemma BeforeDistinct(cfg: Config, log: seq<Event>, e: Event)
    requires Path(e) in Tracked(cfg, log + [e])
    ensures var s, keys := Before(cfg, log, e), LiveKeys(cfg, log, Path(e));
            && s.distinct == ToSet(Keep(keys, cfg.distinctCap))
            && s.distinctCapped == Overfull(keys, cfg.distinctCap)
  {
    if Path(e) !in Tracked(cfg, log) {
      TrackedAppend(cfg, log, e);
      AtPrefixEmpty(log, LiveLog(cfg, log), Path(e));
      OverfullFull([], cfg.distinctCap);
    }
  }

  lemma AtPrefixEmpty(log: seq<Event>, prefix: seq<Event>, path: string)
    requires prefix <= log && At(log, path) == []
    ensures At(prefix, path) == []
  {
    AtMembers(log, path);
    AtMembers(prefix, path);
    forall i | 0 <= i < |prefix| ensures Paths(prefix)[i] != path {
      assert Paths(prefix)[i] == Paths(log)[i];
    }
  }

  /** One more key offered to a capped set of keys. */
  lemma KeyArrives(keys: seq<Bytes>, key: Bytes, cap: nat)
    ensures var d := ToSet(Keep(keys, cap));
            && |d| == |Keep(keys, cap)|
            && (key in d <==> key in Keep(keys, cap))
            && ToSet(Keep(keys + [key], cap)) == d + (if |d| < cap then {key} else {})
            && (Overfull(keys + [key], cap) <==> |d| >= cap)
            && (Overfull(keys, cap) ==> |d| >= cap)
            && (keys == [] ==> d == {} && !Overfull(keys, cap))
  {
    hide Keep, Firsts;
    var kept := Keep(keys, cap);
    KeepProperties(keys, cap);
    NoDuplicatesCardinality(kept);
    KeepAppend(keys, key, cap);
    assert Front(keys + [key]) == keys;
    OverfullFull(keys, cap);
    if key in kept || |kept| >= cap {
      assert key in kept ==> ToSet(kept) + {key} == ToSet(kept);
    } else {
      assert ToSet(kept + [key]) == ToSet(kept) + {key};
    }
  }

  lemma OverfullFull(keys: seq<Bytes>, cap: nat)
    ensures Overfull(keys, cap) ==> |Keep(keys, cap)| >= cap
    ensures keys == [] ==> Keep(keys, cap) == []
  {
    if keys != [] {
      KeepAppend(Front(keys), Last(keys), cap);
      assert keys == Front(keys) + [Last(keys)];
    }
  }

  /** A refused event leaves distinct tracking alone. */
  lemma RefusedDistinct(cfg: Config, log: seq<Event>, e: Event)
    requires Path(e) !in Tracked(cfg, log + [e])
    ensures KeptBytes(cfg, LiveLog(cfg, log + [e])) == KeptBytes(cfg, LiveLog(cfg, log))
    ensures Tracked(cfg, log + [e]) == Tracked(cfg, log)
  {
    TrackedAppend(cfg, log, e);
    LiveAppend(cfg, log, e);
    KeptBytesAppend(cfg, log, e);
  }

  // ---------- The walker's fields against the log ----------

  /** The fields of a walker, as one value. */
  datatype Fields = Fields(
    paths: map<string, PathStats>,
    order: seq<string>,
    truncatedPaths: nat,
    distinctBytes: nat,
    distinctGloballyCapped: bool,
    nextPosition: nat)

  /** The fields are the statistics of the log; follow-up work (array lengths, the truncation
      counter) has been done for the events in `settled`. */
  ghost predicate Summarizes(cfg: Config, log: seq<Event>, settled: seq<Event>, f: Fields) {
    && f.order == Tracked(cfg, log)
    && f.paths.Keys == ToSet(f.order)
    && (forall p :: p in f.paths ==> f.paths[p] == StatsOf(cfg, log, settled, p))
    && f.truncatedPaths == Outside(log, f.order) + DeepCount(cfg, settled)
    && f.distinctBytes == KeptBytes(cfg, LiveLog(cfg, log))
    && (f.distinctGloballyCapped <==> Tripped(cfg, log))
    && f.nextPosition == |f.order| + 1
  }

  lemma EmptySummary(cfg: Config)
    ensures Summarizes(cfg, [], [], Fields(map[], [], 0, 0, false, 1))
  {
    assert Tracked(cfg, []) == [];
  }

  /** Refusing an event at the path cap. */
  lemma SummaryRefuses(cfg: Config, log: seq<Event>, e: Event, f: Fields)
    requires Summarizes(cfg, log, log, f)
    requires Path(e) !in f.paths && |f.paths| >= cfg.maxPaths
    ensures Path(e) !in Tracked(cfg, log + [e])
    ensures Summarizes(cfg, log + [e], log, f.(truncatedPaths := f.truncatedPaths + 1))
  {
    hide StatsOf, LiveLog, KeptBytes, Tracked, Outside, DeepCount;
    TrackedAppend(cfg, log, e);
    assert |f.paths| == |f.paths.Keys| == |f.order|;
    RefusedDistinct(cfg, log, e);
    OutsideAppend(cfg, log, e);
    StatsElsewhereAll(cfg, log, e);
  }

  lemma AcceptedTracked(cfg: Config, log: seq<Event>, e: Event, f: Fields)
    requires Summarizes(cfg, log, log, f)
    requires Path(e) in f.paths || |f.paths| < cfg.maxPaths
    ensures Path(e) in Tracked(cfg, log + [e])
    ensures Before(cfg, log, e) ==
            if Path(e) in f.paths then f.paths[Path(e)]
            else PathStats(0, 0, {}, {}, false, [], 0, None, InArray(e.at), f.nextPosition)
    ensures Path(e) in f.paths <==> Before(cfg, log, e).firstSeenPosition != f.nextPosition
    ensures f.distinctGloballyCapped <==> Tripped(cfg, log)
    ensures f.distinctBytes == KeptBytes(cfg, LiveLog(cfg, log))
    ensures Tracked(cfg, log + [e]) == if Path(e) in f.paths then f.order else f.order + [Path(e)]
    ensures f.nextPosition == |f.order| + 1
  {
    hide LiveLog, KeptBytes, Tracked, Outside, DeepCount, LiveKeys, DocsOf, NullsOf, LabelsOf, Sampled,
         MaxLength, AnyInArray;
    TrackedAppend(cfg, log, e);
    assert |f.paths| == |f.paths.Keys| == |f.order|;
  }

  /** Accepting an event: its path has its new statistics and nothing else moves. */
  lemma AcceptedPaths(cfg: Config, log: seq<Event>, e: Event, f: Fields, p: string)
    requires Summarizes(cfg, log, log, f)
    requires p in f.paths && p != Path(e)
    ensures p in Tracked(cfg, log + [e])
    ensures f.paths[p] == StatsOf(cfg, log + [e], log, p)
  {
    StatsElsewhere(cfg, log, e, p);
  }

  lemma AcceptedOrder(cfg: Config, log: seq<Event>, e: Event, f: Fields)
    requires Summarizes(cfg, log, log, f)
    requires Path(e) in Tracked(cfg, log + [e])
    ensures Tracked(cfg, log + [e]) == if Path(e) in f.paths then f.order else f.order + [Path(e)]
    ensures ToSet(Tracked(cfg, log + [e])) == f.paths.Keys + {Path(e)}
    ensures Outside(log + [e], Tracked(cfg, log + [e])) == Outside(log, f.order)
  {
    hide StatsOf, LiveLog, KeptBytes, Tracked, Outside, DeepCount;
    TrackedAppend(cfg, log, e);
    OutsideAppend(cfg, log, e);
    assert Path(e) in ToSet(f.order) <==> Path(e) in f.order;
  }

  lemma SummaryAccepts(cfg: Config, log: seq<Event>, e: Event, f: Fields, g: Fields)
    requires Summarizes(cfg, log, log, f)
    requires Path(e) in Tracked(cfg, log + [e])
    requires g.paths == f.paths[Path(e) := StatsOf(cfg, log + [e], log, Path(e))]
    requires g.order == Tracked(cfg, log + [e]) && g.nextPosition == |g.order| + 1
    requires g.truncatedPaths == f.truncatedPaths
    requires g.distinctBytes == KeptBytes(cfg, LiveLog(cfg, log + [e]))
    requires g.distinctGloballyCapped == Tripped(cfg, log + [e])
    ensures Summarizes(cfg, log + [e], log, g)
  {
    hide StatsOf, LiveLog, KeptBytes, Tripped, Tracked, Outside, DeepCount, ToSet;
    AcceptedOrder(cfg, log, e, f);
    forall p | p in g.paths && p != Path(e)
      ensures p in Tracked(cfg, log + [e]) && g.paths[p] == StatsOf(cfg, log + [e], log, p)
    {
      AcceptedPaths(cfg, log, e, f, p);
    }
  }

  function Longest(before: Option<nat>, len: nat): nat {
    match before
    case None => len
    case Some(m) => if len <= m then m else len
  }

  /** The effect of one event on the array lengths already taken into account. */
  lemma SettleStats(cfg: Config, log: seq<Event>, e: Event, p: string)
    requires p in Tracked(cfg, log + [e])
    ensures StatsOf(cfg, log + [e], log + [e], p) ==
            var s := StatsOf(cfg, log + [e], log, p);
            if p == Path(e) && e.value.Array? && !Deep(cfg, e) then
              s.(arrayMaxLen := Some(Longest(s.arrayMaxLen, |e.value.items|)))
            else s
  {
    hide LiveKeys, Sampled, LengthsOf, LabelsOf, DocsOf, NullsOf, LeavesOf, Overfull;
    AtAppend(log, e, p);
    LengthsAppend(cfg, At(log, p), e);
  }

  /** The work that follows recording an event: the length of an array above the depth limit
      is taken into account, and an event past it is counted as truncated. */
  lemma SummarySettles(cfg: Config, log: seq<Event>, e: Event, f: Fields, g: Fields)
    requires Summarizes(cfg, log + [e], log, f)
    requires g.paths.Keys == f.paths.Keys
    requires forall p :: p in f.paths ==>
               g.paths[p] == if p == Path(e) && e.value.Array? && !Deep(cfg, e)
                             then f.paths[p].(arrayMaxLen := Some(Longest(f.paths[p].arrayMaxLen, |e.value.items|)))
                             else f.paths[p]
    requires g.truncatedPaths == f.truncatedPaths + if Deep(cfg, e) then 1 else 0
    requires f.order == g.order && f.nextPosition == g.nextPosition
    requires f.distinctBytes == g.distinctBytes && f.distinctGloballyCapped == g.distinctGloballyCapped
    ensures Summarizes(cfg, log + [e], log + [e], g)
  {
    hide StatsOf, LiveLog, KeptBytes, Tracked, Outside;
    assert Front(log + [e]) == log;
    forall p | p in g.paths
      ensures p in Tracked(cfg, log + [e]) && g.paths[p] == StatsOf(cfg, log + [e], log + [e], p)
    {
      assert p in f.paths;
      SettleStats(cfg, log, e, p);
    }
  }

  /** `visited` holds the tracked paths met so far in document `doc`. */
  ghost predicate VisitedIn(cfg: Config, log: seq<Event>, doc: nat, visited: set<string>) {
    forall p :: p in visited <==> p in Tracked(cfg, log) && doc in DocsOf(At(log, p))
  }

  lemma VisitedAppend(cfg: Config, log: seq<Event>, e: Event, visited: set<string>)
    requires VisitedIn(cfg, log, e.doc, visited)
    ensures VisitedIn(cfg, log + [e], e.doc,
                      if Path(e) in Tracked(cfg, log + [e]) then visited + {Path(e)} else visited)
    ensures Path(e) in Tracked(cfg, log + [e]) ==>
              (Path(e) in visited <==> e.doc in DocsOf(At(log, Path(e))))
  {
    hide Tracked, At;
    TrackedAppend(cfg, log, e);
    DocsAppend(At(log, Path(e)), e);
    forall p ensures At(log + [e], p) == if Path(e) == p then At(log, p) + [e] else At(log, p) {
      AtAppend(log, e, p);
    }
  }

  lemma VisitedNothing(cfg: Config, docs: seq<seq<Field>>)
    ensures VisitedIn(cfg, LogOf(cfg, docs), |docs| + 1, {})
  {
    DocsBounded(cfg, docs);
    forall p | p in Tracked(cfg, LogOf(cfg, docs))
      ensures |docs| + 1 !in DocsOf(At(LogOf(cfg, docs), p))
    {
      AtMembers(LogOf(cfg, docs), p);
    }
  }

  /** The i-th tracked path has position i + 1. */
  lemma EntriesInOrder(cfg: Config, log: seq<Event>, f: Fields)
    requires Summarizes(cfg, log, log, f)
    ensures forall i :: 0 <= i < |f.order| ==>
              && f.order[i] in Tracked(cfg, log)
              && f.order[i] in f.paths
              && f.paths[f.order[i]] == StatsOf(cfg, log, log, f.order[i])
              && f.paths[f.order[i]].firstSeenPosition == i + 1
  {
    hide LiveLog, KeptBytes, Outside, DeepCount, LiveKeys, DocsOf, NullsOf, LabelsOf, Sampled,
         MaxLength, AnyInArray, Tracked;
    KeepProperties(Paths(log), cfg.maxPaths);
    assert f.order == Keep(Paths(log), cfg.maxPaths) by { TrackedIsKeep(cfg, log); }
    forall i | 0 <= i < |f.order|
      ensures f.order[i] in f.paths && f.paths[f.order[i]].firstSeenPosition == i + 1
    {
      assert f.order[i] in ToSet(f.order);
      IndexUnique(f.order, i);
    }
  }

  /** With the agent's limits every position fits in a 32-bit integer. */
  lemma PositionsFit(toJson: Bson -> Json, serialize: Json -> Bytes, log: seq<Event>, settled: seq<Event>, f: Fields)
    requires Summarizes(DefaultConfig(toJson, serialize), log, settled, f)
    ensures f.nextPosition <= 5_001 < 0x8000_0000
    ensures forall p :: p in f.paths ==> 1 <= f.paths[p].firstSeenPosition < f.nextPosition
  {
    hide LiveLog, KeptBytes, Outside, DeepCount;
    var cfg := DefaultConfig(toJson, serialize);
    KeepProperties(Paths(log), cfg.maxPaths);
  }

  lemma TrackedIsKeep(cfg: Config, log: seq<Event>)
    ensures Tracked(cfg, log) == Keep(Paths(log), cfg.maxPaths)
  {
  }

  /** Documents are numbered consecutively, so no event mentions a later document. */
  lemma {:induction false} DocsBounded(cfg: Config, docs: seq<seq<Field>>)
    ensures forall e :: e in LogOf(cfg, docs) ==> 1 <= e.doc <= |docs|
  {
    if docs != [] {
      DocsBounded(cfg, Front(docs));
      FieldsNested(cfg, |docs|, [], Last(docs), |Last(docs)|);
    }
  }
}
