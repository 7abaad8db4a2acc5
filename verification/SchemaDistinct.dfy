/** Distinct tracking under a per-path cap and a global byte ceiling: when counts are exact, how
    memory is accounted for, and what happens once the ceiling is passed. */
module SchemaDistinct {
  import opened Collections
  import opened BsonValues
  import opened SchemaEvents
  import opened SchemaStats
  import opened SchemaColumns
  import opened Reservoir

  /** The distinct serialised leaf values at a path over the whole log. */
  ghost function LeafKeys(cfg: Config, log: seq<Event>, path: string): set<Bytes> {
    set e | e in log && Path(e) == path && e.value.IsLeaf() :: KeyOf(cfg, e.value)
  }

  lemma {:induction false} KeysAreLeafKeys(cfg: Config, evs: seq<Event>)
    ensures forall k :: k in KeysOf(cfg, LeavesOf(evs)) <==>
              exists e :: e in evs && e.value.IsLeaf() && KeyOf(cfg, e.value) == k
  {
    if evs != [] {
      var f, e := Front(evs), Last(evs);
      KeysAreLeafKeys(cfg, f);
      LeavesAppend(cfg, f, e);
      assert evs == f + [e];
      assert forall x :: x in evs <==> x in f || x == e;
    }
  }

  lemma LeafKeysSet(cfg: Config, log: seq<Event>, path: string)
    ensures ToSet(KeysOf(cfg, LeavesOf(At(log, path)))) == LeafKeys(cfg, log, path)
  {
    hide LeavesOf, KeysOf, KeyOf, At;
    KeysAreLeafKeys(cfg, At(log, path));
    AtMembers(log, path);
    forall k ensures k in ToSet(KeysOf(cfg, LeavesOf(At(log, path)))) <==> k in LeafKeys(cfg, log, path) {
      if k in LeafKeys(cfg, log, path) {
        var e :| e in log && Path(e) == path && e.value.IsLeaf() && KeyOf(cfg, e.value) == k;
        assert e in At(log, path);
      }
    }
  }

  /** While the global ceiling has not been passed, a path's set holds the first min(cap, D) of
      its D distinct leaf keys, and its own flag goes up exactly when a further leaf arrives at
      a full set, be it a new value or a repeat. */
  lemma DistinctExact(cfg: Config, log: seq<Event>, path: string)
    requires path in Tracked(cfg, log) && !Tripped(cfg, log)
    ensures var s, keys := StatsOf(cfg, log, log, path), KeysOf(cfg, LeavesOf(At(log, path)));
            && s.distinct == ToSet(Keep(keys, cfg.distinctCap))
            && |s.distinct| == Min(cfg.distinctCap, |LeafKeys(cfg, log, path)|)
            && s.distinct <= LeafKeys(cfg, log, path)
            && (s.distinctCapped <==> keys != [] && |ToSet(Front(keys))| >= cfg.distinctCap)
  {
    hide LeavesOf, KeysOf, At, Tracked, DocsOf, NullsOf, LabelsOf, MaxLength, AnyInArray, Sampled,
         Firsts, KeptBytes, Keep;
    LiveUntilTripped(cfg, log);
    LeafKeysSet(cfg, log, path);
    var keys := KeysOf(cfg, LeavesOf(At(log, path)));
    KeepProperties(keys, cfg.distinctCap);
    NoDuplicatesCardinality(Keep(keys, cfg.distinctCap));
    if keys != [] {
      KeepProperties(Front(keys), cfg.distinctCap);
    }
  }

  /** Below the ceiling or past it, a raised path flag means that the path's set is full. */
  lemma FlagMeansFull(cfg: Config, log: seq<Event>, path: string)
    requires path in Tracked(cfg, log)
    ensures var s := StatsOf(cfg, log, log, path);
            s.distinctCapped ==> |s.distinct| == cfg.distinctCap
  {
    hide LiveKeys, Keep, Tracked, DocsOf, NullsOf, LabelsOf, MaxLength, AnyInArray, Sampled, At, LeavesOf;
    var keys := LiveKeys(cfg, log, path);
    OverfullFull(keys, cfg.distinctCap);
    KeepProperties(keys, cfg.distinctCap);
    NoDuplicatesCardinality(Keep(keys, cfg.distinctCap));
  }

  lemma DistinctOfFront(keys: seq<Bytes>)
    requires keys != []
    ensures |ToSet(keys)| == |ToSet(Front(keys))| + if Last(keys) in Front(keys) then 0 else 1
  {
    assert keys == Front(keys) + [Last(keys)];
    assert ToSet(keys) == ToSet(Front(keys)) + {Last(keys)};
  }

  /** When the emitted flag is up, and when it means what it is documented to mean. It is up if
      the ceiling was passed or a leaf arrived at a full set. So it says "more distinct values
      than the cap" except after the ceiling was passed with no more than that, and except when
      there are exactly as many as the cap and the last leaf is a repeat. */
  lemma CappedFlagExact(cfg: Config, docs: seq<seq<Field>>, path: string)
    requires path in Tracked(cfg, LogOf(cfg, docs))
    ensures var c, log := ColumnOf(cfg, docs, path), LogOf(cfg, docs);
            var keys, d := KeysOf(cfg, LeavesOf(At(log, path))), |LeafKeys(cfg, log, path)|;
            && (c.distinctCapped <==>
                  Tripped(cfg, log) || (keys != [] && |ToSet(Front(keys))| >= cfg.distinctCap))
            && ((c.distinctCapped <==> d > cfg.distinctCap) <==>
                  if Tripped(cfg, log) then d > cfg.distinctCap
                  else keys == [] || d != cfg.distinctCap || Last(keys) !in Front(keys))
  {
    hide LogOf, StatsOf, Tripped, Tracked, DataType, LeafKeys, LeavesOf, KeysOf, At;
    var log := LogOf(cfg, docs);
    var keys := KeysOf(cfg, LeavesOf(At(log, path)));
    LeafKeysSet(cfg, log, path);
    if !Tripped(cfg, log) {
      DistinctExact(cfg, log, path);
    }
    if keys != [] {
      DistinctOfFront(keys);
    } else {
      assert ToSet(keys) == {};
    }
  }

  /** An emitted column that is not flagged as capped reports the exact number of distinct
      values, and more distinct values than the cap always raise the flag. */
  lemma UncappedCountExact(cfg: Config, docs: seq<seq<Field>>, path: string)
    requires path in Tracked(cfg, LogOf(cfg, docs))
    ensures var c := ColumnOf(cfg, docs, path);
            var keys := LeafKeys(cfg, LogOf(cfg, docs), path);
            && (!c.distinctCapped ==> c.distinctCount == Some(|keys|))
            && (|keys| > cfg.distinctCap ==> c.distinctCapped)
  {
    hide LogOf, StatsOf, Tripped, Tracked, DataType, LeafKeys, LeavesOf, KeysOf, At, Keep;
    var log := LogOf(cfg, docs);
    CappedFlagExact(cfg, docs, path);
    if !Tripped(cfg, log) {
      DistinctExact(cfg, log, path);
      var keys := KeysOf(cfg, LeavesOf(At(log, path)));
      LeafKeysSet(cfg, log, path);
      if keys != [] {
        DistinctOfFront(keys);
      } else {
        assert ToSet(keys) == {};
      }
    }
  }

  lemma LeafKeysOfPrefix(cfg: Config, prefix: seq<Event>, log: seq<Event>, path: string)
    requires prefix <= log
    ensures LeafKeys(cfg, prefix, path) <= LeafKeys(cfg, log, path)
  {
    hide KeyOf, Path;
    forall e | e in prefix ensures e in log {
    }
  }

  /** Whatever the caps did, the reported count is the number of distinct values in the part of the
      log before the ceiling, up to the per-path cap, and so never exceeds the number of distinct
      values; it is missing only if tracking stopped before the path had any. */
  lemma CountNeverTooHigh(cfg: Config, docs: seq<seq<Field>>, path: string)
    requires path in Tracked(cfg, LogOf(cfg, docs))
    ensures var c, log := ColumnOf(cfg, docs, path), LogOf(cfg, docs);
            && (c.distinctCount == None <==>
                  Tripped(cfg, log) && (LiveKeys(cfg, log, path) == [] || cfg.distinctCap == 0))
            && (c.distinctCount.Some? ==>
                  && c.distinctCount.value == Min(cfg.distinctCap, |LeafKeys(cfg, LiveLog(cfg, log), path)|)
                  && c.distinctCount.value <= |LeafKeys(cfg, log, path)|)
  {
    hide LogOf, At, Tracked, DocsOf, NullsOf, LabelsOf, MaxLength, AnyInArray, Sampled, Firsts,
         KeptBytes, Keep, LeafKeys, KeysOf, LeavesOf, LiveLog, DataType, Overfull;
    var log := LogOf(cfg, docs);
    var live := LiveLog(cfg, log);
    var keys := LiveKeys(cfg, log, path);
    KeepProperties(keys, cfg.distinctCap);
    NoDuplicatesCardinality(Keep(keys, cfg.distinctCap));
    LeafKeysSet(cfg, live, path);
    LeafKeysOfPrefix(cfg, live, log, path);
    SubsetCardinality(LeafKeys(cfg, live, path), LeafKeys(cfg, log, path));
    if keys != [] {
      assert Last(keys) in ToSet(keys);
    }
  }

  // ---------- A sample on which the flag misleads ----------

  /** One document per value, with nothing but that value in a field `name`. */
  function Singles(name: string, values: seq<Bson>): seq<seq<Field>> {
    seq(|values|, i requires 0 <= i < |values| => [Field(name, values[i])])
  }

  lemma OneLeaf(cfg: Config, doc: nat, name: string, value: Bson)
    requires value.IsLeaf()
    ensures DocEvents(cfg, doc, [Field(name, value)]) == [Event(doc, [Key(name)], value)]
    ensures Path(Event(doc, [Key(name)], value)) == name
  {
    var fields := [Field(name, value)];
    assert [] + [Key(name)] == [Key(name)];
    assert Events(cfg, doc, [Key(name)], value) == [Event(doc, [Key(name)], value)];
    assert FieldEvents(cfg, doc, [], fields, 1) == [] + Events(cfg, doc, [Key(name)], value);
  }

  lemma SinglesAppend(cfg: Config, name: string, values: seq<Bson>, v: Bson)
    requires v.IsLeaf()
    ensures LogOf(cfg, Singles(name, values + [v])) ==
            LogOf(cfg, Singles(name, values)) + [Event(|values| + 1, [Key(name)], v)]
  {
    var docs := Singles(name, values + [v]);
    assert Front(docs) == Singles(name, values) && Last(docs) == [Field(name, v)];
    OneLeaf(cfg, |docs|, name, v);
  }

  lemma {:induction false} SinglesLog(cfg: Config, name: string, values: seq<Bson>)
    requires forall v :: v in values ==> v.IsLeaf()
    ensures LeavesOf(At(LogOf(cfg, Singles(name, values)), name)) == values
  {
    if values != [] {
      hide LogOf, Singles, At, LeavesOf, Path, DocEvents;
      var f, v := Front(values), Last(values);
      var log, e := LogOf(cfg, Singles(name, f)), Event(|values|, [Key(name)], v);
      assert values == f + [v];
      SinglesLog(cfg, name, f);
      SinglesAppend(cfg, name, f, v);
      OneLeaf(cfg, |values|, name, v);
      AtAppend(log, e, name);
      LeavesAppend(cfg, At(log, name), e);
    }
  }

  lemma {:induction false} SinglesPaths(cfg: Config, name: string, values: seq<Bson>)
    requires forall v :: v in values ==> v.IsLeaf()
    ensures forall p :: p in Paths(LogOf(cfg, Singles(name, values))) ==> p == name
  {
    if values != [] {
      hide LogOf, Singles, Path, DocEvents;
      var f, v := Front(values), Last(values);
      var log, e := LogOf(cfg, Singles(name, f)), Event(|values|, [Key(name)], v);
      assert values == f + [v];
      SinglesPaths(cfg, name, f);
      SinglesAppend(cfg, name, f, v);
      OneLeaf(cfg, |values|, name, v);
      assert Paths(log + [e]) == Paths(log) + [name];
    }
  }

  lemma SinglesTracked(cfg: Config, name: string, values: seq<Bson>)
    requires (forall v :: v in values ==> v.IsLeaf()) && values != [] && cfg.maxPaths >= 1
    ensures name in Tracked(cfg, LogOf(cfg, Singles(name, values)))
  {
    hide LogOf, Keep, Paths;
    var log := LogOf(cfg, Singles(name, values));
    SinglesLog(cfg, name, values);
    SinglesPaths(cfg, name, values);
    AtMembers(log, name);
    assert At(log, name) != [] by { assert LeavesOf([]) == []; }
    KeepProperties(Paths(log), cfg.maxPaths);
    assert ToSet(Paths(log)) == {name};
    assert Keep(Paths(log), cfg.maxPaths)[0] == name;
  }

  /** The emitted flag does not mean that the cap was exceeded. Take any leaf values with exactly
      as many distinct keys as the cap allows and repeat one of them: the column is flagged as
      capped, and under the ceiling it even reports the exact count. */
  lemma RepeatRaisesFlag(cfg: Config, name: string, values: seq<Bson>, v: Bson)
    requires (forall u :: u in values + [v] ==> u.IsLeaf()) && cfg.maxPaths >= 1
    requires KeyOf(cfg, v) in KeysOf(cfg, values) && |ToSet(KeysOf(cfg, values))| == cfg.distinctCap
    ensures var docs := Singles(name, values + [v]);
            && name in Tracked(cfg, LogOf(cfg, docs))
            && |LeafKeys(cfg, LogOf(cfg, docs), name)| == cfg.distinctCap
            && ColumnOf(cfg, docs, name).distinctCapped
            && (!Tripped(cfg, LogOf(cfg, docs)) ==>
                  ColumnOf(cfg, docs, name).distinctCount == Some(cfg.distinctCap))
  {
    hide LogOf, StatsOf, Tripped, Tracked, LeafKeys, LeavesOf, At, DataType, KeyOf;
    var docs, keys := Singles(name, values + [v]), KeysOf(cfg, values);
    var log := LogOf(cfg, docs);
    SinglesTracked(cfg, name, values + [v]);
    SinglesLog(cfg, name, values + [v]);
    assert KeysOf(cfg, values + [v]) == keys + [KeyOf(cfg, v)];
    assert Front(keys + [KeyOf(cfg, v)]) == keys;
    assert ToSet(keys + [KeyOf(cfg, v)]) == ToSet(keys);
    LeafKeysSet(cfg, log, name);
    CappedFlagExact(cfg, docs, name);
    if !Tripped(cfg, log) {
      DistinctExact(cfg, log, name);
    }
  }

  /** Such a sample exists for the agent's limits: a thousand texts of different lengths and one
      repeat, under conversions that keep the length. */
  lemma FlagMisleads()
    ensures exists toJson: Bson -> Json, serialize: Json -> Bytes, docs: seq<seq<Field>> ::
              var cfg := DefaultConfig(toJson, serialize);
              && "a" in Tracked(cfg, LogOf(cfg, docs))
              && ColumnOf(cfg, docs, "a").distinctCapped
              && |LeafKeys(cfg, LogOf(cfg, docs), "a")| == cfg.distinctCap
  {
    hide LogOf, ColumnOf, Tracked, LeafKeys;
    var toJson := (v: Bson) => Json(if v.Scalar? then v.payload else "");
    var serialize := (j: Json) => seq(|j.text|, _ => 0 as bv8);
    var cfg := DefaultConfig(toJson, serialize);
    var values := seq(1000, i requires 0 <= i < 1000 => Scalar(Str, seq(i, _ => 'x')));
    var keys := KeysOf(cfg, values);
    assert forall i :: 0 <= i < 1000 ==> |keys[i]| == i;
    assert NoDuplicates(keys);
    NoDuplicatesCardinality(keys);
    assert keys[0] == KeyOf(cfg, values[0]);
    RepeatRaisesFlag(cfg, "a", values, values[0]);
  }

  // ---------- The global ceiling ----------

  lemma EmptyBytes(cfg: Config)
    ensures KeptBytes(cfg, []) == 0
  {
    assert Tracked(cfg, []) == [];
  }

  lemma BytesStep(cfg: Config, log: seq<Event>, e: Event)
    ensures KeptBytes(cfg, log) <= KeptBytes(cfg, log + [e]) <= KeptBytes(cfg, log) + |KeyOf(cfg, e.value)|
  {
    KeptBytesAppend(cfg, log, e);
  }

  lemma {:induction false} BytesGrow(cfg: Config, log: seq<Event>, n: nat)
    requires n <= |log|
    ensures KeptBytes(cfg, log[..n]) <= KeptBytes(cfg, log)
  {
    hide KeptBytes;
    if n == |log| {
      assert log[..n] == log;
    } else {
      var f := Front(log);
      assert log == f + [Last(log)] && log[..n] == f[..n];
      BytesGrow(cfg, f, n);
      BytesStep(cfg, f, Last(log));
    }
  }

  /** The ceiling has been passed exactly if the keys that the per-path cap alone would keep are
      too large together. */
  lemma TrippedExactly(cfg: Config, log: seq<Event>)
    ensures Tripped(cfg, log) <==> KeptBytes(cfg, log) > cfg.maxDistinctBytes
  {
    hide KeptBytes, LiveLog;
    LiveUntilTripped(cfg, log);
    assert LiveLog(cfg, log) == log[..|LiveLog(cfg, log)|];
    BytesGrow(cfg, log, |LiveLog(cfg, log)|);
  }

  lemma {:induction false} UnderCeilingBefore(cfg: Config, log: seq<Event>)
    ensures forall n :: 0 <= n < |LiveLog(cfg, log)| ==> KeptBytes(cfg, log[..n]) <= cfg.maxDistinctBytes
  {
    hide KeptBytes;
    if log != [] {
      var f := Front(log);
      UnderCeilingBefore(cfg, f);
      forall n | 0 <= n <= |f| ensures log[..n] == f[..n] {
      }
      assert f[..|f|] == f;
    }
  }

  lemma {:induction false} Overshoot(cfg: Config, log: seq<Event>)
    requires Tripped(cfg, log)
    ensures var live := LiveLog(cfg, log);
            live != [] && KeptBytes(cfg, live) <= cfg.maxDistinctBytes + |KeyOf(cfg, Last(live).value)|
  {
    if log == [] {
      EmptyBytes(cfg);
    } else {
      hide KeptBytes, KeyOf;
      assert log == Front(log) + [Last(log)];
      LiveAppend(cfg, Front(log), Last(log));
      if Tripped(cfg, Front(log)) {
        Overshoot(cfg, Front(log));
      } else {
        BytesStep(cfg, Front(log), Last(log));
      }
    }
  }

  /** The part of the log that distinct tracking sees ends with the first event that takes the
      total over the ceiling; the overshoot is at most that one key. */
  lemma CeilingPoint(cfg: Config, log: seq<Event>)
    ensures var live := LiveLog(cfg, log);
            && (forall n :: 0 <= n < |live| ==> KeptBytes(cfg, log[..n]) <= cfg.maxDistinctBytes)
            && (Tripped(cfg, log) <==> exists n :: 0 <= n <= |log| && KeptBytes(cfg, log[..n]) > cfg.maxDistinctBytes)
            && (Tripped(cfg, log) ==>
                  && live != []
                  && KeptBytes(cfg, live) <= cfg.maxDistinctBytes + |KeyOf(cfg, Last(live).value)|)
            && (!Tripped(cfg, log) ==> live == log)
  {
    hide KeptBytes, KeyOf, LiveLog;
    UnderCeilingBefore(cfg, log);
    LiveUntilTripped(cfg, log);
    assert LiveLog(cfg, log) == log[..|LiveLog(cfg, log)|];
    if Tripped(cfg, log) {
      Overshoot(cfg, log);
    }
  }

  lemma {:induction false} LiveFrozen(cfg: Config, log: seq<Event>, more: seq<Event>)
    requires Tripped(cfg, log)
    ensures LiveLog(cfg, log + more) == LiveLog(cfg, log) && Tripped(cfg, log + more)
  {
    hide KeptBytes;
    if more == [] {
      assert log + more == log;
    } else {
      LiveFrozen(cfg, log, Front(more));
      assert log + more == (log + Front(more)) + [Last(more)];
      LiveAppend(cfg, log + Front(more), Last(more));
    }
  }

  /** Once the ceiling has been passed no distinct set ever changes again. */
  lemma FrozenAfterCeiling(cfg: Config, log: seq<Event>, more: seq<Event>, path: string)
    requires Tripped(cfg, log) && path in Tracked(cfg, log)
    ensures Tripped(cfg, log + more) && path in Tracked(cfg, log + more)
    ensures var s, t := StatsOf(cfg, log, log, path), StatsOf(cfg, log + more, log + more, path);
            t.distinct == s.distinct && t.distinctCapped == s.distinctCapped
  {
    hide KeptBytes, LiveLog, Keep, At, DocsOf, NullsOf, LabelsOf, MaxLength, AnyInArray, Sampled,
         LeavesOf, KeysOf, Tripped, Tracked, Overfull, ToSet;
    TrackedGrows(cfg, log, more);
    LiveFrozen(cfg, log, more);
  }

  lemma TrackedGrows(cfg: Config, log: seq<Event>, more: seq<Event>)
    ensures Tracked(cfg, log) <= Tracked(cfg, log + more)
  {
    hide Keep;
    assert Paths(log + more) == Paths(log) + Paths(more);
    KeepMonotone(Paths(log), Paths(more), cfg.maxPaths);
  }

  /** The sum, over a list of paths, of the key lengths in their distinct sets. `Keep` lists
      each element of the set once. */
  ghost function SetBytes(cfg: Config, log: seq<Event>, paths: seq<string>): nat {
    if paths == [] then 0
    else SetBytes(cfg, log, Front(paths)) + SumLengths(Keep(LiveKeys(cfg, log, Last(paths)), cfg.distinctCap))
  }

  lemma {:induction false} SetBytesAppend(cfg: Config, log: seq<Event>, e: Event, paths: seq<string>)
    requires LiveLog(cfg, log + [e]) == LiveLog(cfg, log)
    ensures SetBytes(cfg, log + [e], paths) == SetBytes(cfg, log, paths)
  {
    if paths != [] {
      SetBytesAppend(cfg, log, e, Front(paths));
    }
  }

  lemma {:induction false} SetBytesLive(cfg: Config, log: seq<Event>, paths: seq<string>)
    requires LiveLog(cfg, log) == log
    ensures SetBytes(cfg, log, paths) == SumKept(cfg, log, paths)
  {
    if paths != [] {
      SetBytesLive(cfg, log, Front(paths));
    }
  }

  /** The running total is always the sum of the key lengths over the distinct sets of all
      tracked paths, before and after the ceiling is passed. */
  lemma {:induction false} BytesAccountedFor(cfg: Config, log: seq<Event>)
    ensures KeptBytes(cfg, LiveLog(cfg, log)) == SetBytes(cfg, log, Tracked(cfg, log))
  {
    if LiveLog(cfg, log) == log {
      SetBytesLive(cfg, log, Tracked(cfg, log));
    } else {
      var f, e := Front(log), Last(log);
      assert log == f + [e];
      BytesAccountedFor(cfg, f);
      LiveAppend(cfg, f, e);
      TrackedAppend(cfg, f, e);
      hide KeptBytes, Tracked, LiveLog, KeysOf, LeavesOf, Keep;
      SetBytesAppend(cfg, f, e, Tracked(cfg, f));
      if Tracked(cfg, log) != Tracked(cfg, f) {
        assert Front(Tracked(cfg, log)) == Tracked(cfg, f);
        SetBytesAppend(cfg, f, e, Tracked(cfg, log));
        AtPrefixEmpty(f, LiveLog(cfg, f), Path(e));
        NothingKept(cfg, log, Path(e));
      }
    }
  }

  lemma NothingKept(cfg: Config, log: seq<Event>, path: string)
    requires At(LiveLog(cfg, log), path) == []
    ensures SumLengths(Keep(LiveKeys(cfg, log, path), cfg.distinctCap)) == 0
  {
    assert LiveKeys(cfg, log, path) == [];
  }
}
