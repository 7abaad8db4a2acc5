/** Emitting columns: a stable sort by position, then one column per path. */
module SchemaColumns {
  import opened Collections
  import opened BsonValues
  import opened SchemaEvents
  import opened SchemaStats
  import opened Text

  datatype Column = Column(
    name: string,
    dataType: string,
    nullable: bool,
    position: nat,
    presenceRate: real,
    nullRate: real,
    bsonTypes: Option<seq<string>>,
    distinctCount: Option<nat>,
    distinctCapped: bool,
    sampleValues: Option<seq<Json>>,
    isArrayElement: bool,
    arrayMaxLen: Option<nat>)

  lemma SingletonElement(s: set<string>)
    requires |s| == 1
    ensures exists x :: s == {x}
  {
    var x :| x in s;
    assert |s - {x}| == 0;
    assert s == {x};
  }

  function DataType(types: set<string>): string {
    if |types| == 1 then
      SingletonElement(types);
      var t :| t in types && types == {t};
      t
    else if types == {} then "unknown"
    else "mixed"
  }

  function EmitColumn(path: string, s: PathStats, docsSampled: nat, globallyCapped: bool): Column {
    var denom := if docsSampled == 0 then 1.0 else docsSampled as real;
    var presenceRate := s.seenCount as real / denom;
    Column(
      path,
      DataType(s.types),
      s.nullCount > 0 || presenceRate < 1.0,
      s.firstSeenPosition,
      presenceRate,
      s.nullCount as real / denom,
      if s.types == {} then None else Some(Alphabetical(s.types)),
      if globallyCapped && s.distinct == {} then None else Some(|s.distinct|),
      s.distinctCapped || globallyCapped,
      if s.samples == [] then None else Some(s.samples),
      s.isArrayElement,
      s.arrayMaxLen)
  }

  type Entry = (string, PathStats)

  /** Inserts after every entry with a position no larger. */
  function InsertByPosition(entries: seq<Entry>, e: Entry): seq<Entry> {
    if entries == [] || Last(entries).1.firstSeenPosition <= e.1.firstSeenPosition then entries + [e]
    else InsertByPosition(Front(entries), e) + [Last(entries)]
  }

  /** The stable sort by first-seen position. */
  function SortByPosition(entries: seq<Entry>): (sorted: seq<Entry>)
    ensures |sorted| == |entries|
  {
    if entries == [] then []
    else InsertedLength(SortByPosition(Front(entries)), Last(entries));
         InsertByPosition(SortByPosition(Front(entries)), Last(entries))
  }

  lemma {:induction false} InsertedLength(entries: seq<Entry>, e: Entry)
    ensures |InsertByPosition(entries, e)| == |entries| + 1
  {
    if entries != [] {
      InsertedLength(Front(entries), e);
    }
  }

  ghost predicate SortedByPosition(entries: seq<Entry>) {
    forall i, j :: 0 <= i < j < |entries| ==>
      entries[i].1.firstSeenPosition <= entries[j].1.firstSeenPosition
  }

  lemma {:induction false} InsertKeepsEntries(entries: seq<Entry>, e: Entry)
    ensures multiset(InsertByPosition(entries, e)) == multiset(entries) + multiset{e}
  {
    if entries != [] && Last(entries).1.firstSeenPosition > e.1.firstSeenPosition {
      InsertKeepsEntries(Front(entries), e);
      assert entries == Front(entries) + [Last(entries)];
    }
  }

  lemma {:induction false} InsertKeepsOrder(entries: seq<Entry>, e: Entry)
    requires SortedByPosition(entries)
    ensures SortedByPosition(InsertByPosition(entries, e))
  {
    if entries != [] && Last(entries).1.firstSeenPosition > e.1.firstSeenPosition {
      InsertKeepsOrder(Front(entries), e);
      var inner := InsertByPosition(Front(entries), e);
      InsertKeepsEntries(Front(entries), e);
      forall i | 0 <= i < |inner|
        ensures inner[i].1.firstSeenPosition <= Last(entries).1.firstSeenPosition
      {
        assert inner[i] in multiset(inner);
        assert inner[i] == e || inner[i] in Front(entries);
      }
      assert InsertByPosition(entries, e) == inner + [Last(entries)];
    }
  }

  /** The entries with a given position, in order. */
  ghost function WithPosition(entries: seq<Entry>, position: nat): seq<Entry> {
    if entries == [] then []
    else WithPosition(Front(entries), position)
         + if Last(entries).1.firstSeenPosition == position then [Last(entries)] else []
  }

  lemma {:induction false} InsertIsStable(entries: seq<Entry>, e: Entry, position: nat)
    ensures WithPosition(InsertByPosition(entries, e), position) ==
            WithPosition(entries, position) + if e.1.firstSeenPosition == position then [e] else []
  {
    if entries == [] || Last(entries).1.firstSeenPosition <= e.1.firstSeenPosition {
      assert Front(entries + [e]) == entries;
    } else {
      InsertIsStable(Front(entries), e, position);
      var inner := InsertByPosition(Front(entries), e);
      assert Front(inner + [Last(entries)]) == inner;
    }
  }

  lemma {:induction false} SortIsStable(entries: seq<Entry>, position: nat)
    ensures WithPosition(SortByPosition(entries), position) == WithPosition(entries, position)
  {
    if entries != [] {
      hide InsertByPosition;
      SortIsStable(Front(entries), position);
      InsertIsStable(SortByPosition(Front(entries)), Last(entries), position);
    }
  }

  /** The sort returns the same entries in order of position, keeping the order of entries with
      equal positions... */
  lemma {:induction false} SortSorts(entries: seq<Entry>)
    ensures SortedByPosition(SortByPosition(entries))
    ensures multiset(SortByPosition(entries)) == multiset(entries)
    ensures forall p :: WithPosition(SortByPosition(entries), p) == WithPosition(entries, p)
  {
    forall p ensures WithPosition(SortByPosition(entries), p) == WithPosition(entries, p) {
      SortIsStable(entries, p);
    }
    if entries != [] {
      hide WithPosition, InsertByPosition;
      SortSorts(Front(entries));
      InsertKeepsOrder(SortByPosition(Front(entries)), Last(entries));
      InsertKeepsEntries(SortByPosition(Front(entries)), Last(entries));
      assert entries == Front(entries) + [Last(entries)];
    }
  }

  /** ...and leaves entries that are in order alone. */
  lemma {:induction false} SortIdentity(entries: seq<Entry>)
    requires SortedByPosition(entries)
    ensures SortByPosition(entries) == entries
  {
    if entries != [] {
      SortIdentity(Front(entries));
      assert entries == Front(entries) + [Last(entries)];
    }
  }

  /** The column of a tracked path after observing `docs`. */
  ghost function ColumnOf(cfg: Config, docs: seq<seq<Field>>, path: string): Column
    requires path in Tracked(cfg, LogOf(cfg, docs))
  {
    var log := LogOf(cfg, docs);
    EmitColumn(path, StatsOf(cfg, log, log, path), |docs|, Tripped(cfg, log))
  }

  lemma ColumnsInOrder(cfg: Config, docs: seq<seq<Field>>, f: Fields)
    requires Summarizes(cfg, LogOf(cfg, docs), LogOf(cfg, docs), f)
    ensures f.order == Tracked(cfg, LogOf(cfg, docs))
    ensures forall i :: 0 <= i < |f.order| ==>
              && f.order[i] in Tracked(cfg, LogOf(cfg, docs))
              && f.order[i] in f.paths
              && f.paths[f.order[i]].firstSeenPosition == i + 1
              && ColumnOf(cfg, docs, f.order[i]).position == i + 1
              && ColumnOf(cfg, docs, f.order[i]).name == f.order[i]
              && EmitColumn(f.order[i], f.paths[f.order[i]], |docs|, f.distinctGloballyCapped)
                 == ColumnOf(cfg, docs, f.order[i])
  {
    hide StatsOf, LogOf, Tracked, LiveLog, KeptBytes, Outside, DeepCount, DataType;
    EntriesInOrder(cfg, LogOf(cfg, docs), f);
  }
}
