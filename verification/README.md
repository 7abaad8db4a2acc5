# Verified model of the datapace agent

A Dafny model of the parts of the agent whose behaviour is more than one function's body: the
streaming schema inference for MongoDB, the delivery protocol (scheduler, uploader, health and
heartbeat), and the text and join transformations of configuration and catalog data.
`dafny verify dfyconfig.toml` checks all of it.

## What is modelled

**Schema inference** (`SchemaWalker.dfy` and the `Schema*`, `BsonValues`, `Reservoir`,
`Collections` files). The walker is a class whose fields are updated event by event, under a
depth limit, an array clip, a path cap, a per-path distinct cap, a global byte ceiling and a
deterministic reservoir. The reference is independent of it: `SchemaEvents.LogOf` flattens a
sequence of documents into one log of (document, tree location, value), `SchemaVisits` says which
parts of the documents these events stand for and in which order, and every statistic is a
declarative function of that log (`SchemaStats.StatsOf`): the tracked paths are the first
`maxPaths` distinct ones, a seen count is the cardinality of a set of documents, a distinct set is
the first `distinctCap` distinct keys of the part of the log before the byte ceiling is passed, a
sample is the last value offered to its slot. The walker's invariant is that its whole state
equals that function of the documents observed. The theorems about what columns mean
(`SchemaPresence`, `SchemaReport`, `SchemaTree`, `SchemaArrays`, `SchemaDistinct`, `SchemaOrder`) are then about logs. All limits
are parameters; `SchemaEvents.DefaultConfig` holds the agent's.

**Delivery** (`Uploader.dfy`, `Scheduler.dfy`, `Signing.dfy`). The server, the collector, the clock
and the shutdown channel are arbitrary. One upload is described by the relation
`Uploader.Uploads`, which fixes the outcome, the number of requests and every delay; one run of the
scheduler by `Scheduler.RunOf`, over its completed cycles, the heartbeats spawned and the wake-ups
handled. A doubled delay that leaves the range of durations aborts the agent, and the model says
exactly when. `Scheduler.RunAgent` puts start-up and run together.

**Text and joins** (`EnvExpansion.dfy`, `PostgresSchema.dfy`, `Parsing.dfy`, `Text.dfy`,
`Numbers.dfy`). Expansion of `${VAR}` by repeated replacement against substitution at once; the
map-draining join against the nested-loop join; separator lists, durations and hosts against their
printers.

## Where code and documentation differ

The model follows the code in each case.

- `src/payload/mod.rs:316-318` calls the null rate a fraction of documents. The count behind it is
  one of occurrences; `SchemaPresence.NullCountMeaning` says when the two coincide,
  `SchemaTree.NullRateOutsideArrays` that they do outside arrays, and
  `SchemaTree.NullRateInsideArrays` gives a document with a null rate of 2.
- `src/payload/mod.rs:328-330` says the distinct flag means that the cap was exceeded. A repeated
  value at a full set raises it as well, and passing the byte ceiling raises it on every column
  (`src/collector/mongodb/schema.rs:265`). `SchemaDistinct.CappedFlagExact` says exactly when the
  emitted flag is up and exactly when it means what is documented; `SchemaDistinct.RepeatRaisesFlag`
  and `SchemaDistinct.FlagMisleads` give samples on which it does not.
- `src/payload/mod.rs:340-342` places the maximum array length on the descendants of an array. It
  is kept on the array's own path. `SchemaArrays.DocumentedLengthExact` says exactly when the two
  coincide, `SchemaArrays.LengthOnParent` where the documented value is found, and
  `SchemaArrays.LengthNotOnElement` gives `{"a": [x]}` as a sample on which they differ.
- Flattened paths are ambiguous for field names that contain a dot or end in `[]`;
  `BsonValues.PlainNameExact` shows that these are exactly the ambiguous names. Statements about
  tree structure are made for the other names.
- Expanding `${VAR}` is not substitution at once for every value and every input.
  `EnvExpansion.ValueExact` and `EnvExpansion.NamesExact` give the exact conditions on values and on
  captured names. Both are stated for the names an environment can define, which is a matter of
  platform: a parameter lists the characters such names never contain.
- The map-draining join gives a repeated table no columns; `PostgresSchema.JoinExact` gives the
  exact condition under which this cannot be seen.

## Model

| member | source | states |
|---|---|---|
| BsonValues.TypeLabelExact | src/collector/mongodb/bson_type.rs:15-39 | two values get the same type label if and only if they have the same BSON type, the two JavaScript types counting as one |
| BsonValues.LabelReadBack | src/collector/mongodb/bson_type.rs:15-39 | reading a label back gives the type it was made from |
| BsonValues.ChildLocation | src/collector/mongodb/schema.rs:134-148 | how a child's path string and array flag come from its parent's, and those of a top-level field from its name, as the recursion builds them |
| BsonValues.ParseRender | src/collector/mongodb/schema.rs:131-151 | parsing a flattened path from the right gives back the location it was rendered from, for plain field names |
| BsonValues.RenderInjective | src/collector/mongodb/schema.rs:131-151 | distinct plain locations (up to array index) get distinct path strings |
| BsonValues.PlainNameExact | src/collector/mongodb/schema.rs:135-140 | a field name shares its path string with another location if and only if it contains a dot or ends in brackets |
| SchemaEvents.FieldsNested | src/collector/mongodb/schema.rs:108-151 | the visits of a document are in an order where each follows a visit to its parent, and go at most one level past the depth limit |
| SchemaEvents.FieldsOnce | src/collector/mongodb/schema.rs:131-151 | with unique keys, one location is visited twice only below an array |
| SchemaVisits.LogExact | src/collector/mongodb/schema.rs:100-151 | the log has an event exactly if some steps into the document lead to that value at that location, at most one step past the depth limit and through unclipped array elements |
| SchemaVisits.DocVisits | src/collector/mongodb/schema.rs:103-151 | the events of a document stand for its visited parts, once each, in lexicographic order of the steps |
| SchemaVisits.LogVisits | src/collector/mongodb/schema.rs:100-151 | the same for a whole sample, document after document |
| SchemaVisits.PrecedesIrreflexive | src/collector/mongodb/schema.rs:103-151 | no part precedes itself, so none is visited twice |
| SchemaVisits.MentionsExact | src/collector/mongodb/schema.rs:100-151 | a document mentions a path exactly if some visited part of it is flattened to that path, and holds null there exactly if such a part is null |
| Collections.FirstsInOrder | src/collector/mongodb/schema.rs:171-174 | insertion order is the order of first occurrence |
| Collections.KeepAppend | src/collector/mongodb/schema.rs:165-168 | a capped insert-if-absent container changes only by the arriving element, and only while it has room |
| SchemaStats.RefusedForever | src/collector/mongodb/schema.rs:164-168 | once a path has been refused the tracked set never changes again, whatever documents follow |
| SchemaStats.OutsideAppend | src/collector/mongodb/schema.rs:165-168 | counting refusals as they happen equals counting, at the end, the events of untracked paths |
| SchemaStats.EntriesInOrder | src/collector/mongodb/schema.rs:170-188 | the i-th inserted path has position i + 1 |
| SchemaStats.PositionsFit | src/collector/mongodb/schema.rs:170-188 | with the agent's limits positions start at 1, stay below the next position, and fit in 32 bits |
| SchemaStats.StatsElsewhere | src/collector/mongodb/schema.rs:171-174 | recording an event changes no statistic of any other path |
| SchemaWalker.SchemaWalker.constructor | src/collector/mongodb/schema.rs:78-87 | the empty walker summarises no documents |
| SchemaWalker.SchemaWalker.ObserveDocument | src/collector/mongodb/schema.rs:100-106 | after any document the whole state is the declarative summary of all documents observed |
| SchemaWalker.SchemaWalker.ObservePath | src/collector/mongodb/schema.rs:108-152 | the recursion appends exactly the reference flattening of the value to the log, with depth limit and array clip, and keeps the state equal to the statistics |
| SchemaWalker.SchemaWalker.MeasureArray | src/collector/mongodb/schema.rs:141-145 | the length of an array is taken into account at its own path before elements are clipped |
| SchemaWalker.SchemaWalker.RecordPath | src/collector/mongodb/schema.rs:154-235 | one event is added to every statistic, or refused at the path cap, with the visited set of the document kept exact |
| SchemaWalker.SchemaWalker.EnterPath | src/collector/mongodb/schema.rs:170-188 | a known path keeps its statistics, a new one gets fresh ones and the next position |
| SchemaWalker.SchemaWalker.CountVisit | src/collector/mongodb/schema.rs:190-201 | presence once per document, nulls once per occurrence, the label set and the array flag |
| SchemaWalker.SchemaWalker.TrackDistinct | src/collector/mongodb/schema.rs:203-217 | the distinct set, the path's flag, the byte total and the global flag stay equal to their declarative values |
| SchemaWalker.SchemaWalker.KeepSample | src/collector/mongodb/schema.rs:219-234 | the reservoir stays equal to its declarative value |
| SchemaWalker.SchemaWalker.IntoColumns | src/collector/mongodb/schema.rs:238-297 | one column per tracked path, named by it, in order of first appearance, with consecutive positions from 1, each a function of the documents observed |
| SchemaReport.NameAndRates | src/collector/mongodb/schema.rs:245-291 | the name is the path; the presence rate times the sample size is the number of documents with the path, the null rate times it the number of null events in the log; the array flag is up if and only if some event is below an array |
| SchemaReport.SampleValues | src/collector/mongodb/schema.rs:219-287 | no samples if and only if the path has no leaf (or there are no slots); otherwise as many as leaves, up to the slots, each the JSON form of the last leaf put into its slot |
| SchemaReport.LabelsReported | src/collector/mongodb/schema.rs:116-129 | the label list holds exactly the types of the values at the path, and the truncation marker for those past the depth limit |
| SchemaReport.TruncatedMeaning | src/collector/mongodb/schema.rs:116-168 | the truncation counter is the number of events at untracked paths plus those past the depth limit |
| SchemaReport.AgentLimits | src/collector/mongodb/schema.rs:26-43 | what the limits compiled into the agent mean: 17 steps, 100 elements, 5000 paths, 5 samples, 1000 values, 256 MiB |
| SchemaColumns.SortSorts | src/collector/mongodb/schema.rs:242 | the sort orders the entries by position, keeps them all, and keeps the order of entries with equal positions |
| SchemaColumns.SortIdentity | src/collector/mongodb/schema.rs:242 | the sort leaves entries in insertion order alone |
| Reservoir.SampledAppend | src/collector/mongodb/schema.rs:224-232 | pushing while there is room and overwriting the hashed slot afterwards maintains "last value offered to each slot" |
| Reservoir.SampledMeaning | src/collector/mongodb/schema.rs:219-234 | number of samples, what each slot holds, that slots hold different occurrences, and when an occurrence is still held |
| Reservoir.HashedIndexExact | src/collector/mongodb/schema.rs:227-229 | the hash is bits 32 to 63 of the product of the counter and the constant, modulo the counter |
| Reservoir.GoesToExact | src/collector/mongodb/schema.rs:224-230 | the slot of a value, by arithmetic on that product |
| Reservoir.SampleStep | src/collector/mongodb/schema.rs:224-232 | what one more value changes: the samples grow while there is room, then exactly the slot given by the product is overwritten, or none |
| Reservoir.SixthSample | src/collector/mongodb/schema.rs:224-232 | with five slots the sixth value replaces the third |
| SchemaPresence.NullableMeaning | src/collector/mongodb/schema.rs:239-249 | the seen count is the number of documents with the path; a column is not nullable if and only if every document has the path and none holds null there; the presence rate is in (0, 1] |
| SchemaPresence.DataTypeMeaning | src/collector/mongodb/schema.rs:251-264 | the reported type is the one observed label, or "mixed" if and only if two events differ; never "unknown"; the label list holds every observed label once, in alphabetical order |
| SchemaPresence.ArrayLengthMeaning | src/collector/mongodb/schema.rs:139-145 | the reported array length is the maximum, before clipping, over arrays at that path above the depth limit |
| SchemaPresence.NullCountMeaning | src/collector/mongodb/schema.rs:194-196 | the null count counts documents if and only if no document has two nulls at the path |
| SchemaTree.ParentTrackedFirst | src/collector/mongodb/schema.rs:108-193 | the parent of a tracked path is tracked, has a smaller position and at least the same presence rate |
| SchemaTree.ColumnMatchesLocation | src/collector/mongodb/schema.rs:116-202 | the array flag is true if and only if the location is below an array; the type is the truncation marker if and only if the location is one past the depth limit, and nothing is tracked deeper |
| SchemaTree.NullRateOutsideArrays | src/collector/mongodb/schema.rs:190-249 | outside arrays a path occurs at most once per document and null rate, presence rate and 1 are ordered |
| SchemaTree.NullRateInsideArrays | src/collector/mongodb/schema.rs:194-196 | inside an array one document can give a null rate of 2 |
| SchemaArrays.LogArrays | src/collector/mongodb/schema.rs:139-148 | every step to an array element in the log leads out of an array that was itself visited |
| SchemaArrays.DocumentedLengthExact | src/payload/mod.rs:340-342 | the documented length exists if and only if the path is inside an array, the emitted one if and only if an array was seen at the path; outside arrays they agree if and only if none was, inside if and only if one was and the longest there and above are equally long |
| SchemaArrays.LengthOnParent | src/collector/mongodb/schema.rs:139-145 | for the elements of an outermost array the documented length is the one emitted on the column of the array |
| SchemaArrays.LengthNotOnElement | src/collector/mongodb/schema.rs:139-148 | for `{"a": [x]}`, x any leaf, column "a" has length 1 and column "a[]" none, although 1 is documented for it |
| SchemaDistinct.DistinctExact | src/collector/mongodb/schema.rs:203-217 | below the ceiling a set holds the first min(cap, D) distinct keys and its flag is up if and only if a leaf arrived at a full set |
| SchemaDistinct.FlagMeansFull | src/collector/mongodb/schema.rs:206-216 | below the ceiling or past it, a raised path flag means that the set of the path is full |
| SchemaDistinct.CappedFlagExact | src/collector/mongodb/schema.rs:206-265 | the emitted flag is up if and only if the ceiling was passed or a leaf arrived at a full set; it equals "more distinct values than the cap" if and only if, past the ceiling, there are more, and otherwise there are not exactly as many as the cap with a repeat as the last leaf |
| SchemaDistinct.UncappedCountExact | src/collector/mongodb/schema.rs:265-270 | an emitted column without the capped flag reports the exact number of distinct values; more values than the cap raise the flag |
| SchemaDistinct.CountNeverTooHigh | src/collector/mongodb/schema.rs:266-270 | with any cap hit the reported count is the number of distinct values before the ceiling, up to the cap, so at most the number of distinct values; it is missing if and only if the ceiling was passed before the path had a key (or the cap is 0) |
| SchemaDistinct.RepeatRaisesFlag | src/collector/mongodb/schema.rs:206-216 | for any leaf values with exactly as many distinct keys as the cap and one repeat, the emitted column is flagged although the cap was not exceeded, and under the ceiling its count is exact |
| SchemaDistinct.FlagMisleads | src/collector/mongodb/schema.rs:37-43 | such a sample exists for the limits compiled into the agent |
| SchemaDistinct.CeilingPoint | src/collector/mongodb/schema.rs:209-212 | distinct tracking stops with the first event that takes the total over the ceiling; the overshoot is at most that key; the global flag is up if and only if some prefix is over |
| SchemaDistinct.TrippedExactly | src/collector/mongodb/schema.rs:207-212 | the global flag is up if and only if the keys that the per-path cap alone would keep exceed the ceiling together |
| SchemaDistinct.FrozenAfterCeiling | src/collector/mongodb/schema.rs:203-217 | once the ceiling is passed no distinct set or path flag changes again |
| SchemaDistinct.BytesAccountedFor | src/collector/mongodb/schema.rs:207-210 | the byte total is always the sum of key lengths over the distinct sets of all tracked paths |
| SchemaOrder.OrderIndependence | src/collector/mongodb/schema.rs:100-235 | while no document is displaced at the path cap and the byte ceiling is not passed, permuting the documents changes nothing but positions, samples and the capped flag |
| SchemaOrder.EveryOrder | src/collector/mongodb/schema.rs:100-235 | the same for every permutation, with conditions on one order only: no document is displaced and all distinct keys together fit under the ceiling |
| SchemaOrder.CeilingInEveryOrder | src/collector/mongodb/schema.rs:203-217 | while no document is displaced and no path has more distinct keys than the cap, the ceiling is passed in every order or in none, namely if all distinct keys together exceed it |
| SchemaOrder.OrderMattersAtPathCap | src/collector/mongodb/schema.rs:164-168 | for every path cap of at least 1 and every sample: a document whose first field was refused gets it tracked when it is moved to the front |
| SchemaOrder.OrderExactAtPathCap | src/collector/mongodb/schema.rs:164-168 | the set of tracked paths is the same for every order of the documents if and only if no document, coming first, would get a path tracked that the sample refuses |
| SchemaOrder.RoomForAll | src/collector/mongodb/schema.rs:164-168 | in particular if the sample has no more distinct paths than the cap |
| Numbers.ParseU64OfDecimal | src/uploader/mod.rs:162 | parsing a printed number gives it back if and only if it fits in 64 bits |
| Numbers.ParseU64Exact | src/uploader/mod.rs:162 | parsing accepts exactly an optional plus sign, leading zeros and a printed number below 2^64, with the value printed |
| Numbers.DecimalExact | src/uploader/mod.rs:129 | a printed number is the digit string without leading zero that has its value by the place of each digit |
| Numbers.FormatIntExact | src/uploader/mod.rs:129 | a printed integer is a minus sign if and only if it is negative, and its printed size |
| Numbers.FormatIntInjective | src/uploader/mod.rs:129 | printed timestamps determine the time and contain no dot |
| Signing.ComputeSignature | src/uploader/mod.rs:178-189 | feeding the MAC in three steps and printing it gives the hexadecimal form of the MAC of the framed message |
| Signing.SignaturesEqual | src/uploader/mod.rs:188 | two printed signatures are equal if and only if the MACs are |
| Signing.HexRoundTrip | src/uploader/mod.rs:188 | reading the printed signature gives the MAC back; it has two digits per octet |
| Signing.HexDigitsAt | src/uploader/mod.rs:188 | each octet gives its high and its low digit in the lower-case alphabet |
| Signing.FramedExact | src/uploader/mod.rs:185-187 | the message signed is the timestamp, a dot and the body, in this order |
| Signing.SignedMessageUnique | src/uploader/mod.rs:183-188 | two requests sign the same message if and only if they carry the same time and body |
| Signing.DottedTimestampAmbiguous | src/uploader/mod.rs:185-187 | the frame relies on dot-free timestamps: any other one has a second reading |
| Uploader.RetryAfterExact | src/uploader/mod.rs:157-163 | the header asks for a delay d if and only if d is a whole number of seconds denoted by its text as a 64-bit integer (the delay-seconds form of section 10.2.3 of RFC 9110, and an optional plus sign); dates ask for none |
| Uploader.ReplyMeaning | src/uploader/mod.rs:149-175 | which responses end the loop, which succeed, and exactly which delay a printed Retry-After asks for |
| Uploader.DelayStep | src/uploader/mod.rs:208-231 | the loop's update of the delay, by doubling or by Retry-After, follows the closed form |
| Uploader.Uploader.Upload | src/uploader/mod.rs:195-240 | for every server: number of requests, every delay slept in closed form, and the outcome, including serialisation failure and delay overflow |
| Uploader.UploadDetermined | src/uploader/mod.rs:204-239 | outcome, requests and delays are determined by the server's replies |
| Uploader.UploadOutcome | src/uploader/mod.rs:207-239 | the first success or authentication error at attempt k gives k + 1 requests and that result; otherwise all attempts are made and the last error is reported |
| Uploader.ReportedError | src/uploader/mod.rs:149-239 | the reported error is that of the last response, by its kind and status and with what it carried; success is reported only for a success code |
| Uploader.MaxRetriesExceededUnreachable | src/uploader/mod.rs:239 | the fallback error is never reported |
| Uploader.OverflowExactly | src/uploader/mod.rs:210-211 | the agent aborts on an overflowing delay if and only if a delay slept before a retry exceeds half the range |
| Uploader.TotalWait | src/uploader/mod.rs:205-231 | the whole upload waits at most bound times (2^maxRetries - 1) |
| Uploader.TotalWaitReached | src/uploader/mod.rs:205-211 | if every reply but the last allowed one fails without Retry-After, the upload aborts if and only if the initial delay times 2^maxRetries leaves the range, and otherwise makes all requests and waits exactly that long |
| Uploader.BoundedNeverOverflows | src/uploader/mod.rs:208-231 | bounded delays never overflow |
| Uploader.DefaultSettingsSafe | src/uploader/mod.rs:70-80 | with one second and three retries no Retry-After below 2^61 seconds aborts the agent |
| Uploader.FirstAdviceOverflows | src/uploader/mod.rs:208-231 | if the first reply asks for a delay and the later ones fail without asking for any, the upload aborts if and only if that delay times 2^maxRetries leaves the range |
| Uploader.DefaultSettingsOverflow | src/uploader/mod.rs:70-80 | that bound is tight: for an agent with one second and three retries, a first Retry-After followed by failures aborts it if and only if it asks for at least 2^61 seconds |
| Scheduler.HealthState.constructor | src/health/mod.rs:30-40 | all fields of the state before seeding |
| Scheduler.HealthState.Seed | src/main.rs:111-120 | the seeded state is coherent |
| Scheduler.Scheduler.CollectAndUpload | src/scheduler/mod.rs:151-197 | an upload is made if and only if collection succeeded, and its error is reported |
| Scheduler.Scheduler.UpdateHealth | src/scheduler/mod.rs:107-126 | the whole health state written after a cycle; its times are what the clocks show when it is written, not when the cycle started |
| Scheduler.Scheduler.FireHeartbeat | src/scheduler/mod.rs:132-149 | one heartbeat is spawned, with the version of the agent and status ok if and only if the cycle succeeded |
| Scheduler.Scheduler.Cycle | src/scheduler/mod.rs:92-94 | one cycle writes coherent health (status, error, connection, both clocks, duration, version) and spawns exactly one heartbeat with the same status, or aborts without doing either and returns the upload that aborted |
| Scheduler.Scheduler.Run | src/scheduler/mod.rs:68-104 | a run is the immediate cycle followed by one whole cycle and one heartbeat per tick, stops exactly at a shutdown of value true, and however it ends shared health is the last state shown |
| Scheduler.RunAgent | src/main.rs:111-156 | start-up and run together: every health state from the seeded one on is coherent, and the run is as described |
| Scheduler.ShownCoherent | src/scheduler/mod.rs:107-126 | over every run, aborted ones included, each health state shown is coherent if the seeded one is |
| Scheduler.RunGuarantees | src/scheduler/mod.rs:84-104 | over every run: one completed cycle per start (one fewer if it aborts), as many heartbeats as completed cycles, uploads match collections, heartbeats match health; ingest requests, those of an aborting upload included, are at most (maxRetries + 1) per cycle started |
| Scheduler.StartOfTick | src/scheduler/mod.rs:84-104 | after the first cycle one is started for each tick, with its input and in its place, and for nothing else |
| Scheduler.PostsBounded | src/uploader/mod.rs:207 | ingest requests over any sequence of completed cycles |
| Scheduler.BoundedRun | src/uploader/mod.rs:208-231 | if no server asks for more than a bound, all uploads of a run, an aborting one included, wait at most bound times (2^maxRetries - 1) per cycle started; if that much cannot overflow, the run never aborts |
| Scheduler.CyclesByTime | src/scheduler/mod.rs:81-91 | with skipped ticks at most (T - t0) / period + 2 cycles, completed or not, have started by time T |
| Text.ReplaceAround | src/config/mod.rs:845 | replacing a pattern that cannot overlap itself treats the text around an occurrence independently |
| Text.AtMostExact | src/collector/mongodb/schema.rs:67 | the order of labels: a prefix, or the smaller character where two words first differ |
| EnvExpansion.ExpandEnvVars | src/config/mod.rs:838-850 | the loop over captures computes the fold of single replacements, leaving undefined variables alone |
| EnvExpansion.ReferenceAtExact | src/config/mod.rs:839 | a reference starts exactly where the pattern matches: a dollar, a brace, one or more other characters, a closing brace |
| EnvExpansion.CapturesLeftmost | src/config/mod.rs:842-843 | captures are the leftmost non-overlapping matches |
| EnvExpansion.CapturesNone | src/config/mod.rs:842-843 | nothing is captured if and only if the pattern matches nowhere |
| EnvExpansion.TokensVerbatim | src/config/mod.rs:839 | the references and literals found in a text spell the text |
| EnvExpansion.SubstitutedLeftmost | src/config/mod.rs:838-850 | what substitution at once does in terms of the text: kept up to the first reference, that one replaced by its value or left if undefined, the rest by itself |
| EnvExpansion.UndefinedUntouched | src/config/mod.rs:844 | a text none of whose captured names is defined is left alone |
| EnvExpansion.ReplaceStep | src/config/mod.rs:844-846 | one replacement in a partly substituted text substitutes exactly one more variable |
| EnvExpansion.ExpandedIsSubstituted | src/config/mod.rs:838-850 | repeated replacement equals substitution at once when values are inert and no captured reference swallows another |
| EnvExpansion.NamesExact | src/config/mod.rs:839-846 | for a given input the two agree under all inert environments of definable names if and only if no captured reference swallows a definable captured name |
| EnvExpansion.ValueExact | src/config/mod.rs:844-846 | a value is harmless on every input without entangled names, in every environment of definable names, if and only if it is inert |
| EnvExpansion.NotInertFails | src/config/mod.rs:844-846 | for every value that is not inert, an input and an environment of definable names on which the two differ |
| PostgresSchema.CollectTables | src/collector/postgres/mod.rs:222-253 | table i is filled from row i; the first table of a name lists, in row order, exactly the columns of the rows naming it, each filled from its row and nullable if and only if that says YES in any case; a repeated one lists none |
| PostgresSchema.JoinFills | src/collector/postgres/mod.rs:222-253 | the same about what the hash join computes |
| PostgresSchema.JoinExact | src/collector/postgres/mod.rs:238-253 | it equals the nested-loop join if and only if no two tables share a key that some column bears |
| PostgresSchema.ColumnsConserved | src/collector/postgres/mod.rs:222-253 | for all inputs, what the tables list is, as a multiset, the column rows of known tables, each under its own key; only the others are dropped |
| PostgresSchema.IndexColumnsExact | src/collector/postgres/mod.rs:266-269 | splitting the column list of an index gives the names back if and only if there are any and none contains the separator; a missing list gives none |
| PostgresSchema.Connect | src/collector/postgres/mod.rs:43-80 | the first success ends the attempts, at most six are made, the last error is reported, and the waits are 2, 4, 8, 16 and 30 seconds |
| Text.SplitJoinExact | src/collector/postgres/mod.rs:266-269 | splitting undoes joining if and only if the list is non-empty and its pieces are free of the separator |
| Parsing.DurationExact | src/config/mod.rs:853-870 | a printed, padded number with a unit parses to its seconds if and only if they fit in 64 bits; a number too large by itself is rejected |
| Parsing.DurationAccepted | src/config/mod.rs:853-870 | a text parses to a value if and only if it is white space, a 64-bit numeral, nothing or s, m or h, and white space, and stands for it |
| Parsing.WhitespaceAscii | src/config/mod.rs:854 | the white space within ASCII |
| Parsing.HostExtracted | src/collector/mongodb/providers.rs:92-97 | what is extracted from a URL in parts, for any host without an at-sign: the host up to its first / ? or colon, unless the credentials contain the scheme separator or an at-sign follows before the next one; what is taken instead is given |
| Parsing.NoHost | src/collector/mongodb/providers.rs:93 | nothing is extracted if and only if the text has no scheme separator |
| Parsing.CutHostExact | src/collector/mongodb/providers.rs:95-96 | cutting keeps exactly the text before the first / ? or colon |
| Parsing.HostKept | src/collector/mongodb/providers.rs:92-97 | from an ordinary URL the host comes out whole if and only if it contains none of / ? and colon |
| Parsing.BracketedHostCut | src/collector/mongodb/providers.rs:92-97 | for `mongodb://[::1]:27017/db` the extracted host is an opening bracket |

## Left out

- Database, network and operating-system calls: their results are arbitrary parameters. `select!` is an arbitrary sequence of wake-ups; that skipped interval ticks are for strictly increasing multiples of the period is a hypothesis of `Scheduler.CyclesByTime`.
- HMAC-SHA256: the MAC is an arbitrary function of the secret and the framed message.
- The conversion of BSON to JSON and its serialisation: two arbitrary functions, not assumed injective.
- SchemaWalker.SchemaWalker.IntoColumns: rates are exact rationals instead of doubles, so their rounding is not captured.
- SchemaWalker.SchemaWalker.RecordPath: counters are unbounded; the 64-bit product of the reservoir hash wraps, as in the code, but the counter of samples itself is assumed not to. The statistics of a path are a value stored back into the map, not an object updated in place.
- Uploader.Uploader.Upload: the text of error messages; a failed request carries an uninterpreted reason. Sleeping is recorded, not timed.
- Scheduler.Scheduler.UpdateHealth: the texts of the last error are values naming their cause; the lock around the state and concurrent readers are not modelled, each write under the lock is one step.
- Scheduler.Scheduler.Run: the start-up jitter, and whether a spawned heartbeat reaches its server.
- Parsing.ParseDurationSecs: wraps at 64 bits as a release build does; a debug build panics instead.
- Sample-size selection: a clamp around a rounded floating-point product.
- Provider metadata: two map entries split off the extracted host, which would only add easy members.
- Provider detection, URL scheme tables, enum printing, collector selection: branch-by-branch tables.
- Postgres statistics and settings queries, MongoDB statistics: one-to-one row conversions.
- Configuration loading and validation, payload construction, logging, command line, health server, packaging: plumbing.
