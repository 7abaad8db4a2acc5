/** The scheduler's event loop against an arbitrary collector, server, clock and shutdown
    channel. `select!` is modelled by an arbitrary sequence of wake-ups. */
module Scheduler {
  import opened Collections
  import opened Numbers
  import opened Uploader

  datatype Collected = CollectOk(payload: Option<string>) | CollectErr

  /** What the environment does during one cycle that starts at time `start`. A collected
      payload is None if it cannot be serialised. The last two are what the clocks show when the
      health state is written, after collection, upload and every delay: the time of day, which
      may be set back meanwhile, and the uptime. */
  datatype CycleInput = CycleInput(
    start: nat,
    collected: Collected,
    server: Server,
    durationMs: nat,
    writtenAt: nat,
    uptimeSecs: nat)

  /** One iteration of the loop: the interval ticks for its `mark`-th multiple of the period, or
      the shutdown channel changes to `value`. */
  datatype Wake = Tick(mark: nat, input: CycleInput) | ShutdownChanged(value: bool)

  datatype CycleResult = CycleResult(durationMs: nat, collectionOk: bool, uploadError: Option<UploaderError>)

  /** The error texts shown by the health endpoint, as values. */
  datatype Problem = ProbeFailed | CollectionFailed | UploadFailed(error: UploaderError)

  // The version of the package, fixed when the agent is compiled.
  const AGENT_VERSION := "0.2.0"

  datatype Snapshot = Snapshot(
    status: string,
    agentVersion: string,
    uptimeSecs: nat,
    lastCollectionTime: Option<nat>,
    lastCollectionDurationMs: Option<nat>,
    lastCollectionError: Option<Problem>,
    databaseConnected: bool)

  /** What every health state shown to a client satisfies. */
  ghost predicate Coherent(h: Snapshot) {
    && (h.status == "ok" || h.status == "degraded")
    && (h.status == "ok" <==> h.lastCollectionError == None)
    && (h.status == "ok" ==> h.databaseConnected)
  }

  class HealthState {
    const agentVersion: string := AGENT_VERSION
    var status: string
    var uptimeSecs: nat
    var lastCollectionTime: Option<nat>
    var lastCollectionDurationMs: Option<nat>
    var lastCollectionError: Option<Problem>
    var databaseConnected: bool

    ghost function View(): Snapshot
      reads this
    {
      Snapshot(status, agentVersion, uptimeSecs, lastCollectionTime, lastCollectionDurationMs, lastCollectionError,
               databaseConnected)
    }

    constructor ()
      ensures View() == Snapshot("ok", AGENT_VERSION, 0, None, None, None, false)
    {
      status := "ok";
      uptimeSecs := 0;
      lastCollectionTime, lastCollectionDurationMs, lastCollectionError := None, None, None;
      databaseConnected := false;
    }

    /** Start-up: seed the state from a probe of the database. Only then is it shared. */
    method Seed(initialConnected: bool)
      modifies this
      ensures View() == if initialConnected then old(View()).(databaseConnected := true)
                        else old(View()).(databaseConnected := false, status := "degraded",
                                          lastCollectionError := Some(ProbeFailed))
      ensures old(View()).status == "ok" && old(View()).lastCollectionError == None ==> Coherent(View())
    {
      databaseConnected := initialConnected;
      if !initialConnected {
        status := "degraded";
        lastCollectionError := Some(ProbeFailed);
      }
    }
  }

  ghost function Succeeded(result: CycleResult): bool {
    result.collectionOk && result.uploadError == None
  }

  /** The heartbeat a spawned task sends, once. */
  datatype Heartbeat = Heartbeat(status: string, agentVersion: string)

  /** An upload as an observer of the network sees it. */
  datatype UploadRecord = UploadRecord(outcome: Outcome, requests: nat, sleeps: seq<Duration>)

  /** A completed cycle: its input, the upload if one was made, and the health state written if
      health is shared. */
  datatype CycleRecord = CycleRecord(input: CycleInput, upload: Option<UploadRecord>, health: Option<Snapshot>)

  /** What stays the same during a run. */
  datatype Settings = Settings(initial: Duration, maxRetries: nat, shared: bool)

  /** The upload of a cycle: made exactly if collection succeeded. */
  ghost predicate UploadFits(settings: Settings, input: CycleInput, upload: Option<UploadRecord>) {
    match input.collected
    case CollectErr => upload == None
    case CollectOk(payload) =>
      && upload.Some?
      && var u := upload.value;
         if payload.None? then u == UploadRecord(Failed(SerializationError), 0, [])
         else Uploads(input.server, settings.initial, settings.maxRetries, u.outcome, u.requests, u.sleeps)
  }

  /** A cycle with this input aborts the agent in this upload: it overflows a delay. */
  ghost predicate Aborts(settings: Settings, input: CycleInput, upload: UploadRecord) {
    upload.outcome == DelayOverflow && UploadFits(settings, input, Some(upload))
  }

  ghost predicate GoodCycle(settings: Settings, c: CycleRecord, heartbeat: Heartbeat) {
    && UploadFits(settings, c.input, c.upload)
    && (c.upload.Some? ==> c.upload.value.outcome != DelayOverflow)
    && heartbeat.agentVersion == AGENT_VERSION
    && (heartbeat.status == "ok" || heartbeat.status == "degraded")
    && (heartbeat.status == "ok" <==> c.upload.Some? && c.upload.value.outcome == Uploaded)
    && (settings.shared <==> c.health.Some?)
    && (settings.shared ==>
          var h := c.health.value;
          && Coherent(h)
          && h.status == heartbeat.status
          && h.agentVersion == AGENT_VERSION
          && h.uptimeSecs == c.input.uptimeSecs
          && h.lastCollectionDurationMs == Some(c.input.durationMs)
          && h.databaseConnected == c.input.collected.CollectOk?
          && h.lastCollectionTime == Some(c.input.writtenAt)
          && h.lastCollectionError ==
             match c.upload
             case None => Some(CollectionFailed)
             case Some(u) => if u.outcome.Failed? then Some(UploadFailed(u.outcome.error)) else None)
  }

  /** The inputs of the cycles that a sequence of wake-ups starts. */
  ghost function TickInputs(wakes: seq<Wake>): seq<CycleInput> {
    if wakes == [] then []
    else match Last(wakes)
      case Tick(_, input) => TickInputs(Front(wakes)) + [input]
      case ShutdownChanged(_) => TickInputs(Front(wakes))
  }

  ghost function InputsOf(cycles: seq<CycleRecord>): seq<CycleInput> {
    seq(|cycles|, i requires 0 <= i < |cycles| => cycles[i].input)
  }

  /** How far a run has come: it waits for the next wake-up, was shut down, or aborted in an upload. */
  datatype End = Waiting | Stopped | Aborted(upload: UploadRecord)

  function EndOf(aborted: Option<UploadRecord>): End {
    match aborted case None => Waiting case Some(u) => Aborted(u)
  }

  /** The inputs of all cycles started, completed or not. */
  ghost function Starts(first: CycleInput, handled: seq<Wake>): (starts: seq<CycleInput>)
    ensures starts != []
  {
    [first] + TickInputs(handled)
  }

  /** A run that has handled the wake-ups `handled` (after the immediate first cycle): exactly
      one completed cycle and one heartbeat per start of a cycle, in order, except that an
      aborting cycle is not completed; no wake-up is handled after shutdown; it stops for nothing
      else. */
  ghost predicate RunOf(settings: Settings, first: CycleInput, handled: seq<Wake>, cycles: seq<CycleRecord>,
                        heartbeats: seq<Heartbeat>, end: End)
  {
    var starts := Starts(first, handled);
    && |heartbeats| == |cycles|
    && (forall i :: 0 <= i < |cycles| ==> GoodCycle(settings, cycles[i], heartbeats[i]))
    && (if end.Aborted? then InputsOf(cycles) == Front(starts) && Aborts(settings, Last(starts), end.upload)
        else InputsOf(cycles) == starts)
    && (forall i :: 0 <= i < |handled| - 1 ==> handled[i] != ShutdownChanged(true))
    && (end == Stopped <==> handled != [] && Last(handled) == ShutdownChanged(true))
  }

  /** Every health state a client can be shown, from the one before the first cycle on. */
  ghost function Shown(before: Snapshot, cycles: seq<CycleRecord>): (states: seq<Snapshot>)
    ensures states != []
  {
    if cycles == [] then [before]
    else Shown(before, Front(cycles)) + match Last(cycles).health case None => [] case Some(h) => [h]
  }

  class Scheduler {
    const uploader: Uploader
    const health: HealthState?
    ghost var cycles: seq<CycleRecord>
    ghost var heartbeats: seq<Heartbeat>

    constructor (uploader: Uploader, health: HealthState?)
      ensures this.uploader == uploader && this.health == health
      ensures cycles == [] && heartbeats == []
    {
      this.uploader, this.health := uploader, health;
      cycles, heartbeats := [], [];
    }

    ghost function RunSettings(): Settings {
      Settings(uploader.initialRetryDelay, uploader.maxRetries, health != null)
    }

    /** Collects and uploads; no result if the agent aborts in the upload. */
    method CollectAndUpload(input: CycleInput)
      returns (result: Option<CycleResult>, upload: Option<UploadRecord>)
      ensures UploadFits(RunSettings(), input, upload)
      ensures result.None? <==> upload.Some? && upload.value.outcome == DelayOverflow
      ensures result.Some? ==>
                && result.value.durationMs == input.durationMs
                && (result.value.collectionOk <==> upload.Some?)
                && result.value.uploadError ==
                   (if upload.Some? && upload.value.outcome.Failed? then Some(upload.value.outcome.error) else None)
    {
      match input.collected
      case CollectOk(payload) =>
        var outcome, requests, sleeps := uploader.Upload(payload, input.server);
        upload := Some(UploadRecord(outcome, requests, sleeps));
        match outcome {
          case Uploaded => result := Some(CycleResult(input.durationMs, true, None));
          case Failed(e) => result := Some(CycleResult(input.durationMs, true, Some(e)));
          case DelayOverflow => result := None;
        }
      case CollectErr =>
        upload := None;
        result := Some(CycleResult(input.durationMs, false, None));
    }

    method UpdateHealth(result: CycleResult, input: CycleInput)
      modifies health
      ensures health != null ==>
                health.View() == Snapshot(
                  if Succeeded(result) then "ok" else "degraded",
                  AGENT_VERSION,
                  input.uptimeSecs,
                  Some(input.writtenAt),
                  Some(result.durationMs),
                  if result.uploadError.Some? then Some(UploadFailed(result.uploadError.value))
                  else if !result.collectionOk then Some(CollectionFailed)
                  else None,
                  result.collectionOk)
    {
      if health != null {
        health.uptimeSecs := input.uptimeSecs;
        health.lastCollectionTime := Some(input.writtenAt);
        health.lastCollectionDurationMs := Some(result.durationMs);
        health.databaseConnected := result.collectionOk;
        if result.uploadError.Some? {
          health.status := "degraded";
          health.lastCollectionError := Some(UploadFailed(result.uploadError.value));
        } else if !result.collectionOk {
          health.status := "degraded";
          health.lastCollectionError := Some(CollectionFailed);
        } else {
          health.status := "ok";
          health.lastCollectionError := None;
        }
      }
    }

    /** Spawns the heartbeat of a cycle. */
    method FireHeartbeat(result: CycleResult)
      modifies `heartbeats
      ensures heartbeats == old(heartbeats)
                            + [Heartbeat(if Succeeded(result) then "ok" else "degraded", AGENT_VERSION)]
    {
      var status := if result.uploadError.Some? || !result.collectionOk then "degraded" else "ok";
      heartbeats := heartbeats + [Heartbeat(status, AGENT_VERSION)];
    }

    /** Collect, upload, write health, spawn the heartbeat; or return the upload that aborts. */
    method Cycle(input: CycleInput) returns (aborted: Option<UploadRecord>)
      modifies this, health
      ensures aborted.None? ==>
                && |cycles| == |old(cycles)| + 1 && Front(cycles) == old(cycles)
                && |heartbeats| == |old(heartbeats)| + 1 && Front(heartbeats) == old(heartbeats)
                && Last(cycles).input == input
                && GoodCycle(RunSettings(), Last(cycles), Last(heartbeats))
                && (health != null ==> Last(cycles).health == Some(health.View()))
      ensures aborted.Some? ==>
                && cycles == old(cycles) && heartbeats == old(heartbeats)
                && (health != null ==> health.View() == old(health.View()))
                && Aborts(RunSettings(), input, aborted.value)
    {
      hide UploadFits;
      var result, upload := CollectAndUpload(input);
      if result.None? {
        return upload;
      }
      UpdateHealth(result.value, input);
      FireHeartbeat(result.value);
      UploadShape(RunSettings(), input, upload);
      cycles := cycles + [CycleRecord(input, upload, if health == null then None else Some(health.View()))];
      return None;
    }

    /** Runs until a shutdown, an abort, or the end of the given wake-ups; returns how many were
        handled. However it ends, shared health is the last state shown. */
    method Run(first: CycleInput, wakes: seq<Wake>) returns (end: End, handled: nat)
      requires cycles == [] && heartbeats == []
      modifies this, health
      ensures handled <= |wakes|
      ensures end == Waiting ==> handled == |wakes|
      ensures RunOf(RunSettings(), first, wakes[..handled], cycles, heartbeats, end)
      ensures health != null ==> health.View() == Last(Shown(old(health.View()), cycles))
    {
      hide RunOf, GoodCycle, UploadFits, Aborts;
      handled := 0;
      assert wakes[..0] == [];
      var aborted := Cycle(first);
      RunBegins(RunSettings(), first, cycles, heartbeats, aborted);
      if aborted.Some? {
        return Aborted(aborted.value), 0;
      }
      while handled < |wakes|
        invariant handled <= |wakes|
        invariant RunOf(RunSettings(), first, wakes[..handled], cycles, heartbeats, Waiting)
        invariant health != null ==> health.View() == Last(Shown(old(health.View()), cycles))
      {
        ghost var before, was, beats := wakes[..handled], cycles, heartbeats;
        assert wakes[..handled + 1] == before + [wakes[handled]];
        handled := handled + 1;
        match wakes[handled - 1]
        case Tick(mark, input) =>
          aborted := Cycle(input);
          RunTicks(RunSettings(), first, before, was, beats, mark, input, cycles, heartbeats, aborted);
          if aborted.Some? {
            return Aborted(aborted.value), handled;
          }
        case ShutdownChanged(value) =>
          RunNotices(RunSettings(), first, before, cycles, heartbeats, value);
          if value {
            return Stopped, handled;
          }
      }
      end := Waiting;
    }
  }

  /** Start-up and run: health is seeded from a probe of the database before it is shared, and
      every state shown from then on is coherent. */
  method RunAgent(uploader: Uploader, connected: bool, first: CycleInput, wakes: seq<Wake>)
    returns (scheduler: Scheduler, end: End, handled: nat, ghost seeded: Snapshot)
    ensures handled <= |wakes| && (end == Waiting ==> handled == |wakes|)
    ensures fresh(scheduler)
    ensures scheduler.RunSettings() == Settings(uploader.initialRetryDelay, uploader.maxRetries, true)
    ensures RunOf(scheduler.RunSettings(), first, wakes[..handled], scheduler.cycles, scheduler.heartbeats, end)
    ensures seeded == if connected then Snapshot("ok", AGENT_VERSION, 0, None, None, None, true)
                      else Snapshot("degraded", AGENT_VERSION, 0, None, None, Some(ProbeFailed), false)
    ensures var states := Shown(seeded, scheduler.cycles);
            && scheduler.health != null && scheduler.health.View() == Last(states)
            && forall h :: h in states ==> Coherent(h)
  {
    hide RunOf, Shown;
    var health := new HealthState();
    health.Seed(connected);
    seeded := health.View();
    scheduler := new Scheduler(uploader, health);
    end, handled := scheduler.Run(first, wakes);
    ShownCoherent(scheduler.RunSettings(), first, wakes[..handled], scheduler.cycles, scheduler.heartbeats, end,
                  seeded);
  }

  lemma RunBegins(settings: Settings, first: CycleInput, cycles: seq<CycleRecord>, heartbeats: seq<Heartbeat>,
                  aborted: Option<UploadRecord>)
    requires aborted.None? ==>
               && |cycles| == 1 == |heartbeats| && cycles[0].input == first
               && GoodCycle(settings, cycles[0], heartbeats[0])
    requires aborted.Some? ==> cycles == [] && heartbeats == [] && Aborts(settings, first, aborted.value)
    ensures RunOf(settings, first, [], cycles, heartbeats, EndOf(aborted))
  {
    hide GoodCycle, Aborts;
    assert Starts(first, []) == [first];
    if aborted.None? {
      assert InputsOf(cycles) == [first];
    }
  }

  lemma RunTicks(settings: Settings, first: CycleInput, handled: seq<Wake>, was: seq<CycleRecord>,
                 beats: seq<Heartbeat>, mark: nat, input: CycleInput, cycles: seq<CycleRecord>,
                 heartbeats: seq<Heartbeat>, aborted: Option<UploadRecord>)
    requires RunOf(settings, first, handled, was, beats, Waiting)
    requires aborted.None? ==>
               && |cycles| == |was| + 1 && Front(cycles) == was
               && |heartbeats| == |beats| + 1 && Front(heartbeats) == beats
               && Last(cycles).input == input && GoodCycle(settings, Last(cycles), Last(heartbeats))
    requires aborted.Some? ==> cycles == was && heartbeats == beats && Aborts(settings, input, aborted.value)
    ensures RunOf(settings, first, handled + [Tick(mark, input)], cycles, heartbeats, EndOf(aborted))
  {
    hide GoodCycle, Aborts;
    var wakes := handled + [Tick(mark, input)];
    var starts := Starts(first, handled);
    assert Front(wakes) == handled && Last(wakes) == Tick(mark, input);
    assert Starts(first, wakes) == starts + [input] && Front(starts + [input]) == starts;
    if aborted.None? {
      assert cycles == was + [Last(cycles)] && heartbeats == beats + [Last(heartbeats)];
      assert InputsOf(cycles) == InputsOf(was) + [input];
    }
    NotLastUntilNow(handled, Tick(mark, input));
  }

  lemma RunNotices(settings: Settings, first: CycleInput, handled: seq<Wake>, cycles: seq<CycleRecord>,
                   heartbeats: seq<Heartbeat>, value: bool)
    requires RunOf(settings, first, handled, cycles, heartbeats, Waiting)
    ensures RunOf(settings, first, handled + [ShutdownChanged(value)], cycles, heartbeats,
                  if value then Stopped else Waiting)
  {
    hide GoodCycle, Aborts;
    var wakes := handled + [ShutdownChanged(value)];
    assert Front(wakes) == handled && Last(wakes) == ShutdownChanged(value);
    assert TickInputs(wakes) == TickInputs(handled);
    hide TickInputs, InputsOf;
    NotLastUntilNow(handled, ShutdownChanged(value));
  }

  lemma NotLastUntilNow(handled: seq<Wake>, w: Wake)
    requires forall i :: 0 <= i < |handled| - 1 ==> handled[i] != ShutdownChanged(true)
    requires handled == [] || Last(handled) != ShutdownChanged(true)
    ensures forall i :: 0 <= i < |handled + [w]| - 1 ==> (handled + [w])[i] != ShutdownChanged(true)
  {
    forall i | 0 <= i < |handled| ensures (handled + [w])[i] != ShutdownChanged(true) {
      assert (handled + [w])[i] == handled[i];
    }
  }

  lemma UploadShape(settings: Settings, input: CycleInput, upload: Option<UploadRecord>)
    requires UploadFits(settings, input, upload)
    ensures upload.Some? <==> input.collected.CollectOk?
  {
  }

  // ---------- What follows for every run ----------

  lemma {:induction false} ShownMembers(before: Snapshot, cycles: seq<CycleRecord>, h: Snapshot)
    requires h in Shown(before, cycles)
    ensures h == before || exists c :: c in cycles && c.health == Some(h)
  {
    if cycles != [] {
      if h in Shown(before, Front(cycles)) {
        ShownMembers(before, Front(cycles), h);
      } else {
        assert Last(cycles) in cycles && Last(cycles).health == Some(h);
      }
    }
  }

  /** Over every run, however it ends, each health state shown is coherent if the seeded one is. */
  lemma ShownCoherent(settings: Settings, first: CycleInput, handled: seq<Wake>, cycles: seq<CycleRecord>,
                      heartbeats: seq<Heartbeat>, end: End, seeded: Snapshot)
    requires RunOf(settings, first, handled, cycles, heartbeats, end) && Coherent(seeded)
    ensures forall h :: h in Shown(seeded, cycles) ==> Coherent(h)
    ensures Coherent(Last(Shown(seeded, cycles)))
  {
    hide UploadFits, Aborts, Shown, TickInputs, InputsOf, Coherent;
    forall h | h in Shown(seeded, cycles) ensures Coherent(h) {
      ShownMembers(seeded, cycles, h);
      if h != seeded {
        var c :| c in cycles && c.health == Some(h);
        var i :| 0 <= i < |cycles| && cycles[i] == c;
        assert GoodCycle(settings, cycles[i], heartbeats[i]);
      }
    }
  }

  ghost function PostsOf(upload: Option<UploadRecord>): nat {
    match upload case None => 0 case Some(u) => u.requests
  }

  /** Requests to the ingest endpoint over a sequence of completed cycles. */
  ghost function Posts(cycles: seq<CycleRecord>): nat {
    if cycles == [] then 0 else Posts(Front(cycles)) + PostsOf(Last(cycles).upload)
  }

  /** The upload in which a run aborted, if it did. */
  ghost function AbortedUpload(end: End): Option<UploadRecord> {
    if end.Aborted? then Some(end.upload) else None
  }

  /** Requests over a whole run, those of an aborting upload included. */
  ghost function RunPosts(cycles: seq<CycleRecord>, end: End): nat {
    Posts(cycles) + PostsOf(AbortedUpload(end))
  }

  lemma {:induction false} PostsBounded(settings: Settings, cycles: seq<CycleRecord>)
    requires forall c :: c in cycles ==> UploadFits(settings, c.input, c.upload)
    ensures Posts(cycles) <= |cycles| * (settings.maxRetries + 1)
  {
    hide UploadFits;
    if cycles != [] {
      PostsBounded(settings, Front(cycles));
      UploadRequests(settings, Last(cycles).input, Last(cycles).upload);
      OneMore(|cycles| - 1, settings.maxRetries + 1);
    }
  }

  lemma UploadRequests(settings: Settings, input: CycleInput, upload: Option<UploadRecord>)
    requires UploadFits(settings, input, upload)
    ensures upload.Some? ==> upload.value.requests <= settings.maxRetries + 1
  {
  }

  lemma AbortRequests(settings: Settings, input: CycleInput, upload: UploadRecord)
    requires Aborts(settings, input, upload)
    ensures 1 <= upload.requests <= settings.maxRetries
    ensures input.collected.CollectOk?
  {
  }

  lemma OneMore(n: nat, k: nat)
    ensures (n + 1) * k == n * k + k
  {
  }

  lemma UploadsFit(settings: Settings, first: CycleInput, handled: seq<Wake>, cycles: seq<CycleRecord>,
                   heartbeats: seq<Heartbeat>, end: End)
    requires RunOf(settings, first, handled, cycles, heartbeats, end)
    ensures forall c :: c in cycles ==> UploadFits(settings, c.input, c.upload)
  {
    hide UploadFits, Aborts, TickInputs, InputsOf;
    forall c | c in cycles ensures UploadFits(settings, c.input, c.upload) {
      var i :| 0 <= i < |cycles| && cycles[i] == c;
      assert GoodCycle(settings, cycles[i], heartbeats[i]);
    }
  }

  ghost function TicksBefore(handled: seq<Wake>, n: nat): set<nat>
    requires n <= |handled|
  {
    set i | 0 <= i < n && handled[i].Tick?
  }

  lemma {:induction false} StartsCounted(first: CycleInput, handled: seq<Wake>)
    ensures |Starts(first, handled)| == 1 + |TicksBefore(handled, |handled|)|
  {
    if handled == [] {
      assert TicksBefore(handled, 0) == {};
    } else {
      var f, n := Front(handled), |handled| - 1;
      StartsCounted(first, f);
      assert TicksBefore(handled, n + 1) == TicksBefore(f, n) + if Last(handled).Tick? then {n} else {};
    }
  }

  /** After the first cycle, one is started for each tick, with its input and in its place, and
      for nothing else. */
  lemma {:induction false} StartOfTick(first: CycleInput, handled: seq<Wake>, i: nat)
    requires i < |handled| && handled[i].Tick?
    ensures var k := 1 + |TicksBefore(handled, i)|;
            k < |Starts(first, handled)| && Starts(first, handled)[k] == handled[i].input
    ensures |Starts(first, handled)| == 1 + |TicksBefore(handled, |handled|)|
  {
    StartsCounted(first, handled);
    var f, n := Front(handled), |handled| - 1;
    assert TicksBefore(handled, i) == TicksBefore(f, i);
    if i < n {
      StartOfTick(first, f, i);
      assert Starts(first, handled) == Starts(first, f) + if Last(handled).Tick? then [Last(handled).input] else [];
    } else {
      StartsCounted(first, f);
      assert Starts(first, handled) == Starts(first, f) + [handled[i].input];
    }
  }

  /** Everything a run promises to the outside: at least one cycle unless it aborts in the
      first, one upload per successful collection, one heartbeat per cycle agreeing with the
      health written, ingest traffic bounded by the cycles started, and an end that is only ever
      a shutdown of value true or an upload that overflows a delay. */
  lemma RunGuarantees(settings: Settings, first: CycleInput, handled: seq<Wake>, cycles: seq<CycleRecord>,
                      heartbeats: seq<Heartbeat>, end: End)
    requires RunOf(settings, first, handled, cycles, heartbeats, end)
    ensures |Starts(first, handled)| == |cycles| + if end.Aborted? then 1 else 0
    ensures cycles != [] ==> cycles[0].input == first
    ensures end.Aborted? ==>
              && Last(Starts(first, handled)).collected.CollectOk?
              && 1 <= end.upload.requests <= settings.maxRetries
    ensures |heartbeats| == |cycles|
    ensures forall i :: 0 <= i < |cycles| ==>
              && (cycles[i].upload.Some? <==> cycles[i].input.collected.CollectOk?)
              && (settings.shared ==>
                    cycles[i].health.Some? && cycles[i].health.value.status == heartbeats[i].status)
    ensures RunPosts(cycles, end) <= |Starts(first, handled)| * (settings.maxRetries + 1)
    ensures end == Stopped ==> Last(handled) == ShutdownChanged(true)
    ensures forall i :: 0 <= i < |handled| - 1 ==> handled[i] != ShutdownChanged(true)
  {
    hide UploadFits, Aborts;
    assert |InputsOf(cycles)| == |cycles|;
    if cycles != [] {
      assert InputsOf(cycles)[0] == Starts(first, handled)[0] == first;
    }
    forall i | 0 <= i < |cycles|
      ensures cycles[i].upload.Some? <==> cycles[i].input.collected.CollectOk?
      ensures settings.shared ==> cycles[i].health.Some? && cycles[i].health.value.status == heartbeats[i].status
    {
      assert GoodCycle(settings, cycles[i], heartbeats[i]);
      UploadShape(settings, cycles[i].input, cycles[i].upload);
    }
    UploadsFit(settings, first, handled, cycles, heartbeats, end);
    PostsBounded(settings, cycles);
    if end.Aborted? {
      AbortRequests(settings, Last(Starts(first, handled)), end.upload);
      OneMore(|cycles|, settings.maxRetries + 1);
    }
  }

  // ---------- Delays over a run ----------

  /** No server asks for more than `bound` in one upload. */
  ghost predicate AdviceBounded(settings: Settings, inputs: seq<CycleInput>, bound: Duration) {
    forall input :: input in inputs ==> AdviceAtMost(input.server, settings.maxRetries + 1, bound)
  }

  ghost function WaitOf(upload: Option<UploadRecord>): nat {
    match upload case None => 0 case Some(u) => Sum(u.sleeps)
  }

  /** Time slept between requests over a sequence of completed cycles. */
  ghost function Waits(cycles: seq<CycleRecord>): nat {
    if cycles == [] then 0 else Waits(Front(cycles)) + WaitOf(Last(cycles).upload)
  }

  /** Time slept over a whole run, an aborting upload included. */
  ghost function RunWaits(cycles: seq<CycleRecord>, end: End): nat {
    Waits(cycles) + WaitOf(AbortedUpload(end))
  }

  lemma {:induction false} WaitsBounded(settings: Settings, cycles: seq<CycleRecord>, bound: Duration)
    requires forall c :: c in cycles ==> UploadFits(settings, c.input, c.upload)
    requires settings.initial <= bound && AdviceBounded(settings, InputsOf(cycles), bound)
    ensures Waits(cycles) <= |cycles| * (bound * (Pow2(settings.maxRetries) - 1))
  {
    hide UploadFits, Pow2, AdviceAtMost, Sum;
    if cycles != [] {
      var f, c := Front(cycles), Last(cycles);
      assert InputsOf(cycles) == InputsOf(f) + [c.input];
      WaitsBounded(settings, f, bound);
      UploadWait(settings, c.input, c.upload, bound);
      OneMore(|f|, bound * (Pow2(settings.maxRetries) - 1));
    }
  }

  lemma UploadWait(settings: Settings, input: CycleInput, upload: Option<UploadRecord>, bound: Duration)
    requires UploadFits(settings, input, upload)
    requires settings.initial <= bound && AdviceAtMost(input.server, settings.maxRetries + 1, bound)
    ensures WaitOf(upload) <= bound * (Pow2(settings.maxRetries) - 1)
  {
    hide Uploads, AdviceAtMost, Pow2;
    match input.collected
    case CollectErr =>
    case CollectOk(None) => assert Sum([]) == 0;
    case CollectOk(Some(_)) =>
      var u := upload.value;
      FewerRequests(input.server, settings.initial, settings.maxRetries, u.outcome, u.requests, u.sleeps, bound);
      TotalWait(input.server, settings.initial, settings.maxRetries, u.outcome, u.requests, u.sleeps, bound);
  }

  lemma FewerRequests(server: Server, initial: Duration, maxRetries: nat,
                      outcome: Outcome, requests: nat, sleeps: seq<Duration>, bound: Duration)
    requires Uploads(server, initial, maxRetries, outcome, requests, sleeps)
    requires AdviceAtMost(server, maxRetries + 1, bound)
    ensures AdviceAtMost(server, requests, bound)
  {
    hide Advice, Classify, DelayBefore;
  }

  /** If no server asks for more than a bound, the uploads of a run, an aborting one included,
      wait no longer than the bound allows for the cycles started; and if no such delay can
      overflow within the retry limit, the run never aborts. */
  lemma BoundedRun(settings: Settings, first: CycleInput, handled: seq<Wake>, cycles: seq<CycleRecord>,
                   heartbeats: seq<Heartbeat>, end: End, bound: Duration)
    requires RunOf(settings, first, handled, cycles, heartbeats, end)
    requires settings.initial <= bound && AdviceBounded(settings, Starts(first, handled), bound)
    ensures RunWaits(cycles, end) <= |Starts(first, handled)| * (bound * (Pow2(settings.maxRetries) - 1))
    ensures bound * Pow2(settings.maxRetries) <= MAX_DURATION ==> !end.Aborted?
  {
    hide GoodCycle, UploadFits, Starts, Pow2, AdviceAtMost;
    var starts := Starts(first, handled);
    UploadsFit(settings, first, handled, cycles, heartbeats, end);
    assert AdviceBounded(settings, InputsOf(cycles), bound);
    WaitsBounded(settings, cycles, bound);
    assert |InputsOf(cycles)| == |cycles|;
    if end.Aborted? {
      UploadWait(settings, Last(starts), Some(end.upload), bound);
      OneMore(|cycles|, bound * (Pow2(settings.maxRetries) - 1));
      if bound * Pow2(settings.maxRetries) <= MAX_DURATION {
        NeverAborts(settings, Last(starts), end.upload, bound);
      }
    }
  }

  lemma NeverAborts(settings: Settings, input: CycleInput, u: UploadRecord, bound: Duration)
    requires settings.initial <= bound && AdviceAtMost(input.server, settings.maxRetries + 1, bound)
    requires bound * Pow2(settings.maxRetries) <= MAX_DURATION
    ensures !Aborts(settings, input, u)
  {
    hide Uploads, AdviceAtMost, Pow2;
    if UploadFits(settings, input, Some(u)) && input.collected != CollectOk(None) {
      FewerRequests(input.server, settings.initial, settings.maxRetries, u.outcome, u.requests, u.sleeps, bound);
      BoundedNeverOverflows(input.server, settings.initial, settings.maxRetries, u.outcome, u.requests, u.sleeps,
                            bound);
    }
  }

  // ---------- Pace ----------

  ghost function Ticks(wakes: seq<Wake>): seq<Wake> {
    if wakes == [] then []
    else if Last(wakes).Tick? then Ticks(Front(wakes)) + [Last(wakes)]
    else Ticks(Front(wakes))
  }

  /** The rule of an interval that skips missed ticks: ticks are for strictly increasing
      multiples of the period after its creation, and none fires early. */
  ghost predicate SkippingInterval(created: nat, period: nat, ticks: seq<Wake>) {
    && (forall i :: 0 <= i < |ticks| ==>
          ticks[i].Tick? && ticks[i].input.start >= created + ticks[i].mark * period)
    && (forall i, j :: 0 <= i < j < |ticks| ==> ticks[i].Tick? && ticks[j].Tick? && ticks[i].mark < ticks[j].mark)
  }

  lemma {:induction false} MarksGrow(created: nat, period: nat, ticks: seq<Wake>, i: nat)
    requires SkippingInterval(created, period, ticks) && i < |ticks|
    ensures ticks[i].mark >= i
  {
    if i > 0 {
      MarksGrow(created, period, ticks, i - 1);
    }
  }

  lemma {:induction false} TickInputsOfTicks(wakes: seq<Wake>)
    ensures |Ticks(wakes)| == |TickInputs(wakes)|
    ensures forall i :: 0 <= i < |Ticks(wakes)| ==>
              Ticks(wakes)[i].Tick? && Ticks(wakes)[i].input == TickInputs(wakes)[i]
  {
    if wakes != [] {
      TickInputsOfTicks(Front(wakes));
    }
  }

  lemma TickPace(created: nat, period: nat, ticks: seq<Wake>, i: nat, t: nat)
    requires SkippingInterval(created, period, ticks) && i < |ticks| && period > 0 && t >= created
    requires ticks[i].Tick? && ticks[i].input.start <= t
    ensures i <= (t - created) / period
  {
    MarksGrow(created, period, ticks, i);
    QuotientBound(ticks[i].mark, period, t - created);
  }

  /** However late ticks are handled, no more than (T - created) / period + 2 cycles, completed or
      not, have started by time T: the immediate one and one per multiple of the period. */
  lemma CyclesByTime(first: CycleInput, handled: seq<Wake>, created: nat, period: nat, t: nat)
    requires period > 0 && t >= created && SkippingInterval(created, period, Ticks(handled))
    ensures var starts := Starts(first, handled);
            forall i :: 0 <= i < |starts| && starts[i].start <= t ==> i < (t - created) / period + 2
  {
    hide SkippingInterval, Ticks, TickInputs;
    var starts := Starts(first, handled);
    TickInputsOfTicks(handled);
    forall i | 0 < i < |starts| && starts[i].start <= t ensures i < (t - created) / period + 2 {
      assert Ticks(handled)[i - 1].input == starts[i];
      TickPace(created, period, Ticks(handled), i - 1, t);
    }
  }

  lemma QuotientBound(m: nat, period: nat, elapsed: nat)
    requires period > 0 && m * period <= elapsed
    ensures m <= elapsed / period
  {
    var q := elapsed / period;
    assert elapsed < (q + 1) * period;
    if q + 1 <= m {
      MulMonotone(q + 1, m, period, period);
    }
  }
}
