/**
 Whole runs of the scanner of one chain: every interleaving of its workers, with failed handlers,
 failed writes of the cursor, panics of the scanner, crashes of the process and restarts.
 */
module ScannerRuns {
  import opened Machine
  import opened Tiling
  import opened Workers

  /** The scanner waits for the tip at `cursor`, or collects the verdicts of a pass that would move it to `next`. */
  datatype Phase =
    | Down
    | Idle(cursor: uint64)
    | Collecting(mode: Mode, cursor: uint64, next: uint64, batch: Batch)

  /**
   `persisted` is the height in the chain's database row, `covered` the blocks some worker has stored with
   success, `origin` the height the chain's first scan started from. `stale` holds passes whose channel is
   closed while workers of theirs still run.
   */
  datatype State = State(persisted: uint64, covered: set<nat>, origin: uint64, phase: Phase, stale: seq<(Mode, Batch)>)

  /** A write of the cursor may fail with or without having reached the database. */
  datatype Write = Written | FailedBefore | FailedAfter

  function WriteCursor(persisted: uint64, value: uint64, w: Write): uint64
  {
    if w.FailedBefore? then persisted else value
  }

  datatype Event =
    | Start(tip: uint64, write: Write)
    | Begin(mode: Mode, cfg: Config, height: uint64)
    | WorkerStep(worker: nat, ok: bool)
    | Take
    | GiveUp
    | Finish(write: Write)
    | StaleStep(pass: nat, worker: nat, ok: bool)
    | SendOnClosed(pass: nat, worker: nat)
    | Panic
    | Crash

  /**
   A pass begins on any tip that leaves the scanner behind; a channel of 2^63 places cannot be made, and is a
   `Panic`.
   */
  predicate Enabled(s: State, e: Event)
  {
    match e
    case Start(tip, _) => s.phase.Down? && tip != 0
    case Begin(mode, cfg, height) =>
      && s.phase.Idle?
      && Behind(cfg, s.phase.cursor, height)
      && MakePlan(mode, cfg, s.phase.cursor, height).Go?
      && MakePlan(mode, cfg, s.phase.cursor, height).workers < TWO_63
    case WorkerStep(i, _) => s.phase.Collecting? && CanStep(s.phase.batch, i)
    case Take => s.phase.Collecting? && CanReceive(s.phase.batch)
    case GiveUp => s.phase.Collecting? && s.phase.batch.Collected() && !s.phase.batch.AllOk()
    case Finish(_) => s.phase.Collecting? && s.phase.batch.Collected() && s.phase.batch.AllOk()
    case StaleStep(p, i, _) =>
      p < |s.stale| && CanStep(s.stale[p].1, i) && !IsSend(s.stale[p].1.workers[i].pc)
    case SendOnClosed(p, i) =>
      p < |s.stale| && i < |s.stale[p].1.workers| && IsSend(s.stale[p].1.workers[i].pc)
    case Panic => s.phase.Idle? || s.phase.Down?
    case Crash => true
  }

  function BeginPass(mode: Mode, tip: uint64, cursor: uint64, plan: Plan): Phase
    requires plan.Go?
  {
    Collecting(mode, cursor, NextCursor(mode, tip, cursor, plan),
               StartBatch(Segments(mode, tip, cursor, plan.length, plan.workers), plan.workers))
  }

  function Died(s: State): State { s.(phase := Down, stale := []) }

  function Close(s: State, cursor: uint64): State
    requires s.phase.Collecting?
  {
    s.(phase := Idle(cursor), stale := s.stale + [(s.phase.mode, s.phase.batch)])
  }

  function Next(s: State, e: Event): State
    requires Enabled(s, e)
  {
    match e
    case Start(tip, write) =>
      // the row is written back even when its height was not zero; only a zero height is replaced
      var cursor := if s.persisted == 0 then tip else s.persisted;
      s.(persisted := WriteCursor(s.persisted, cursor, write),
         origin := if s.persisted == 0 then tip else s.origin,
         phase := Idle(cursor))
    case Begin(mode, cfg, height) =>
      s.(phase := BeginPass(mode, ConfirmedTip(cfg, height), s.phase.cursor,
          MakePlan(mode, cfg, s.phase.cursor, height)))
    case WorkerStep(i, ok) =>
      var b := s.phase.batch;
      s.(phase := s.phase.(batch := StepWorker(b, s.phase.mode, i, ok)),
          covered := s.covered + Stored(b.workers[i], ok))
    case Take => s.(phase := s.phase.(batch := Receive(s.phase.batch)))
    case GiveUp => Close(s, s.phase.cursor)
    case Finish(write) =>
      Close(s, if write.Written? then s.phase.next else s.phase.cursor)
      .(persisted := WriteCursor(s.persisted, s.phase.next, write))
    case StaleStep(p, i, ok) =>
      var (mode, b) := s.stale[p];
      s.(stale := s.stale[p := (mode, StepWorker(b, mode, i, ok))], covered := s.covered + Stored(b.workers[i], ok))
    case SendOnClosed(_, _) => Died(s)
    case Panic => s.(phase := Down)
    case Crash => Died(s)
  }

  // Coverage

  /** Every block above `from` and at or below `to` has been stored. */
  ghost predicate Covered(covered: set<nat>, from: nat, to: nat)
  {
    forall h: nat :: from < h <= to ==> h in covered
  }

  ghost function SegmentsOf(b: Batch): seq<Segment>
  {
    seq(|b.workers|, i requires 0 <= i < |b.workers| => b.workers[i].segment)
  }

  ghost predicate PhaseInv(s: State)
  {
    match s.phase
    case Down => true
    case Idle(cursor) => Covered(s.covered, s.origin, cursor)
    case Collecting(mode, cursor, next, batch) =>
      && Covered(s.covered, s.origin, cursor)
      && BatchInv(batch, s.covered)
      && (|batch.workers| == batch.awaited ==> cursor < next && Tiles(SegmentsOf(batch), cursor + 1, next))
  }

  ghost predicate Inv(s: State)
  {
    Covered(s.covered, s.origin, s.persisted) && PhaseInv(s)
  }

  /** A pass whose verdicts are all `true` has stored every block it was meant to store. */
  lemma PassCovers(s: State)
    requires Inv(s) && s.phase.Collecting? && s.phase.batch.Collected() && s.phase.batch.AllOk()
    ensures s.phase.cursor < s.phase.next
    ensures Covered(s.covered, s.phase.cursor, s.phase.next)
    ensures Covered(s.covered, s.origin, s.phase.next)
  {
    var b := s.phase.batch;
    var segments := SegmentsOf(b);
    CollectorSound(b, s.covered);
    forall h: nat | s.phase.cursor < h <= s.phase.next ensures h in s.covered {
      TilesCover(segments, s.phase.cursor + 1, s.phase.next, h);
      var i :| 0 <= i < |segments| && segments[i].lo <= h <= segments[i].hi;
      assert Contains(b.workers[i].segment, h);
      assert h in Blocks(b.workers[i].segment);
    }
  }

  /** A pass that begins with all its workers is tiled from the block after the cursor to the height it will store. */
  lemma BeginTiles(mode: Mode, cfg: Config, cursor: uint64, height: uint64)
    requires Behind(cfg, cursor, height) && MakePlan(mode, cfg, cursor, height).Go?
    ensures
      var p := BeginPass(mode, ConfirmedTip(cfg, height), cursor, MakePlan(mode, cfg, cursor, height));
      && |p.batch.workers| <= p.batch.awaited
      && (|p.batch.workers| == p.batch.awaited ==>
            cursor < p.next <= ConfirmedTip(cfg, height) && Tiles(SegmentsOf(p.batch), cursor + 1, p.next))
  {
    var plan := MakePlan(mode, cfg, cursor, height);
    ExactTiling(mode, cfg, cursor, height);
    StartHasSegments(Segments(mode, ConfirmedTip(cfg, height), cursor, plan.length, plan.workers), plan.workers);
  }

  lemma StartHasSegments(segments: seq<Segment>, awaited: nat)
    ensures SegmentsOf(StartBatch(segments, awaited)) == segments
  {
  }

  lemma BeginKeepsInv(s: State, mode: Mode, cfg: Config, height: uint64)
    requires Inv(s) && Enabled(s, Begin(mode, cfg, height))
    ensures Inv(Next(s, Begin(mode, cfg, height)))
  {
    BeginTiles(mode, cfg, s.phase.cursor, height);
    var plan := MakePlan(mode, cfg, s.phase.cursor, height);
    StartKeepsInv(Segments(mode, ConfirmedTip(cfg, height), s.phase.cursor, plan.length, plan.workers), plan.workers,
                  s.covered);
  }

  lemma WorkerStepKeepsInv(s: State, i: nat, ok: bool)
    requires Inv(s) && Enabled(s, WorkerStep(i, ok))
    ensures Inv(Next(s, WorkerStep(i, ok)))
  {
    StepKeepsInv(s.phase.batch, s.covered, s.phase.mode, i, ok);
    assert SegmentsOf(Next(s, WorkerStep(i, ok)).phase.batch) == SegmentsOf(s.phase.batch);
  }

  lemma NextKeepsInv(s: State, e: Event)
    requires Inv(s) && Enabled(s, e)
    ensures Inv(Next(s, e))
  {
    match e {
      case Begin(mode, cfg, height) =>
        BeginKeepsInv(s, mode, cfg, height);
      case WorkerStep(i, ok) => WorkerStepKeepsInv(s, i, ok);
      case Take =>
        ReceiveKeepsInv(s.phase.batch, s.covered);
        assert SegmentsOf(Receive(s.phase.batch)) == SegmentsOf(s.phase.batch);
      case Finish(_) => PassCovers(s);
      case StaleStep(p, i, ok) =>
        if s.phase.Collecting? {
          CoveringKeepsInv(s.phase.batch, s.covered, Stored(s.stale[p].1.workers[i], ok));
        }
      case _ =>
    }
  }

  /** A pass whose verdicts are all `true` moves the scanner, and the row with it, as far as the write goes through. */
  lemma FinishMoves(s: State, write: Write)
    requires Inv(s) && Enabled(s, Finish(write))
    ensures
      var next := Next(s, Finish(write));
      && s.phase.cursor < s.phase.next
      && next.phase == Idle(if write.Written? then s.phase.next else s.phase.cursor)
      && next.persisted == (if write.FailedBefore? then s.persisted else s.phase.next)
  {
    PassCovers(s);
  }

  /** A start resumes at the height in the row, or at the tip when the row holds none. */
  lemma StartResumes(s: State, tip: uint64, write: Write)
    requires Enabled(s, Start(tip, write))
    ensures
      var next := Next(s, Start(tip, write));
      && next.phase == Idle(if s.persisted == 0 then tip else s.persisted)
      && next.persisted == (if s.persisted == 0 && !write.FailedBefore? then tip else s.persisted)
  {
  }

  /** `states` is a run: each state follows from the one before by the event between them. */
  ghost predicate IsRun(states: seq<State>, events: seq<Event>)
  {
    && |states| == |events| + 1
    && forall k {:trigger events[k]} :: 0 <= k < |events| ==>
         Enabled(states[k], events[k]) && states[k + 1] == Next(states[k], events[k])
  }

  /** A database row as first found, and no process running. */
  function Initial(persisted: uint64, covered: set<nat>): State
  {
    State(persisted, covered, persisted, Down, [])
  }

  lemma {:induction false} RunKeepsInv(states: seq<State>, events: seq<Event>, k: nat)
    requires IsRun(states, events) && Inv(states[0]) && k < |states|
    ensures Inv(states[k])
  {
    if k == 0 {
    } else {
      RunKeepsInv(states, events, k - 1);
      NextKeepsInv(states[k - 1], events[k - 1]);
    }
  }

  /** A nonzero starting height stays the origin of the whole run. */
  lemma {:induction false} OriginIsFixed(states: seq<State>, events: seq<Event>, k: nat)
    requires IsRun(states, events) && k < |states|
    requires states[0].persisted != 0 && Inv(states[0])
    ensures states[k].origin == states[0].origin && states[k].persisted != 0
  {
    if k == 0 {
    } else {
      OriginIsFixed(states, events, k - 1);
      RunKeepsInv(states, events, k - 1);
      if events[k - 1].Finish? {
        PassCovers(states[k - 1]);
      }
    }
  }

  /**
   Cursor coverage over whole runs. At every point of every run, every block above the height the chain
   started from and at or below the height in the database was stored by a worker whose write succeeded.
   */
  lemma CursorCoverage(persisted: uint64, states: seq<State>, events: seq<Event>, k: nat, h: nat)
    requires IsRun(states, events) && states[0] == Initial(persisted, {})
    requires k < |states| && states[k].origin < h <= states[k].persisted
    ensures h in states[k].covered
    ensures persisted != 0 ==> states[k].origin == persisted
  {
    RunKeepsInv(states, events, k);
    if persisted != 0 {
      OriginIsFixed(states, events, k);
    }
  }

  // The first start

  /** A run that begins by starting the process on the row as first found. */
  ghost predicate StartsOn(states: seq<State>, events: seq<Event>, persisted: uint64, tip: uint64, write: Write)
  {
    IsRun(states, events) && events != [] && states[0] == Initial(persisted, {}) && events[0] == Start(tip, write)
  }

  function FirstHeight(persisted: uint64, tip: uint64): uint64 { if persisted == 0 then tip else persisted }

  /** At every point of the run, every block above `first` and at or below the persisted height has been stored. */
  ghost predicate NothingSkipped(states: seq<State>, first: uint64)
  {
    forall k, h: nat :: 0 <= k < |states| && first < h <= states[k].persisted ==> h in states[k].covered
  }

  /** Once the first height is in the row it stays the origin. */
  lemma FirstHeightIsOrigin(states: seq<State>, events: seq<Event>, persisted: uint64, tip: uint64, write: Write,
                            k: nat)
    requires StartsOn(states, events, persisted, tip, write) && 1 <= k < |states|
    requires persisted != 0 || !write.FailedBefore?
    ensures states[k].origin == FirstHeight(persisted, tip) && states[k].persisted != 0
  {
    var tail, later := states[1..], events[1..];
    forall i | 0 <= i < |later| ensures Enabled(tail[i], later[i]) && tail[i + 1] == Next(tail[i], later[i]) {
      assert later[i] == events[i + 1];
    }
    assert states[1] == Next(states[0], events[0]);
    OriginIsFixed(tail, later, k - 1);
  }

  /** Two starts with a crash in between; the first write did not reach the row. */
  lemma SecondStartSkips(tip: uint64) returns (states: seq<State>, events: seq<Event>)
    requires 0 < tip < TWO_64 - 1
    ensures StartsOn(states, events, 0, tip, FailedBefore) && !NothingSkipped(states, tip)
  {
    var start, again := Start(tip, FailedBefore), Start(tip + 1, Written);
    var down := Next(Next(Initial(0, {}), start), Crash);
    states := [Initial(0, {}), Next(Initial(0, {}), start), down, Next(down, again)];
    events := [start, Crash, again];
    assert states[3].persisted == tip + 1 && tip + 1 !in states[3].covered;
  }

  /**
   The first height is as safe as its first write. In all runs from a row every block above the height of
   the first start and at or below the persisted height is stored, if and only if the row already held a
   height or the first write reached it. Otherwise a restart scans from a newer tip and skips the blocks between.
   */
  lemma NothingSkippedIff(persisted: uint64, tip: uint64, write: Write)
    requires 0 < tip < TWO_64 - 1
    ensures (forall states: seq<State>, events: seq<Event> ::
               StartsOn(states, events, persisted, tip, write) ==> NothingSkipped(states, FirstHeight(persisted, tip)))
       <==> persisted != 0 || !write.FailedBefore?
  {
    if persisted != 0 || !write.FailedBefore? {
      forall states: seq<State>, events: seq<Event> | StartsOn(states, events, persisted, tip, write)
        ensures NothingSkipped(states, FirstHeight(persisted, tip))
      {
        forall k, h: nat | 0 <= k < |states| && FirstHeight(persisted, tip) < h <= states[k].persisted
          ensures h in states[k].covered
        {
          if k > 0 {
            FirstHeightIsOrigin(states, events, persisted, tip, write, k);
            CursorCoverage(persisted, states, events, k, h);
          }
        }
      }
    } else {
      var states, events := SecondStartSkips(tip);
    }
  }

  // Passes that hang

  /** The events of the scanner itself, and of the workers of its pass. */
  predicate OfThePass(e: Event)
  {
    e.WorkerStep? || e.Take? || e.GiveUp? || e.Finish? || e.Begin? || e.Start? || e.Panic?
  }

  /** A pass that hangs is left by no event of its own: only the end of the process frees the scanner. */
  lemma HangingIsForEver(s: State, e: Event)
    requires s.phase.Collecting? && Hangs(s.phase.batch) && OfThePass(e)
    ensures !Enabled(s, e)
  {
    if e.WorkerStep? {
      assert !CanStep(s.phase.batch, e.worker);
    }
  }

  /**
   When a pass can hang: exactly when the end of its last segment wraps, is there a worker missing from the
   start. A pass with all its workers never hangs.
   */
  lemma CanHangIff(s: State, mode: Mode, cfg: Config, height: uint64)
    requires Inv(s) && Enabled(s, Begin(mode, cfg, height))
    ensures
      var plan := MakePlan(mode, cfg, s.phase.cursor, height);
      var batch := Next(s, Begin(mode, cfg, height)).phase.batch;
      |batch.workers| < batch.awaited <==> !LastEndFits(s.phase.cursor, plan)
  {
    ExactTiling(mode, cfg, s.phase.cursor, height);
  }

  /** A lone worker that makes a call with success. */
  lemma LoneStep(s: State, w: Worker)
    requires s.phase.Collecting? && s.phase.mode == ByRange && s.phase.batch == Batch([w], 2, [], [])
    requires w.pc != Done && !IsSend(w.pc)
    ensures Enabled(s, WorkerStep(0, true))
    ensures var phase := Next(s, WorkerStep(0, true)).phase;
            phase.Collecting? && phase.mode == ByRange && phase.batch == Batch([Advance(w, ByRange, true)], 2, [], [])
  {
  }

  lemma LoneWorkerIsTaken(s: State, segment: Segment) returns (states: seq<State>, events: seq<Event>)
    requires s.phase.Collecting? && s.phase.mode == ByRange
    requires s.phase.batch == Batch([Worker(segment, Reporting(true), false)], 2, [], [])
    ensures IsRun(states, events) && states[0] == s
    ensures var end := states[|states| - 1]; end.phase.Collecting? && Hangs(end.phase.batch)
  {
    var reported := Next(s, WorkerStep(0, true));
    var taken := Next(reported, Take);
    states, events := [s, reported, taken], [WorkerStep(0, true), Take];
    assert taken.phase.batch.workers == [Worker(segment, Done, false)];
    assert forall i :: !CanStep(taken.phase.batch, i);
  }

  /** A lone worker that makes all its calls with success, and a collector that waits for a second verdict. */
  lemma LoneWorkerHangs(s: State, segment: Segment) returns (states: seq<State>, events: seq<Event>)
    requires s.phase.Collecting? && s.phase.mode == ByRange && s.phase.batch == StartBatch([segment], 2)
    ensures IsRun(states, events) && states[0] == s
    ensures var end := states[|states| - 1]; end.phase.Collecting? && Hangs(end.phase.batch)
  {
    var step := WorkerStep(0, true);
    assert s.phase.batch == Batch([Worker(segment, Handling, false)], 2, [], []);
    LoneStep(s, Worker(segment, Handling, false));
    var handled := Next(s, step);
    LoneStep(handled, Worker(segment, Checking(1), false));
    var checked := Next(handled, step);
    LoneStep(checked, Worker(segment, Updating, false));
    var updated := Next(checked, step);
    var rest, later := LoneWorkerIsTaken(updated, segment);
    RunFrom(checked, step, rest, later);
    RunFrom(handled, step, [checked] + rest, [step] + later);
    RunFrom(s, step, [handled] + ([checked] + rest), [step] + ([step] + later));
    states := [s] + ([handled] + ([checked] + rest));
    events := [step] + ([step] + ([step] + later));
  }

  lemma RunFrom(head: State, e: Event, states: seq<State>, events: seq<Event>)
    requires IsRun(states, events) && Enabled(head, e) && Next(head, e) == states[0]
    ensures IsRun([head] + states, [e] + events)
  {
    var all, both := [head] + states, [e] + events;
    forall k | 0 <= k < |both| ensures Enabled(all[k], both[k]) && all[k + 1] == Next(all[k], both[k]) {
      if k > 0 {
        assert both[k] == events[k - 1];
      }
    }
  }

  /** Ten confirmations, two workers, ranges of any length up to 2^63. */
  const LONG_RANGES: Config := Config(10, 2, 1, TWO_63)

  lemma ShortChainBegins(s: State) returns (segment: Segment)
    requires s.phase == Idle(4)
    ensures Enabled(s, Begin(ByRange, LONG_RANGES, 4))
    ensures var phase := Next(s, Begin(ByRange, LONG_RANGES, 4)).phase;
            phase.mode == ByRange && phase.batch == StartBatch([segment], 2)
  {
    ShortChainScansPastTip();
    ShortChainSkipsSegment();
    var segments := Segments(ByRange, ConfirmedTip(LONG_RANGES, 4), 4, TWO_63, 2);
    segment := segments[0];
    assert segments == [segment];
  }

  /** A run that hangs: the tip is below the confirmations, and the ranges are long. */
  lemma ShortChainHangs() returns (states: seq<State>, events: seq<Event>)
    ensures IsRun(states, events) && states[0] == Initial(4, {})
    ensures var end := states[|states| - 1]; end.phase.Collecting? && Hangs(end.phase.batch)
  {
    var start, begin := Start(4, Written), Begin(ByRange, LONG_RANGES, 4);
    var first := Initial(4, {});
    var idle := Next(first, start);
    var segment := ShortChainBegins(idle);
    var rest, later := LoneWorkerHangs(Next(idle, begin), segment);
    RunFrom(idle, begin, rest, later);
    RunFrom(first, start, [idle] + rest, [begin] + later);
    states, events := [first] + ([idle] + rest), [start] + ([begin] + later);
  }
}
