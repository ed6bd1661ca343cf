/**
 The scanner of one chain as the program runs it: the cursor is updated and rolled back in place, a pass
 starts its workers in a loop, and the collector takes verdicts in whatever order the scheduler lets the
 workers run.
 */
module ChainListener {
  import opened Machine
  import opened Tiling
  import opened Workers
  import opened WorkerCalls
  import opened ScannerRuns

  /** `Panicked` when the channel cannot be made, `Hung` when the collector waits for a verdict that never comes. */
  datatype PassResult = Stopped | SomeTaskFailed | Advanced | Panicked | Hung

  class Listener {
    /** The height the scanner works from. */
    var cursor: uint64
    /** The height in the database row, the blocks stored with success, and where the scan started. */
    var persisted: uint64
    var covered: set<nat>
    var origin: uint64

    ghost predicate Valid()
      reads this
    {
      Covered(covered, origin, persisted) && Covered(covered, origin, cursor)
    }

    /** A process starts on the row `height`, with the node reporting `tip`. */
    constructor (height: uint64, stored: set<nat>, tip: uint64, write: Write)
      requires tip != 0
      ensures Valid()
      ensures cursor == (if height == 0 then tip else height) == origin
      ensures persisted == WriteCursor(height, cursor, write) && covered == stored
    {
      origin := if height == 0 then tip else height;
      cursor := if height == 0 then tip else height;
      persisted := WriteCursor(height, if height == 0 then tip else height, write);
      covered := stored;
    }

    /** A restart reads the row again and forgets the height it was working from. */
    method Restart(tip: uint64, write: Write)
      requires Valid() && tip != 0
      modifies this`cursor, this`persisted, this`origin
      ensures Valid()
      ensures old(persisted) != 0 ==> cursor == persisted == old(persisted) && origin == old(origin)
      ensures old(persisted) == 0 ==> cursor == origin == tip && persisted == WriteCursor(0, tip, write)
    {
      cursor := persisted;
      if cursor == 0 {
        cursor := tip;
        origin := tip;
      }
      persisted := WriteCursor(persisted, cursor, write);
    }

    /** The loop that starts one worker per segment. */
    method SpawnWorkers(mode: Mode, tip: uint64, length: uint64, workers: uint64) returns (segments: seq<Segment>)
      requires workers < TWO_63
      ensures segments == Segments(mode, tip, cursor, length, workers)
    {
      segments := [];
      var i: uint64 := 1;
      while i <= workers
        invariant 1 <= i <= workers + 1
        invariant segments == Segments(mode, tip, cursor, length, i - 1)
      {
        var start := SegmentStart(mode, cursor, length, i);
        var end := SegmentEnd(mode, tip, cursor, length, i);
        if end >= start {
          segments := segments + [Segment(start, end)];
        }
        i := i + 1;
      }
    }

    /** Some worker that can move makes its next call, or sends its next message. */
    method RunSomeWorker(mode: Mode, batch: Batch, answers: Answers) returns (after: Batch)
      requires BatchInv(batch, covered) && AnswersInv(batch, answers, mode) && SomeoneCanStep(batch)
      modifies this`covered
      ensures BatchInv(after, covered) && AnswersInv(after, answers, mode) && old(covered) <= covered
      ensures SegmentsOf(after) == SegmentsOf(batch)
      ensures after.received == batch.received && after.awaited == batch.awaited
      ensures TotalSteps(after.workers) < TotalSteps(batch.workers)
    {
      var i :| 0 <= i < |batch.workers| && CanStep(batch, i);
      var ok := answers(batch.workers[i].segment, batch.workers[i].pc);
      StepKeepsInv(batch, covered, mode, i, ok);
      StepKeepsAnswers(batch, mode, i, ok, answers);
      StepsDecrease(batch, mode, i, ok);
      covered := covered + Stored(batch.workers[i], ok);
      after := StepWorker(batch, mode, i, ok);
    }

    /**
     Runs the workers in an arbitrary order, with the answers of the node and the database given, until as many
     verdicts as planned have been received, or nothing can happen any more. That it comes to an end is the
     loop's termination. The order does not matter: the verdict is good if and only if all planned workers were
     started and all their calls succeed; and it hangs only if fewer workers were started than planned.
     */
    method Collect(mode: Mode, segments: seq<Segment>, awaited: nat, answers: Answers)
      returns (hangs: bool, allTaskSuccess: bool)
      requires |segments| <= awaited
      modifies this`covered
      ensures old(covered) <= covered
      ensures |segments| == awaited ==> !hangs
      ensures !hangs ==> (allTaskSuccess <==> |segments| == awaited && AllAnswer(answers, segments, mode))
      ensures |segments| < awaited && AllAnswer(answers, segments, mode) ==> hangs
      ensures !hangs && allTaskSuccess ==> forall i :: 0 <= i < |segments| ==> Blocks(segments[i]) <= covered
    {
      var batch := StartBatch(segments, awaited);
      allTaskSuccess := true;
      StartKeepsInv(segments, awaited, covered);
      StartHasSegments(segments, awaited);
      while !batch.Collected()
        invariant BatchInv(batch, covered) && AnswersInv(batch, answers, mode) && old(covered) <= covered
        invariant SegmentsOf(batch) == segments && batch.awaited == awaited
        invariant allTaskSuccess == batch.AllOk()
        decreases TotalSteps(batch.workers), |batch.queue|
      {
        var someoneCanStep := exists i :: 0 <= i < |batch.workers| && CanStep(batch, i);
        if !CanReceive(batch) && !someoneCanStep {
          OnlyShortBatchHangs(batch, covered);
          return true, false;
        }
        var receive: bool := *;
        if CanReceive(batch) && (receive || !someoneCanStep) {
          ReceiveKeepsInv(batch, covered);
          ReceiveAllOk(batch);
          if !batch.queue[0].ok {
            allTaskSuccess := false;
          }
          batch := Receive(batch);
        } else {
          batch := RunSomeWorker(mode, batch, answers);
        }
      }
      hangs := false;
      CollectedVerdict(batch, covered, mode, answers);
      if allTaskSuccess {
        CollectorSound(batch, covered);
        SegmentsStored(batch, covered);
      } else if |segments| < awaited {
        ShortBatchNeverSucceeds(batch, covered);
        SomeoneFailedSomeCall(batch, mode, answers);
      }
    }

    /** The workers of a planned pass; on success everything up to the next cursor is stored. */
    method RunWorkers(mode: Mode, tip: uint64, plan: Plan, answers: Answers)
      returns (hangs: bool, allTaskSuccess: bool, ghost segments: seq<Segment>)
      requires plan.Go? && plan.workers < TWO_63
      requires |Segments(mode, tip, cursor, plan.length, plan.workers)| <= plan.workers
      requires |Segments(mode, tip, cursor, plan.length, plan.workers)| == plan.workers ==>
                 Tiles(Segments(mode, tip, cursor, plan.length, plan.workers), cursor + 1,
                       NextCursor(mode, tip, cursor, plan))
      modifies this`covered
      ensures old(covered) <= covered
      ensures segments == Segments(mode, tip, cursor, plan.length, plan.workers)
      ensures |segments| == plan.workers ==> !hangs
      ensures !hangs ==> (allTaskSuccess <==> |segments| == plan.workers && AllAnswer(answers, segments, mode))
      ensures |segments| < plan.workers && AllAnswer(answers, segments, mode) ==> hangs
      ensures !hangs && allTaskSuccess ==> Covered(covered, cursor, NextCursor(mode, tip, cursor, plan))
    {
      var started := SpawnWorkers(mode, tip, plan.length, plan.workers);
      segments := started;
      hangs, allTaskSuccess := Collect(mode, started, plan.workers, answers);
      if !hangs && allTaskSuccess {
        SegmentsCover(segments, cursor, NextCursor(mode, tip, cursor, plan), covered);
      }
    }

    /**
     One iteration of the scan: plan, start, collect, and only then move and write the cursor. What comes of it
     is settled by the plan and the answers: where the end of the last segment does not wrap, the pass advances if
     and only if every call of every planned worker succeeds, and fails otherwise; where it wraps, it hangs or fails.
     */
    method Pass(mode: Mode, cfg: Config, height: uint64, answers: Answers, write: Write)
      returns (r: PassResult, ghost segments: seq<Segment>)
      requires Valid() && Behind(cfg, cursor, height)
      modifies this`cursor, this`persisted, this`covered
      ensures Valid() && old(covered) <= covered
      ensures var plan := MakePlan(mode, cfg, old(cursor), height);
              && (r.Stopped? <==> plan.Stop?)
              && (r.Panicked? <==> plan.Go? && plan.workers >= TWO_63)
              && (plan.Go? && plan.workers < TWO_63 ==>
                    && segments == Segments(mode, ConfirmedTip(cfg, height), old(cursor), plan.length, plan.workers)
                    && (LastEndFits(old(cursor), plan) ==>
                          r == if AllAnswer(answers, segments, mode) then Advanced else SomeTaskFailed)
                    && (!LastEndFits(old(cursor), plan) ==> r.Hung? || r.SomeTaskFailed?)
                    && (!LastEndFits(old(cursor), plan) && AllAnswer(answers, segments, mode) ==> r.Hung?))
      ensures !r.Advanced? ==> cursor == old(cursor) && persisted == old(persisted)
      ensures r.Advanced? ==>
        var next := NextCursor(mode, ConfirmedTip(cfg, height), old(cursor), MakePlan(mode, cfg, old(cursor), height));
        && old(cursor) < next <= ConfirmedTip(cfg, height)
        && Covered(covered, old(cursor), next)
        && cursor == (if write.Written? then next else old(cursor))
        && persisted == WriteCursor(old(persisted), next, write)
    {
      segments := [];
      var plan := MakePlan(mode, cfg, cursor, height);
      if plan.Stop? {
        return Stopped, segments;
      }
      if plan.workers >= TWO_63 {
        return Panicked, segments;
      }
      var tip := ConfirmedTip(cfg, height);
      ExactTiling(mode, cfg, cursor, height);
      var hangs, allTaskSuccess;
      hangs, allTaskSuccess, segments := RunWorkers(mode, tip, plan, answers);
      if hangs {
        return Hung, segments;
      }
      if !allTaskSuccess {
        return SomeTaskFailed, segments;
      }
      StoreCursor(NextCursor(mode, tip, cursor, plan), write);
      return Advanced, segments;
    }

    /** The cursor moves over stored blocks and is written; a write that reports an error takes it back. */
    method StoreCursor(next: uint64, write: Write)
      requires Valid() && cursor < next && Covered(covered, cursor, next)
      modifies this`cursor, this`persisted
      ensures Valid()
      ensures cursor == if write.Written? then next else old(cursor)
      ensures persisted == WriteCursor(old(persisted), next, write)
    {
      var flagChainHeight := cursor;
      cursor := next;
      persisted := WriteCursor(persisted, cursor, write);
      if !write.Written? {
        cursor := flagChainHeight;
      }
    }

    /**
     The scan up to one reported tip, whatever it is. `answers` are those of each pass, and `writes` the outcomes
     of the cursor writes, all later ones succeeding. It never passes the confirmed tip as computed. It ends caught
     up with it, unless the rest is too short for a range, or some call of a pass failed, or, on tips of 2^63 and
     above, a pass hangs or panics.
     */
    method Scan(mode: Mode, cfg: Config, height: uint64, answers: nat -> Answers, writes: seq<Write>)
      returns (r: PassResult, ghost failing: (nat, Segment))
      requires Valid()
      modifies this`cursor, this`persisted, this`covered
      ensures Valid() && old(covered) <= covered
      ensures old(cursor) <= cursor && (cursor == old(cursor) || cursor <= ConfirmedTip(cfg, height))
      ensures r.Advanced? <==> cursor >= ConfirmedTip(cfg, height)
      ensures r.Stopped? ==>
                mode.ByRange? && ConfirmedTip(cfg, height) - cursor < if cfg.minLength == 0 then 1 else cfg.minLength
      ensures r.Panicked? || r.Hung? ==> ConfirmedTip(cfg, height) >= TWO_63
      ensures (forall n, segment :: AllCalls(answers(n), segment, mode)) && ConfirmedTip(cfg, height) < TWO_63 ==>
                r.Advanced? || r.Stopped?
      ensures r.SomeTaskFailed? && ConfirmedTip(cfg, height) < TWO_63 ==>
                !AllCalls(answers(failing.0), failing.1, mode)
    {
      var tries := 0;
      var tip := ConfirmedTip(cfg, height);
      failing := (0, Segment(0, 0));
      while cursor < tip
        invariant Valid() && old(covered) <= covered
        invariant old(cursor) <= cursor && (cursor == old(cursor) || cursor <= tip)
        decreases if tries < |writes| then |writes| - tries else 0, tip - cursor
      {
        var write := if tries < |writes| then writes[tries] else Written;
        StopsOnlyBelowMinimum(mode, cfg, cursor, height);
        PlanFits(mode, cfg, cursor, height);
        ghost var segments;
        r, segments := Pass(mode, cfg, height, answers(tries), write);
        if !r.Advanced? {
          if r.SomeTaskFailed? && tip < TWO_63 {
            ghost var i :| 0 <= i < |segments| && !AllCalls(answers(tries), segments[i], mode);
            failing := (tries, segments[i]);
          }
          return r, failing;
        }
        tries := tries + 1;
      }
      return Advanced, failing;
    }
  }

  /** On a tip below 2^63 the channel can be made and no segment is skipped. */
  lemma PlanFits(mode: Mode, cfg: Config, cursor: uint64, height: uint64)
    requires Behind(cfg, cursor, height)
    ensures MakePlan(mode, cfg, cursor, height).Go? && ConfirmedTip(cfg, height) < TWO_63 ==>
      && MakePlan(mode, cfg, cursor, height).workers < TWO_63
      && LastEndFits(cursor, MakePlan(mode, cfg, cursor, height))
  {
    var plan := MakePlan(mode, cfg, cursor, height);
    if plan.Go? {
      PlanIsBounded(mode, cfg, cursor, height);
      LowTipsTile(mode, cfg, cursor, height);
      AtMostProduct(plan.workers - 1, plan.length);
    }
  }

  lemma AtMostProduct(n: nat, k: nat)
    requires k >= 1
    ensures n <= n * k
  {
    MulMonotone(1, k, n);
    assert k * n == n * k;
  }

  /** Every call of the worker of every segment succeeds. */
  ghost predicate AllAnswer(answers: Answers, segments: seq<Segment>, mode: Mode)
  {
    forall i :: 0 <= i < |segments| ==> AllCalls(answers, segments[i], mode)
  }

  lemma CollectedVerdict(b: Batch, covered: set<nat>, mode: Mode, answers: Answers)
    requires BatchInv(b, covered) && AnswersInv(b, answers, mode) && b.Collected()
    ensures b.AllOk() <==> |b.workers| == b.awaited && AllAnswer(answers, SegmentsOf(b), mode)
  {
    VerdictOfAnswers(b, covered, mode, answers);
    assert forall i :: 0 <= i < |b.workers| ==> SegmentsOf(b)[i] == b.workers[i].segment;
  }

  lemma SomeoneFailedSomeCall(b: Batch, mode: Mode, answers: Answers)
    requires AnswersInv(b, answers, mode) && SomeoneFailed(b)
    ensures !AllAnswer(answers, SegmentsOf(b), mode)
  {
    var i :| 0 <= i < |b.workers| && b.workers[i].failed;
    assert SegmentsOf(b)[i] == b.workers[i].segment;
    assert WorkerAnswers(b.workers[i], answers, mode);
  }

  lemma SegmentsStored(b: Batch, covered: set<nat>)
    requires forall i :: 0 <= i < |b.workers| ==> Blocks(b.workers[i].segment) <= covered
    ensures forall i :: 0 <= i < |SegmentsOf(b)| ==> Blocks(SegmentsOf(b)[i]) <= covered
  {
  }

  lemma ReceiveAllOk(b: Batch)
    requires CanReceive(b)
    ensures Receive(b).AllOk() <==> b.AllOk() && b.queue[0].ok
    ensures SegmentsOf(Receive(b)) == SegmentsOf(b)
  {
    var after := Receive(b);
    assert after.received[|b.received|] == b.queue[0];
    if after.AllOk() {
      forall k | 0 <= k < |b.received| ensures b.received[k].ok {
        assert after.received[k] == b.received[k];
      }
    }
  }

  lemma SegmentsCover(segments: seq<Segment>, cursor: nat, next: nat, covered: set<nat>)
    requires Tiles(segments, cursor + 1, next)
    requires forall i :: 0 <= i < |segments| ==> Blocks(segments[i]) <= covered
    ensures Covered(covered, cursor, next)
  {
    forall h: nat | cursor < h <= next ensures h in covered {
      TilesCover(segments, cursor + 1, next, h);
      var i :| 0 <= i < |segments| && segments[i].lo <= h <= segments[i].hi;
      assert Contains(segments[i], h);
      assert h in Blocks(segments[i]);
    }
  }
}
