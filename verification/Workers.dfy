/**
 The workers of one pass, the buffered channel they report on, and the collector that takes as many
 verdicts from it as workers were planned; a skipped segment leaves one worker fewer. A worker that fails its fee
 check or its fill step reports
 `false` and still goes on, so it may report more than once.
 */
module Workers {
  import opened FiniteSets
  import opened Tiling

  /** Where a worker is. `left` counts the checks (fill step, fee check) still to be made. */
  datatype Pc =
    | Handling
    | Checking(left: nat)
    | Refusing(left: nat)
    | Updating
    | Reporting(verdict: bool)
    | Done

  /** `failed` records that some call of this worker failed. */
  datatype Worker = Worker(segment: Segment, pc: Pc, failed: bool)

  datatype Message = Message(from: nat, ok: bool)

  /**
   `awaited` is the number of verdicts the collector takes and the size of the channel buffer; `queue` is the
   buffer, oldest first, and `received` what the collector has taken so far.
   */
  datatype Batch = Batch(workers: seq<Worker>, awaited: nat, queue: seq<Message>, received: seq<Message>) {
    function Sent(): seq<Message> { received + queue }

    predicate Collected() { |received| == awaited }

    predicate AllOk() { forall k :: 0 <= k < |received| ==> received[k].ok }

    predicate CanSend() { |queue| < awaited }
  }

  /** The checks a worker makes between reading its blocks and storing their events. */
  function ChecksIn(mode: Mode): nat { if mode.ByRange? then 1 else 2 }

  function AfterChecks(left: nat): Pc { if left == 0 then Updating else Checking(left) }

  function StartBatch(segments: seq<Segment>, awaited: nat): (b: Batch)
    ensures |b.workers| == |segments|
  {
    Batch(seq(|segments|, i requires 0 <= i < |segments| => Worker(segments[i], Handling, false)), awaited, [], [])
  }

  predicate Contains(s: Segment, h: nat) { s.lo <= h <= s.hi }

  function Blocks(s: Segment): set<nat> { set h: nat | h <= s.hi && Contains(s, h) }

  /** What the environment answers to the call a worker makes next. */
  predicate IsSend(pc: Pc) { pc.Refusing? || pc.Reporting? }

  /** The worker after its call succeeded (`ok`) or failed, or after its message was sent. */
  function Advance(w: Worker, mode: Mode, ok: bool): Worker
    requires w.pc != Done
  {
    match w.pc
    case Handling => w.(pc := if ok then AfterChecks(ChecksIn(mode)) else Reporting(false), failed := w.failed || !ok)
    case Checking(left) =>
      w.(pc := if ok then AfterChecks(if left == 0 then 0 else left - 1) else Refusing(left), failed := w.failed || !ok)
    case Refusing(left) => w.(pc := AfterChecks(if left == 0 then 0 else left - 1))
    case Updating => w.(pc := Reporting(ok), failed := w.failed || !ok)
    case Reporting(_) => w.(pc := Done)
  }

  /** The blocks whose events the call stores. */
  function Stored(w: Worker, ok: bool): set<nat> { if w.pc.Updating? && ok then Blocks(w.segment) else {} }

  function Outgoing(i: nat, w: Worker): Message
    requires IsSend(w.pc)
  {
    Message(i, w.pc.Reporting? && w.pc.verdict)
  }

  predicate CanStep(b: Batch, i: nat)
  {
    i < |b.workers| && b.workers[i].pc != Done && (IsSend(b.workers[i].pc) ==> b.CanSend())
  }

  function StepWorker(b: Batch, mode: Mode, i: nat, ok: bool): Batch
    requires CanStep(b, i)
  {
    var w := b.workers[i];
    b.(workers := b.workers[i := Advance(w, mode, ok)],
       queue := if IsSend(w.pc) then b.queue + [Outgoing(i, w)] else b.queue)
  }

  predicate CanReceive(b: Batch) { b.queue != [] && !b.Collected() }

  function Receive(b: Batch): Batch
    requires CanReceive(b)
  {
    b.(queue := b.queue[1..], received := b.received + [b.queue[0]])
  }

  // The invariant

  ghost predicate HasSent(b: Batch, i: nat, ok: bool) { Message(i, ok) in b.Sent() }

  /** What the position of worker `i` says about its messages and about the stored blocks. */
  ghost predicate WorkerInv(b: Batch, covered: set<nat>, i: nat)
    requires i < |b.workers|
  {
    var w := b.workers[i];
    && (HasSent(b, i, true) ==> w.pc == Done && Blocks(w.segment) <= covered)
    && (w.pc == Reporting(true) ==> Blocks(w.segment) <= covered)
    && (w.failed ==> w.pc.Refusing? || w.pc == Reporting(false) || HasSent(b, i, false))
    && (w.pc.Refusing? || w.pc == Reporting(false) || HasSent(b, i, false) ==> w.failed)
    && (w.pc == Done ==> HasSent(b, i, true) || HasSent(b, i, false))
  }

  /** A worker's `true` is its last message. */
  ghost predicate TrueIsLast(sent: seq<Message>)
  {
    forall a, b :: 0 <= a < b < |sent| && sent[a].ok ==> sent[b].from != sent[a].from
  }

  ghost predicate BatchInv(b: Batch, covered: set<nat>)
  {
    && |b.received| <= b.awaited && |b.workers| <= b.awaited
    && (forall m :: m in b.Sent() ==> m.from < |b.workers|)
    && TrueIsLast(b.Sent())
    && (forall i :: 0 <= i < |b.workers| ==> WorkerInv(b, covered, i))
  }

  lemma StartKeepsInv(segments: seq<Segment>, awaited: nat, covered: set<nat>)
    requires |segments| <= awaited
    ensures BatchInv(StartBatch(segments, awaited), covered)
  {
  }

  lemma ReceiveKeepsInv(b: Batch, covered: set<nat>)
    requires BatchInv(b, covered) && CanReceive(b)
    ensures BatchInv(Receive(b), covered)
  {
    assert Receive(b).Sent() == b.Sent();
    forall i | 0 <= i < |b.workers| ensures WorkerInv(Receive(b), covered, i) {
      assert WorkerInv(b, covered, i);
    }
  }

  /** Blocks stored by anyone only help. */
  lemma CoveringKeepsInv(b: Batch, covered: set<nat>, more: set<nat>)
    requires BatchInv(b, covered)
    ensures BatchInv(b, covered + more)
  {
    forall i | 0 <= i < |b.workers| ensures WorkerInv(b, covered + more, i) {
      assert WorkerInv(b, covered, i);
    }
  }

  lemma StepKeepsInv(b: Batch, covered: set<nat>, mode: Mode, i: nat, ok: bool)
    requires BatchInv(b, covered) && CanStep(b, i)
    ensures BatchInv(StepWorker(b, mode, i, ok), covered + Stored(b.workers[i], ok))
  {
    var b' := StepWorker(b, mode, i, ok);
    var covered' := covered + Stored(b.workers[i], ok);
    assert WorkerInv(b, covered, i);
    if IsSend(b.workers[i].pc) {
      var m := Outgoing(i, b.workers[i]);
      assert b'.Sent() == b.Sent() + [m];
      assert m in b'.Sent();
      assert forall x :: x in b'.Sent() <==> x in b.Sent() || x == m;
      assert !HasSent(b, i, true);
      forall k | 0 <= k < |b.Sent()| && b.Sent()[k].ok ensures b.Sent()[k].from != i {
        assert b.Sent()[k] == Message(b.Sent()[k].from, true);
      }
      assert TrueIsLast(b'.Sent());
    } else {
      assert b'.Sent() == b.Sent();
    }
    forall j | 0 <= j < |b'.workers| ensures WorkerInv(b', covered', j) {
      assert WorkerInv(b, covered, j);
    }
  }

  // Soundness of the collector

  /** Distinct numbers below n are at most n; if they are n, they are all the numbers below n. */
  lemma Pigeonhole(s: seq<nat>, n: nat)
    requires forall k :: 0 <= k < |s| ==> s[k] < n
    requires forall a, b :: 0 <= a < b < |s| ==> s[a] != s[b]
    ensures |s| <= n
    ensures |s| == n ==> forall i: nat :: i < n ==> i in s
  {
    DistinctCount(s);
    SubsetSize(Elements(s), Below(n));
    forall i: nat | i < n && |s| == n ensures i in s {
      assert i in Below(n);
    }
  }

  function Below(n: nat): (r: set<nat>)
    ensures |r| == n
    ensures forall i: nat :: i in r <==> i < n
  {
    if n == 0 then {} else Below(n - 1) + {n - 1}
  }

  lemma {:induction false} DistinctCount(s: seq<nat>)
    requires forall a, b :: 0 <= a < b < |s| ==> s[a] != s[b]
    ensures |Elements(s)| == |s|
  {
    if s == [] {
    } else {
      var n := |s| - 1;
      DistinctCount(s[..n]);
      assert s == s[..n] + [s[n]];
      assert Elements(s) == Elements(s[..n]) + {s[n]};
    }
  }

  function Elements(s: seq<nat>): set<nat> { set x | x in s }

  /** First in, first out: a worker's `false` is received before its `true`. */
  lemma RefusalArrivesFirst(b: Batch, i: nat, k: nat)
    requires TrueIsLast(b.Sent()) && HasSent(b, i, false)
    requires k < |b.received| && b.received[k] == Message(i, true)
    ensures !b.AllOk()
  {
    var sent := b.Sent();
    var a :| 0 <= a < |sent| && sent[a] == Message(i, false);
    assert sent[k] == b.received[k];
    assert a < k;
    assert b.received[a] == sent[a];
  }

  /**
   Soundness of the collector. When the awaited verdicts in channel order are all `true`, they come from
   distinct workers, as many workers started as were planned, and every worker has finished, stored its whole
   segment, and failed no call.
   */
  lemma CollectorSound(b: Batch, covered: set<nat>)
    requires BatchInv(b, covered) && b.Collected() && b.AllOk()
    ensures |b.workers| == b.awaited
    ensures forall i :: 0 <= i < |b.workers| ==>
              b.workers[i].pc == Done && !b.workers[i].failed && Blocks(b.workers[i].segment) <= covered
  {
    var n := |b.workers|;
    var sent := b.Sent();
    var from := seq(b.awaited, k requires 0 <= k < b.awaited => b.received[k].from);
    forall a, c | 0 <= a < c < b.awaited ensures from[a] != from[c] {
      assert sent[a].ok && sent[c] == b.received[c];
    }
    forall k | 0 <= k < b.awaited ensures from[k] < n {
      assert b.received[k] in sent;
    }
    Pigeonhole(from, n);
    forall i | 0 <= i < n
      ensures b.workers[i].pc == Done && !b.workers[i].failed && Blocks(b.workers[i].segment) <= covered
    {
      assert i in from;
      var k :| 0 <= k < n && from[k] == i;
      assert sent[k] == b.received[k] == Message(i, true);
      assert HasSent(b, i, true);
      assert WorkerInv(b, covered, i);
      if HasSent(b, i, false) {
        RefusalArrivesFirst(b, i, k);
      }
    }
  }

  ghost predicate SomeoneFailed(b: Batch) { exists i :: 0 <= i < |b.workers| && b.workers[i].failed }

  /** The verdict of a pass is exact: it is good if and only if no call of any worker has failed. */
  lemma VerdictIsExact(b: Batch, covered: set<nat>)
    requires BatchInv(b, covered) && b.Collected()
    ensures b.AllOk() <==> !SomeoneFailed(b)
  {
    if b.AllOk() {
      CollectorSound(b, covered);
    } else {
      var k :| 0 <= k < |b.received| && !b.received[k].ok;
      var m := b.received[k];
      assert m in b.Sent();
      assert HasSent(b, m.from, false);
      assert WorkerInv(b, covered, m.from);
    }
  }

  // No deadlock

  /** Finished workers have each left a message, so enough messages have been sent. */
  lemma AllDoneSentEnough(b: Batch, covered: set<nat>)
    requires BatchInv(b, covered)
    requires forall i :: 0 <= i < |b.workers| ==> b.workers[i].pc == Done
    ensures |b.Sent()| >= |b.workers|
  {
    var senders := set k | 0 <= k < |b.Sent()| :: b.Sent()[k].from;
    forall i: nat | i < |b.workers| ensures i in senders {
      assert WorkerInv(b, covered, i);
      var ok := HasSent(b, i, true);
      var k :| 0 <= k < |b.Sent()| && b.Sent()[k] == Message(i, ok);
      assert b.Sent()[k].from == i;
    }
    assert Below(|b.workers|) <= senders;
    SubsetSize(Below(|b.workers|), senders);
    SendersAtMost(b.Sent());
  }

  lemma {:induction false} SendersAtMost(sent: seq<Message>)
    ensures |set k | 0 <= k < |sent| :: sent[k].from| <= |sent|
  {
    var senders := set k | 0 <= k < |sent| :: sent[k].from;
    if sent == [] {
      assert senders == {};
    } else {
      var n := |sent| - 1;
      SendersAtMost(sent[..n]);
      var before := set k | 0 <= k < n :: sent[..n][k].from;
      forall x | x in senders ensures x in before + {sent[n].from} {
        var k :| 0 <= k < |sent| && sent[k].from == x;
        if k < n { assert sent[..n][k].from == x; }
      }
      SubsetSize(senders, before + {sent[n].from});
    }
  }

  ghost predicate SomeoneCanStep(b: Batch) { exists i :: CanStep(b, i) }

  /**
   Until the verdicts are collected, the collector can receive or a worker can move, if as many started as
   planned.
   */
  lemma NoDeadlock(b: Batch, covered: set<nat>)
    requires BatchInv(b, covered) && !b.Collected() && |b.workers| == b.awaited
    ensures CanReceive(b) || SomeoneCanStep(b)
  {
    if b.queue == [] {
      if forall i :: 0 <= i < |b.workers| ==> b.workers[i].pc == Done {
        AllDoneSentEnough(b, covered);
        assert false;
      } else {
        var i :| 0 <= i < |b.workers| && b.workers[i].pc != Done;
        assert CanStep(b, i);
      }
    }
  }

  /** Nothing of the pass can happen any more, and its verdicts are not in. */
  ghost predicate Hangs(b: Batch) { !b.Collected() && !CanReceive(b) && !SomeoneCanStep(b) }

  /** With a worker fewer than planned the verdicts come in only if some worker fails, and are then a refusal. */
  lemma ShortBatchNeverSucceeds(b: Batch, covered: set<nat>)
    requires BatchInv(b, covered) && |b.workers| < b.awaited && b.Collected()
    ensures !b.AllOk() && SomeoneFailed(b)
  {
    VerdictIsExact(b, covered);
    if b.AllOk() {
      CollectorSound(b, covered);
    }
  }

  /** A pass hangs only if it started a worker fewer than planned. */
  lemma OnlyShortBatchHangs(b: Batch, covered: set<nat>)
    requires BatchInv(b, covered) && Hangs(b)
    ensures |b.workers| < b.awaited
  {
    if |b.workers| == b.awaited {
      NoDeadlock(b, covered);
    }
  }

  /** Such a pass hangs for ever once its workers are through without a failure. */
  lemma ShortBatchHangs(b: Batch, covered: set<nat>)
    requires BatchInv(b, covered) && |b.workers| < b.awaited && !SomeoneFailed(b) && b.queue == []
    requires forall i :: 0 <= i < |b.workers| ==> b.workers[i].pc == Done
    ensures Hangs(b)
  {
    if b.Collected() {
      ShortBatchNeverSucceeds(b, covered);
    }
  }

  // Termination of a pass

  /** The most steps a worker can still take. */
  function StepsLeft(pc: Pc): nat
  {
    match pc
    case Handling => 9
    case Checking(left) => 4 + 2 * left
    case Refusing(left) => 3 + 2 * left
    case Updating => 2
    case Reporting(_) => 1
    case Done => 0
  }

  function TotalSteps(workers: seq<Worker>): nat
  {
    if workers == [] then 0 else StepsLeft(workers[0].pc) + TotalSteps(workers[1..])
  }

  lemma {:induction false} TotalStepsUpdate(workers: seq<Worker>, i: nat, w: Worker)
    requires i < |workers|
    ensures TotalSteps(workers[i := w]) == TotalSteps(workers) - StepsLeft(workers[i].pc) + StepsLeft(w.pc)
  {
    if i == 0 {
      assert workers[i := w][1..] == workers[1..];
    } else {
      assert workers[i := w][1..] == workers[1..][i - 1 := w];
      TotalStepsUpdate(workers[1..], i - 1, w);
    }
  }

  /** Every step of a worker uses up some of the steps it has left. */
  lemma StepsDecrease(b: Batch, mode: Mode, i: nat, ok: bool)
    requires CanStep(b, i)
    ensures TotalSteps(StepWorker(b, mode, i, ok).workers) < TotalSteps(b.workers)
  {
    TotalStepsUpdate(b.workers, i, Advance(b.workers[i], mode, ok));
  }
}
