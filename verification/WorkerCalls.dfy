/**
 What the calls of the workers answer, and what follows from the answers alone: the messages of each worker, and
 the verdict of the pass.
 */
module WorkerCalls {
  import opened Tiling
  import opened Workers

  /** The answer of the call that the worker of a segment makes at a position: true when it succeeds. */
  type Answers = (Segment, Pc) -> bool

  /** Reading the blocks, one check after the other, and storing the events all succeed. */
  ghost predicate AllCalls(answers: Answers, s: Segment, mode: Mode)
  {
    && answers(s, Handling)
    && (forall left :: 1 <= left <= ChecksIn(mode) ==> answers(s, Checking(left)))
    && answers(s, Updating)
  }

  /** The calls that lie behind a worker without a failure have succeeded. */
  ghost predicate CallsSoFar(answers: Answers, s: Segment, mode: Mode, pc: Pc)
  {
    match pc
    case Handling => true
    case Checking(left) =>
      && answers(s, Handling) && 1 <= left <= ChecksIn(mode)
      && forall k :: left < k <= ChecksIn(mode) ==> answers(s, Checking(k))
    case Updating => answers(s, Handling) && forall k :: 1 <= k <= ChecksIn(mode) ==> answers(s, Checking(k))
    case Reporting(verdict) => verdict && AllCalls(answers, s, mode)
    case Refusing(_) => false
    case Done => AllCalls(answers, s, mode)
  }

  /** A worker that is going on has no more checks before it than there are. */
  ghost predicate LeftFits(mode: Mode, pc: Pc)
  {
    match pc
    case Checking(left) => 1 <= left <= ChecksIn(mode)
    case Refusing(left) => 1 <= left <= ChecksIn(mode)
    case _ => true
  }

  ghost predicate WorkerAnswers(w: Worker, answers: Answers, mode: Mode)
  {
    && LeftFits(mode, w.pc)
    && (if w.failed then !AllCalls(answers, w.segment, mode) else CallsSoFar(answers, w.segment, mode, w.pc))
  }

  ghost predicate AnswersInv(b: Batch, answers: Answers, mode: Mode)
  {
    forall i :: 0 <= i < |b.workers| ==> WorkerAnswers(b.workers[i], answers, mode)
  }

  lemma AdvanceKeepsAnswers(w: Worker, mode: Mode, ok: bool, answers: Answers)
    requires w.pc != Done && WorkerAnswers(w, answers, mode)
    requires IsSend(w.pc) || ok == answers(w.segment, w.pc)
    ensures WorkerAnswers(Advance(w, mode, ok), answers, mode)
  {
  }

  lemma StepKeepsAnswers(b: Batch, mode: Mode, i: nat, ok: bool, answers: Answers)
    requires CanStep(b, i) && AnswersInv(b, answers, mode)
    requires IsSend(b.workers[i].pc) || ok == answers(b.workers[i].segment, b.workers[i].pc)
    ensures AnswersInv(StepWorker(b, mode, i, ok), answers, mode)
  {
    AdvanceKeepsAnswers(b.workers[i], mode, ok, answers);
  }

  /** The verdict of a pass in which every planned worker started, by the answers alone. */
  lemma VerdictOfAnswers(b: Batch, covered: set<nat>, mode: Mode, answers: Answers)
    requires BatchInv(b, covered) && AnswersInv(b, answers, mode) && b.Collected()
    ensures b.AllOk() <==>
              |b.workers| == b.awaited
              && forall i :: 0 <= i < |b.workers| ==> AllCalls(answers, b.workers[i].segment, mode)
  {
    VerdictIsExact(b, covered);
    if b.AllOk() {
      CollectorSound(b, covered);
      forall i | 0 <= i < |b.workers| ensures AllCalls(answers, b.workers[i].segment, mode) {
        assert WorkerAnswers(b.workers[i], answers, mode);
      }
    } else {
      var i :| 0 <= i < |b.workers| && b.workers[i].failed;
      assert WorkerAnswers(b.workers[i], answers, mode);
    }
  }

  // The life of one worker

  /** The messages a worker sends from where it is until it is done. */
  function Messages(w: Worker, mode: Mode, answers: Answers): seq<bool>
    decreases StepsLeft(w.pc)
  {
    if w.pc == Done then [] else
    var next := Advance(w, mode, answers(w.segment, w.pc));
    (if IsSend(w.pc) then [w.pc.Reporting? && w.pc.verdict] else []) + Messages(next, mode, answers)
  }

  function Refusal(ok: bool): seq<bool> { if ok then [] else [false] }

  /**
   A worker whose blocks cannot be read sends one refusal. One that scans a range makes one check, one that
   scans a block makes two; each failed check is a refusal, and the events are stored and reported all the same.
   */
  lemma WorkerSends(s: Segment, mode: Mode, answers: Answers)
    ensures Messages(Worker(s, Handling, false), mode, answers) ==
            if !answers(s, Handling) then [false]
            else if mode.ByRange? then Refusal(answers(s, Checking(1))) + [answers(s, Updating)]
            else Refusal(answers(s, Checking(2))) + Refusal(answers(s, Checking(1))) + [answers(s, Updating)]
  {
    if answers(s, Handling) {
      if mode.ByBlock? {
        SendsFromCheck(s, mode, answers, 2, false);
        SendsFromCheck(s, mode, answers, 1, !answers(s, Checking(2)));
      } else {
        SendsFromCheck(s, mode, answers, 1, false);
      }
    } else {
      assert Messages(Worker(s, Reporting(false), true), mode, answers) == [false];
    }
  }

  lemma SendsFromCheck(s: Segment, mode: Mode, answers: Answers, left: nat, failed: bool)
    requires left == 1 || left == 2
    ensures
      var ok := answers(s, Checking(left));
      Messages(Worker(s, Checking(left), failed), mode, answers)
      == Refusal(ok) + if left == 1 then [answers(s, Updating)]
                       else Messages(Worker(s, Checking(1), failed || !ok), mode, answers)
  {
    var ok := answers(s, Checking(left));
    SendsFromUpdate(s, mode, answers, failed || !ok);
    if !ok {
      var refusing := Worker(s, Refusing(left), true);
      assert Messages(refusing, mode, answers)
          == [false] + Messages(Advance(refusing, mode, answers(s, Refusing(left))), mode, answers);
    }
  }

  lemma SendsFromUpdate(s: Segment, mode: Mode, answers: Answers, failed: bool)
    ensures Messages(Worker(s, Updating, failed), mode, answers) == [answers(s, Updating)]
  {
    var reporting := Advance(Worker(s, Updating, failed), mode, answers(s, Updating));
    assert Messages(Worker(s, Done, reporting.failed), mode, answers) == [];
    assert Messages(reporting, mode, answers) == [answers(s, Updating)];
  }
}
