/**
 The simplest scanner that would do: it stores one block at a time and moves its cursor one block at a
 time over blocks already stored. Both loops of the real scanner refine it, in every run.
 */
module OneBlockScanner {
  import opened Machine
  import opened Tiling
  import opened Workers
  import opened ScannerRuns

  datatype Simple = Simple(origin: nat, cursor: nat, covered: set<nat>)

  datatype Action =
    | StoreBlock(h: nat)
    | Advance
    | Retreat(target: nat)           // an older cursor is written over a newer one
    | ChooseOrigin(at: nat)      // only while the row holds no height
    | AdoptOrigin

  datatype Outcome = Stuck | At(state: Simple)

  function Act(s: Simple, a: Action): Outcome
  {
    match a
    case StoreBlock(h) => At(s.(covered := s.covered + {h}))
    case Advance => if s.cursor + 1 in s.covered then At(s.(cursor := s.cursor + 1)) else Stuck
    case Retreat(target) => if s.origin <= target <= s.cursor then At(s.(cursor := target)) else Stuck
    case ChooseOrigin(at) => if s.cursor == 0 then At(s.(origin := at)) else Stuck
    case AdoptOrigin => if s.cursor == 0 then At(s.(cursor := s.origin)) else Stuck
  }

  function Perform(s: Simple, actions: seq<Action>): Outcome
    decreases |actions|
  {
    if actions == [] then At(s) else
    match Act(s, actions[0])
    case Stuck => Stuck
    case At(t) => Perform(t, actions[1..])
  }

  /** The simple scanner never leaves a block behind. */
  lemma {:induction false} SimpleScannerCovers(s: Simple, actions: seq<Action>)
    requires Covered(s.covered, s.origin, s.cursor)
    requires Perform(s, actions).At?
    ensures var t := Perform(s, actions).state; Covered(t.covered, t.origin, t.cursor) && s.covered <= t.covered
    decreases |actions|
  {
    if actions == [] {
    } else {
      SimpleScannerCovers(Act(s, actions[0]).state, actions[1..]);
    }
  }

  lemma {:induction false} PerformConcat(s: Simple, first: seq<Action>, second: seq<Action>)
    requires Perform(s, first).At?
    ensures Perform(s, first + second) == Perform(Perform(s, first).state, second)
    decreases |first|
  {
    if first == [] {
      assert first + second == second;
    } else {
      assert (first + second)[1..] == first[1..] + second;
      PerformConcat(Act(s, first[0]).state, first[1..], second);
    }
  }

  /** Actions that store blocks and move the cursor, and choose no origin. */
  predicate Plain(actions: seq<Action>)
  {
    forall i :: 0 <= i < |actions| ==> !actions[i].ChooseOrigin? && !actions[i].AdoptOrigin?
  }

  /** Storing a range one block at a time. */
  lemma {:induction false} StoreRange(s: Simple, lo: nat, hi: nat) returns (actions: seq<Action>)
    ensures Plain(actions)
    ensures Perform(s, actions) == At(s.(covered := s.covered + Blocks(Segment(lo, hi))))
    decreases hi - lo
  {
    if hi < lo {
      actions := [];
      assert Blocks(Segment(lo, hi)) == {};
      assert s.covered + {} == s.covered;
    } else {
      var t := Act(s, StoreBlock(lo)).state;
      var rest := StoreRange(t, lo + 1, hi);
      actions := [StoreBlock(lo)] + rest;
      assert actions[1..] == rest;
      assert Blocks(Segment(lo, hi)) == {lo} + Blocks(Segment(lo + 1, hi));
      assert t.covered + Blocks(Segment(lo + 1, hi)) == s.covered + Blocks(Segment(lo, hi));
    }
  }

  /** Moving the cursor over stored blocks one at a time. */
  lemma {:induction false} AdvanceTo(s: Simple, target: nat) returns (actions: seq<Action>)
    requires s.cursor <= target && Covered(s.covered, s.cursor, target)
    ensures Plain(actions)
    ensures Perform(s, actions) == At(s.(cursor := target))
    decreases target - s.cursor
  {
    if s.cursor == target {
      actions := [];
    } else {
      assert s.cursor + 1 in s.covered;
      var rest := AdvanceTo(s.(cursor := s.cursor + 1), target);
      actions := [Advance] + rest;
      assert actions[1..] == rest;
    }
  }

  function Abstract(s: State): Simple { Simple(s.origin, s.persisted, s.covered) }

  /** The height in the row and the scanner's own are never below the origin, once there is one. */
  ghost predicate Ordered(s: State)
  {
    && (s.persisted == 0 || s.origin <= s.persisted)
    && match s.phase {
         case Down => true
         case Idle(cursor) => s.origin <= cursor
         case Collecting(_, cursor, next, batch) =>
           s.origin <= cursor && (|batch.workers| == batch.awaited ==> cursor < next)
       }
  }

  lemma OrderedIsKept(s: State, e: Event)
    requires Inv(s) && Ordered(s) && Enabled(s, e)
    ensures Ordered(Next(s, e))
  {
    if e.Finish? {
      PassCovers(s);
    } else if e.Begin? {
      BeginTiles(e.mode, e.cfg, s.phase.cursor, e.height);
    }
  }

  lemma WriteIsSimple(s: State, write: Write) returns (actions: seq<Action>)
    requires Inv(s) && Ordered(s) && Enabled(s, Finish(write))
    ensures s.persisted != 0 ==> Plain(actions)
    ensures Perform(Abstract(s), actions) == At(Abstract(Next(s, Finish(write))))
  {
    PassCovers(s);
    var a := Abstract(s);
    if write.FailedBefore? {
      actions := [];
    } else if s.persisted == 0 {
      var rest := AdvanceTo(a.(cursor := s.origin), s.phase.next);
      actions := [AdoptOrigin] + rest;
      assert actions[1..] == rest;
    } else if s.persisted <= s.phase.next {
      actions := AdvanceTo(a, s.phase.next);
    } else {
      actions := [Retreat(s.phase.next)];
      assert actions[1..] == [];
    }
  }

  lemma StoringIsSimple(s: Simple, w: Worker, ok: bool) returns (actions: seq<Action>)
    ensures Plain(actions)
    ensures Perform(s, actions) == At(s.(covered := s.covered + Stored(w, ok)))
  {
    if w.pc.Updating? && ok {
      actions := StoreRange(s, w.segment.lo, w.segment.hi);
      assert Segment(w.segment.lo, w.segment.hi) == w.segment;
    } else {
      actions := [];
      assert s.covered + {} == s.covered;
    }
  }

  lemma StartIsSimple(s: State, tip: uint64, write: Write) returns (actions: seq<Action>)
    requires Enabled(s, Start(tip, write))
    ensures s.persisted != 0 ==> Plain(actions) && Next(s, Start(tip, write)).persisted != 0
    ensures Perform(Abstract(s), actions) == At(Abstract(Next(s, Start(tip, write))))
  {
    if s.persisted != 0 {
      actions := [];
    } else if write.FailedBefore? {
      actions := [ChooseOrigin(tip)];
      assert actions[1..] == [];
    } else {
      actions := [ChooseOrigin(tip), AdoptOrigin];
      assert actions[1..] == [AdoptOrigin] && [AdoptOrigin][1..] == [];
      var chosen := Act(Abstract(s), ChooseOrigin(tip)).state;
      assert Perform(chosen, [AdoptOrigin]) == Act(chosen, AdoptOrigin);
    }
  }

  /** Every event of the real scanner is some actions of the simple one. */
  lemma EventIsSimple(s: State, e: Event) returns (actions: seq<Action>)
    requires Inv(s) && Ordered(s) && Enabled(s, e)
    ensures s.persisted != 0 ==> Plain(actions) && Next(s, e).persisted != 0
    ensures Perform(Abstract(s), actions) == At(Abstract(Next(s, e)))
  {
    match e {
      case Start(tip, write) => actions := StartIsSimple(s, tip, write);
      case WorkerStep(i, ok) => actions := StoringIsSimple(Abstract(s), s.phase.batch.workers[i], ok);
      case StaleStep(p, i, ok) => actions := StoringIsSimple(Abstract(s), s.stale[p].1.workers[i], ok);
      case Finish(write) =>
        PassCovers(s);
        actions := WriteIsSimple(s, write);
      case _ => actions := [];
    }
  }

  /**
   Every run of the real scanner, by ranges or by blocks, is a run of the one-block scanner; from a row that
   holds a height it only stores blocks and moves the cursor.
   */
  lemma {:induction false} RunIsSimple(states: seq<State>, events: seq<Event>, k: nat) returns (actions: seq<Action>)
    requires IsRun(states, events) && Inv(states[0]) && Ordered(states[0]) && k < |states|
    ensures Perform(Abstract(states[0]), actions) == At(Abstract(states[k]))
    ensures Inv(states[k]) && Ordered(states[k])
    ensures states[0].persisted != 0 ==> Plain(actions) && states[k].persisted != 0
  {
    if k == 0 {
      actions := [];
    } else {
      var before := RunIsSimple(states, events, k - 1);
      var last := EventIsSimple(states[k - 1], events[k - 1]);
      NextKeepsInv(states[k - 1], events[k - 1]);
      OrderedIsKept(states[k - 1], events[k - 1]);
      PerformConcat(Abstract(states[0]), before, last);
      actions := before + last;
    }
  }

  /**
   A run from its first start, when the first height is in the row: one run of the one-block scanner that
   starts at that height and never chooses again, whatever crashes and restarts lie in between.
   */
  lemma RunFromFirstStart(states: seq<State>, events: seq<Event>, persisted: uint64, tip: uint64, write: Write, k: nat)
    returns (actions: seq<Action>)
    requires StartsOn(states, events, persisted, tip, write) && 1 <= k < |states|
    requires persisted != 0 || !write.FailedBefore?
    ensures
      var first := FirstHeight(persisted, tip);
      Plain(actions) && Perform(Simple(first, first, {}), actions) == At(Abstract(states[k]))
  {
    var tail, later := states[1..], events[1..];
    assert states[1] == Next(states[0], events[0]);
    forall i | 0 <= i < |later| ensures Enabled(tail[i], later[i]) && tail[i + 1] == Next(tail[i], later[i]) {
      assert later[i] == events[i + 1];
    }
    NextKeepsInv(states[0], events[0]);
    OrderedIsKept(states[0], events[0]);
    actions := RunIsSimple(tail, later, k - 1);
  }
}
