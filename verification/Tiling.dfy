/**
 How one pass of the scanner cuts the blocks between its cursor and the confirmed tip into
 segments, in the machine arithmetic of the program.
 */
module Tiling {
  import opened Machine

  datatype Segment = Segment(lo: nat, hi: nat)

  /** The listener's settings for one chain; zero sizes and lengths are read as one. */
  datatype Config = Config(confirmations: uint64, batchSize: uint64, minLength: uint64, maxLength: uint64)

  /** EVM chains are scanned by ranges of blocks, the others block by block. */
  datatype Mode = ByRange | ByBlock

  datatype Plan = Stop | Go(length: uint64, workers: uint64)

  function OrOne(x: uint64): uint64 { if x == 0 then 1 else x }

  /** The tip minus the confirmations, as the program computes it. */
  function ConfirmedTip(cfg: Config, height: uint64): uint64 { Sub(height, cfg.confirmations) }

  function PlanRange(cfg: Config, cursor: uint64, height: uint64): Plan
  {
    var batch := OrOne(cfg.batchSize);
    var minLength := OrOne(cfg.minLength);
    if Sub(Sub(height, cfg.confirmations), cursor) < minLength then Stop else
    var maxLength := OrOne(cfg.maxLength);
    var gap := Sub(Sub(height, cursor), cfg.confirmations);
    var length := if gap > maxLength then maxLength else gap;
    SubCommutes(height, cfg.confirmations, cursor);
    var needed := Add(Sub(gap, 1) / length, 1);
    Go(length, if batch > needed then needed else batch)
  }

  function PlanBlocks(cfg: Config, cursor: uint64, height: uint64): Plan
  {
    var batch := OrOne(cfg.batchSize);
    var gap := Sub(Sub(height, cursor), cfg.confirmations);
    Go(1, if batch > gap then gap else batch)
  }

  function MakePlan(mode: Mode, cfg: Config, cursor: uint64, height: uint64): Plan
  {
    match mode
    case ByRange => PlanRange(cfg, cursor, height)
    case ByBlock => PlanBlocks(cfg, cursor, height)
  }

  function SegmentStart(mode: Mode, cursor: uint64, length: uint64, i: uint64): uint64
  {
    match mode
    case ByRange => Add(Add(cursor, Mul(Sub(i, 1), length)), 1)
    case ByBlock => Add(cursor, i)
  }

  function SegmentEnd(mode: Mode, tip: uint64, cursor: uint64, length: uint64, i: uint64): uint64
  {
    match mode
    case ByRange =>
      var end := Add(cursor, Mul(i, length));
      if end > tip then tip else end
    case ByBlock => Add(cursor, i)
  }

  /** The height stored after a pass in which every worker reported success. */
  function NextCursor(mode: Mode, tip: uint64, cursor: uint64, plan: Plan): uint64
    requires plan.Go?
  {
    match mode
    case ByRange =>
      var end := Add(cursor, Mul(plan.workers, plan.length));
      if end > tip then tip else end
    case ByBlock => Add(cursor, plan.workers)
  }

  /** A nonempty list of nonempty, adjacent segments from `lo` through `hi`. */
  ghost predicate Tiles(segments: seq<Segment>, lo: nat, hi: nat)
  {
    && segments != []
    && segments[0].lo == lo
    && segments[|segments| - 1].hi == hi
    && (forall i :: 0 <= i < |segments| ==> segments[i].lo <= segments[i].hi)
    && (forall i {:trigger segments[i].hi} :: 0 <= i < |segments| - 1 ==> segments[i + 1].lo == segments[i].hi + 1)
  }

  /** What brings the scanner into the loop: its cursor is below the confirmed tip, as the program computes it. */
  predicate Behind(cfg: Config, cursor: uint64, height: uint64) { cursor < ConfirmedTip(cfg, height) }

  /** Computed from a tip, the gap is the number of blocks between the cursor and it, even if the tip wrapped. */
  lemma GapIsToTip(cfg: Config, cursor: uint64, height: uint64)
    requires Behind(cfg, cursor, height)
    ensures Sub(Sub(height, cursor), cfg.confirmations) == ConfirmedTip(cfg, height) - cursor
    ensures Sub(Sub(height, cfg.confirmations), cursor) == ConfirmedTip(cfg, height) - cursor
  {
    SubCommutes(height, cursor, cfg.confirmations);
    SubAsDifference(ConfirmedTip(cfg, height), cursor);
  }

  /** With a tip of at least the confirmations no subtraction wraps: the gap is the number of confirmed blocks. */
  lemma GapIsExact(cfg: Config, cursor: uint64, height: uint64)
    requires Behind(cfg, cursor, height) && cfg.confirmations <= height
    ensures ConfirmedTip(cfg, height) == height - cfg.confirmations
    ensures Sub(Sub(height, cursor), cfg.confirmations) == height - cfg.confirmations - cursor
    ensures Sub(Sub(height, cfg.confirmations), cursor) == height - cfg.confirmations - cursor
  {
    GapIsToTip(cfg, cursor, height);
    SubAsDifference(height, cfg.confirmations);
  }

  /** The confirmed tip is the true difference exactly when the tip is at least the confirmations. */
  lemma TipExactIff(cfg: Config, height: uint64)
    ensures ConfirmedTip(cfg, height) == height - cfg.confirmations <==> cfg.confirmations <= height
  {
    SubAsDifference(height, cfg.confirmations);
  }

  /** A tip below the confirmations wraps, and the scanner plans work far above the chain. */
  lemma ShortChainScansPastTip()
    ensures
      var cfg := Config(10, 1, 1, 5);
      ConfirmedTip(cfg, 4) == TWO_64 - 6 && PlanRange(cfg, 4, 4) == Go(5, 1)
  {
  }

  /** A planned pass in true numbers: the last segment starts inside the gap. */
  ghost predicate PlannedFor(mode: Mode, gap: nat, plan: Plan)
  {
    && plan.Go?
    && 1 <= plan.length <= gap
    && 1 <= plan.workers
    && (plan.workers - 1) * plan.length <= gap - 1
    && (mode.ByBlock? ==> plan.length == 1)
  }

  /** The clamp on the number of workers is what keeps the last segment inside the gap. */
  lemma PlanIsBounded(mode: Mode, cfg: Config, cursor: uint64, height: uint64)
    requires Behind(cfg, cursor, height)
    requires MakePlan(mode, cfg, cursor, height).Go?
    ensures PlannedFor(mode, ConfirmedTip(cfg, height) - cursor, MakePlan(mode, cfg, cursor, height))
  {
    GapIsToTip(cfg, cursor, height);
    var gap := ConfirmedTip(cfg, height) - cursor;
    var plan := MakePlan(mode, cfg, cursor, height);
    if mode.ByRange? {
      QuotientTimes(gap - 1, plan.length);
      MulMonotone(plan.workers - 1, (gap - 1) / plan.length, plan.length);
    }
  }

  /** The end of the last segment, before it is cut at the tip, does not wrap. */
  predicate LastEndFits(cursor: uint64, plan: Plan)
    requires plan.Go?
  {
    cursor + plan.workers * plan.length < TWO_64
  }

  lemma ProductBounds(gap: nat, length: nat, workers: nat, i: nat)
    requires 1 <= i <= workers && (workers - 1) * length <= gap - 1
    ensures 0 <= (i - 1) * length <= gap - 1
    ensures i < workers ==> i * length <= gap - 1
    ensures i * length == (i - 1) * length + length
  {
    MulMonotone(i - 1, workers - 1, length);
    if i < workers {
      MulMonotone(i, workers - 1, length);
    }
    Distribute(i - 1, 1, length);
  }

  /** Below 2^63 the last end always fits, and so it does when the scan goes block by block. */
  lemma LowTipFits(mode: Mode, cursor: uint64, tip: uint64, plan: Plan)
    requires cursor < tip && PlannedFor(mode, tip - cursor, plan)
    ensures tip < TWO_63 || mode.ByBlock? ==> LastEndFits(cursor, plan)
  {
    ProductBounds(tip - cursor, plan.length, plan.workers, plan.workers);
  }

  /** Start and end of a segment as true numbers, given that its end does not wrap. */
  lemma EndsAreExact(mode: Mode, cursor: uint64, tip: uint64, length: uint64, i: uint64)
    requires cursor < tip && 1 <= i && (mode.ByBlock? ==> length == 1)
    requires 0 <= (i - 1) * length < tip - cursor && i * length == (i - 1) * length + length
    ensures SegmentStart(mode, cursor, length, i) == cursor + (i - 1) * length + 1
    ensures cursor + i * length < TWO_64 ==>
              SegmentEnd(mode, tip, cursor, length, i) == if cursor + i * length > tip then tip else cursor + i * length
    ensures TWO_64 <= cursor + i * length && mode.ByRange? ==>
              SegmentEnd(mode, tip, cursor, length, i) < SegmentStart(mode, cursor, length, i)
  {
    StartAsNumber(cursor, (i - 1) * length);
    EndAsNumber(cursor, (i - 1) * length, length);
  }

  lemma StartAsNumber(cursor: uint64, before: nat)
    requires cursor + before + 1 < TWO_64
    ensures Add(Add(cursor, Wrap(before)), 1) == cursor + before + 1
  {
  }

  /** One segment further, the sum is right or wraps below where the segment started. */
  lemma EndAsNumber(cursor: uint64, before: nat, length: uint64)
    requires cursor + before < TWO_64
    ensures cursor + before + length < TWO_64 ==> Add(cursor, Wrap(before + length)) == cursor + before + length
    ensures TWO_64 <= cursor + before + length ==> Add(cursor, Wrap(before + length)) <= cursor + before
  {
    if before + length < TWO_64 {
      assert Wrap(before + length) == before + length;
    } else {
      assert Wrap(before + length) == Wrap(before + length - TWO_64) == before + length - TWO_64;
    }
    assert TWO_64 <= cursor + before + length ==>
        Wrap(cursor + before + length) == Wrap(cursor + before + length - TWO_64) == cursor + before + length - TWO_64;
  }

  /**
   Every segment but the last is exact, nonempty and below the tip. The last one is exact, nonempty and may be
   cut at the tip if its end does not wrap; otherwise it ends before it starts.
   */
  lemma SegmentIsExact(mode: Mode, cursor: uint64, tip: uint64, plan: Plan, i: uint64)
    requires cursor < tip && PlannedFor(mode, tip - cursor, plan)
    requires 1 <= i <= plan.workers
    ensures SegmentStart(mode, cursor, plan.length, i) == cursor + (i - 1) * plan.length + 1 <= tip
    ensures i < plan.workers ==> cursor + i * plan.length < tip
    ensures i < plan.workers || LastEndFits(cursor, plan) ==>
      && SegmentEnd(mode, tip, cursor, plan.length, i)
           == (if cursor + i * plan.length > tip then tip else cursor + i * plan.length)
      && cursor < SegmentStart(mode, cursor, plan.length, i) <= SegmentEnd(mode, tip, cursor, plan.length, i) <= tip
    ensures i == plan.workers && !LastEndFits(cursor, plan) ==>
              SegmentEnd(mode, tip, cursor, plan.length, i) < SegmentStart(mode, cursor, plan.length, i)
  {
    ProductBounds(tip - cursor, plan.length, plan.workers, i);
    LowTipFits(mode, cursor, tip, plan);
    EndsAreExact(mode, cursor, tip, plan.length, i);
  }

  /** The height stored is the end of the last segment. */
  lemma NextIsLastEnd(mode: Mode, cursor: uint64, tip: uint64, plan: Plan)
    requires plan.Go?
    ensures NextCursor(mode, tip, cursor, plan) == SegmentEnd(mode, tip, cursor, plan.length, plan.workers)
  {
  }

  /** The cursor stored after a pass, and the progress it makes. */
  lemma NextCursorIsExact(mode: Mode, cursor: uint64, tip: uint64, plan: Plan)
    requires cursor < tip && PlannedFor(mode, tip - cursor, plan) && LastEndFits(cursor, plan)
    ensures NextCursor(mode, tip, cursor, plan) == SegmentEnd(mode, tip, cursor, plan.length, plan.workers)
    ensures cursor < NextCursor(mode, tip, cursor, plan) <= tip
  {
    NextIsLastEnd(mode, cursor, tip, plan);
    SegmentIsExact(mode, cursor, tip, plan, plan.workers);
  }

  // The segments of a pass

  /** The segments a loop starts, skipping any that ends before it starts. */
  function Started(cut: uint64 -> Segment, n: uint64): seq<Segment>
  {
    if n == 0 then [] else
    var before := Started(cut, n - 1);
    if cut(n).hi < cut(n).lo then before else before + [cut(n)]
  }

  function Cut(mode: Mode, tip: uint64, cursor: uint64, length: uint64): uint64 -> Segment
  {
    (i: uint64) => Segment(SegmentStart(mode, cursor, length, i), SegmentEnd(mode, tip, cursor, length, i))
  }

  /** The segments the loop over `i` starts. */
  function Segments(mode: Mode, tip: uint64, cursor: uint64, length: uint64, n: uint64): seq<Segment>
  {
    Started(Cut(mode, tip, cursor, length), n)
  }

  lemma TilesExtend(segments: seq<Segment>, lo: nat, hi: nat, s: Segment)
    requires Tiles(segments, lo, hi) && s.lo == hi + 1 && s.lo <= s.hi
    ensures Tiles(segments + [s], lo, s.hi)
  {
    var longer := segments + [s];
    forall i | 0 <= i < |longer| - 1 ensures longer[i + 1].lo == longer[i].hi + 1 {
      assert longer[i] == segments[i];
      if i < |segments| - 1 {
        assert segments[i + 1].lo == segments[i].hi + 1;
      }
    }
  }

  /** The first n cuts are nonempty and meet, from `lo` on. */
  ghost predicate Meet(cut: uint64 -> Segment, n: uint64, lo: nat)
  {
    forall i: uint64 :: 1 <= i <= n ==> cut(i).lo <= cut(i).hi && cut(i).lo == if i == 1 then lo else cut(i - 1).hi + 1
  }

  lemma {:induction false} StartedTile(cut: uint64 -> Segment, n: uint64, lo: nat)
    requires 1 <= n && Meet(cut, n, lo)
    ensures |Started(cut, n)| == n && Tiles(Started(cut, n), lo, cut(n).hi)
  {
    if n == 1 {
      assert Started(cut, 0) == [];
    } else {
      StartedTile(cut, n - 1, lo);
      TilesExtend(Started(cut, n - 1), lo, cut(n - 1).hi, cut(n));
    }
  }

  /** Where consecutive segments meet, and where the first one starts. */
  lemma SegmentsMeet(mode: Mode, cursor: uint64, tip: uint64, plan: Plan, i: uint64)
    requires cursor < tip && PlannedFor(mode, tip - cursor, plan)
    requires 1 <= i <= plan.workers && (i < plan.workers || LastEndFits(cursor, plan))
    ensures
      var cut := Cut(mode, tip, cursor, plan.length);
      cut(i).lo <= cut(i).hi && cut(i).lo == if i == 1 then cursor + 1 else cut(i - 1).hi + 1
  {
    SegmentIsExact(mode, cursor, tip, plan, i);
    if i > 1 {
      SegmentIsExact(mode, cursor, tip, plan, i - 1);
    }
  }

  lemma SegmentsTile(mode: Mode, cursor: uint64, tip: uint64, plan: Plan, n: uint64)
    requires cursor < tip && PlannedFor(mode, tip - cursor, plan)
    requires 1 <= n <= plan.workers && (n < plan.workers || LastEndFits(cursor, plan))
    ensures |Segments(mode, tip, cursor, plan.length, n)| == n
    ensures Tiles(Segments(mode, tip, cursor, plan.length, n), cursor + 1,
                  SegmentEnd(mode, tip, cursor, plan.length, n))
  {
    CutsMeet(mode, cursor, tip, plan, n);
    StartedTile(Cut(mode, tip, cursor, plan.length), n, cursor + 1);
  }

  lemma CutsMeet(mode: Mode, cursor: uint64, tip: uint64, plan: Plan, n: uint64)
    requires cursor < tip && PlannedFor(mode, tip - cursor, plan)
    requires 1 <= n <= plan.workers && (n < plan.workers || LastEndFits(cursor, plan))
    ensures Meet(Cut(mode, tip, cursor, plan.length), n, cursor + 1)
  {
    var cut := Cut(mode, tip, cursor, plan.length);
    forall i: uint64 | 1 <= i <= n
      ensures cut(i).lo <= cut(i).hi && cut(i).lo == if i == 1 then cursor + 1 else cut(i - 1).hi + 1
    {
      SegmentsMeet(mode, cursor, tip, plan, i);
    }
  }

  lemma StartedSkips(cut: uint64 -> Segment, n: uint64)
    requires 1 <= n && cut(n).hi < cut(n).lo
    ensures Started(cut, n) == Started(cut, n - 1)
  {
  }

  lemma LoneWorkerFits(cursor: uint64, tip: uint64, length: uint64)
    requires length <= tip - cursor
    ensures LastEndFits(cursor, Go(length, 1))
  {
  }

  /** When the last end wraps, its segment is skipped, and one segment fewer starts than verdicts are awaited. */
  lemma LastIsSkipped(mode: Mode, cursor: uint64, tip: uint64, plan: Plan)
    requires cursor < tip && PlannedFor(mode, tip - cursor, plan) && !LastEndFits(cursor, plan)
    ensures plan.workers >= 2
    ensures |Segments(mode, tip, cursor, plan.length, plan.workers)| == plan.workers - 1
  {
    LoneWorkerFits(cursor, tip, plan.length);
    LastCutIsEmpty(mode, cursor, tip, plan);
    StartedSkips(Cut(mode, tip, cursor, plan.length), plan.workers);
    SegmentsTile(mode, cursor, tip, plan, plan.workers - 1);
  }

  lemma LastCutIsEmpty(mode: Mode, cursor: uint64, tip: uint64, plan: Plan)
    requires cursor < tip && PlannedFor(mode, tip - cursor, plan) && !LastEndFits(cursor, plan)
    ensures var last := Cut(mode, tip, cursor, plan.length)(plan.workers); last.hi < last.lo
  {
    SegmentIsExact(mode, cursor, tip, plan, plan.workers);
  }

  /**
   Exact tiling, for every tip on which a pass is planned. As many segments start as there are verdicts to
   collect if and only if the end of the last one does not wrap; then they are nonempty, adjacent, and run from
   the block after the cursor to the height stored afterwards, which is above the cursor and not above the
   confirmed tip. Otherwise exactly the last one is skipped.
   */
  lemma ExactTiling(mode: Mode, cfg: Config, cursor: uint64, height: uint64)
    requires Behind(cfg, cursor, height) && MakePlan(mode, cfg, cursor, height).Go?
    ensures
      var plan := MakePlan(mode, cfg, cursor, height);
      var tip := ConfirmedTip(cfg, height);
      var segments := Segments(mode, tip, cursor, plan.length, plan.workers);
      var next := NextCursor(mode, tip, cursor, plan);
      && (|segments| == plan.workers <==> LastEndFits(cursor, plan))
      && (LastEndFits(cursor, plan) ==> Tiles(segments, cursor + 1, next) && cursor < next <= tip)
      && (!LastEndFits(cursor, plan) ==> |segments| == plan.workers - 1)
  {
    var plan := MakePlan(mode, cfg, cursor, height);
    var tip := ConfirmedTip(cfg, height);
    PlanIsBounded(mode, cfg, cursor, height);
    if LastEndFits(cursor, plan) {
      NextCursorIsExact(mode, cursor, tip, plan);
      SegmentsTile(mode, cursor, tip, plan, plan.workers);
    } else {
      LastIsSkipped(mode, cursor, tip, plan);
    }
  }

  /** Which tips are safe whatever the settings: below 2^63, not wrapped ones among them, nothing is skipped. */
  lemma LowTipsTile(mode: Mode, cfg: Config, cursor: uint64, height: uint64)
    requires Behind(cfg, cursor, height) && MakePlan(mode, cfg, cursor, height).Go?
    ensures ConfirmedTip(cfg, height) < TWO_63 || mode.ByBlock? ==>
              LastEndFits(cursor, MakePlan(mode, cfg, cursor, height))
  {
    PlanIsBounded(mode, cfg, cursor, height);
    LowTipFits(mode, cursor, ConfirmedTip(cfg, height), MakePlan(mode, cfg, cursor, height));
  }

  /** A pass that can complete stays at or below the true confirmed height exactly when the tip did not wrap. */
  lemma StaysConfirmedIff(mode: Mode, cfg: Config, cursor: uint64, height: uint64)
    requires Behind(cfg, cursor, height) && MakePlan(mode, cfg, cursor, height).Go?
    requires LastEndFits(cursor, MakePlan(mode, cfg, cursor, height))
    ensures NextCursor(mode, ConfirmedTip(cfg, height), cursor, MakePlan(mode, cfg, cursor, height))
              <= height - cfg.confirmations
       <==> cfg.confirmations <= height
  {
    ExactTiling(mode, cfg, cursor, height);
    TipExactIff(cfg, height);
  }

  /** A short chain and long ranges: two verdicts are awaited, and one worker starts. */
  lemma ShortChainSkipsSegment()
    ensures
      var cfg := Config(10, 2, 1, TWO_63);
      var tip := ConfirmedTip(cfg, 4);
      && PlanRange(cfg, 4, 4) == Go(TWO_63, 2)
      && |Segments(ByRange, tip, 4, TWO_63, 2)| == 1
  {
    var cfg := Config(10, 2, 1, TWO_63);
    assert MakePlan(ByRange, cfg, 4, 4) == Go(TWO_63, 2);
    ExactTiling(ByRange, cfg, 4, 4);
  }

  /**
   A pass that completes does as much as the settings allow: as many workers as configured, ranges as long as
   configured, or all that is left. Sizes and lengths of zero count as one.
   */
  lemma PassIsMaximal(mode: Mode, cfg: Config, cursor: uint64, height: uint64)
    requires Behind(cfg, cursor, height) && MakePlan(mode, cfg, cursor, height).Go?
    requires LastEndFits(cursor, MakePlan(mode, cfg, cursor, height))
    ensures
      var batch := if cfg.batchSize == 0 then 1 else cfg.batchSize;
      var length := if mode.ByBlock? || cfg.maxLength == 0 then 1 else cfg.maxLength;
      var tip := ConfirmedTip(cfg, height);
      NextCursor(mode, tip, cursor, MakePlan(mode, cfg, cursor, height))
        == if cursor + batch * length > tip then tip else cursor + batch * length
  {
    var plan, tip := MakePlan(mode, cfg, cursor, height), ConfirmedTip(cfg, height);
    var gap := tip - cursor;
    var batch := if cfg.batchSize == 0 then 1 else cfg.batchSize;
    var length := if mode.ByBlock? || cfg.maxLength == 0 then 1 else cfg.maxLength;
    var most := if batch * length > gap then gap else batch * length;
    PlanIsMaximal(mode, cfg, cursor, height);
    StoredEnd(mode, cfg, cursor, height);
    assert NextCursor(mode, tip, cursor, plan) == cursor + most;
  }

  /** The height stored by a pass that completes, from its workers and length. */
  lemma StoredEnd(mode: Mode, cfg: Config, cursor: uint64, height: uint64)
    requires Behind(cfg, cursor, height) && MakePlan(mode, cfg, cursor, height).Go?
    requires LastEndFits(cursor, MakePlan(mode, cfg, cursor, height))
    ensures
      var plan, tip := MakePlan(mode, cfg, cursor, height), ConfirmedTip(cfg, height);
      NextCursor(mode, tip, cursor, plan)
        == if plan.workers * plan.length > tip - cursor then tip else cursor + plan.workers * plan.length
  {
    var plan, tip := MakePlan(mode, cfg, cursor, height), ConfirmedTip(cfg, height);
    PlanIsBounded(mode, cfg, cursor, height);
    NextCursorIsExact(mode, cursor, tip, plan);
    SegmentIsExact(mode, cursor, tip, plan, plan.workers);
  }

  lemma PlanIsMaximal(mode: Mode, cfg: Config, cursor: uint64, height: uint64)
    requires Behind(cfg, cursor, height) && MakePlan(mode, cfg, cursor, height).Go?
    ensures
      var batch := if cfg.batchSize == 0 then 1 else cfg.batchSize;
      var length := if mode.ByBlock? || cfg.maxLength == 0 then 1 else cfg.maxLength;
      var plan, gap := MakePlan(mode, cfg, cursor, height), ConfirmedTip(cfg, height) - cursor;
      (if plan.workers * plan.length > gap then gap else plan.workers * plan.length)
        == if batch * length > gap then gap else batch * length
  {
    GapIsToTip(cfg, cursor, height);
    if mode.ByRange? {
      PlanInNumbers(cfg, cursor, height);
      var plan, gap := MakePlan(mode, cfg, cursor, height), ConfirmedTip(cfg, height) - cursor;
      MostWorkersReach(gap, plan.length, if cfg.batchSize == 0 then 1 else cfg.batchSize,
                       if cfg.maxLength == 0 then 1 else cfg.maxLength);
    }
  }

  /** The plan of ranges without the machine's arithmetic. */
  lemma PlanInNumbers(cfg: Config, cursor: uint64, height: uint64)
    requires Behind(cfg, cursor, height) && PlanRange(cfg, cursor, height).Go?
    ensures
      var batch := if cfg.batchSize == 0 then 1 else cfg.batchSize;
      var length := if cfg.maxLength == 0 then 1 else cfg.maxLength;
      var plan, gap := PlanRange(cfg, cursor, height), ConfirmedTip(cfg, height) - cursor;
      && plan.length == (if gap > length then length else gap)
      && plan.workers == if batch > (gap - 1) / plan.length + 1 then (gap - 1) / plan.length + 1 else batch
  {
    GapIsToTip(cfg, cursor, height);
    QuotientTimes(ConfirmedTip(cfg, height) - cursor - 1, PlanRange(cfg, cursor, height).length);
  }

  /** In plain numbers: the planned workers and length reach as far as the configured ones, up to the gap. */
  lemma MostWorkersReach(gap: nat, cut: nat, batch: nat, length: nat)
    requires gap >= 1 && batch >= 1 && length >= 1 && cut == if gap > length then length else gap
    ensures
      var needed := (gap - 1) / cut + 1;
      var workers := if batch > needed then needed else batch;
      (if workers * cut > gap then gap else workers * cut) == if batch * length > gap then gap else batch * length
  {
    var needed := (gap - 1) / cut + 1;
    NeededReaches(gap, cut);
    if gap > length {
      if batch > needed {
        MulMonotone(needed, batch, length);
      }
    } else {
      LoneNeeded(gap);
      MulMonotone(1, batch, length);
    }
  }

  lemma NeededReaches(gap: nat, cut: nat)
    requires gap >= 1 && cut >= 1
    ensures ((gap - 1) / cut + 1) * cut >= gap
  {
    var q := (gap - 1) / cut;
    assert gap - 1 == cut * q + (gap - 1) % cut;
    Distribute(q, 1, cut);
    assert cut * q == q * cut;
  }

  lemma LoneNeeded(gap: nat)
    requires gap >= 1
    ensures (gap - 1) / gap + 1 == 1
  {
  }

  /** A pass is refused only when ranges are scanned and the gap is below the minimum length. */
  lemma StopsOnlyBelowMinimum(mode: Mode, cfg: Config, cursor: uint64, height: uint64)
    requires Behind(cfg, cursor, height)
    ensures MakePlan(mode, cfg, cursor, height).Stop?
       <==> mode.ByRange? && ConfirmedTip(cfg, height) - cursor < if cfg.minLength == 0 then 1 else cfg.minLength
  {
    GapIsToTip(cfg, cursor, height);
  }

  lemma {:induction false} SegmentsAreOrdered(segments: seq<Segment>, lo: nat, hi: nat, i: nat, j: nat)
    requires Tiles(segments, lo, hi) && i < j < |segments|
    ensures segments[i].hi < segments[j].lo
    decreases j
  {
    assert segments[j - 1].hi + 1 == segments[j].lo;
    if i == j - 1 {
    } else {
      SegmentsAreOrdered(segments, lo, hi, i, j - 1);
    }
  }

  /** Every height of the range lies in some segment. */
  lemma {:induction false} TilesCover(segments: seq<Segment>, lo: nat, hi: nat, h: nat)
    requires Tiles(segments, lo, hi) && lo <= h <= hi
    ensures exists i :: 0 <= i < |segments| && segments[i].lo <= h <= segments[i].hi
    decreases |segments|
  {
    var n := |segments|;
    if h >= segments[n - 1].lo {
      assert segments[n - 1].lo <= h <= segments[n - 1].hi;
    } else {
      var rest := segments[..n - 1];
      assert n > 1;
      assert segments[n - 2].hi + 1 == segments[n - 1].lo;
      forall i | 0 <= i < |rest| - 1 ensures rest[i + 1].lo == rest[i].hi + 1 {
        assert segments[i + 1].lo == segments[i].hi + 1;
      }
      TilesCover(rest, lo, segments[n - 2].hi, h);
      var i :| 0 <= i < |rest| && rest[i].lo <= h <= rest[i].hi;
      assert segments[i] == rest[i];
    }
  }

  lemma SegmentsStayInside(segments: seq<Segment>, lo: nat, hi: nat, i: nat)
    requires Tiles(segments, lo, hi) && i < |segments|
    ensures lo <= segments[i].lo <= segments[i].hi <= hi
  {
    if i > 0 { SegmentsAreOrdered(segments, lo, hi, 0, i); }
    if i < |segments| - 1 { SegmentsAreOrdered(segments, lo, hi, i, |segments| - 1); }
  }

  /** A tiling covers exactly its range. */
  lemma TilesExactly(segments: seq<Segment>, lo: nat, hi: nat, h: nat)
    requires Tiles(segments, lo, hi)
    ensures lo <= h <= hi <==> exists i :: 0 <= i < |segments| && segments[i].lo <= h <= segments[i].hi
  {
    if lo <= h <= hi {
      TilesCover(segments, lo, hi, h);
    }
    forall i | 0 <= i < |segments| ensures lo <= segments[i].lo && segments[i].hi <= hi {
      SegmentsStayInside(segments, lo, hi, i);
    }
  }

  /** No height lies in two segments of a tiling. */
  lemma TilesAreDisjoint(segments: seq<Segment>, lo: nat, hi: nat, h: nat, i: nat, j: nat)
    requires Tiles(segments, lo, hi) && i < |segments| && j < |segments|
    requires segments[i].lo <= h <= segments[i].hi && segments[j].lo <= h <= segments[j].hi
    ensures i == j
  {
    if i < j {
      SegmentsAreOrdered(segments, lo, hi, i, j);
    } else if j < i {
      SegmentsAreOrdered(segments, lo, hi, j, i);
    }
  }
}
