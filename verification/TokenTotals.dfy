/**
 The in and out statistics of one token on one chain: hundredths of the token, truncated once per run, and
 counters. What is stored changes only when a run reaches its end and its save takes effect.
 */
module TokenTotals {
  import opened Options
  import opened Machine
  import opened Powers
  import opened Decimals
  import opened Ledger

  /** One direction of a token's statistics. */
  datatype Side = Side(amount: int, counter: int, checkId: int)

  /** On its source chain a token's transfers are only counted; elsewhere their sums are converted and added up. */
  datatype Place = OnSource | OffSource(inHundredths: int -> int)

  /** What the aggregate query hands back: no record, or a record; it has no amount when the query failed. */
  datatype Answer = NoRecord | Found(amount: Option<int>, counter: int)

  /** A run follows the missing amount and dies, or the side stands for it to be saved. */
  datatype Outcome = Dies | Stands(side: Side)

  function Query(rows: seq<Transfer>, asset: Asset, after: int, upTo: int, fails: bool): Answer
  {
    if fails then Found(None, 0)
    else if Total(rows, Counts({asset}), after, upTo) == 0 then NoRecord
    else Found(Some(Total(rows, Amounts({asset}), after, upTo)), Total(rows, Counts({asset}), after, upTo))
  }

  /** A run over the window from the checkpoint to the newest id of the table. */
  function RunSide(side: Side, rows: seq<Transfer>, asset: Asset, place: Place, fails: bool): Outcome
  {
    var now := LastId(rows);
    match (place, Query(rows, asset, side.checkId, now, fails))
    case (OnSource, NoRecord) => Stands(Side(0, side.counter, now))
    case (OnSource, Found(_, counter)) => Stands(Side(0, side.counter + counter, now))
    case (OffSource(_), NoRecord) => Stands(side.(checkId := now))
    case (OffSource(_), Found(None, _)) => Dies
    case (OffSource(convert), Found(Some(amount), counter)) => Stands(Side(side.amount + convert(amount),
        side.counter + counter, now))
  }

  // Histories

  /** A run is not saved when it dies elsewhere, or when its save fails without effect. */
  datatype Event = Append(more: seq<Transfer>) | Run(fails: bool, saved: bool)

  /** The stored side, the runs that were saved, and `lost`, the transfers their failed queries have skipped. */
  datatype State = State(transfers: seq<Transfer>, side: Side, runs: nat, lost: int)

  ghost predicate Enabled(s: State, e: Event) { e.Append? ==> Increasing(s.transfers + e.more) }

  function Next(s: State, e: Event, asset: Asset, place: Place): State
  {
    match e
    case Append(more) => s.(transfers := s.transfers + more)
    case Run(fails, saved) =>
      match RunSide(s.side, s.transfers, asset, place, fails)
      case Dies => s
      case Stands(side) => if saved
          then State(s.transfers, side, s.runs + 1, s.lost + if fails then Skips(s, asset) else 0) else s
  }

  function After(s: State, events: seq<Event>, asset: Asset, place: Place): State
  {
    if events == [] then s else Next(After(s, events[..|events| - 1], asset, place), events[|events| - 1], asset, place)
  }

  ghost predicate Possible(s: State, events: seq<Event>, asset: Asset, place: Place)
  {
    forall k :: 0 <= k < |events| ==> Enabled(After(s, events[..k], asset, place), events[k])
  }

  /** A fresh record over a table. */
  function Fresh(transfers: seq<Transfer>): State { State(transfers, Side(0, 0, 0), 0, 0) }

  lemma PrefixIsPossible(s: State, events: seq<Event>, asset: Asset, place: Place, n: nat)
    requires Possible(s, events, asset, place) && n <= |events|
    ensures Possible(s, events[..n], asset, place)
  {
    forall k | 0 <= k < n ensures Enabled(After(s, events[..n][..k], asset, place), events[..n][k]) {
      assert events[..n][..k] == events[..k];
    }
  }

  ghost predicate Checked(s: State) { Increasing(s.transfers) && 0 <= s.side.checkId <= LastId(s.transfers) }

  /** What a side has counted and what it has lost are together all transfers up to its checkpoint. */
  ghost predicate CounterInv(s: State, asset: Asset)
  {
    Checked(s) && s.lost >= 0 && s.side.counter + s.lost == Total(s.transfers, Counts({asset}), 0, s.side.checkId)
  }

  lemma AppendStaysChecked(s: State, more: seq<Transfer>, m: Measure)
    requires Checked(s) && Increasing(s.transfers + more)
    ensures Checked(s.(transfers := s.transfers + more))
    ensures Total(s.transfers + more, m, 0, s.side.checkId) == Total(s.transfers, m, 0, s.side.checkId)
  {
    WindowIsStable(s.transfers, more, m, 0, s.side.checkId);
    if more != [] && s.transfers != [] {
      assert (s.transfers + more)[|s.transfers| - 1] == s.transfers[|s.transfers| - 1];
    }
    if more == [] { assert s.transfers + more == s.transfers; }
  }

  lemma NextKeepsCounter(s: State, e: Event, asset: Asset, place: Place)
    requires CounterInv(s, asset) && Enabled(s, e)
    ensures CounterInv(Next(s, e, asset, place), asset)
  {
    match e {
      case Append(more) => AppendStaysChecked(s, more, Counts({asset}));
      case Run(_, _) =>
        TotalSplits(s.transfers, Counts({asset}), 0, s.side.checkId, LastId(s.transfers));
        CountsAreNatural(s.transfers, Counts({asset}), s.side.checkId, LastId(s.transfers));
    }
  }

  lemma {:induction false} CounterIsKept(s: State, events: seq<Event>, asset: Asset, place: Place)
    requires CounterInv(s, asset) && Possible(s, events, asset, place)
    ensures CounterInv(After(s, events, asset, place), asset)
  {
    if events == [] {
    } else {
      var n := |events| - 1;
      PrefixIsPossible(s, events, asset, place, n);
      CounterIsKept(s, events[..n], asset, place);
      NextKeepsCounter(After(s, events[..n], asset, place), events[n], asset, place);
    }
  }

  /** The transfers a run whose query fails now would skip. */
  function Skips(s: State, asset: Asset): int
  {
    Total(s.transfers, Counts({asset}), s.side.checkId, LastId(s.transfers))
  }

  /** Every saved run whose query failed found no transfer of the token in the window it skipped. */
  ghost predicate FailuresSkippedNothing(s: State, events: seq<Event>, asset: Asset, place: Place)
  {
    events == [] ||
    var n := |events| - 1;
    && FailuresSkippedNothing(s, events[..n], asset, place)
    && (events[n] == Run(true, true) ==> Skips(After(s, events[..n], asset, place), asset) == 0)
  }

  lemma {:induction false} LostIffSkipped(s: State, events: seq<Event>, asset: Asset)
    ensures After(s, events, asset, OnSource).lost >= s.lost
    ensures After(s, events, asset, OnSource).lost == s.lost <==> FailuresSkippedNothing(s, events, asset, OnSource)
  {
    if events == [] {
    } else {
      var n := |events| - 1;
      LostIffSkipped(s, events[..n], asset);
      var t := After(s, events[..n], asset, OnSource);
      CountsAreNatural(t.transfers, Counts({asset}), t.side.checkId, LastId(t.transfers));
    }
  }

  /** Off the source chain nothing is ever lost: a run whose query fails dies before it is saved. */
  lemma {:induction false} NothingIsLost(s: State, events: seq<Event>, asset: Asset, convert: int -> int)
    ensures After(s, events, asset, OffSource(convert)).lost == s.lost
  {
    if events == [] {
    } else {
      NothingIsLost(s, events[..|events| - 1], asset, convert);
    }
  }

  /**
   Off its source chain a token's stored counter is the number of its transfers up to the stored checkpoint,
   after every history, whichever queries and saves fail.
   */
  lemma CounterIsExact(transfers: seq<Transfer>, events: seq<Event>, asset: Asset, convert: int -> int)
    requires Increasing(transfers) && Possible(Fresh(transfers), events, asset, OffSource(convert))
    ensures
      var s := After(Fresh(transfers), events, asset, OffSource(convert));
      s.side.counter == Total(s.transfers, Counts({asset}), 0, s.side.checkId)
  {
    TotalOutside(transfers, Counts({asset}), 0, 0);
    CounterIsKept(Fresh(transfers), events, asset, OffSource(convert));
    NothingIsLost(Fresh(transfers), events, asset, convert);
  }

  /**
   On its source chain the counter of transfers out is exact if and only if no failed query of a saved run
   skipped a transfer; otherwise it stays short by those skipped.
   */
  lemma CounterIsExactIff(transfers: seq<Transfer>, events: seq<Event>, asset: Asset)
    requires Increasing(transfers) && Possible(Fresh(transfers), events, asset, OnSource)
    ensures
      var s := After(Fresh(transfers), events, asset, OnSource);
      && s.side.counter == Total(s.transfers, Counts({asset}), 0, s.side.checkId) - s.lost
          <= Total(s.transfers, Counts({asset}), 0, s.side.checkId)
      && (s.side.counter == Total(s.transfers, Counts({asset}), 0, s.side.checkId)
          <==> FailuresSkippedNothing(Fresh(transfers), events, asset, OnSource))
  {
    TotalOutside(transfers, Counts({asset}), 0, 0);
    CounterIsKept(Fresh(transfers), events, asset, OnSource);
    LostIffSkipped(Fresh(transfers), events, asset);
  }

  /** A run in which a transfer is lost: its query failed on the source chain, and it was saved. */
  lemma FailedQueryLosesTransfer(t: Transfer)
    requires t.id > 0
    ensures
      var s := After(Fresh([t]), [Run(true, true)], t.asset, OnSource);
      s.side == Side(0, 0, t.id) && Total([t], Counts({t.asset}), 0, s.side.checkId) == 1
  {
    TotalOfOne(t, Counts({t.asset}), 0, t.id);
    assert [Run(true, true)][..0] == [];
  }

  /** A run dies exactly on a failed query off the source chain; else it stands at the newest id of the table. */
  lemma RunReachesNewest(side: Side, rows: seq<Transfer>, asset: Asset, place: Place, fails: bool)
    ensures RunSide(side, rows, asset, place, fails).Dies? <==> place.OffSource? && fails
    ensures RunSide(side, rows, asset, place, fails).Stands? ==>
              RunSide(side, rows, asset, place, fails).side.checkId == LastId(rows)
  {
  }

  /** Off the source chain, right after a saved run, the counter is that of all the token's transfers in the table. */
  lemma CountsWholeTable(transfers: seq<Transfer>, events: seq<Event>, asset: Asset, convert: int -> int)
    requires Increasing(transfers) && Possible(Fresh(transfers), events, asset, OffSource(convert))
    ensures
      var s := After(Fresh(transfers), events, asset, OffSource(convert));
      var ran := Next(s, Run(false, true), asset, OffSource(convert));
      ran.side.counter == Total(s.transfers, Counts({asset}), 0, LastId(s.transfers))
  {
    var s := After(Fresh(transfers), events, asset, OffSource(convert));
    TotalOutside(transfers, Counts({asset}), 0, 0);
    CounterIsKept(Fresh(transfers), events, asset, OffSource(convert));
    NothingIsLost(Fresh(transfers), events, asset, convert);
    NextKeepsCounter(s, Run(false, true), asset, OffSource(convert));
    RunReachesNewest(s.side, s.transfers, asset, OffSource(convert), false);
  }

  // Truncation drift

  /** Each saved run so far has rounded down by less than one hundredth. */
  ghost predicate DriftInv(s: State, asset: Asset, precision: nat)
  {
    var scale := Pow10(precision);
    var exact := 100 * Total(s.transfers, Amounts({asset}), 0, s.side.checkId);
    && Checked(s) && NonNegative(s.transfers)
    && s.side.amount * scale <= exact
    && exact <= s.side.amount * scale + s.runs * (scale - 1)
  }

  ghost predicate AppendsNonNegative(events: seq<Event>)
  {
    forall k :: 0 <= k < |events| && events[k].Append? ==> NonNegative(events[k].more)
  }

  /** Every converted amount is rounded down, by less than one hundredth. */
  ghost predicate Truncates(convert: int -> int, precision: nat)
  {
    forall amount: nat ::
      convert(amount) * Pow10(precision) <= 100 * amount <= convert(amount) * Pow10(precision) + (Pow10(precision) - 1)
  }

  lemma HundredthsTruncates(precision: nat)
    requires precision <= DIVISION_PRECISION
    ensures Truncates(InHundredths(precision), precision)
  {
    var convert := InHundredths(precision);
    forall amount: nat
      ensures convert(amount) * Pow10(precision) <= 100 * amount
            <= convert(amount) * Pow10(precision) + (Pow10(precision) - 1)
    {
      TruncationBounds(Hundredths(amount, precision), amount, precision);
    }
  }

  lemma TruncationBounds(stored: int, amount: nat, precision: nat)
    requires precision <= DIVISION_PRECISION && stored == Hundredths(amount, precision)
    ensures stored * Pow10(precision) <= 100 * amount <= stored * Pow10(precision) + (Pow10(precision) - 1)
  {
    HundredthsIsTruncation(amount, precision);
    QuoOfNatural(100 * amount, Pow10(precision));
    QuotientBounds(100 * amount, Pow10(precision));
  }

  lemma QuoOfNatural(a: nat, b: nat)
    requires b > 0
    ensures Quo(a, b) == a / b
  {
  }

  /** One more run in plain numbers: its window is rounded down by less than one hundredth. */
  lemma DriftStep(stored: int, more: int, scale: nat, exact: int, window: int, runs: nat)
    requires scale >= 1 && stored * scale <= exact <= stored * scale + runs * (scale - 1)
    requires more * scale <= window <= more * scale + (scale - 1)
    ensures (stored + more) * scale <= exact + window <= (stored + more) * scale + (runs + 1) * (scale - 1)
  {
    Distribute(stored, more, scale);
    Distribute(runs, 1, scale - 1);
  }

  lemma RunDrifts(s: State, fails: bool, saved: bool, asset: Asset, convert: int -> int, precision: nat)
    requires Truncates(convert, precision) && DriftInv(s, asset, precision)
    ensures DriftInv(Next(s, Run(fails, saved), asset, OffSource(convert)), asset, precision)
  {
    var scale := Pow10(precision);
    var m, from, now := Amounts({asset}), s.side.checkId, LastId(s.transfers);
    var exact, window := Total(s.transfers, m, 0, from), Total(s.transfers, m, from, now);
    AmountsAreNatural(s.transfers, {asset}, from, now);
    TotalSplits(s.transfers, m, 0, from, now);
    if Total(s.transfers, Counts({asset}), from, now) == 0 {
      EmptyCountEmptyAmount(s.transfers, {asset}, from, now);
      DriftStep(s.side.amount, 0, scale, 100 * exact, 0, s.runs);
    } else {
      DriftStep(s.side.amount, convert(window), scale, 100 * exact, 100 * window, s.runs);
    }
  }

  lemma {:induction false} DriftIsKept(s: State, events: seq<Event>, asset: Asset, convert: int -> int, precision: nat)
    requires Truncates(convert, precision) && DriftInv(s, asset, precision)
    requires Possible(s, events, asset, OffSource(convert)) && AppendsNonNegative(events)
    ensures DriftInv(After(s, events, asset, OffSource(convert)), asset, precision)
  {
    if events == [] {
    } else {
      var n := |events| - 1;
      PrefixIsPossible(s, events, asset, OffSource(convert), n);
      assert forall k :: 0 <= k < n ==> events[..n][k] == events[k];
      DriftIsKept(s, events[..n], asset, convert, precision);
      var t := After(s, events[..n], asset, OffSource(convert));
      match events[n] {
        case Append(more) => AppendStaysChecked(t, more, Amounts({asset}));
        case Run(fails, saved) => RunDrifts(t, fails, saved, asset, convert, precision);
      }
    }
  }

  lemma QuotientBounds(a: nat, b: nat)
    requires b > 0
    ensures a / b * b <= a <= a / b * b + (b - 1)
  {
    assert a == b * (a / b) + a % b;
    assert b * (a / b) == a / b * b;
  }

  /** From the bounds on products to the bounds on quotients. */
  lemma DriftInQuotients(stored: int, exact: nat, scale: nat, runs: nat)
    requires scale >= 1 && runs >= 1
    requires stored * scale <= exact <= stored * scale + runs * (scale - 1)
    ensures exact / scale - (runs - 1) <= stored <= exact / scale
  {
    var q := exact / scale;
    QuotientBounds(exact, scale);
    Distribute(q, 1, scale);
    Distribute(stored, runs, scale);
    Distribute(scale - 1, 1, runs);
    assert runs * scale == runs * (scale - 1) + runs;
    if stored > q {
      MulMonotone(q + 1, stored, scale);
    } else if stored + runs <= q {
      MulMonotone(stored + runs, q, scale);
    }
  }

  lemma DriftOfState(s: State, asset: Asset, precision: nat)
    requires DriftInv(s, asset, precision)
    ensures
      var exact := 100 * Total(s.transfers, Amounts({asset}), 0, s.side.checkId);
      s.runs >= 1 ==> exact / Pow10(precision) - (s.runs - 1) <= s.side.amount <= exact / Pow10(precision)
  {
    if s.runs >= 1 {
      AmountsAreNatural(s.transfers, {asset}, 0, s.side.checkId);
      DriftInQuotients(s.side.amount, 100 * Total(s.transfers, Amounts({asset}), 0, s.side.checkId), Pow10(precision),
          s.runs);
    }
  }

  /**
   The truncation drift. After k >= 1 saved runs, whichever others failed in between, the stored amount is at
   most the exact hundredths of the sum of all transfers up to the checkpoint, and short of it by at most k - 1.
   */
  lemma TruncationDrift(transfers: seq<Transfer>, events: seq<Event>, asset: Asset, precision: nat)
    requires precision <= DIVISION_PRECISION && Increasing(transfers) && NonNegative(transfers)
    requires Possible(Fresh(transfers), events, asset, OffSource(InHundredths(precision))) && AppendsNonNegative(events)
    ensures
      var s := After(Fresh(transfers), events, asset, OffSource(InHundredths(precision)));
      var exact := 100 * Total(s.transfers, Amounts({asset}), 0, s.side.checkId);
      s.runs >= 1 ==> exact / Pow10(precision) - (s.runs - 1) <= s.side.amount <= exact / Pow10(precision)
  {
    HundredthsTruncates(precision);
    TotalOutside(transfers, Amounts({asset}), 0, 0);
    DriftIsKept(Fresh(transfers), events, asset, InHundredths(precision), precision);
    DriftOfState(After(Fresh(transfers), events, asset, OffSource(InHundredths(precision))), asset, precision);
  }

  lemma BelowAHundredth(amount: nat, precision: nat)
    requires precision <= DIVISION_PRECISION && 100 * amount < Pow10(precision)
    ensures Hundredths(amount, precision) == 0
  {
    HundredthsIsTruncation(amount, precision);
    SmallQuotient(100 * amount, Pow10(precision));
  }

  /** A run that finds one transfer below a hundredth counts it and stores nothing of it. */
  lemma RunLosesSmall(side: Side, rows: seq<Transfer>, asset: Asset, convert: int -> int, amount: nat)
    requires convert(amount) == 0
    requires Query(rows, asset, side.checkId, LastId(rows), false) == Found(Some(amount), 1)
    ensures RunSide(side, rows, asset, OffSource(convert), false)
          == Stands(Side(side.amount, side.counter + 1, LastId(rows)))
  {
  }

  /** Two runs over one transfer each, both below a hundredth. */
  lemma SmallRunsStoreNothing(asset: Asset, amount: nat, convert: int -> int)
    requires convert(amount) == 0
    ensures
      var one, two := Transfer(1, 0, asset, amount), Transfer(2, 0, asset, amount);
      && RunSide(Side(0, 0, 0), [one], asset, OffSource(convert), false) == Stands(Side(0, 1, 1))
      && RunSide(Side(0, 1, 1), [one, two], asset, OffSource(convert), false) == Stands(Side(0, 2, 2))
  {
    var one, two := Transfer(1, 0, asset, amount), Transfer(2, 0, asset, amount);
    TotalOfOne(one, Counts({asset}), 0, 1);
    TotalOfOne(one, Amounts({asset}), 0, 1);
    RunLosesSmall(Side(0, 0, 0), [one], asset, convert, amount);
    TotalOfTwo(one, two, Counts({asset}), 1, 2);
    TotalOfTwo(one, two, Amounts({asset}), 1, 2);
    RunLosesSmall(Side(0, 1, 1), [one, two], asset, convert, amount);
  }

  /** The bound is reached: two runs over more than half a hundredth each store nothing of a whole one. */
  lemma DriftIsReached(asset: Asset, amount: nat, precision: nat)
    requires precision <= DIVISION_PRECISION && 100 * amount < Pow10(precision) <= 200 * amount
    ensures
      var one, two := Transfer(1, 0, asset, amount), Transfer(2, 0, asset, amount);
      var place := OffSource(InHundredths(precision));
      && RunSide(Side(0, 0, 0), [one], asset, place, false) == Stands(Side(0, 1, 1))
      && RunSide(Side(0, 1, 1), [one, two], asset, place, false) == Stands(Side(0, 2, 2))
      && 100 * Total([one, two], Amounts({asset}), 0, 2) >= Pow10(precision)
  {
    BelowAHundredth(amount, precision);
    SmallRunsStoreNothing(asset, amount, InHundredths(precision));
    TotalOfTwo(Transfer(1, 0, asset, amount), Transfer(2, 0, asset, amount), Amounts({asset}), 0, 2);
  }
}
