/**
 The running totals of a token basic, kept by a checkpoint. Several processes may compute them at once;
 each writes its result only if the checkpoint in the row is still the one it started from. The writer of
 prices saves whole rows, totals and checkpoint included, as it has read them. Sums pass
 through a floating-point number on their way from the database.
 */
module BasicTotals {
  import opened Machine
  import opened FloatSums
  import opened Ledger

  /** The statistics columns of the row, and of the copy a run works on. */
  datatype Row = Row(checkpoint: int, amount: int, count: int)

  datatype Found = NoTransfer | Last(transfer: Transfer)

  /** The newest transfer of the given assets. */
  function LastOf(rows: seq<Transfer>, assets: set<Asset>): Found
  {
    if rows == [] then NoTransfer else
    var n := |rows| - 1;
    if rows[n].asset in assets then Last(rows[n]) else LastOf(rows[..n], assets)
  }

  function LastIdOf(rows: seq<Transfer>, assets: set<Asset>): int
  {
    match LastOf(rows, assets) case NoTransfer => 0 case Last(t) => t.id
  }

  /** A run has nothing to do; the checkpoint holds an id, and is compared here with a time. */
  predicate LeavesEarly(row: Row, rows: seq<Transfer>, assets: set<Asset>)
  {
    var last := LastOf(rows, assets);
    last.NoTransfer? || row.checkpoint == last.transfer.time
  }

  /** What a run makes of the row it read; `read` is how the sum of a window arrives. */
  function Updated(row: Row, rows: seq<Transfer>, assets: set<Asset>, read: int -> int): Row
  {
    if LeavesEarly(row, rows, assets) then row else
    var last := LastOf(rows, assets).transfer.id;
    var amount := read(Total(rows, Amounts(assets), row.checkpoint, last));
    var count := Total(rows, Counts(assets), row.checkpoint, last);
    if row.checkpoint == 0 then Row(last, amount, count) else Row(last, row.amount + amount, row.count + count)
  }

  /** The amount is wrong by at most one part in `n`. */
  ghost predicate Close(amount: int, exact: int, n: nat)
  {
    (amount - exact) * n <= exact && (exact - amount) * n <= exact
  }

  ghost predicate Reads(read: int -> int, n: nat) { forall sum: nat :: Close(read(sum), sum, n) }

  /**
   Once a run has been made, the count is that of all transfers up to the checkpoint, and the amount close to
   theirs.
   */
  ghost predicate Kept(row: Row, rows: seq<Transfer>, assets: set<Asset>, n: nat)
  {
    && 0 <= row.checkpoint <= LastIdOf(rows, assets)
    && (row.checkpoint != 0 ==>
          && Close(row.amount, Total(rows, Amounts(assets), 0, row.checkpoint), n)
          && row.count == Total(rows, Counts(assets), 0, row.checkpoint))
  }

  /** Errors of one part in `n` add up to one part in `n` of the whole. */
  lemma CloseAdds(a: int, x: int, b: int, y: int, n: nat)
    requires Close(a, x, n) && Close(b, y, n)
    ensures Close(a + b, x + y, n)
  {
    assert (a + b - (x + y)) * n == (a - x) * n + (b - y) * n;
    assert (x + y - (a + b)) * n == (x - a) * n + (y - b) * n;
  }

  lemma CloseIsExact(amount: int, exact: int, n: nat)
    requires Close(amount, exact, n) && exact < n
    ensures amount == exact
  {
    if amount > exact {
      MulMonotone(1, amount - exact, n);
    } else if amount < exact {
      MulMonotone(1, exact - amount, n);
    }
  }

  lemma ReadSumReads()
    ensures Reads(ReadSum, TWO_64)
  {
    forall sum: nat ensures Close(ReadSum(sum), sum, TWO_64) {
      ReadIsClose(sum);
    }
  }

  lemma {:induction false} LastOfIsLast(rows: seq<Transfer>, assets: set<Asset>)
    requires Increasing(rows)
    ensures 0 <= LastIdOf(rows, assets) <= LastId(rows)
    ensures LastOf(rows, assets).Last? ==> LastIdOf(rows, assets) > 0
    ensures forall i :: 0 <= i < |rows| && rows[i].asset in assets ==> rows[i].id <= LastIdOf(rows, assets)
  {
    if rows == [] {
    } else {
      var n := |rows| - 1;
      if rows[n].asset !in assets {
        LastOfIsLast(rows[..n], assets);
        assert forall i :: 0 <= i < n ==> rows[..n][i] == rows[i];
      }
    }
  }

  lemma {:induction false} LastOfGrows(rows: seq<Transfer>, more: seq<Transfer>, assets: set<Asset>)
    requires Increasing(rows + more)
    ensures LastIdOf(rows, assets) <= LastIdOf(rows + more, assets)
  {
    if more == [] {
      assert rows + more == rows;
    } else {
      var n := |more| - 1;
      assert (rows + more)[..|rows| + n] == rows + more[..n];
      if more[n].asset in assets {
        assert Increasing(rows) by { assert forall i :: 0 <= i < |rows| ==> (rows + more)[i] == rows[i]; }
        LastOfIsLast(rows, assets);
        if rows != [] { assert (rows + more)[|rows| - 1] == rows[|rows| - 1]; }
      } else {
        assert Increasing(rows + more[..n]);
        LastOfGrows(rows, more[..n], assets);
      }
    }
  }

  /** A run keeps the count exact and the amount close, however often it is made. */
  lemma UpdateKeeps(row: Row, rows: seq<Transfer>, assets: set<Asset>, read: int -> int, n: nat)
    requires Increasing(rows) && NonNegative(rows) && Reads(read, n) && Kept(row, rows, assets, n)
    ensures Kept(Updated(row, rows, assets, read), rows, assets, n)
    ensures Updated(row, rows, assets, read).checkpoint >= row.checkpoint
  {
    LastOfIsLast(rows, assets);
    var last := LastIdOf(rows, assets);
    var m := Amounts(assets);
    TotalSplits(rows, m, 0, row.checkpoint, last);
    TotalSplits(rows, Counts(assets), 0, row.checkpoint, last);
    AmountsAreNatural(rows, assets, row.checkpoint, last);
    var window := Total(rows, m, row.checkpoint, last);
    if row.checkpoint != 0 {
      CloseAdds(row.amount, Total(rows, m, 0, row.checkpoint), read(window), window, n);
    }
  }

  /** A run keeps an exact amount exact precisely when the sum of its window fits into 64 bits and zeros. */
  lemma UpdateIsExactIff(row: Row, rows: seq<Transfer>, assets: set<Asset>)
    requires Increasing(rows) && NonNegative(rows) && !LeavesEarly(row, rows, assets)
    requires 0 <= row.checkpoint <= LastIdOf(rows, assets)
    requires row.checkpoint != 0 ==> row.amount == Total(rows, Amounts(assets), 0, row.checkpoint)
    ensures
      var after := Updated(row, rows, assets, ReadSum);
      var window := Total(rows, Amounts(assets), row.checkpoint, after.checkpoint);
      && window >= 0
      && (after.amount == Total(rows, Amounts(assets), 0, after.checkpoint) <==> window % Pow2(Shift(window)) == 0)
  {
    var last := LastIdOf(rows, assets);
    TotalSplits(rows, Amounts(assets), 0, row.checkpoint, last);
    AmountsAreNatural(rows, assets, row.checkpoint, last);
    ReadIsExactIff(Total(rows, Amounts(assets), row.checkpoint, last));
  }

  /**
   A run brings the checkpoint to the token's newest transfer if and only if the checkpoint is not, as a
   number, the time of that transfer; or it is there already.
   */
  lemma ReachesNewestIff(row: Row, rows: seq<Transfer>, assets: set<Asset>, read: int -> int)
    requires LastOf(rows, assets).Last?
    ensures
      var last := LastOf(rows, assets).transfer;
      Updated(row, rows, assets, read).checkpoint == last.id <==>
      row.checkpoint != last.time || row.checkpoint == last.id
  {
  }

  /** A run that leaves a new transfer out: its time is the id the checkpoint holds. */
  lemma TimeHidesTransfer(asset: Asset, read: int -> int)
    ensures
      var rows, row := [Transfer(5, 1, asset, 10), Transfer(6, 5, asset, 10)], Row(5, 10, 1);
      && row.count == Total(rows, Counts({asset}), 0, 5)
      && Updated(row, rows, {asset}, read) == row
      && Total(rows, Counts({asset}), row.checkpoint, 6) == 1
  {
    TotalOfTwo(Transfer(5, 1, asset, 10), Transfer(6, 5, asset, 10), Counts({asset}), 0, 5);
    TotalOfTwo(Transfer(5, 1, asset, 10), Transfer(6, 5, asset, 10), Counts({asset}), 5, 6);
  }

  lemma AppendKeeps(row: Row, rows: seq<Transfer>, more: seq<Transfer>, assets: set<Asset>, n: nat)
    requires Increasing(rows) && Increasing(rows + more) && Kept(row, rows, assets, n)
    ensures Kept(row, rows + more, assets, n)
  {
    LastOfIsLast(rows, assets);
    LastOfGrows(rows, more, assets);
    WindowIsStable(rows, more, Amounts(assets), 0, row.checkpoint);
    WindowIsStable(rows, more, Counts(assets), 0, row.checkpoint);
  }

  // Runs that interleave

  /** A run has read the row, or has computed what it will write over the checkpoint it read. */
  datatype Run = Read(row: Row) | Computed(from: int, result: Row)

  datatype State = State(transfers: seq<Transfer>, row: Row, runs: seq<Run>)

  datatype Event =
    | Append(more: seq<Transfer>)
    | Begin
    | Aggregate(run: nat)
    | Write(run: nat)          // the conditional write; the run's copy stays around
    | PutBack(run: nat)        // the price writer saves the whole row it has read

  ghost predicate Enabled(s: State, e: Event)
  {
    match e
    case Append(more) => Increasing(s.transfers + more) && NonNegative(s.transfers + more)
    case Begin => true
    case Aggregate(i) => i < |s.runs| && s.runs[i].Read?
    case Write(i) => i < |s.runs| && s.runs[i].Computed?
    case PutBack(i) => i < |s.runs| && s.runs[i].Read?
  }

  function Next(s: State, e: Event, assets: set<Asset>, read: int -> int): State
  {
    match e
    case Append(more) => s.(transfers := s.transfers + more)
    case Begin => s.(runs := s.runs + [Read(s.row)])
    case Aggregate(i) =>
      if i < |s.runs| && s.runs[i].Read? then
        s.(runs := s.runs[i := Computed(s.runs[i].row.checkpoint, Updated(s.runs[i].row, s.transfers, assets, read))])
      else s
    case Write(i) =>
      if i < |s.runs| && s.runs[i].Computed? && s.row.checkpoint == s.runs[i].from then s.(row := s.runs[i].result)
          else s
    case PutBack(i) => if i < |s.runs| && s.runs[i].Read? then s.(row := s.runs[i].row) else s
  }

  ghost predicate RunInv(r: Run, transfers: seq<Transfer>, assets: set<Asset>, n: nat)
  {
    match r
    case Read(row) => Kept(row, transfers, assets, n)
    case Computed(from, result) => Kept(result, transfers, assets, n) && from <= result.checkpoint
  }

  ghost predicate Inv(s: State, assets: set<Asset>, n: nat)
  {
    && Increasing(s.transfers) && NonNegative(s.transfers)
    && Kept(s.row, s.transfers, assets, n)
    && forall i :: 0 <= i < |s.runs| ==> RunInv(s.runs[i], s.transfers, assets, n)
  }

  lemma NextKeepsInv(s: State, e: Event, assets: set<Asset>, read: int -> int, n: nat)
    requires Inv(s, assets, n) && Enabled(s, e) && Reads(read, n)
    ensures Inv(Next(s, e, assets, read), assets, n)
    ensures !e.PutBack? ==> Next(s, e, assets, read).row.checkpoint >= s.row.checkpoint
  {
    var t := Next(s, e, assets, read);
    match e {
      case Append(more) =>
        AppendKeeps(s.row, s.transfers, more, assets, n);
        forall i | 0 <= i < |t.runs| ensures RunInv(t.runs[i], t.transfers, assets, n) {
          assert RunInv(s.runs[i], s.transfers, assets, n);
          AppendKeeps(if s.runs[i].Read? then s.runs[i].row else s.runs[i].result, s.transfers, more, assets, n);
        }
      case Aggregate(i) =>
        assert RunInv(s.runs[i], s.transfers, assets, n);
        UpdateKeeps(s.runs[i].row, s.transfers, assets, read, n);
      case Write(i) => assert RunInv(s.runs[i], s.transfers, assets, n);
      case PutBack(i) => assert RunInv(s.runs[i], s.transfers, assets, n);
      case Begin =>
    }
  }

  /** A run that nobody overtakes writes what it has computed from the row it read. */
  lemma LoneRunTakesEffect(s: State, assets: set<Asset>, read: int -> int)
    ensures
      var begun := Next(s, Begin, assets, read);
      var computed := Next(begun, Aggregate(|s.runs|), assets, read);
      Next(computed, Write(|s.runs|), assets, read).row == Updated(s.row, s.transfers, assets, read)
  {
  }

  function After(s: State, events: seq<Event>, assets: set<Asset>, read: int -> int): State
  {
    if events == [] then s else Next(After(s, events[..|events| - 1], assets, read), events[|events| - 1], assets, read)
  }

  ghost predicate Possible(s: State, events: seq<Event>, assets: set<Asset>, read: int -> int)
  {
    forall k :: 0 <= k < |events| ==> Enabled(After(s, events[..k], assets, read), events[k])
  }

  lemma PrefixIsPossible(s: State, events: seq<Event>, assets: set<Asset>, read: int -> int, l: nat)
    requires Possible(s, events, assets, read) && l <= |events|
    ensures Possible(s, events[..l], assets, read)
  {
    forall k | 0 <= k < l ensures Enabled(After(s, events[..l][..k], assets, read), events[..l][k]) {
      assert events[..l][..k] == events[..k];
    }
  }

  lemma {:induction false} HistoryKeepsInv(s: State, events: seq<Event>, assets: set<Asset>, read: int -> int, n: nat)
    requires Inv(s, assets, n) && Possible(s, events, assets, read) && Reads(read, n)
    ensures Inv(After(s, events, assets, read), assets, n)
  {
    if events == [] {
    } else {
      var l := |events| - 1;
      PrefixIsPossible(s, events, assets, read, l);
      HistoryKeepsInv(s, events[..l], assets, read, n);
      NextKeepsInv(After(s, events[..l], assets, read), events[l], assets, read, n);
    }
  }

  /** Without the writer of prices the checkpoint never falls, however runs overlap. */
  lemma {:induction false} CheckpointNeverFalls(s: State, events: seq<Event>, assets: set<Asset>, read: int -> int,
                                                n: nat)
    requires Inv(s, assets, n) && Possible(s, events, assets, read) && Reads(read, n)
    requires forall k :: 0 <= k < |events| ==> !events[k].PutBack?
    ensures After(s, events, assets, read).row.checkpoint >= s.row.checkpoint
  {
    if events == [] {
    } else {
      var l := |events| - 1;
      PrefixIsPossible(s, events, assets, read, l);
      CheckpointNeverFalls(s, events[..l], assets, read, n);
      HistoryKeepsInv(s, events[..l], assets, read, n);
      NextKeepsInv(After(s, events[..l], assets, read), events[l], assets, read, n);
    }
  }

  /**
   Telescoping totals, for sums that arrive with an error of at most one part in `n`. From a row that was
   never computed, after any history of new transfers, of rows put back by the writer of prices, and of runs
   that overlap, leave early or lose the race for the row, the count is that of all transfers of the token up to
   the stored checkpoint, each once, and
   the amount is within one part in `n` of theirs; the errors of the runs do not pile up.
   */
  lemma TotalsWithin(transfers: seq<Transfer>, amount: int, count: int, events: seq<Event>, assets: set<Asset>,
                     read: int -> int, n: nat)
    requires Increasing(transfers) && NonNegative(transfers) && Reads(read, n)
    requires Possible(State(transfers, Row(0, amount, count), []), events, assets, read)
    ensures
      var s := After(State(transfers, Row(0, amount, count), []), events, assets, read);
      s.row.checkpoint != 0 ==>
        && s.row.count == Total(s.transfers, Counts(assets), 0, s.row.checkpoint)
        && Close(s.row.amount, Total(s.transfers, Amounts(assets), 0, s.row.checkpoint), n)
  {
    LastOfIsLast(transfers, assets);
    HistoryKeepsInv(State(transfers, Row(0, amount, count), []), events, assets, read, n);
  }

  /** The same for sums read as the program reads them: below 2^64 the amount is exact, above it to one part in 2^64. */
  lemma TotalsTelescope(transfers: seq<Transfer>, amount: int, count: int, events: seq<Event>, assets: set<Asset>)
    requires Increasing(transfers) && NonNegative(transfers)
    requires Possible(State(transfers, Row(0, amount, count), []), events, assets, ReadSum)
    ensures
      var s := After(State(transfers, Row(0, amount, count), []), events, assets, ReadSum);
      var exact := Total(s.transfers, Amounts(assets), 0, s.row.checkpoint);
      s.row.checkpoint != 0 ==>
        && s.row.count == Total(s.transfers, Counts(assets), 0, s.row.checkpoint)
        && Close(s.row.amount, exact, TWO_64)
        && (exact < TWO_64 ==> s.row.amount == exact)
  {
    ReadSumReads();
    TotalsWithin(transfers, amount, count, events, assets, ReadSum, TWO_64);
    var s := After(State(transfers, Row(0, amount, count), []), events, assets, ReadSum);
    var exact := Total(s.transfers, Amounts(assets), 0, s.row.checkpoint);
    if s.row.checkpoint != 0 && exact < TWO_64 {
      CloseIsExact(s.row.amount, exact, TWO_64);
    }
  }

  // The run as the program makes it

  /** The token basic in memory. */
  class TokenBasic {
    var totalAmount: int
    var totalCount: int
    var statsUpdateTime: int

    constructor (row: Row)
      ensures Columns() == row
    {
      totalAmount, totalCount, statsUpdateTime := row.amount, row.count, row.checkpoint;
    }

    function Columns(): Row
      reads this
    {
      Row(statsUpdateTime, totalAmount, totalCount)
    }
  }

  /** The database: the transfers, and the statistics columns of one token basic. */
  class Database {
    var transfers: seq<Transfer>
    var row: Row

    constructor (transfers: seq<Transfer>, row: Row)
      ensures this.transfers == transfers && this.row == row
    {
      this.transfers, this.row := transfers, row;
    }

    method UpdateWithCheckPoint(result: Row, checkPoint: int)
      modifies this`row
      ensures row == if old(row).checkpoint == checkPoint then result else old(row)
    {
      if row.checkpoint == checkPoint {
        row := result;
      }
    }
  }

  method ComputeTokenBasicStats(db: Database, token: TokenBasic, assets: set<Asset>)
    modifies db`row, token
    ensures token.Columns() == Updated(old(token.Columns()), db.transfers, assets, ReadSum)
    ensures db.row == if !LeavesEarly(old(token.Columns()), db.transfers, assets)
          && old(db.row.checkpoint == token.statsUpdateTime)
                      then token.Columns() else old(db.row)
  {
    var checkPoint := token.statsUpdateTime;
    var last := LastOf(db.transfers, assets);
    if last.NoTransfer? || checkPoint == last.transfer.time {
      return;
    }
    var totalAmount := ReadSum(Total(db.transfers, Amounts(assets), checkPoint, last.transfer.id));
    var totalCount := Total(db.transfers, Counts(assets), checkPoint, last.transfer.id);
    token.statsUpdateTime := last.transfer.id;
    if checkPoint == 0 {
      token.totalAmount := totalAmount;
      token.totalCount := totalCount;
    } else {
      token.totalAmount := totalAmount + token.totalAmount;
      token.totalCount := token.totalCount + totalCount;
    }
    db.UpdateWithCheckPoint(token.Columns(), checkPoint);
  }
}
