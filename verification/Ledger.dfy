/**
 The tables the statistics are computed from: rows with increasing ids, to which rows with larger ids are
 added. An aggregate query sums or counts the matching rows with ids in a window `(after, upTo]`.
 */
module Ledger {

  datatype Asset = Asset(chain: int, hash: string)

  datatype Transfer = Transfer(id: int, time: int, asset: Asset, amount: int)

  /** What an aggregate query adds up: amounts or rows of some assets, or the rows of a chain. */
  datatype Measure = Amounts(assets: set<Asset>) | Counts(assets: set<Asset>) | RowsOf(chain: int)

  predicate Matches(m: Measure, t: Transfer)
  {
    if m.RowsOf? then t.asset.chain == m.chain else t.asset in m.assets
  }

  function Weight(m: Measure, t: Transfer): int
  {
    if !Matches(m, t) then 0 else if m.Amounts? then t.amount else 1
  }

  predicate InWindow(id: int, after: int, upTo: int) { after < id <= upTo }

  function Total(rows: seq<Transfer>, m: Measure, after: int, upTo: int): int
  {
    if rows == [] then 0 else
    var n := |rows| - 1;
    Total(rows[..n], m, after, upTo) + if InWindow(rows[n].id, after, upTo) then Weight(m, rows[n]) else 0
  }

  /** Ids are positive and grow with every row. */
  ghost predicate Increasing(rows: seq<Transfer>)
  {
    && (forall i :: 0 <= i < |rows| ==> rows[i].id > 0)
    && (forall i, j :: 0 <= i < j < |rows| ==> rows[i].id < rows[j].id)
  }

  /** The id of the newest row, 0 for an empty table. */
  function LastId(rows: seq<Transfer>): int { if rows == [] then 0 else rows[|rows| - 1].id }

  /** Adjacent windows add up. */
  lemma {:induction false} TotalSplits(rows: seq<Transfer>, m: Measure, a: int, b: int, c: int)
    requires a <= b <= c
    ensures Total(rows, m, a, c) == Total(rows, m, a, b) + Total(rows, m, b, c)
  {
    if rows == [] {
    } else {
      TotalSplits(rows[..|rows| - 1], m, a, b, c);
    }
  }

  lemma {:induction false} TotalConcat(rows: seq<Transfer>, more: seq<Transfer>, m: Measure, a: int, b: int)
    ensures Total(rows + more, m, a, b) == Total(rows, m, a, b) + Total(more, m, a, b)
  {
    if more == [] {
      assert rows + more == rows;
    } else {
      var n := |more| - 1;
      assert (rows + more)[..|rows| + n] == rows + more[..n];
      TotalConcat(rows, more[..n], m, a, b);
    }
  }

  lemma {:induction false} TotalOutside(rows: seq<Transfer>, m: Measure, a: int, b: int)
    requires forall i :: 0 <= i < |rows| ==> !InWindow(rows[i].id, a, b) || !Matches(m, rows[i])
    ensures Total(rows, m, a, b) == 0
  {
    if rows == [] {
    } else {
      TotalOutside(rows[..|rows| - 1], m, a, b);
    }
  }

  /** A window that has been read keeps its total: later rows have larger ids. */
  lemma WindowIsStable(rows: seq<Transfer>, more: seq<Transfer>, m: Measure, a: int, b: int)
    requires Increasing(rows + more) && b <= LastId(rows)
    ensures Total(rows + more, m, a, b) == Total(rows, m, a, b)
  {
    forall i | 0 <= i < |more| ensures more[i].id > b {
      assert (rows + more)[|rows| + i] == more[i];
      if rows != [] { assert (rows + more)[|rows| - 1] == rows[|rows| - 1]; }
    }
    TotalOutside(more, m, a, b);
    TotalConcat(rows, more, m, a, b);
  }

  /** No row with an id in the window matches. */
  ghost predicate NoneIn(rows: seq<Transfer>, m: Measure, a: int, b: int)
  {
    forall i :: 0 <= i < |rows| && InWindow(rows[i].id, a, b) ==> !Matches(m, rows[i])
  }

  lemma {:induction false} CountsAreNatural(rows: seq<Transfer>, m: Measure, a: int, b: int)
    requires !m.Amounts?
    ensures Total(rows, m, a, b) >= 0
    ensures Total(rows, m, a, b) == 0 <==> NoneIn(rows, m, a, b)
  {
    if rows == [] {
    } else {
      var n := |rows| - 1;
      CountsAreNatural(rows[..n], m, a, b);
      assert forall i :: 0 <= i < n ==> rows[..n][i] == rows[i];
    }
  }

  /** No matching row, no amount. */
  lemma EmptyCountEmptyAmount(rows: seq<Transfer>, assets: set<Asset>, a: int, b: int)
    requires Total(rows, Counts(assets), a, b) == 0
    ensures Total(rows, Amounts(assets), a, b) == 0
  {
    CountsAreNatural(rows, Counts(assets), a, b);
    TotalOutside(rows, Amounts(assets), a, b);
  }

  ghost predicate NonNegative(rows: seq<Transfer>) { forall i :: 0 <= i < |rows| ==> rows[i].amount >= 0 }

  lemma {:induction false} AmountsAreNatural(rows: seq<Transfer>, assets: set<Asset>, a: int, b: int)
    requires NonNegative(rows)
    ensures Total(rows, Amounts(assets), a, b) >= 0
  {
    if rows == [] {
    } else {
      AmountsAreNatural(rows[..|rows| - 1], assets, a, b);
    }
  }

  lemma TotalOfOne(t: Transfer, m: Measure, a: int, b: int)
    ensures Total([t], m, a, b) == if InWindow(t.id, a, b) then Weight(m, t) else 0
  {
    assert [t][..0] == [];
  }

  lemma TotalOfTwo(one: Transfer, two: Transfer, m: Measure, a: int, b: int)
    ensures Total([one, two], m, a, b)
         == (if InWindow(one.id, a, b) then Weight(m, one) else 0) + (if InWindow(two.id, a, b) then Weight(m, two)
             else 0)
  {
    var both := [one, two];
    assert both[..1] == [one];
    TotalOfOne(one, m, a, b);
  }

  /** One transfer adds its amount to the sums of its asset, and one to its counts and to the rows of its chain. */
  lemma OneTransfer(t: Transfer)
    ensures Total([t], Amounts({t.asset}), t.id - 1, t.id) == t.amount
    ensures Total([t], Counts({t.asset}), t.id - 1, t.id) == 1
    ensures Total([t], RowsOf(t.asset.chain), t.id - 1, t.id) == 1
    ensures Total([t], Counts({t.asset}), t.id, t.id + 1) == Total([t], Counts({t.asset}), t.id - 2, t.id - 1) == 0
  {
    TotalOfOne(t, Amounts({t.asset}), t.id - 1, t.id);
    TotalOfOne(t, Counts({t.asset}), t.id - 1, t.id);
    TotalOfOne(t, RowsOf(t.asset.chain), t.id - 1, t.id);
    TotalOfOne(t, Counts({t.asset}), t.id, t.id + 1);
    TotalOfOne(t, Counts({t.asset}), t.id - 2, t.id - 1);
  }
}
