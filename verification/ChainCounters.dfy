/**
 The in and out counters of all chains. One run counts the transactions of every chain in a window that
 starts at the checkpoint of the newest record of the table, whichever chain that record is of.
 */
module ChainCounters {
  import opened Ledger

  const POLY: int := 0

  datatype Record = Record(chain: int, inCount: int, outCount: int, lastIn: int, lastOut: int)

  /** One row of a query grouped by chain. */
  datatype Group = Group(chain: int, count: int)

  /** A successful query over a window: one group for each chain that has a row in it. */
  ghost predicate IsGrouped(groups: seq<Group>, rows: seq<Transfer>, after: int, upTo: int)
  {
    && (forall g :: g in groups ==> g.count == Total(rows, RowsOf(g.chain), after, upTo))
    && (forall c :: Total(rows, RowsOf(c), after, upTo) != 0 ==> exists g :: g in groups && g.chain == c)
  }

  /** What a run adds for a chain: nothing when the query fails or its window is empty. */
  function Added(rows: seq<Transfer>, chain: int, after: int, upTo: int, fails: bool): int
  {
    if fails || upTo <= after then 0 else Total(rows, RowsOf(chain), after, upTo)
  }

  datatype Tables = Tables(dst: seq<Transfer>, src: seq<Transfer>, poly: seq<Transfer>)

  /** The environment of a run: failing queries, and the chains without a record in the order the map yields them. */
  datatype Answers = Answers(inFails: bool, outFails: bool, polyFails: bool, missing: seq<int>)

  function Newest(records: seq<Record>): Record
    requires records != []
  {
    records[|records| - 1]
  }

  /** A run does something only if either table has grown past the newest record's checkpoints. */
  predicate HasWork(newest: Record, t: Tables) { LastId(t.dst) > newest.lastIn || LastId(t.src) > newest.lastOut }

  function WithMissing(records: seq<Record>, missing: seq<int>, t: Tables): seq<Record>
  {
    records + seq(|missing|, i requires 0 <= i < |missing| => Record(missing[i], 0, 0, LastId(t.dst), LastId(t.src)))
  }

  function Counted(r: Record, newest: Record, t: Tables, a: Answers): Record
  {
    if r.chain == POLY then r
    else Record(r.chain,
                r.inCount + Added(t.dst, r.chain, newest.lastIn, LastId(t.dst), a.inFails),
                r.outCount + Added(t.src, r.chain, newest.lastOut, LastId(t.src), a.outFails),
                LastId(t.dst), LastId(t.src))
  }

  /** The poly chain has its own table; its one record counts both ways. */
  function PolyCounted(r: Record, t: Tables, fails: bool): Record
  {
    if fails then r else
    var n := |SelectWindow(t.poly, r.lastIn, LastId(t.poly))|;
    Record(r.chain, r.inCount + n, r.outCount + n, LastId(t.poly), LastId(t.poly))
  }

  function SelectWindow(rows: seq<Transfer>, after: int, upTo: int): seq<Transfer>
  {
    if rows == [] then [] else
    var n := |rows| - 1;
    SelectWindow(rows[..n], after, upTo) + if InWindow(rows[n].id, after, upTo) then [rows[n]] else []
  }

  /** The record of a chain after a run that had work to do. */
  function AfterRun(r: Record, newest: Record, t: Tables, a: Answers): Record
  {
    if r.chain == POLY then PolyCounted(r, t, a.polyFails) else Counted(r, newest, t, a)
  }

  function RunAll(records: seq<Record>, t: Tables, a: Answers): seq<Record>
    requires records != []
  {
    if !HasWork(Newest(records), t) then records else
    var all := WithMissing(records, a.missing, t);
    seq(|all|, i requires 0 <= i < |all| => AfterRun(all[i], Newest(records), t, a))
  }

  // Conservation

  /** Where the counting of a chain began. */
  datatype Start = Start(inCount: int, outCount: int, inFrom: int, outFrom: int)

  /** How many transactions runs have counted too many, or too few when negative. */
  datatype Misread = Misread(inCount: int, outCount: int)

  /** The counters are what the chain started with, plus its transactions since, plus what was misread. */
  ghost predicate Accounted(r: Record, start: Start, off: Misread, t: Tables)
  {
    && start.inFrom <= r.lastIn && start.outFrom <= r.lastOut
    && r.inCount == start.inCount + off.inCount + Total(t.dst, RowsOf(r.chain), start.inFrom, r.lastIn)
    && r.outCount == start.outCount + off.outCount + Total(t.src, RowsOf(r.chain), start.outFrom, r.lastOut)
  }

  /** Each transaction since the start is counted once. */
  ghost predicate Conserved(r: Record, start: Start, t: Tables) { Accounted(r, start, Misread(0, 0), t) }

  ghost predicate UniqueChains(records: seq<Record>)
  {
    forall i, j :: 0 <= i < j < |records| ==> records[i].chain != records[j].chain
  }

  /** The chains found without a record: each once. */
  ghost predicate AreMissing(missing: seq<int>, records: seq<Record>)
  {
    && (forall i, j :: 0 <= i < j < |missing| ==> missing[i] != missing[j])
    && (forall r :: r in records ==> r.chain !in missing)
  }

  /** The lower end of the window that a run with checkpoint `after` really reads. */
  function Clip(after: int, upTo: int): int { if upTo <= after then upTo else after }

  /**
   When what a run adds is right. Reading from `after` although the chain stands at `stands` is right
   exactly when the chain has no transaction between the two; a failed query, exactly when it has none at all.
   */
  lemma AddedIsExactIff(rows: seq<Transfer>, chain: int, after: int, stands: int, upTo: int, fails: bool)
    requires stands <= upTo
    ensures Added(rows, chain, after, upTo, fails) == Total(rows, RowsOf(chain), stands, upTo)
       <==> if fails then NoneIn(rows, RowsOf(chain), stands, upTo)
            else
              && NoneIn(rows, RowsOf(chain), Clip(after, upTo), stands)
              && NoneIn(rows, RowsOf(chain), stands, Clip(after, upTo))
  {
    var m := RowsOf(chain);
    var from := Clip(after, upTo);
    CountsAreNatural(rows, m, stands, upTo);
    CountsAreNatural(rows, m, from, stands);
    CountsAreNatural(rows, m, stands, from);
    TotalOutsideEmpty(rows, m, upTo, upTo);
    if from <= stands {
      TotalSplits(rows, m, from, stands, upTo);
    } else {
      TotalSplits(rows, m, stands, from, upTo);
    }
  }

  lemma TotalOutsideEmpty(rows: seq<Transfer>, m: Measure, a: int, b: int)
    requires b <= a
    ensures Total(rows, m, a, b) == 0
  {
    TotalOutside(rows, m, a, b);
  }

  /** What a run misreads for a chain that stands at `stands`. */
  function Excess(rows: seq<Transfer>, chain: int, after: int, stands: int, fails: bool): int
  {
    Added(rows, chain, after, LastId(rows), fails) - Total(rows, RowsOf(chain), stands, LastId(rows))
  }

  function MisreadBy(chain: int, newest: Record, lastIn: int, lastOut: int, t: Tables, a: Answers): Misread
  {
    Misread(Excess(t.dst, chain, newest.lastIn, lastIn, a.inFails),
        Excess(t.src, chain, newest.lastOut, lastOut, a.outFails))
  }

  /**
   A run reads the right transactions of a chain: none lies between the checkpoint it reads from and the
   chain's own; and if the query fails, none lies after the chain's own.
   */
  ghost predicate ReadsRight(rows: seq<Transfer>, chain: int, after: int, stands: int, fails: bool)
  {
    if fails then NoneIn(rows, RowsOf(chain), stands, LastId(rows))
    else
      var from := Clip(after, LastId(rows));
      NoneIn(rows, RowsOf(chain), from, stands) && NoneIn(rows, RowsOf(chain), stands, from)
  }

  ghost predicate RunIsRight(chain: int, newest: Record, lastIn: int, lastOut: int, t: Tables, a: Answers)
  {
    && ReadsRight(t.dst, chain, newest.lastIn, lastIn, a.inFails)
    && ReadsRight(t.src, chain, newest.lastOut, lastOut, a.outFails)
  }

  lemma MisreadsNothingIff(chain: int, newest: Record, lastIn: int, lastOut: int, t: Tables, a: Answers)
    requires lastIn <= LastId(t.dst) && lastOut <= LastId(t.src)
    ensures MisreadBy(chain, newest, lastIn, lastOut, t, a) == Misread(0, 0)
          <==> RunIsRight(chain, newest, lastIn, lastOut, t, a)
  {
    AddedIsExactIff(t.dst, chain, newest.lastIn, lastIn, LastId(t.dst), a.inFails);
    AddedIsExactIff(t.src, chain, newest.lastOut, lastOut, LastId(t.src), a.outFails);
  }

  /** Whatever it reads, a run's counters are accounted for by what it misreads. */
  lemma RunAccounts(r: Record, newest: Record, start: Start, off: Misread, t: Tables, a: Answers)
    requires r.chain != POLY && Accounted(r, start, off, t)
    requires r.lastIn <= LastId(t.dst) && r.lastOut <= LastId(t.src)
    ensures Accounted(AfterRun(r, newest, t, a), start,
          Plus(off, MisreadBy(r.chain, newest, r.lastIn, r.lastOut, t, a)), t)
  {
    TotalSplits(t.dst, RowsOf(r.chain), start.inFrom, r.lastIn, LastId(t.dst));
    TotalSplits(t.src, RowsOf(r.chain), start.outFrom, r.lastOut, LastId(t.src));
  }

  function Plus(a: Misread, b: Misread): Misread { Misread(a.inCount + b.inCount, a.outCount + b.outCount) }

  /**
   A run keeps a conserved chain conserved if and only if the chain has no transaction between the newest
   record's checkpoint and its own, and none since its own where a query failed.
   */
  lemma RunConservesIff(r: Record, newest: Record, start: Start, t: Tables, a: Answers)
    requires r.chain != POLY && Conserved(r, start, t)
    requires r.lastIn <= LastId(t.dst) && r.lastOut <= LastId(t.src)
    ensures Conserved(AfterRun(r, newest, t, a), start, t) <==> RunIsRight(r.chain, newest, r.lastIn, r.lastOut, t, a)
  {
    RunAccounts(r, newest, start, Misread(0, 0), t, a);
    MisreadsNothingIff(r.chain, newest, r.lastIn, r.lastOut, t, a);
  }

  /**
   With poly's record the newest, the window starts at poly's checkpoint, an id of another table. Here a
   transaction already counted is counted again.
   */
  lemma NewestPolyCountsTwice(chain: int, counted: Transfer, later: Transfer)
    requires chain != POLY && counted.asset.chain == later.asset.chain == chain && counted.id == 1 && later.id == 2
    ensures
      var t := Tables([counted, later], [], []);
      var records := [Record(chain, 1, 0, 1, 0), Record(POLY, 0, 0, 0, 0)];
      var start := Start(0, 0, 0, 0);
      && Conserved(records[0], start, t)
      && RunAll(records, t, Answers(false, false, false, []))[0] == Record(chain, 3, 0, 2, 0)
      && Total(t.dst, RowsOf(chain), 0, 2) == 2
  {
    var rows := [counted, later];
    var m := RowsOf(chain);
    forall upTo | 1 <= upTo <= 2 ensures Total(rows, m, 0, upTo) == upTo {
      assert rows[..1] == [counted];
      assert Total([counted], m, 0, upTo) == 1 by { assert [counted][..0] == []; }
    }
    assert Total(rows, m, 0, 1) == 1 && Total(rows, m, 0, 2) == 2;
  }

  // The run as the program makes it

  class ChainStatistics {
    var records: seq<Record>

    constructor (records: seq<Record>)
      ensures this.records == records
    {
      this.records := records;
    }

    /** The first group of the chain, if there is one. */
    method CountOf(groups: seq<Group>, chain: int, ghost rows: seq<Transfer>, ghost after: int,
                   ghost upTo: int) returns (count: int)
      requires IsGrouped(groups, rows, after, upTo)
      ensures count == Total(rows, RowsOf(chain), after, upTo)
    {
      count := 0;
      for i := 0 to |groups|
        invariant forall k :: 0 <= k < i ==> groups[k].chain != chain
      {
        if groups[i].chain == chain {
          return groups[i].count;
        }
      }
    }

    /**
     One run over all records. `inGroups` and `outGroups` are what the two grouped queries return for the
     windows the run asks for; they are empty when the query is not made or fails.
     */
    method ComputeChainStatistics(t: Tables, a: Answers, inGroups: seq<Group>, outGroups: seq<Group>)
      requires records != []
      requires if a.inFails || LastId(t.dst) <= Newest(records).lastIn then inGroups == []
               else IsGrouped(inGroups, t.dst, Newest(records).lastIn, LastId(t.dst))
      requires if a.outFails || LastId(t.src) <= Newest(records).lastOut then outGroups == []
               else IsGrouped(outGroups, t.src, Newest(records).lastOut, LastId(t.src))
      requires UniqueChains(WithMissing(records, a.missing, t))
      modifies this
      ensures records == RunAll(old(records), t, a)
    {
      var newest := Newest(records);
      var nowInId, nowOutId := LastId(t.dst), LastId(t.src);
      if !(nowInId > newest.lastIn || nowOutId > newest.lastOut) {
        return;
      }
      var all := WithMissing(records, a.missing, t);
      var i := 0;
      while i < |all|
        invariant 0 <= i <= |all| == |WithMissing(old(records), a.missing, t)|
        invariant forall k :: 0 <= k < i ==> all[k] == Counted(WithMissing(old(records), a.missing, t)[k], newest, t, a)
        invariant forall k :: i <= k < |all| ==> all[k] == WithMissing(old(records), a.missing, t)[k]
      {
        var r := all[i];
        if r.chain != POLY {
          var addedIn, addedOut := 0, 0;
          if !a.inFails && nowInId > newest.lastIn {
            addedIn := CountOf(inGroups, r.chain, t.dst, newest.lastIn, nowInId);
          }
          if !a.outFails && nowOutId > newest.lastOut {
            addedOut := CountOf(outGroups, r.chain, t.src, newest.lastOut, nowOutId);
          }
          all := all[i := Record(r.chain, r.inCount + addedIn, r.outCount + addedOut, nowInId, nowOutId)];
        }
        i := i + 1;
      }
      records := CountPoly(all, t, a.polyFails);
    }

    /** The loop that updates the first record of the poly chain and stops. */
    method CountPoly(all: seq<Record>, t: Tables, fails: bool) returns (counted: seq<Record>)
      requires UniqueChains(all)
      ensures |counted| == |all|
      ensures forall k :: 0 <= k < |all| ==> counted[k] == if all[k].chain == POLY then PolyCounted(all[k], t, fails)
            else all[k]
    {
      counted := all;
      for i := 0 to |all|
        invariant counted == all
        invariant forall k :: 0 <= k < i ==> all[k].chain != POLY
      {
        if all[i].chain == POLY {
          counted := all[i := PolyCounted(all[i], t, fails)];
          return;
        }
      }
    }
  }
}
