/**
 Histories of the chain counters: new transactions, runs, and the other writer of the table, which reads all
 rows to fill in their addresses and saves them whole, counters and checkpoints included.
 */
module ChainHistories {
  import opened Options
  import opened Ledger
  import opened ChainCounters

  /** A row of the table, with where its counting began and what was misread for it. */
  datatype Entry = Entry(record: Record, start: Start, off: Misread)

  /** `copy` is what the pass over the addresses has read and will save whole. */
  datatype State = State(t: Tables, entries: seq<Entry>, copy: Option<seq<Entry>>)

  datatype Event =
    | Append(dst: seq<Transfer>, src: seq<Transfer>, poly: seq<Transfer>)
    | Run(answers: Answers)
    | ReadRows
    | SaveRows(ok: bool)

  function Rows(entries: seq<Entry>): seq<Record>
  {
    seq(|entries|, i requires 0 <= i < |entries| => entries[i].record)
  }

  predicate Works(s: State) { s.entries != [] && HasWork(Newest(Rows(s.entries)), s.t) }

  function NewestOf(s: State): Record
    requires s.entries != []
  {
    s.entries[|s.entries| - 1].record
  }

  /**
   A chain without a record begins where the windows of the run begin; poly's begins at the ids of the other
   tables.
   */
  function NewEntry(c: int, newest: Record, t: Tables): Entry
  {
    var lastIn, lastOut := Clip(newest.lastIn, LastId(t.dst)), Clip(newest.lastOut, LastId(t.src));
    Entry(if c == POLY then Record(c, 0, 0, LastId(t.dst), LastId(t.src)) else Record(c, 0, 0, lastIn, lastOut),
          Start(0, 0, lastIn, lastOut), Misread(0, 0))
  }

  /** What a run counts on: the rows, and those it adds. */
  function Before(s: State, a: Answers): seq<Entry>
    requires s.entries != []
  {
    s.entries + seq(|a.missing|, i requires 0 <= i < |a.missing| => NewEntry(a.missing[i], NewestOf(s), s.t))
  }

  function RunEntry(e: Entry, newest: Record, t: Tables, a: Answers): Entry
  {
    Entry(AfterRun(e.record, newest, t, a), e.start,
          Plus(e.off, MisreadBy(e.record.chain, newest, e.record.lastIn, e.record.lastOut, t, a)))
  }

  function RunEntries(s: State, a: Answers): seq<Entry>
    requires s.entries != []
  {
    var before := Before(s, a);
    seq(|before|, i requires 0 <= i < |before| => RunEntry(before[i], NewestOf(s), s.t, a))
  }

  /** The rows saved replace those they were read from; rows added since stay. */
  function Overlay(entries: seq<Entry>, copy: seq<Entry>): seq<Entry>
  {
    seq(|entries|, i requires 0 <= i < |entries| => if i < |copy| then copy[i] else entries[i])
  }

  ghost predicate Enabled(s: State, e: Event)
  {
    match e
    case Append(d, src, _) => Increasing(s.t.dst + d) && Increasing(s.t.src + src)
    case Run(a) => AreMissing(a.missing, Rows(s.entries))
    case ReadRows => true
    case SaveRows(_) => s.copy.Some?
  }

  function Next(s: State, e: Event): State
  {
    match e
    case Append(d, src, poly) => s.(t := Tables(s.t.dst + d, s.t.src + src, s.t.poly + poly))
    case Run(a) => if Works(s) then s.(entries := RunEntries(s, a)) else s
    case ReadRows => s.(copy := Some(s.entries))
    case SaveRows(ok) =>
      if ok && s.copy.Some? then State(s.t, Overlay(s.entries, s.copy.value), None) else s.(copy := None)
  }

  /** A new record counts the same wherever it is taken to stand before the run. */
  lemma NewRecordCounts(c: int, newest: Record, t: Tables, a: Answers)
    ensures AfterRun(NewEntry(c, newest, t).record, newest, t, a)
         == AfterRun(Record(c, 0, 0, LastId(t.dst), LastId(t.src)), newest, t, a)
  {
  }

  lemma BeforeAt(s: State, a: Answers, i: nat)
    requires s.entries != [] && i < |s.entries| + |a.missing|
    ensures
      var all := WithMissing(Rows(s.entries), a.missing, s.t);
      && |Before(s, a)| == |all| == |s.entries| + |a.missing|
      && Before(s, a)[i].record.chain == all[i].chain
      && AfterRun(Before(s, a)[i].record, NewestOf(s), s.t, a) == AfterRun(all[i], NewestOf(s), s.t, a)
  {
    if i >= |s.entries| {
      NewRecordCounts(a.missing[i - |s.entries|], NewestOf(s), s.t, a);
    }
  }

  /** The rows of the history are those of the runs as the program makes them. */
  lemma RunIsRunAll(s: State, a: Answers)
    requires s.entries != []
    ensures Rows(Next(s, Run(a)).entries) == RunAll(Rows(s.entries), s.t, a)
  {
    if Works(s) {
      var rows, ran := Rows(RunEntries(s, a)), RunAll(Rows(s.entries), s.t, a);
      assert Newest(Rows(s.entries)) == NewestOf(s);
      assert |rows| == |ran|;
      forall i | 0 <= i < |rows| ensures rows[i] == ran[i] {
        BeforeAt(s, a, i);
      }
    }
  }

  /** A chain other than poly is accounted for, at checkpoints within the tables. */
  ghost predicate EntryInv(e: Entry, t: Tables)
  {
    e.record.chain != POLY ==>
      Accounted(e.record, e.start, e.off, t) && e.record.lastIn <= LastId(t.dst) && e.record.lastOut <= LastId(t.src)
  }

  ghost predicate AllAccounted(entries: seq<Entry>,
                               t: Tables) { forall i :: 0 <= i < |entries| ==> EntryInv(entries[i], t) }

  ghost predicate SameChains(copy: seq<Entry>, entries: seq<Entry>)
  {
    |copy| <= |entries| && forall i :: 0 <= i < |copy| ==> copy[i].record.chain == entries[i].record.chain
  }

  ghost predicate Inv(s: State)
  {
    && Increasing(s.t.dst) && Increasing(s.t.src)
    && UniqueChains(Rows(s.entries)) && AllAccounted(s.entries, s.t)
    && (s.copy.Some? ==> SameChains(s.copy.value, s.entries) && AllAccounted(s.copy.value, s.t))
  }

  lemma MissingStaysUnique(records: seq<Record>, missing: seq<int>, t: Tables)
    requires UniqueChains(records) && AreMissing(missing, records)
    ensures UniqueChains(WithMissing(records, missing, t))
  {
    var all := WithMissing(records, missing, t);
    forall i, j | 0 <= i < j < |all| ensures all[i].chain != all[j].chain {
      if i < |records| && j >= |records| {
        assert records[i] in records;
      }
    }
  }

  lemma NewEntryAccounted(c: int, newest: Record, t: Tables)
    ensures EntryInv(NewEntry(c, newest, t), t)
  {
    var e := NewEntry(c, newest, t);
    TotalOutside(t.dst, RowsOf(c), e.start.inFrom, e.start.inFrom);
    TotalOutside(t.src, RowsOf(c), e.start.outFrom, e.start.outFrom);
  }

  lemma BeforeAccounted(s: State, a: Answers)
    requires Inv(s) && s.entries != []
    ensures AllAccounted(Before(s, a), s.t)
  {
    var before := Before(s, a);
    forall i | 0 <= i < |before| ensures EntryInv(before[i], s.t) {
      if i >= |s.entries| {
        NewEntryAccounted(a.missing[i - |s.entries|], NewestOf(s), s.t);
      }
    }
  }

  lemma RunEntryAccounted(e: Entry, newest: Record, t: Tables, a: Answers)
    requires EntryInv(e, t)
    ensures EntryInv(RunEntry(e, newest, t, a), t)
  {
    if e.record.chain != POLY {
      RunAccounts(e.record, newest, e.start, e.off, t, a);
    }
  }

  lemma RunKeepsChain(r: Record, newest: Record, t: Tables, a: Answers)
    ensures AfterRun(r, newest, t, a).chain == r.chain
  {
  }

  lemma SameChainsUnique(x: seq<Record>, y: seq<Record>)
    requires |x| == |y| && UniqueChains(y) && forall i :: 0 <= i < |x| ==> x[i].chain == y[i].chain
    ensures UniqueChains(x)
  {
  }

  lemma RunKeepsChains(s: State, a: Answers)
    requires s.entries != [] && UniqueChains(Rows(s.entries)) && AreMissing(a.missing, Rows(s.entries))
    ensures UniqueChains(Rows(RunEntries(s, a))) && SameChains(s.entries, RunEntries(s, a))
  {
    var before, ran := Before(s, a), RunEntries(s, a);
    var rows, all := Rows(ran), WithMissing(Rows(s.entries), a.missing, s.t);
    MissingStaysUnique(Rows(s.entries), a.missing, s.t);
    assert |rows| == |ran| == |before| == |all|;
    forall i | 0 <= i < |rows| ensures ran[i].record.chain == before[i].record.chain == rows[i].chain == all[i].chain {
      BeforeAt(s, a, i);
      RunKeepsChain(before[i].record, NewestOf(s), s.t, a);
    }
    SameChainsUnique(rows, all);
  }

  lemma RunKeepsInv(s: State, a: Answers)
    requires Inv(s) && Enabled(s, Run(a))
    ensures Inv(Next(s, Run(a)))
  {
    if Works(s) {
      var before, ran := Before(s, a), RunEntries(s, a);
      RunKeepsChains(s, a);
      BeforeAccounted(s, a);
      forall i | 0 <= i < |ran| ensures EntryInv(ran[i], s.t) {
        RunEntryAccounted(before[i], NewestOf(s), s.t, a);
      }
    }
  }

  lemma EntryStaysAccounted(e: Entry, t: Tables, t': Tables, d: seq<Transfer>, src: seq<Transfer>)
    requires EntryInv(e, t) && Increasing(t'.dst) && Increasing(t'.src)
    requires t'.dst == t.dst + d && t'.src == t.src + src
    ensures EntryInv(e, t')
  {
    if e.record.chain != POLY {
      LastIdGrows(t.dst, d);
      LastIdGrows(t.src, src);
      WindowIsStable(t.dst, d, RowsOf(e.record.chain), e.start.inFrom, e.record.lastIn);
      WindowIsStable(t.src, src, RowsOf(e.record.chain), e.start.outFrom, e.record.lastOut);
    }
  }

  /** New transactions change nothing that has been counted. */
  lemma AppendKeepsInv(s: State, d: seq<Transfer>, src: seq<Transfer>, poly: seq<Transfer>)
    requires Inv(s) && Enabled(s, Append(d, src, poly))
    ensures Inv(Next(s, Append(d, src, poly)))
  {
    var t := Next(s, Append(d, src, poly)).t;
    forall e | EntryInv(e, s.t) ensures EntryInv(e, t) {
      EntryStaysAccounted(e, s.t, t, d, src);
    }
  }

  lemma LastIdGrows(rows: seq<Transfer>, more: seq<Transfer>)
    requires Increasing(rows + more)
    ensures LastId(rows) <= LastId(rows + more)
  {
    if more == [] {
      assert rows + more == rows;
    } else if rows != [] {
      assert (rows + more)[|rows| - 1] == rows[|rows| - 1];
    }
  }

  /** Saving older rows puts counters and checkpoints back together. */
  lemma SaveKeepsInv(s: State, ok: bool)
    requires Inv(s) && Enabled(s, SaveRows(ok))
    ensures Inv(Next(s, SaveRows(ok)))
  {
    if ok {
      var saved := Overlay(s.entries, s.copy.value);
      forall i | 0 <= i < |saved| ensures Rows(saved)[i].chain == Rows(s.entries)[i].chain && EntryInv(saved[i], s.t) {
        if i < |s.copy.value| {
          assert EntryInv(s.copy.value[i], s.t);
        } else {
          assert EntryInv(s.entries[i], s.t);
        }
      }
    }
  }

  lemma NextKeepsInv(s: State, e: Event)
    requires Inv(s) && Enabled(s, e)
    ensures Inv(Next(s, e))
  {
    match e {
      case Append(d, src, poly) => AppendKeepsInv(s, d, src, poly);
      case Run(a) => RunKeepsInv(s, a);
      case ReadRows =>
      case SaveRows(ok) => SaveKeepsInv(s, ok);
    }
  }

  function After(s: State, events: seq<Event>): State
  {
    if events == [] then s else Next(After(s, events[..|events| - 1]), events[|events| - 1])
  }

  ghost predicate Possible(s: State, events: seq<Event>)
  {
    forall k :: 0 <= k < |events| ==> Enabled(After(s, events[..k]), events[k])
  }

  lemma PrefixIsPossible(s: State, events: seq<Event>, n: nat)
    requires Possible(s, events) && n <= |events|
    ensures Possible(s, events[..n])
  {
    forall k | 0 <= k < n ensures Enabled(After(s, events[..n][..k]), events[..n][k]) {
      assert events[..n][..k] == events[..k];
    }
  }

  /**
   Over every history of new transactions, runs and saves of whole rows, also with failing queries and with
   poly's record the newest, each counter is its start plus the transactions since, up to its own checkpoint,
   plus what the runs behind it misread.
   */
  lemma {:induction false} CountersAreAccounted(s: State, events: seq<Event>)
    requires Inv(s) && Possible(s, events)
    ensures Inv(After(s, events))
  {
    if events == [] {
    } else {
      var n := |events| - 1;
      PrefixIsPossible(s, events, n);
      CountersAreAccounted(s, events[..n]);
      NextKeepsInv(After(s, events[..n]), events[n]);
    }
  }

  // Shared checkpoints

  /** All chains but poly stand at one pair of checkpoints. */
  ghost predicate SameStand(entries: seq<Entry>)
  {
    forall d, e :: d in entries && e in entries && d.record.chain != POLY && e.record.chain != POLY ==>
      d.record.lastIn == e.record.lastIn && d.record.lastOut == e.record.lastOut
  }

  /** Either table has an id above the checkpoints of the newest record. */
  ghost predicate HasNewIds(s: State)
  {
    s.entries != [] && (LastId(s.t.dst) > NewestOf(s).lastIn || LastId(s.t.src) > NewestOf(s).lastOut)
  }

  /** A run does something exactly when either table has grown past the newest record. */
  lemma WorksIffNewIds(s: State)
    ensures Works(s) <==> HasNewIds(s)
  {
  }

  /** A run then brings all chains but poly to the newest ids of both tables, wherever they stood. */
  lemma RunShares(s: State, a: Answers)
    requires HasNewIds(s)
    ensures SameStand(Next(s, Run(a)).entries)
    ensures forall e :: e in Next(s, Run(a)).entries && e.record.chain != POLY ==>
              e.record.lastIn == LastId(s.t.dst) && e.record.lastOut == LastId(s.t.src)
  {
    WorksIffNewIds(s);
  }

  /** Without new ids nothing changes. */
  lemma IdleRun(s: State, a: Answers)
    requires !HasNewIds(s)
    ensures Next(s, Run(a)) == s
  {
    WorksIffNewIds(s);
  }

  // Conservation

  /** Nothing was misread for the chain; poly's record counts apart. */
  ghost predicate Unerring(e: Entry) { e.record.chain != POLY ==> e.off == Misread(0, 0) }

  ghost predicate NothingMisread(entries: seq<Entry>)
  {
    forall e :: e in entries ==> Unerring(e)
  }

  ghost predicate EntryReadsRight(e: Entry, newest: Record, t: Tables, a: Answers)
  {
    e.record.chain != POLY ==> RunIsRight(e.record.chain, newest, e.record.lastIn, e.record.lastOut, t, a)
  }

  /** The run reads the right transactions of every chain it counts on. */
  ghost predicate RunReadsRight(s: State, a: Answers)
    requires s.entries != []
  {
    forall e :: e in Before(s, a) ==> EntryReadsRight(e, NewestOf(s), s.t, a)
  }

  lemma MoreMisreadsNothingIff(off: Misread, chain: int, newest: Record, lastIn: int, lastOut: int, t: Tables,
                               a: Answers)
    requires off == Misread(0, 0) && lastIn <= LastId(t.dst) && lastOut <= LastId(t.src)
    ensures Plus(off, MisreadBy(chain, newest, lastIn, lastOut, t, a)) == Misread(0, 0)
       <==> RunIsRight(chain, newest, lastIn, lastOut, t, a)
  {
    MisreadsNothingIff(chain, newest, lastIn, lastOut, t, a);
    PlusNothing(off, MisreadBy(chain, newest, lastIn, lastOut, t, a));
  }

  lemma PlusNothing(none: Misread, m: Misread)
    requires none == Misread(0, 0)
    ensures Plus(none, m) == m
  {
  }

  lemma BeforeUnerring(s: State, a: Answers)
    requires s.entries != [] && NothingMisread(s.entries)
    ensures forall e :: e in Before(s, a) ==> Unerring(e)
  {
    forall e | e in Before(s, a) ensures Unerring(e) {
      var i :| 0 <= i < |Before(s, a)| && Before(s, a)[i] == e;
      if i < |s.entries| {
        assert s.entries[i] in s.entries;
      }
    }
  }

  /** A run that starts with nothing misread leaves nothing misread if and only if it reads right. */
  lemma RunMisreadsNothingIff(s: State, a: Answers)
    requires Inv(s) && Works(s) && NothingMisread(s.entries)
    ensures NothingMisread(Next(s, Run(a)).entries) <==> RunReadsRight(s, a)
  {
    var before, ran := Before(s, a), RunEntries(s, a);
    BeforeAccounted(s, a);
    BeforeUnerring(s, a);
    forall i | 0 <= i < |before| ensures Unerring(ran[i]) <==> EntryReadsRight(before[i], NewestOf(s), s.t, a) {
      assert before[i] in before;
      var r := before[i].record;
      RunKeepsChain(r, NewestOf(s), s.t, a);
      if r.chain != POLY {
        MoreMisreadsNothingIff(before[i].off, r.chain, NewestOf(s), r.lastIn, r.lastOut, s.t, a);
      }
    }
    EachIff(before, ran, NewestOf(s), s.t, a);
  }

  lemma EachIff(before: seq<Entry>, ran: seq<Entry>, newest: Record, t: Tables, a: Answers)
    requires |before| == |ran|
    requires forall i :: 0 <= i < |before| ==> (Unerring(ran[i]) <==> EntryReadsRight(before[i], newest, t, a))
    ensures NothingMisread(ran) <==> forall e :: e in before ==> EntryReadsRight(e, newest, t, a)
  {
    if NothingMisread(ran) {
      forall e | e in before ensures EntryReadsRight(e, newest, t, a) {
        var i :| 0 <= i < |before| && before[i] == e;
        assert ran[i] in ran;
      }
    } else {
      var e :| e in ran && !Unerring(e);
      var i :| 0 <= i < |ran| && ran[i] == e;
      assert before[i] in before;
    }
  }

  /** Every run of the history that works reads right. */
  ghost predicate AllRunsRight(s: State, events: seq<Event>)
  {
    events == [] ||
    var n := |events| - 1;
    var u := After(s, events[..n]);
    AllRunsRight(s, events[..n]) && (events[n].Run? && Works(u) ==> RunReadsRight(u, events[n].answers))
  }

  ghost predicate ConservedState(s: State)
  {
    Inv(s) && NothingMisread(s.entries) && (s.copy.Some? ==> NothingMisread(s.copy.value))
  }

  lemma NextConserves(s: State, e: Event)
    requires ConservedState(s) && Enabled(s, e) && (e.Run? && Works(s) ==> RunReadsRight(s, e.answers))
    ensures ConservedState(Next(s, e))
  {
    NextKeepsInv(s, e);
    if e.Run? && Works(s) {
      RunMisreadsNothingIff(s, e.answers);
    }
  }

  /**
   Chain-counter conservation. Over any history whose runs all read right, whole rows being saved in between,
   no transaction between a chain's start and its checkpoint is left out of its counters or counted twice.
   */
  lemma {:induction false} CountersAreConserved(s: State, events: seq<Event>)
    requires ConservedState(s) && Possible(s, events) && AllRunsRight(s, events)
    ensures
      var u := After(s, events);
      && ConservedState(u)
      && forall i :: 0 <= i < |u.entries| && u.entries[i].record.chain != POLY ==>
           Conserved(u.entries[i].record, u.entries[i].start, u.t)
  {
    if events == [] {
      assert forall i :: 0 <= i < |s.entries| ==> s.entries[i] in s.entries && EntryInv(s.entries[i], s.t);
    } else {
      var n := |events| - 1;
      PrefixIsPossible(s, events, n);
      CountersAreConserved(s, events[..n]);
      NextConserves(After(s, events[..n]), events[n]);
      var u := After(s, events);
      assert forall i :: 0 <= i < |u.entries| ==> u.entries[i] in u.entries && EntryInv(u.entries[i], u.t);
    }
  }

  // Usual histories

  ghost predicate SharedState(s: State) { SameStand(s.entries) && (s.copy.Some? ==> SameStand(s.copy.value)) }

  /**
   Runs whose queries succeed and that find a record other than poly's newest; and no chain is added between
   the reading and the saving of whole rows.
   */
  ghost predicate UsualEvent(s: State, e: Event)
  {
    match e
    case Run(a) => Works(s) ==> NewestOf(s).chain != POLY && !a.inFails && !a.outFails
    case SaveRows(_) => s.copy.Some? ==> |s.copy.value| == |s.entries|
    case _ => true
  }

  lemma UsualRunReadsRight(s: State, a: Answers)
    requires Inv(s) && SharedState(s) && Works(s) && UsualEvent(s, Run(a))
    ensures RunReadsRight(s, a)
  {
    var newest := s.entries[|s.entries| - 1];
    assert newest in s.entries && EntryInv(newest, s.t);
    forall e | e in Before(s, a) ensures EntryReadsRight(e, newest.record, s.t, a) {
      var i :| 0 <= i < |Before(s, a)| && Before(s, a)[i] == e;
    }
  }

  lemma UsualEventShares(s: State, e: Event)
    requires SharedState(s) && Enabled(s, e) && UsualEvent(s, e)
    ensures SharedState(Next(s, e))
  {
    match e {
      case Run(a) => if Works(s) { WorksIffNewIds(s); RunShares(s, a); }
      case SaveRows(ok) => if ok { assert Overlay(s.entries, s.copy.value) == s.copy.value; }
      case _ =>
    }
  }

  ghost predicate UsualHistory(s: State, events: seq<Event>)
  {
    forall k :: 0 <= k < |events| ==> UsualEvent(After(s, events[..k]), events[k])
  }

  /**
   When conservation survives: in usual histories all chains keep sharing their checkpoints, and nothing is
   misread.
   */
  lemma {:induction false} UsualHistoriesConserve(s: State, events: seq<Event>)
    requires ConservedState(s) && SharedState(s) && Possible(s, events) && UsualHistory(s, events)
    ensures ConservedState(After(s, events)) && SharedState(After(s, events))
  {
    if events == [] {
    } else {
      var n := |events| - 1;
      PrefixIsPossible(s, events, n);
      PrefixIsUsual(s, events, n);
      UsualHistoriesConserve(s, events[..n]);
      UsualEventConserves(After(s, events[..n]), events[n]);
    }
  }

  lemma PrefixIsUsual(s: State, events: seq<Event>, n: nat)
    requires UsualHistory(s, events) && n < |events|
    ensures UsualHistory(s, events[..n]) && UsualEvent(After(s, events[..n]), events[n])
  {
    forall k | 0 <= k < n ensures UsualEvent(After(s, events[..n][..k]), events[..n][k]) {
      assert events[..n][..k] == events[..k];
    }
  }

  lemma UsualEventConserves(s: State, e: Event)
    requires ConservedState(s) && SharedState(s) && Enabled(s, e) && UsualEvent(s, e)
    ensures ConservedState(Next(s, e)) && SharedState(Next(s, e))
  {
    UsualEventShares(s, e);
    if e.Run? && Works(s) {
      UsualRunReadsRight(s, e.answers);
    }
    NextConserves(s, e);
  }

  // Poly's own counter

  /** Poly's counters are what it started with plus the rows of its own table since, each once. */
  ghost predicate PolyConserved(r: Record, start: Record, poly: seq<Transfer>)
  {
    && r.chain == POLY && Increasing(poly) && start.lastIn <= r.lastIn <= LastId(poly)
    && r.inCount - start.inCount == r.outCount - start.outCount == |SelectWindow(poly, start.lastIn, r.lastIn)|
  }

  lemma {:induction false} SelectSplits(rows: seq<Transfer>, a: int, b: int, c: int)
    requires a <= b <= c
    ensures |SelectWindow(rows, a, c)| == |SelectWindow(rows, a, b)| + |SelectWindow(rows, b, c)|
  {
    if rows == [] {
    } else {
      SelectSplits(rows[..|rows| - 1], a, b, c);
    }
  }

  lemma {:induction false} SelectIsStable(rows: seq<Transfer>, more: seq<Transfer>, a: int, b: int)
    requires Increasing(rows + more) && b <= LastId(rows)
    ensures SelectWindow(rows + more, a, b) == SelectWindow(rows, a, b)
  {
    if more == [] {
      assert rows + more == rows;
    } else {
      var n := |more| - 1;
      assert (rows + more)[..|rows| + n] == rows + more[..n];
      assert (rows + more)[|rows| + n].id > b by {
        if rows != [] { assert (rows + more)[|rows| - 1] == rows[|rows| - 1]; }
      }
      SelectIsStable(rows, more[..n], a, b);
    }
  }

  /** The record at place i, and the copy of it to be saved, are conserved. */
  ghost predicate PolyKept(s: State, i: nat, start: Record)
  {
    && i < |s.entries| && PolyConserved(s.entries[i].record, start, s.t.poly)
    && (s.copy.Some? && i < |s.copy.value| ==> PolyConserved(s.copy.value[i].record, start, s.t.poly))
  }

  lemma PolyRunConserves(r: Record, newest: Record, t: Tables, a: Answers, start: Record)
    requires PolyConserved(r, start, t.poly)
    ensures PolyConserved(AfterRun(r, newest, t, a), start, t.poly)
  {
    SelectSplits(t.poly, start.lastIn, r.lastIn, LastId(t.poly));
  }

  lemma PolyAppendConserves(r: Record, start: Record, poly: seq<Transfer>, more: seq<Transfer>)
    requires PolyConserved(r, start, poly) && Increasing(poly + more)
    ensures PolyConserved(r, start, poly + more)
  {
    LastIdGrows(poly, more);
    SelectIsStable(poly, more, start.lastIn, r.lastIn);
  }

  lemma NextKeepsPoly(s: State, e: Event, i: nat, start: Record)
    requires PolyKept(s, i, start) && Increasing(Next(s, e).t.poly)
    ensures PolyKept(Next(s, e), i, start)
  {
    match e {
      case Append(_, _, poly) =>
        PolyAppendConserves(s.entries[i].record, start, s.t.poly, poly);
        if s.copy.Some? && i < |s.copy.value| {
          PolyAppendConserves(s.copy.value[i].record, start, s.t.poly, poly);
        }
      case Run(a) =>
        if Works(s) {
          assert Before(s, a)[i] == s.entries[i];
          PolyRunConserves(s.entries[i].record, NewestOf(s), s.t, a, start);
        }
      case _ =>
    }
  }

  /**
   Poly's counter is conserved over every history, also when queries fail, when its record is the newest and
   when whole rows are saved: unlike the others, its checkpoint moves only when its query succeeds.
   */
  lemma {:induction false} PolyStaysConserved(s: State, events: seq<Event>, i: nat, start: Record)
    requires PolyKept(s, i, start)
    requires forall k :: 0 <= k <= |events| ==> Increasing(After(s, events[..k]).t.poly)
    ensures PolyKept(After(s, events), i, start)
  {
    if events == [] {
    } else {
      var n := |events| - 1;
      forall k | 0 <= k <= n ensures Increasing(After(s, events[..n][..k]).t.poly) {
        assert events[..n][..k] == events[..k];
      }
      PolyStaysConserved(s, events[..n], i, start);
      assert events[..|events|] == events;
      NextKeepsPoly(After(s, events[..n]), events[n], i, start);
    }
  }

  /**
   From the first run whose poly query succeeds poly's counter is conserved, whatever its record held before: a
   record just added starts at an id of another table.
   */
  lemma PolyIsConservedFrom(s: State, a: Answers, events: seq<Event>, i: nat)
    requires Works(s) && !a.polyFails && i < |Before(s, a)| && Before(s, a)[i].record.chain == POLY
    requires s.copy.Some? ==> i >= |s.copy.value|
    requires var u := Next(s, Run(a)); forall k :: 0 <= k <= |events| ==> Increasing(After(u, events[..k]).t.poly)
    ensures var u := Next(s, Run(a)); PolyKept(After(u, events), i, u.entries[i].record)
  {
    var u := Next(s, Run(a));
    assert events[..0] == [];
    assert Increasing(u.t.poly) by { assert After(u, events[..0]) == u; }
    NothingSelected(u.t.poly, LastId(u.t.poly));
    PolyStaysConserved(u, events, i, u.entries[i].record);
  }

  lemma {:induction false} NothingSelected(rows: seq<Transfer>, a: int)
    ensures SelectWindow(rows, a, a) == []
  {
    if rows == [] {
    } else {
      NothingSelected(rows[..|rows| - 1], a);
    }
  }

  /** The places of the rows with an id above `after`. */
  function PlacesAbove(rows: seq<Transfer>, after: int): set<nat>
  {
    set i: nat | i < |rows| && rows[i].id > after
  }

  lemma {:induction false} SelectedAreAbove(rows: seq<Transfer>, after: int, upTo: int)
    requires forall i :: 0 <= i < |rows| ==> rows[i].id <= upTo
    ensures |SelectWindow(rows, after, upTo)| == |PlacesAbove(rows, after)|
  {
    if rows == [] {
      assert PlacesAbove(rows, after) == {};
    } else {
      var n := |rows| - 1;
      SelectedAreAbove(rows[..n], after, upTo);
      var before := PlacesAbove(rows[..n], after);
      assert n !in before;
      assert PlacesAbove(rows, after) == if rows[n].id > after then before + {n} else before;
    }
  }

  /**
   A run that works counts every poly row above poly's checkpoint, both ways, and brings both of its checkpoints
   to the newest poly row; if its query fails, the record stays as it is.
   */
  lemma RunCountsPoly(s: State, a: Answers, i: nat)
    requires HasNewIds(s) && i < |Before(s, a)| && Before(s, a)[i].record.chain == POLY && Increasing(s.t.poly)
    ensures
      var before, after := Before(s, a)[i].record, Next(s, Run(a)).entries[i].record;
      after == if a.polyFails then before
               else
                 var n := |PlacesAbove(s.t.poly, before.lastIn)|;
                 Record(POLY, before.inCount + n, before.outCount + n, LastId(s.t.poly), LastId(s.t.poly))
  {
    WorksIffNewIds(s);
    forall k | 0 <= k < |s.t.poly| ensures s.t.poly[k].id <= LastId(s.t.poly) {
    }
    SelectedAreAbove(s.t.poly, Before(s, a)[i].record.lastIn, LastId(s.t.poly));
  }

  /** Right after a run whose poly query succeeds, poly's counter is its start plus all rows of its table since. */
  lemma PolyIsCurrent(s: State, a: Answers, i: nat, start: Record)
    requires HasNewIds(s) && !a.polyFails && PolyKept(s, i, start)
    ensures
      var r := Next(s, Run(a)).entries[i].record;
      r.inCount == start.inCount + |PlacesAbove(s.t.poly, start.lastIn)| && r.lastIn == LastId(s.t.poly)
  {
    NextKeepsPoly(s, Run(a), i, start);
    assert Before(s, a)[i] == s.entries[i];
    RunCountsPoly(s, a, i);
    forall k | 0 <= k < |s.t.poly| ensures s.t.poly[k].id <= LastId(s.t.poly) {
    }
    SelectedAreAbove(s.t.poly, start.lastIn, LastId(s.t.poly));
  }

  /** So it is over every history that ends with such a run. */
  lemma PolyIsCurrentAfter(s: State, events: seq<Event>, a: Answers, i: nat, start: Record)
    requires PolyKept(s, i, start)
    requires forall k :: 0 <= k <= |events| ==> Increasing(After(s, events[..k]).t.poly)
    requires HasNewIds(After(s, events)) && !a.polyFails
    ensures
      var u := Next(After(s, events), Run(a));
      && i < |u.entries|
      && u.entries[i].record.inCount == start.inCount + |PlacesAbove(u.t.poly, start.lastIn)|
      && u.entries[i].record.lastIn == LastId(u.t.poly)
  {
    PolyStaysConserved(s, events, i, start);
    PolyIsCurrent(After(s, events), a, i, start);
  }

  lemma FirstIsCounted(row: Entry, added: int, first: Transfer)
    requires row.record == Record(first.asset.chain, 0, 0, 0, 0) && first.id == 1
    requires first.asset.chain != POLY && added != POLY
    ensures
      var s := State(Tables([first], [], []), [row], Some([row]));
      var ran := Next(s, Run(Answers(false, false, false, [added])));
      && |ran.entries| == 2 && ran.entries[0].record == Record(first.asset.chain, 1, 0, 1, 0)
      && ran.entries[1].record.lastIn == 1 && ran.entries[1].record.lastOut == 0
      && ran.entries[1].record.chain == added
  {
    TotalOfOne(first, RowsOf(first.asset.chain), 0, 1);
  }

  lemma WindowStartsAtNewest(row: Entry, other: Entry, first: Transfer, second: Transfer)
    requires row.record == Record(first.asset.chain, 0, 0, 0, 0) && first.asset.chain == second.asset.chain != POLY
    requires other.record.lastIn == 1 && other.record.lastOut == 0 && first.id == 1 && second.id == 2
    ensures
      var s := State(Tables([first, second], [], []), [row, other], None);
      Next(s, Run(Answers(false, false, false, []))).entries[0].record == Record(first.asset.chain, 1, 0, 2, 0)
  {
    TotalOfTwo(first, second, RowsOf(first.asset.chain), 1, 2);
  }

  /**
   A save of whole rows that loses a transaction. The rows are read, a run counts the first transaction and adds
   a chain, and the old row is saved over the new; the next run reads from the checkpoint of the chain added.
   */
  lemma StaleSaveLosesTransaction(added: int, first: Transfer, second: Transfer)
    requires first.asset.chain == second.asset.chain != POLY && added != POLY && first.asset.chain != added
    requires first.id == 1 && second.id == 2
    ensures
      var chain := first.asset.chain;
      var row := Entry(Record(chain, 0, 0, 0, 0), Start(0, 0, 0, 0), Misread(0, 0));
      var read := Next(State(Tables([first], [], []), [row], None), ReadRows);
      var ran := Next(read, Run(Answers(false, false, false, [added])));
      var more := Next(Next(ran, SaveRows(true)), Append([second], [], []));
      var end := Next(more, Run(Answers(false, false, false, [])));
      && ran.entries[0].record == Record(chain, 1, 0, 1, 0)
      && end.entries[0].record == Record(chain, 1, 0, 2, 0)
      && Total(end.t.dst, RowsOf(chain), 0, 2) == 2
  {
    var row := Entry(Record(first.asset.chain, 0, 0, 0, 0), Start(0, 0, 0, 0), Misread(0, 0));
    var read := Next(State(Tables([first], [], []), [row], None), ReadRows);
    var ran := Next(read, Run(Answers(false, false, false, [added])));
    FirstIsCounted(row, added, first);
    WindowStartsAtNewest(row, ran.entries[1], first, second);
    TotalOfTwo(first, second, RowsOf(first.asset.chain), 0, 2);
    SavedAndAppended(ran, row, second);
  }

  lemma SavedAndAppended(ran: State, row: Entry, second: Transfer)
    requires |ran.entries| == 2 && ran.copy == Some([row]) && |ran.t.dst| == 1 && ran.t.src == ran.t.poly == []
    ensures Next(Next(ran, SaveRows(true)), Append([second], [], []))
         == State(Tables([ran.t.dst[0], second], [], []), [row, ran.entries[1]], None)
  {
    assert Overlay(ran.entries, [row]) == [row, ran.entries[1]];
    assert ran.t.dst + [second] == [ran.t.dst[0], second];
  }
}
