/** What the answers of the fee check mean: for a stored hash, in a batch, and in the order of the reply. */
module CheckFeeLaws {
  import opened Options
  import opened FeeMath
  import opened HexText
  import opened CheckFees

  /** The text is the key, the hash or the reversed hash of the transaction. */
  predicate GoesBy(tx: SrcTx, text: string)
  {
    text == tx.key || text == tx.hash || text == HexStringReverse(tx.hash)
  }

  predicate Fetched(tx: SrcTx, checks: seq<Request>) { Asked(checks, tx.key) || Asked(checks, tx.hash) }

  lemma {:induction false} FetchIsFilter(txs: seq<SrcTx>, checks: seq<Request>, tx: SrcTx)
    ensures tx in Fetch(txs, checks) <==> tx in txs && Fetched(tx, checks)
  {
    if txs == [] {
    } else {
      var n := |txs| - 1;
      FetchIsFilter(txs[..n], checks, tx);
      assert txs == txs[..n] + [txs[n]];
    }
  }

  /** Searching the rows fetched for one batch or another finds the same, if the same relevant rows are fetched. */
  lemma {:induction false} SearchesAgree(txs: seq<SrcTx>, a: seq<Request>, b: seq<Request>, text: string)
    requires forall tx :: tx in txs ==> (Fetched(tx, a) && Names(tx, text, a) <==> Fetched(tx, b) && Names(tx, text, b))
    requires forall tx :: tx in txs && tx.hash == text ==> Fetched(tx, a) && Fetched(tx, b)
    ensures LastNamed(Fetch(txs, a), a, text) == LastNamed(Fetch(txs, b), b, text)
    ensures LastStored(Fetch(txs, a), text) == LastStored(Fetch(txs, b), text)
  {
    if txs == [] {
    } else {
      var n := |txs| - 1;
      assert txs[n] in txs;
      assert forall tx :: tx in txs[..n] ==> tx in txs;
      SearchesAgree(txs[..n], a, b, text);
      FetchSnoc(txs, a);
      FetchSnoc(txs, b);
    }
  }

  lemma FetchSnoc(txs: seq<SrcTx>, checks: seq<Request>)
    requires txs != []
    ensures
      var n := |txs| - 1;
      var before, rows := Fetch(txs[..n], checks), Fetch(txs, checks);
      if Fetched(txs[n], checks) then rows == before + [txs[n]] && rows[..|rows| - 1] == before && rows[|rows| - 1]
          == txs[n]
      else rows == before
  {
  }

  // Batches

  ghost predicate CanonicalHashes(txs: seq<SrcTx>) { forall tx :: tx in txs ==> Canonical(tx.hash) }

  /** Alone, the request fetches every row that goes by its text. */
  ghost predicate Complete(check: Request, db: Database)
  {
    forall tx :: tx in db.srcTxs && GoesBy(tx, check.hash) ==> Fetched(tx, [check])
  }

  lemma {:induction false} ChainAskedIsSome(checks: seq<Request>, check: Request)
    requires check in checks
    ensures ChainAsked(checks, check.hash).Some?
  {
    var n := |checks| - 1;
    assert checks == checks[..n] + [checks[n]];
    if checks[n].hash == check.hash {
    } else {
      assert check in checks[..n];
      ChainAskedIsSome(checks[..n], check);
    }
  }

  lemma AskedByMember(checks: seq<Request>, check: Request, text: string)
    requires check in checks && Asked([check], text)
    ensures Asked(checks, text)
  {
    var i :| 0 <= i < |checks| && checks[i] == check;
    assert checks[i].hash == text || HexStringReverse(checks[i].hash) == text;
  }

  /** A row that goes by the text asked for is fetched by that request alone. */
  lemma RelevantIsFetched(tx: SrcTx, check: Request)
    requires Canonical(tx.hash) && GoesBy(tx, check.hash)
    ensures Fetched(tx, [check])
  {
    ReverseTwiceIff(tx.hash);
    assert [check][0] == check;
    if check.hash == tx.key {
      assert Asked([check], tx.key);
    } else {
      assert Asked([check], tx.hash);
    }
  }

  lemma CanonicalIsComplete(check: Request, db: Database)
    requires CanonicalHashes(db.srcTxs)
    ensures Complete(check, db)
  {
    forall tx | tx in db.srcTxs && GoesBy(tx, check.hash) ensures Fetched(tx, [check]) {
      RelevantIsFetched(tx, check);
    }
  }

  /** The request as the batch sees it: with the chain given last for its text. */
  function LastAsked(check: Request, checks: seq<Request>): Request
    requires check in checks
  {
    ChainAskedIsSome(checks, check);
    Request(check.hash, ChainAsked(checks, check.hash).value)
  }

  lemma AloneFetches(check: Request, checks: seq<Request>, db: Database)
    requires check in checks && Complete(check, db)
    ensures forall tx :: tx in db.srcTxs && GoesBy(tx, check.hash) ==>
              Fetched(tx, checks) && Fetched(tx, [LastAsked(check, checks)])
  {
    var last := LastAsked(check, checks);
    forall tx | tx in db.srcTxs && GoesBy(tx, check.hash) ensures Fetched(tx, checks) && Fetched(tx, [last]) {
      assert [last][0].hash == [check][0].hash;
      if Asked([check], tx.key) { AskedByMember(checks, check, tx.key); }
      if Asked([check], tx.hash) { AskedByMember(checks, check, tx.hash); }
    }
  }

  lemma BatchFindsTheSame(check: Request, checks: seq<Request>, db: Database)
    requires check in checks && Complete(check, db)
    ensures
      var last := LastAsked(check, checks);
      && LastNamed(Fetch(db.srcTxs, checks), checks, check.hash)
          == LastNamed(Fetch(db.srcTxs, [last]), [last], check.hash)
      && LastStored(Fetch(db.srcTxs, checks), check.hash) == LastStored(Fetch(db.srcTxs, [last]), check.hash)
  {
    var last := LastAsked(check, checks);
    AloneFetches(check, checks, db);
    ChainAskedIsSome(checks, check);
    assert ChainAsked([last], check.hash) == ChainAsked(checks, check.hash);
    forall tx ensures Names(tx, check.hash, checks) <==> Names(tx, check.hash, [last]) {
    }
    SearchesAgree(db.srcTxs, checks, [last], check.hash);
  }

  /** In a batch a request is decided as if it had been sent alone, with the chain given last for its text. */
  lemma BatchIsLastChain(check: Request, checks: seq<Request>, db: Database, s: Settings)
    requires check in checks && Complete(check, db)
    ensures Decide(check, checks, db, s) == Decide(check, [LastAsked(check, checks)], db, s)
  {
    AloneFetches(check, checks, db);
    BatchFindsTheSame(check, checks, db);
    PolyAgrees(db.srcTxs, checks, [LastAsked(check, checks)], check.hash, s);
  }

  predicate NamesOn(tx: SrcTx, text: string, chain: int)
  {
    if ZeroKey(tx) then text == tx.key && tx.chain == chain else text == tx.hash || text == HexStringReverse(tx.hash)
  }

  /** The newest row that the text names on one of two chains. */
  function NewestOn(rows: seq<SrcTx>, text: string, c: int, d: int): Option<SrcTx>
  {
    if rows == [] then None else
    var n := |rows| - 1;
    if NamesOn(rows[n], text, c) || NamesOn(rows[n], text, d) then Some(rows[n]) else NewestOn(rows[..n], text, c, d)
  }

  /** It does not matter which of two chains is given: they are one, or the row found is not looked up by key. */
  predicate ChainIsIrrelevant(rows: seq<SrcTx>, text: string, c: int, d: int)
  {
    c == d || NewestOn(rows, text, c, d).None? || !ZeroKey(NewestOn(rows, text, c, d).value)
  }

  lemma {:induction false} NamedOnItsChain(rows: seq<SrcTx>, check: Request)
    ensures LastNamed(rows, [check], check.hash).Some?
          ==> NamesOn(LastNamed(rows, [check], check.hash).value, check.hash, check.chain)
  {
    if rows == [] {
    } else {
      NamedOnItsChain(rows[..|rows| - 1], check);
    }
  }

  lemma {:induction false} LookupsAgreeIff(rows: seq<SrcTx>, text: string, c: int, d: int)
    ensures LastNamed(rows, [Request(text, c)], text) == LastNamed(rows, [Request(text, d)], text)
       <==> ChainIsIrrelevant(rows, text, c, d)
  {
    if rows == [] {
    } else {
      var n := |rows| - 1;
      LookupsAgreeIff(rows[..n], text, c, d);
      NamedOnItsChain(rows[..n], Request(text, c));
      NamedOnItsChain(rows[..n], Request(text, d));
    }
  }

  lemma {:induction false} FetchIgnoresChains(txs: seq<SrcTx>, a: Request, b: Request)
    requires a.hash == b.hash
    ensures Fetch(txs, [a]) == Fetch(txs, [b])
  {
    if txs == [] {
    } else {
      FetchIgnoresChains(txs[..|txs| - 1], a, b);
      assert [a][0].hash == [b][0].hash;
      forall text ensures Asked([a], text) <==> Asked([b], text) {
      }
    }
  }

  /** A batch finds another transaction for a request exactly when the chain given last for its text matters. */
  lemma BatchLookupAgreesIff(check: Request, checks: seq<Request>, db: Database)
    requires check in checks && Complete(check, db)
    ensures LastNamed(Fetch(db.srcTxs, checks), checks, check.hash)
          == LastNamed(Fetch(db.srcTxs, [check]), [check], check.hash)
       <==> ChainIsIrrelevant(Fetch(db.srcTxs, [check]), check.hash, LastAsked(check, checks).chain, check.chain)
  {
    var last := LastAsked(check, checks);
    BatchFindsTheSame(check, checks, db);
    FetchIgnoresChains(db.srcTxs, check, last);
    LookupsAgreeIff(Fetch(db.srcTxs, [check]), check.hash, last.chain, check.chain);
  }

  /** Where the chain does not matter, batching changes no answer. */
  lemma BatchingIsHarmless(check: Request, checks: seq<Request>, db: Database, s: Settings)
    requires check in checks && Complete(check, db)
    requires ChainIsIrrelevant(Fetch(db.srcTxs, [check]), check.hash, LastAsked(check, checks).chain, check.chain)
    ensures Decide(check, checks, db, s) == Decide(check, [check], db, s)
  {
    var last := LastAsked(check, checks);
    BatchIsLastChain(check, checks, db, s);
    FetchIgnoresChains(db.srcTxs, check, last);
    LookupsAgreeIff(Fetch(db.srcTxs, [check]), check.hash, last.chain, check.chain);
  }

  lemma PolyAgrees(txs: seq<SrcTx>, a: seq<Request>, b: seq<Request>, text: string, s: Settings)
    requires forall tx :: tx in txs && GoesBy(tx, text) ==> Fetched(tx, a) && Fetched(tx, b)
    ensures IsPoly(Fetch(txs, a), text, s) <==> IsPoly(Fetch(txs, b), text, s)
    ensures IsPoly(Fetch(txs, a), text, s) <==> IsPoly(txs, text, s)
  {
    PolyIsInTable(txs, a, text, s);
    PolyIsInTable(txs, b, text, s);
  }

  lemma PolyIsInTable(txs: seq<SrcTx>, checks: seq<Request>, text: string, s: Settings)
    requires forall tx :: tx in txs && GoesBy(tx, text) ==> Fetched(tx, checks)
    ensures IsPoly(Fetch(txs, checks), text, s) <==> IsPoly(txs, text, s)
  {
    var rows := Fetch(txs, checks);
    if IsPoly(rows, text, s) {
      var i :| 0 <= i < |rows| && PolyNames(rows[i], text, s);
      FetchIsFilter(txs, checks, rows[i]);
      var k :| 0 <= k < |txs| && txs[k] == rows[i];
      assert PolyNames(txs[k], text, s);
    }
    if IsPoly(txs, text, s) {
      var k :| 0 <= k < |txs| && PolyNames(txs[k], text, s);
      FetchIsFilter(txs, checks, txs[k]);
      var i :| 0 <= i < |rows| && rows[i] == txs[k];
      assert PolyNames(rows[i], text, s);
    }
  }

  // When a batch changes an answer

  /** No two transactions of the table have the same hash. */
  ghost predicate UniqueHashes(txs: seq<SrcTx>)
  {
    forall x, y :: x in txs && y in txs && x.hash == y.hash ==> x == y
  }

  lemma {:induction false} FoundIsNamed(txs: seq<SrcTx>, checks: seq<Request>, text: string)
    ensures var found := LastNamed(txs, checks, text);
            found.Some? ==> found.value in txs && Names(found.value, text, checks)
  {
    if txs == [] {
    } else {
      FoundIsNamed(txs[..|txs| - 1], checks, text);
    }
  }

  /** Tables and settings that tell one transaction from all others: its wrapper record has no fee token. */
  function TellingTables(txs: seq<SrcTx>, x: SrcTx, chain: int): Database
  {
    Database(txs, [Wrapper(x.hash, chain, None, 0)], [ChainFee(chain, 0, None)])
  }

  function TellingSettings(x: SrcTx): Settings { Settings({Upper(x.contract)}, []) }

  lemma OnlyOneRow(x: SrcTx, chain: int, hash: string)
    ensures var db := TellingTables([], x, chain);
            && FindWrapper(db.wrappers, hash) == (if hash == x.hash then Some(db.wrappers[0]) else None)
            && FindFee(db.chainFees, chain) == Some(db.chainFees[0])
  {
  }

  /** With them a request faults exactly when it finds that transaction. */
  lemma FaultsIffFound(txs: seq<SrcTx>, x: SrcTx, check: Request, checks: seq<Request>)
    requires IsPoly(Fetch(txs, checks), check.hash, TellingSettings(x))
    ensures Decide(check, checks, TellingTables(txs, x, check.chain), TellingSettings(x)).Fault? <==>
            var found := LastNamed(Fetch(txs, checks), checks, check.hash); found.Some? && found.value.hash == x.hash
  {
    var found := LastNamed(Fetch(txs, checks), checks, check.hash);
    OnlyOneRow(x, check.chain, if found.Some? then found.value.hash else "");
  }

  /** Two requests that find different transactions are answered differently for some tables and settings. */
  lemma DifferentFindsDiffer(txs: seq<SrcTx>, check: Request, checks: seq<Request>, x: SrcTx)
    requires check in checks && UniqueHashes(txs) && Complete(check, Database(txs, [], []))
    requires x in txs && GoesBy(x, check.hash)
    requires LastNamed(Fetch(txs, checks), checks, check.hash) == Some(x)
         <==> LastNamed(Fetch(txs, [check]), [check], check.hash) != Some(x)
    ensures Decide(check, checks, TellingTables(txs, x, check.chain), TellingSettings(x))
         != Decide(check, [check], TellingTables(txs, x, check.chain), TellingSettings(x))
  {
    var s := TellingSettings(x);
    var k :| 0 <= k < |txs| && txs[k] == x;
    assert PolyNames(txs[k], check.hash, s);
    AloneFetches(check, checks, Database(txs, [], []));
    PolyAgrees(txs, checks, [check], check.hash, s);
    FaultsIffFound(txs, x, check, checks);
    FaultsIffFound(txs, x, check, [check]);
    FoundIsInTable(txs, checks, check.hash);
    FoundIsInTable(txs, [check], check.hash);
  }

  lemma FoundIsInTable(txs: seq<SrcTx>, checks: seq<Request>, text: string)
    ensures var found := LastNamed(Fetch(txs, checks), checks, text);
            found.Some? ==> found.value in txs && GoesBy(found.value, text)
  {
    var found := LastNamed(Fetch(txs, checks), checks, text);
    FoundIsNamed(Fetch(txs, checks), checks, text);
    if found.Some? {
      FetchIsFilter(txs, checks, found.value);
    }
  }

  /**
   When a batch can change an answer, exactly: whatever the wrapper records, fees and settings, a request of a
   batch is answered as if it had been sent alone, if and only if the chain given last for its text is irrelevant.
   */
  lemma BatchAnswersAgreeIff(txs: seq<SrcTx>, check: Request, checks: seq<Request>)
    requires check in checks && UniqueHashes(txs) && Complete(check, Database(txs, [], []))
    ensures (forall wrappers, fees, s ::
               Decide(check, checks, Database(txs, wrappers, fees), s)
               == Decide(check, [check], Database(txs, wrappers, fees), s))
       <==> ChainIsIrrelevant(Fetch(txs, [check]), check.hash, LastAsked(check, checks).chain, check.chain)
  {
    var db := Database(txs, [], []);
    var rows := Fetch(txs, [check]);
    var batch, alone := LastNamed(Fetch(txs, checks), checks, check.hash), LastNamed(rows, [check], check.hash);
    BatchLookupAgreesIff(check, checks, db);
    if batch == alone {
      forall wrappers, fees, s
        ensures Decide(check, checks, Database(txs, wrappers, fees), s)
             == Decide(check, [check], Database(txs, wrappers, fees), s)
      {
        BatchingIsHarmless(check, checks, Database(txs, wrappers, fees), s);
      }
    } else {
      FoundIsInTable(txs, checks, check.hash);
      FoundIsInTable(txs, [check], check.hash);
      DifferentFindsDiffer(txs, check, checks, if batch.Some? then batch.value else alone.value);
    }
  }

  // Requests by stored hash

  /** The decision for a transaction known to be the one asked for. */
  function DecideFor(tx: SrcTx, check: Request, db: Database, s: Settings): Decision
  {
    if Upper(tx.contract) !in s.polyProxies then Undecided(check, -2)
    else if FindFee(db.chainFees, check.chain).None? then Undecided(check, -1)
    else if ZeroKey(tx) then Undecided(check, 0)
    else match FindWrapper(db.wrappers, tx.hash)
    case None => Undecided(check, -1)
    case Some(wrapper) =>
      match FindFee(db.chainFees, wrapper.dstChain)
      case None => Undecided(check, -1)
      case Some(fee) =>
        match (wrapper.feeToken, fee.coin)
        case (Some(token), Some(coin)) => Compare(check, wrapper, token, fee, coin, tx, s)
        case _ => Fault
  }

  lemma {:induction false} OnlyOneIsFound(rows: seq<SrcTx>, checks: seq<Request>, tx: SrcTx, text: string)
    requires text == tx.hash && text != tx.key && forall r :: r in rows && GoesBy(r, text) ==> r == tx
    ensures LastStored(rows, text) == if tx in rows then Some(tx) else None
    ensures LastNamed(rows, checks, text) == if tx in rows && !ZeroKey(tx) then Some(tx) else None
  {
    if rows == [] {
    } else {
      var n := |rows| - 1;
      assert rows == rows[..n] + [rows[n]];
      assert rows[n] in rows;
      assert forall r :: r in rows[..n] ==> r in rows;
      OnlyOneIsFound(rows[..n], checks, tx, text);
      assert rows[n] == tx || !GoesBy(rows[n], text);
    }
  }

  /**
   A request by the stored hash of a transaction, when no other transaction goes by it, is decided from that
   transaction, its wrapper record and the chain fees alone. If its key starts with zeros it is never found.
   */
  lemma StoredHashIsDecided(tx: SrcTx, check: Request, checks: seq<Request>, db: Database, s: Settings)
    requires check in checks && tx in db.srcTxs && tx.hash == check.hash && tx.key != tx.hash
    requires forall r :: r in db.srcTxs && GoesBy(r, check.hash) ==> r == tx
    ensures Decide(check, checks, db, s) == DecideFor(tx, check, db, s)
  {
    var rows := Fetch(db.srcTxs, checks);
    assert Asked([check], check.hash) by { assert [check][0].hash == check.hash; }
    AskedByMember(checks, check, check.hash);
    forall r | r in rows ensures r in db.srcTxs {
      FetchIsFilter(db.srcTxs, checks, r);
    }
    FetchIsFilter(db.srcTxs, checks, tx);
    OnlyOneIsFound(rows, checks, tx, check.hash);
    PolyIsInTable(db.srcTxs, checks, check.hash, s);
    if IsPoly(db.srcTxs, check.hash, s) {
      var i :| 0 <= i < |db.srcTxs| && PolyNames(db.srcTxs[i], check.hash, s);
      assert db.srcTxs[i] in db.srcTxs;
    }
    var k :| 0 <= k < |db.srcTxs| && db.srcTxs[k] == tx;
    assert Upper(tx.contract) in s.polyProxies ==> PolyNames(db.srcTxs[k], check.hash, s);
  }

  /**
   The ratio of the quote is at least that of the check, exactly: a token quoted as fungible is checked as one
   or has no ratio above 100 percent, and a fungible one not quoted as such has none below.
   */
  lemma RatioSufficesIff(tx: SrcTx, s: Settings, swapStandard: Option<int>)
    ensures QuotePercent(swapStandard, s.fees, tx.dstChain) >= CheckPercent(tx, s) <==>
            if swapStandard == Some(0) then tx.standard != ERC721 || NftPercent(s.fees, tx.dstChain) <= 100
            else tx.standard == ERC721 || NftPercent(s.fees, tx.dstChain) >= 100
  {
  }

  /**
   From quote to verdict. A transaction whose fee is at least what the quote asked, for the same prices, a
   ratio of at least the check's, a coin whose fee is never lowered and a proxy fee of at least the minimum,
   is answered with state 1.
   */
  lemma QuotedPaymentIsAccepted(tx: SrcTx, check: Request, checks: seq<Request>, db: Database, s: Settings,
                                wrapper: Wrapper, fee: ChainFee, token: Coin, coin: Coin, proxyFee: int,
                                mark: Mark, rank: int, risk: RiskConfig, swapStandard: Option<int>, l1Usd: real)
    requires check in checks && tx in db.srcTxs && tx.hash == check.hash && tx.key != tx.hash && !ZeroKey(tx)
    requires forall r :: r in db.srcTxs && GoesBy(r, check.hash) ==> r == tx
    requires Upper(tx.contract) in s.polyProxies && FindFee(db.chainFees, check.chain).Some?
    requires FindWrapper(db.wrappers, tx.hash) == Some(wrapper) && FindFee(db.chainFees, wrapper.dstChain) == Some(fee)
    requires wrapper.feeToken == Some(token) && fee.coin == Some(coin)
    requires token.price > 0 && coin.price >= 0 && NeverLowered(mark, rank, risk) && 0 <= fee.minFee <= proxyFee
    requires if swapStandard == Some(0) then tx.standard != ERC721 || NftPercent(s.fees, tx.dstChain) <= 100
             else tx.standard == ERC721 || NftPercent(s.fees, tx.dstChain) >= 100
    requires l1Usd >= 0.0
    requires wrapper.feeAmount as real
          >= Quoted(proxyFee, RiskRate(mark, rank, risk), coin, token,
                    QuotePercent(swapStandard, s.fees, tx.dstChain), l1Usd)
    ensures Decide(check, checks, db, s).Decided? && Decide(check, checks, db, s).fee.payState == 1
  {
    StoredHashIsDecided(tx, check, checks, db, s);
    RatioSufficesIff(tx, s, swapStandard);
    QuoteImpliesPaid(proxyFee, mark, rank, risk, coin, token, QuotePercent(swapStandard, s.fees, tx.dstChain), l1Usd,
                     fee.minFee, CheckPercent(tx, s), wrapper.feeAmount);
  }

  /**
   A transaction of the bridge is not found by its hash exactly when its key starts with zeros, whatever it has
   paid.
   */
  lemma ZeroKeyIsNotFound(tx: SrcTx, check: Request, checks: seq<Request>, db: Database, s: Settings)
    requires check in checks && tx in db.srcTxs && tx.hash == check.hash && tx.key != tx.hash
    requires forall r :: r in db.srcTxs && GoesBy(r, check.hash) ==> r == tx
    requires Upper(tx.contract) in s.polyProxies && FindFee(db.chainFees, check.chain).Some?
    ensures Decide(check, checks, db, s) == Undecided(check, 0) <==> ZeroKey(tx)
  {
    StoredHashIsDecided(tx, check, checks, db, s);
  }

  const BRIDGE: Settings := Settings({"A"}, [])

  /** A transaction of the bridge from chain 1 to chain 2. */
  function BridgeTx(hash: string, key: string): SrcTx { SrcTx(hash, 1, 0, 2, "A", key) }

  /** A database with that one transaction, its fee paid in full. */
  function PaidDatabase(hash: string, key: string): Database
  {
    var coin := Coin(1, 1);
    Database([BridgeTx(hash, key)], [Wrapper(hash, 2, Some(coin), 1)],
             [ChainFee(1, 0, Some(coin)), ChainFee(2, FEE_PRECISION, Some(coin))])
  }

  lemma PaidDatabaseIsFound(hash: string, key: string)
    ensures
      var db := PaidDatabase(hash, key);
      && Upper("A") == "A"
      && FindWrapper(db.wrappers, hash) == Some(db.wrappers[0])
      && FindFee(db.chainFees, 1) == Some(db.chainFees[0]) && FindFee(db.chainFees, 2) == Some(db.chainFees[1])
  {
    var fees := PaidDatabase(hash, key).chainFees;
    assert fees[..1] == [fees[0]];
  }

  /** Asked for by its hash, the paid transaction is answered with 1, or with 0 if its key starts with zeros. */
  lemma PaidByHash(hash: string, key: string)
    requires hash != key
    ensures
      var check, tx := Request(hash, 1), BridgeTx(hash, key);
      var d := Decide(check, [check], PaidDatabase(hash, key), BRIDGE);
      d.Decided? && d.fee.payState == if ZeroKey(tx) then 0 else 1
  {
    var check, tx, db := Request(hash, 1), BridgeTx(hash, key), PaidDatabase(hash, key);
    PaidDatabaseIsFound(hash, key);
    StoredHashIsDecided(tx, check, [check], db, BRIDGE);
  }

  // Requests by key or by reversed hash

  /** Every lookup up to the comparison succeeds. */
  predicate ReachesComparison(check: Request, checks: seq<Request>, db: Database, s: Settings)
  {
    var rows := Fetch(db.srcTxs, checks);
    var named := LastNamed(rows, checks, check.hash);
    && IsPoly(rows, check.hash, s) && FindFee(db.chainFees, check.chain).Some? && named.Some?
    && var wrapper := FindWrapper(db.wrappers, named.value.hash);
    && wrapper.Some? && wrapper.value.feeToken.Some?
    && var fee := FindFee(db.chainFees, wrapper.value.dstChain);
    fee.Some? && fee.value.coin.Some?
  }

  lemma {:induction false} StoredIsFound(rows: seq<SrcTx>, text: string)
    ensures LastStored(rows, text).Some? <==> exists tx :: tx in rows && tx.hash == text
  {
    if rows == [] {
    } else {
      var n := |rows| - 1;
      StoredIsFound(rows[..n], text);
      assert rows == rows[..n] + [rows[n]];
    }
  }

  /**
   When the documented lookup by key or reversed hash works: a request that reaches the comparison gets an
   answer if and only if its text is also the stored hash of some transaction; otherwise the check panics.
   */
  lemma AnsweredIffStoredHash(check: Request, checks: seq<Request>, db: Database, s: Settings)
    requires check in checks && ReachesComparison(check, checks, db, s)
    ensures Decide(check, checks, db, s).Decided? <==> exists tx :: tx in db.srcTxs && tx.hash == check.hash
  {
    var rows := Fetch(db.srcTxs, checks);
    StoredIsFound(rows, check.hash);
    assert Asked([check], check.hash) by { assert [check][0].hash == check.hash; }
    AskedByMember(checks, check, check.hash);
    forall tx ensures tx in rows && tx.hash == check.hash <==> tx in db.srcTxs && tx.hash == check.hash {
      FetchIsFilter(db.srcTxs, checks, tx);
    }
  }

  lemma OnlyRow(tx: SrcTx, checks: seq<Request>, text: string)
    requires Fetched(tx, checks)
    ensures Fetch([tx], checks) == [tx]
    ensures LastNamed([tx], checks, text) == if Names(tx, text, checks) then Some(tx) else None
    ensures LastStored([tx], text) == if tx.hash == text then Some(tx) else None
    ensures IsPoly([tx], text, BRIDGE) <==> PolyNames(tx, text, BRIDGE)
  {
    assert [tx][..0] == [];
    assert [tx][0] == tx;
  }

  /** The paid transaction asked for by its reversed hash: found, compared, and then looked up by the wrong text. */
  lemma ReversedHashPanics(hash: string, key: string)
    requires Canonical(hash) && HexStringReverse(hash) != hash && !ZeroKey(BridgeTx(hash, key))
    ensures
      var check := Request(HexStringReverse(hash), 1);
      Decide(check, [check], PaidDatabase(hash, key), BRIDGE) == Fault
  {
    var check, tx, db := Request(HexStringReverse(hash), 1), BridgeTx(hash, key), PaidDatabase(hash, key);
    PaidDatabaseIsFound(hash, key);
    ReverseTwiceIff(hash);
    assert Fetched(tx, [check]) by { assert HexStringReverse([check][0].hash) == tx.hash; }
    OnlyRow(tx, [check], check.hash);
  }

  /** Such an input, in full. */
  lemma RequestThatPanics()
    ensures Decide(Request("0201", 1), [Request("0201", 1)], PaidDatabase("0102", "12345678"), BRIDGE) == Fault
  {
    var hash, key := "0102", "12345678";
    assert hash[2..] == "02" && hash[2..][2..] == "";
    assert HexStringReverse(hash[2..]) == "02";
    assert HexStringReverse(hash) == "0201";
    assert key[..8][0] == '1';
    ReversedHashPanics(hash, key);
  }

  /**
   A batch that changes an answer: by key, the request panics alone, and finds nothing if another chain is
   given later.
   */
  lemma BatchingMatters(hash: string, key: string)
    requires hash != key && ZeroKey(BridgeTx(hash, key))
    ensures
      var check, db := Request(key, 1), PaidDatabase(hash, key);
      && Decide(check, [check], db, BRIDGE) == Fault
      && Decide(check, [check, Request(key, 2)], db, BRIDGE) == Undecided(check, 0)
  {
    var check, tx := Request(key, 1), BridgeTx(hash, key);
    PaidDatabaseIsFound(hash, key);
    var both := [check, Request(key, 2)];
    assert Fetched(tx, [check]) by { assert [check][0].hash == tx.key; }
    assert Fetched(tx, both) by { assert both[0].hash == tx.key; }
    OnlyRow(tx, [check], key);
    OnlyRow(tx, both, key);
  }
}
