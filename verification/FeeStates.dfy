/**
 What the answers of the two fee checks mean, in terms of the rows of the tables alone: when a request is unknown,
 paid, unpaid, or none of the bridge's.
 */
module FeeStates {
  import opened Options
  import opened FeeAlgebra
  import opened FeeMath
  import opened CheckFees
  import opened CheckFeeLaws
  import opened SwapFees

  // What the searches find

  lemma {:induction false} WrapperFound(wrappers: seq<Wrapper>, hash: string)
    ensures FindWrapper(wrappers, hash).Some? <==> exists w :: w in wrappers && w.hash == hash
    ensures var found := FindWrapper(wrappers, hash);
            found.Some? ==> found.value in wrappers && found.value.hash == hash
  {
    if wrappers == [] {
    } else {
      var n := |wrappers| - 1;
      WrapperFound(wrappers[..n], hash);
      assert wrappers == wrappers[..n] + [wrappers[n]];
    }
  }

  lemma {:induction false} FeeFound(fees: seq<ChainFee>, chain: int)
    ensures FindFee(fees, chain).Some? <==> exists f :: f in fees && f.chain == chain
    ensures var found := FindFee(fees, chain); found.Some? ==> found.value in fees && found.value.chain == chain
  {
    if fees == [] {
    } else {
      var n := |fees| - 1;
      FeeFound(fees[..n], chain);
      assert fees == fees[..n] + [fees[n]];
    }
  }

  lemma {:induction false} SourceFound(relations: seq<Relation>, hash: string)
    ensures FindSource(relations, hash).Some? <==> exists r :: r in relations && r.dstHash == hash
    ensures var found := FindSource(relations, hash); found.Some? ==> Relation(found.value, hash) in relations
  {
    if relations == [] {
    } else {
      var n := |relations| - 1;
      SourceFound(relations[..n], hash);
      assert relations == relations[..n] + [relations[n]];
    }
  }

  lemma {:induction false} NamedFound(rows: seq<SrcTx>, checks: seq<Request>, text: string)
    ensures LastNamed(rows, checks, text).Some? <==> exists tx :: tx in rows && Names(tx, text, checks)
  {
    if rows == [] {
    } else {
      var n := |rows| - 1;
      NamedFound(rows[..n], checks, text);
      assert rows == rows[..n] + [rows[n]];
    }
  }

  /** A transaction of the table that the text of the request names. */
  ghost predicate Named(tx: SrcTx, check: Request, checks: seq<Request>, db: Database)
  {
    tx in db.srcTxs && Names(tx, check.hash, checks)
  }

  lemma NamedInTable(check: Request, checks: seq<Request>, db: Database)
    requires check in checks && Complete(check, db)
    ensures
      var found := LastNamed(Fetch(db.srcTxs, checks), checks, check.hash);
      && (found.Some? <==> exists tx :: Named(tx, check, checks, db))
      && (found.Some? ==> Named(found.value, check, checks, db))
  {
    var rows := Fetch(db.srcTxs, checks);
    NamedFound(rows, checks, check.hash);
    FoundIsNamed(rows, checks, check.hash);
    AloneFetches(check, checks, db);
    forall tx ensures tx in rows && Names(tx, check.hash, checks) <==> Named(tx, check, checks, db) {
      FetchIsFilter(db.srcTxs, checks, tx);
    }
  }

  ghost predicate HasFee(chain: int, db: Database) { exists f :: f in db.chainFees && f.chain == chain }

  ghost predicate HasWrapper(hash: string, db: Database) { exists w :: w in db.wrappers && w.hash == hash }

  /** A transaction of the bridge's contracts goes by the text. */
  ghost predicate OfTheBridge(text: string, db: Database, s: Settings)
  {
    exists tx :: tx in db.srcTxs && GoesBy(tx, text) && Upper(tx.contract) in s.polyProxies
  }

  lemma BridgeInTable(check: Request, checks: seq<Request>, db: Database, s: Settings)
    requires check in checks && Complete(check, db)
    ensures IsPoly(Fetch(db.srcTxs, checks), check.hash, s) <==> OfTheBridge(check.hash, db, s)
  {
    AloneFetches(check, checks, db);
    PolyIsInTable(db.srcTxs, checks, check.hash, s);
    if OfTheBridge(check.hash, db, s) {
      var tx :| tx in db.srcTxs && GoesBy(tx, check.hash) && Upper(tx.contract) in s.polyProxies;
      var k :| 0 <= k < |db.srcTxs| && db.srcTxs[k] == tx;
      assert PolyNames(db.srcTxs[k], check.hash, s);
    }
  }

  // The check

  /**
   The numbers of an answer compare what a wrapper record paid with what the fee row of its chain asks, times a
   ratio.
   */
  ghost predicate Compares(fee: CheckFee, w: Wrapper, f: ChainFee, percent: int, db: Database)
  {
    && w in db.wrappers && f in db.chainFees && f.chain == w.dstChain && w.feeToken.Some? && f.coin.Some?
    && fee.amount == FeePay(w.feeAmount, w.feeToken.value)
    && fee.minProxyFee == FeeMin(f.minFee, f.coin.value) * (percent as real / 100.0)
  }

  predicate Blank(fee: CheckFee) { fee.amount == 0.0 && fee.minProxyFee == 0.0 }

  /** The hash that should have paid has no wrapper record, or one to a chain without a fee row. */
  ghost predicate CannotCompare(payer: string, db: Database)
  {
    !HasWrapper(payer, db) || exists w :: w in db.wrappers && w.hash == payer && !HasFee(w.dstChain, db)
  }

  /**
   The states of the check. The state is -2 exactly when no transaction of the bridge goes by the text, and 0 exactly
   when one does, the chain has a fee row, and the text names no transaction. It is 1 only if the text names a
   transaction whose wrapper record paid at least what is asked; and -1 only if one paid less, or a row is missing.
   */
  lemma StatesOfCheck(check: Request, checks: seq<Request>, db: Database, s: Settings)
    requires check in checks && Complete(check, db) && Decide(check, checks, db, s).Decided?
    ensures
      var fee := Decide(check, checks, db, s).fee;
      && (fee.payState == -2 <==> !OfTheBridge(check.hash, db, s))
      && (fee.payState == 0 <==>
            && OfTheBridge(check.hash, db, s) && HasFee(check.chain, db)
            && !exists tx :: Named(tx, check, checks, db))
      && (fee.payState == 1 ==>
            && fee.amount >= fee.minProxyFee
            && exists tx: SrcTx, stored: SrcTx, w: Wrapper, f: ChainFee ::
                 && Named(tx, check, checks, db) && w.hash == tx.hash
                 && stored in db.srcTxs && stored.hash == check.hash
                 && Compares(fee, w, f, CheckPercent(stored, s), db))
      && (fee.payState == -1 ==>
            || fee.amount < fee.minProxyFee
            || (Blank(fee) && !HasFee(check.chain, db))
            || (Blank(fee) && exists tx :: Named(tx, check, checks, db) && CannotCompare(tx.hash, db)))
      && fee.payState in {-2, -1, 0, 1}
  {
    BridgeInTable(check, checks, db, s);
    NamedInTable(check, checks, db);
    FeeFound(db.chainFees, check.chain);
    var rows := Fetch(db.srcTxs, checks);
    var named := LastNamed(rows, checks, check.hash);
    var fee := Decide(check, checks, db, s).fee;
    if IsPoly(rows, check.hash, s) && FindFee(db.chainFees, check.chain).Some? && named.Some? {
      ComparedOrNot(check, checks, db, s);
    }
  }

  lemma ComparedOrNot(check: Request, checks: seq<Request>, db: Database, s: Settings)
    requires check in checks && Complete(check, db) && Decide(check, checks, db, s).Decided?
    requires IsPoly(Fetch(db.srcTxs, checks), check.hash, s) && FindFee(db.chainFees, check.chain).Some?
    requires LastNamed(Fetch(db.srcTxs, checks), checks, check.hash).Some?
    ensures
      var fee := Decide(check, checks, db, s).fee;
      var named := LastNamed(Fetch(db.srcTxs, checks), checks, check.hash).value;
      || (fee.payState == -1 && Blank(fee) && CannotCompare(named.hash, db))
      || (IsComparison(fee) && exists stored: SrcTx, w: Wrapper, f: ChainFee ::
            && w.hash == named.hash && stored in db.srcTxs && stored.hash == check.hash
            && Compares(fee, w, f, CheckPercent(stored, s), db))
  {
    var rows := Fetch(db.srcTxs, checks);
    var named := LastNamed(rows, checks, check.hash).value;
    var w := FindWrapper(db.wrappers, named.hash);
    WrapperFound(db.wrappers, named.hash);
    if w.Some? {
      var f := FindFee(db.chainFees, w.value.dstChain);
      FeeFound(db.chainFees, w.value.dstChain);
      if f.Some? {
        var tx := LastStored(rows, check.hash);
        StoredFound(db.srcTxs, checks, check.hash);
        DecideIsCompare(check, checks, db, s);
        CompareCompares(check, w.value, f.value, tx.value, s, db);
      }
    }
  }

  lemma DecideIsCompare(check: Request, checks: seq<Request>, db: Database, s: Settings)
    requires ReachesWrapper(check, checks, db, s) && Decide(check, checks, db, s).Decided?
    requires FindFee(db.chainFees, WrapperOf(check, checks, db, s).dstChain).Some?
    ensures
      var w := WrapperOf(check, checks, db, s);
      var f, tx := FindFee(db.chainFees, w.dstChain).value, LastStored(Fetch(db.srcTxs, checks), check.hash);
      && w.feeToken.Some? && f.coin.Some? && tx.Some?
      && Decide(check, checks, db, s) == Compare(check, w, w.feeToken.value, f, f.coin.value, tx.value, s)
  {
  }

  /** The lookups up to the wrapper record succeed. */
  ghost predicate ReachesWrapper(check: Request, checks: seq<Request>, db: Database, s: Settings)
  {
    var rows := Fetch(db.srcTxs, checks);
    var named := LastNamed(rows, checks, check.hash);
    && IsPoly(rows, check.hash, s) && FindFee(db.chainFees, check.chain).Some?
    && named.Some? && FindWrapper(db.wrappers, named.value.hash).Some?
  }

  ghost function WrapperOf(check: Request, checks: seq<Request>, db: Database, s: Settings): Wrapper
    requires ReachesWrapper(check, checks, db, s)
  {
    FindWrapper(db.wrappers, LastNamed(Fetch(db.srcTxs, checks), checks, check.hash).value.hash).value
  }

  lemma CompareCompares(check: Request, w: Wrapper, f: ChainFee, tx: SrcTx, s: Settings, db: Database)
    requires w in db.wrappers && f in db.chainFees && f.chain == w.dstChain && w.feeToken.Some? && f.coin.Some?
    ensures
      var fee := Compare(check, w, w.feeToken.value, f, f.coin.value, tx, s).fee;
      IsComparison(fee) && Compares(fee, w, f, CheckPercent(tx, s), db)
  {
    CompareIsComparison(check, w, w.feeToken.value, f, f.coin.value, tx, s);
  }

  lemma StoredFound(txs: seq<SrcTx>, checks: seq<Request>, text: string)
    ensures var found := LastStored(Fetch(txs, checks), text);
            found.Some? ==> found.value in txs && found.value.hash == text
  {
    StoredIsRow(Fetch(txs, checks), text);
    var found := LastStored(Fetch(txs, checks), text);
    if found.Some? {
      FetchIsFilter(txs, checks, found.value);
    }
  }

  lemma {:induction false} StoredIsRow(rows: seq<SrcTx>, text: string)
    ensures var found := LastStored(rows, text); found.Some? ==> found.value in rows && found.value.hash == text
  {
    if rows == [] {
    } else {
      StoredIsRow(rows[..|rows| - 1], text);
    }
  }

  // The swap check

  /** The payer of a swap request is the source of a join row that leads from the transaction its text names. */
  lemma PayerIs(check: Request, checks: seq<Request>, db: Database, relations: seq<Relation>)
    ensures
      var named := LastNamed(Fetch(db.srcTxs, checks), checks, check.hash);
      var payer := Payer(check, checks, db, relations);
      && (payer.Some? <==> named.Some? && exists r :: r in relations && r.dstHash == named.value.hash)
      && (payer.Some? ==> Relation(payer.value, named.value.hash) in relations)
  {
    var named := LastNamed(Fetch(db.srcTxs, checks), checks, check.hash);
    if named.Some? {
      SourceFound(relations, named.value.hash);
    }
  }

  /** A join row leads from a transaction that the text names. */
  ghost predicate Joined(r: Relation, check: Request, checks: seq<Request>, db: Database, relations: seq<Relation>)
  {
    r in relations && exists tx :: Named(tx, check, checks, db) && tx.hash == r.dstHash
  }

  /** The text names one hash at most. */
  ghost predicate NamesOneHash(check: Request, checks: seq<Request>, db: Database)
  {
    forall x, y :: Named(x, check, checks, db) && Named(y, check, checks, db) ==> x.hash == y.hash
  }

  lemma PayerIsJoined(check: Request, checks: seq<Request>, db: Database, relations: seq<Relation>)
    requires check in checks && Complete(check, db)
    ensures var payer := Payer(check, checks, db, relations);
            payer.Some? ==> exists r :: Joined(r, check, checks, db, relations) && r.srcHash == payer.value
    ensures NamesOneHash(check, checks, db) ==>
              (Payer(check, checks, db, relations).Some? <==> exists r :: Joined(r, check, checks, db, relations))
  {
    NamedInTable(check, checks, db);
    PayerIs(check, checks, db, relations);
    var named := LastNamed(Fetch(db.srcTxs, checks), checks, check.hash);
    var payer := Payer(check, checks, db, relations);
    if payer.Some? {
      var r := Relation(payer.value, named.value.hash);
      assert Named(named.value, check, checks, db) && r.dstHash == named.value.hash;
      assert Joined(r, check, checks, db, relations);
    }
    if NamesOneHash(check, checks, db) && exists r :: Joined(r, check, checks, db, relations) {
      var r :| Joined(r, check, checks, db, relations);
      var tx :| Named(tx, check, checks, db) && tx.hash == r.dstHash;
      assert r in relations && r.dstHash == named.value.hash;
    }
  }

  /**
   The states of the swap check. The state is 1 only if a join row leads from a stored transaction that the text
   names to a wrapper record that paid at least what is asked; and -1 only if one paid less, or a row is missing.
   With a fee row for the chain, and a text that names one hash at most, it is 0 exactly when there is no such join row.
   */
  lemma StatesOfSwap(check: Request, checks: seq<Request>, db: Database, relations: seq<Relation>)
    requires check in checks && Complete(check, db) && DecideSwap(check, checks, db, relations).Decided?
    ensures
      var fee := DecideSwap(check, checks, db, relations).fee;
      && (fee.payState == 1 ==>
            && fee.amount >= fee.minProxyFee
            && exists r: Relation, w: Wrapper, f: ChainFee ::
                 Joined(r, check, checks, db, relations) && w.hash == r.srcHash && Compares(fee, w, f, 100, db))
      && (NamesOneHash(check, checks, db) ==>
            (fee.payState == 0 <==>
               HasFee(check.chain, db) && !exists r :: Joined(r, check, checks, db, relations)))
      && (fee.payState == -1 ==>
            || fee.amount < fee.minProxyFee
            || (Blank(fee) && !HasFee(check.chain, db))
            || (Blank(fee) && exists r ::
                  Joined(r, check, checks, db, relations) && CannotCompare(r.srcHash, db)))
      && fee.payState in {-1, 0, 1}
  {
    FeeFound(db.chainFees, check.chain);
    PayerIsJoined(check, checks, db, relations);
    var fee := DecideSwap(check, checks, db, relations).fee;
    var payer := Payer(check, checks, db, relations);
    if FindFee(db.chainFees, check.chain).Some? && payer.Some? {
      SwapComparedOrNot(check, checks, db, relations);
    }
  }

  lemma SwapComparedOrNot(check: Request, checks: seq<Request>, db: Database, relations: seq<Relation>)
    requires DecideSwap(check, checks, db, relations).Decided?
    requires FindFee(db.chainFees, check.chain).Some? && Payer(check, checks, db, relations).Some?
    ensures
      var fee := DecideSwap(check, checks, db, relations).fee;
      var payer := Payer(check, checks, db, relations).value;
      || (fee.payState == -1 && Blank(fee) && CannotCompare(payer, db))
      || (IsComparison(fee) && exists w: Wrapper, f: ChainFee :: w.hash == payer && Compares(fee, w, f, 100, db))
  {
    var payer := Payer(check, checks, db, relations).value;
    var w := FindWrapper(db.wrappers, payer);
    WrapperFound(db.wrappers, payer);
    if w.Some? {
      var f := FindFee(db.chainFees, w.value.dstChain);
      FeeFound(db.chainFees, w.value.dstChain);
      if f.Some? {
        CompareSwapIsComparison(check, w.value, w.value.feeToken.value, f.value, f.value.coin.value);
        ScaledBy(FeeMin(f.value.minFee, f.value.coin.value), 100);
        assert Compares(DecideSwap(check, checks, db, relations).fee, w.value, f.value, 100, db);
      }
    }
  }

  /**
   A swap whose rows are all there, each the only one of its key, is decided by comparing what its payer's wrapper
   record paid with what the fee row of its destination asks.
   */
  lemma CompleteSwapIsCompared(check: Request, checks: seq<Request>, db: Database, relations: seq<Relation>,
                               r: Relation, w: Wrapper, f: ChainFee)
    requires check in checks && Complete(check, db) && HasFee(check.chain, db) && NamesOneHash(check, checks, db)
    requires Joined(r, check, checks, db, relations)
    requires forall q :: q in relations && q.dstHash == r.dstHash ==> q.srcHash == r.srcHash
    requires w in db.wrappers && w.hash == r.srcHash && forall v :: v in db.wrappers && v.hash == w.hash ==> v == w
    requires f in db.chainFees && f.chain == w.dstChain
    requires forall g :: g in db.chainFees && g.chain == f.chain ==> g == f
    requires w.feeToken.Some? && f.coin.Some?
    ensures
      var d := DecideSwap(check, checks, db, relations);
      && d.Decided? && d.fee.amount == FeePay(w.feeAmount, w.feeToken.value)
      && d.fee.minProxyFee == FeeMin(f.minFee, f.coin.value)
      && d.fee.payState == if d.fee.amount >= d.fee.minProxyFee then 1 else -1
  {
    FeeFound(db.chainFees, check.chain);
    NamedInTable(check, checks, db);
    PayerIs(check, checks, db, relations);
    WrapperFound(db.wrappers, r.srcHash);
    FeeFound(db.chainFees, w.dstChain);
    assert Payer(check, checks, db, relations) == Some(r.srcHash);
    CompareSwapIsComparison(check, w, w.feeToken.value, f, f.coin.value);
  }

  // Contracts

  /** The bridge's contracts are compared without regard to case. */
  lemma UpperIs(s: string)
    ensures |Upper(s)| == |s|
    ensures forall i :: 0 <= i < |s| ==>
              if 'a' <= s[i] <= 'z' then Upper(s)[i] as int == s[i] as int - 32 else Upper(s)[i] == s[i]
  {
  }
}
