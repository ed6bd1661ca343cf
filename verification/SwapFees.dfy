/**
 The fee check for the swap pool. A request names the transaction that left the pool; the fee was paid with
 the transaction that entered it, which is found through a join of three tables.
 */
module SwapFees {
  import opened Options
  import opened FeeAlgebra
  import opened FeeMath
  import opened CheckFees
  import opened CheckFeeLaws

  /** A row of the join: the transaction into the pool, and the one the pool answered it with. */
  datatype Relation = Relation(srcHash: string, dstHash: string)

  function FindSource(relations: seq<Relation>, dstHash: string): Option<string>
  {
    if relations == [] then None else
    var n := |relations| - 1;
    if relations[n].dstHash == dstHash then Some(relations[n].srcHash) else FindSource(relations[..n], dstHash)
  }

  /** The hash of the transaction that paid the fee of a request. */
  function Payer(check: Request, checks: seq<Request>, db: Database, relations: seq<Relation>): Option<string>
  {
    match LastNamed(Fetch(db.srcTxs, checks), checks, check.hash)
    case None => None
    case Some(named) => FindSource(relations, named.hash)
  }

  function CompareSwap(check: Request, wrapper: Wrapper, token: Coin, fee: ChainFee, coin: Coin): Decision
  {
    Decided(CheckFee(check.hash, check.chain,
                     if PaidEnough(wrapper.feeAmount, token, fee.minFee, coin, 100) then 1 else -1,
                     FeePay(wrapper.feeAmount, token), FeeMin(fee.minFee, coin)))
  }

  /** The decision for one request, by search alone; there is no ratio for NFTs and no test of the contract. */
  function DecideSwap(check: Request, checks: seq<Request>, db: Database, relations: seq<Relation>): Decision
  {
    if FindFee(db.chainFees, check.chain).None? then Undecided(check, -1)
    else match Payer(check, checks, db, relations)
    case None => Undecided(check, 0)
    case Some(payer) =>
      match FindWrapper(db.wrappers, payer)
      case None => Undecided(check, -1)
      case Some(wrapper) =>
        match FindFee(db.chainFees, wrapper.dstChain)
        case None => Undecided(check, -1)
        case Some(fee) =>
          match (wrapper.feeToken, fee.coin)
          case (Some(token), Some(coin)) => CompareSwap(check, wrapper, token, fee, coin)
          case _ => Fault
  }

  /** Without the join there are no answers at all, and only a short key can fault. */
  predicate SwapSurvives(checks: seq<Request>, db: Database, relations: Option<seq<Relation>>)
  {
    && (forall tx :: tx in Fetch(db.srcTxs, checks) ==> |tx.key| >= 8)
    && (relations.Some? ==> forall c :: c in checks ==> DecideSwap(c, checks, db, relations.value).Decided?)
  }

  ghost predicate SwapIndexOf(rows: seq<SrcTx>, checks: seq<Request>, key2Txhash: map<string, string>,
                              o3Hashs: set<string>)
  {
    && (forall h :: h in key2Txhash <==> LastNamed(rows, checks, h).Some?)
    && (forall h :: h in key2Txhash ==>
          key2Txhash[h] == LastNamed(rows, checks, h).value.hash && key2Txhash[h] in o3Hashs)
  }

  method IndexSwaps(rows: seq<SrcTx>, checks: seq<Request>, hash2ChainId: map<string, int>)
    returns (panics: bool, key2Txhash: map<string, string>, o3Hashs: set<string>)
    requires forall h :: h in hash2ChainId <==> ChainAsked(checks, h).Some?
    requires forall h :: h in hash2ChainId ==> hash2ChainId[h] == ChainAsked(checks, h).value
    ensures panics <==> exists tx :: tx in rows && |tx.key| < 8
    ensures !panics ==> SwapIndexOf(rows, checks, key2Txhash, o3Hashs)
  {
    key2Txhash, o3Hashs := map[], {};
    for i := 0 to |rows|
      invariant SwapIndexOf(rows[..i], checks, key2Txhash, o3Hashs)
      invariant forall k :: 0 <= k < i ==> |rows[k].key| >= 8
    {
      var tx := rows[i];
      assert rows[..i + 1][..i] == rows[..i];
      if |tx.key| < 8 {
        assert tx in rows;
        return true, key2Txhash, o3Hashs;
      }
      key2Txhash := NameTransaction(tx, checks, key2Txhash, hash2ChainId);
      o3Hashs := o3Hashs + {tx.hash};
    }
    assert rows[..|rows|] == rows;
    panics := false;
  }

  /** The joined rows of the hashes asked for, by the hash that left the pool. */
  method GetSwapSrcTransactions(relations: seq<Relation>, o3Hashs: set<string>) returns (byDst: map<string, string>)
    ensures forall h :: h in byDst <==> h in o3Hashs && FindSource(relations, h).Some?
    ensures forall h :: h in byDst ==> byDst[h] == FindSource(relations, h).value
  {
    byDst := map[];
    for i := 0 to |relations|
      invariant forall h :: h in byDst <==> h in o3Hashs && FindSource(relations[..i], h).Some?
      invariant forall h :: h in byDst ==> byDst[h] == FindSource(relations[..i], h).value
    {
      assert relations[..i + 1][..i] == relations[..i];
      if relations[i].dstHash in o3Hashs {
        byDst := byDst[relations[i].dstHash := relations[i].srcHash];
      }
    }
    assert relations[..|relations|] == relations;
  }

  /** What the join, the wrapper records and the fees give by search is in the maps, for every request. */
  ghost predicate SwapPrepared(checks: seq<Request>, db: Database, relations: seq<Relation>, o3Hashs: set<string>,
                               key2Txhash: map<string, string>, srcHashs: map<string, string>,
                               txHash2Wrapper: map<string, Wrapper>, chain2Fees: map<int, ChainFee>)
  {
    && SwapIndexOf(Fetch(db.srcTxs, checks), checks, key2Txhash, o3Hashs)
    && (forall h :: h in srcHashs <==> h in o3Hashs && FindSource(relations, h).Some?)
    && (forall h :: h in srcHashs ==> srcHashs[h] == FindSource(relations, h).value)
    && (forall c :: c in checks && c.hash in key2Txhash && key2Txhash[c.hash] in srcHashs ==>
          var h := srcHashs[key2Txhash[c.hash]];
          && (h in txHash2Wrapper <==> FindWrapper(db.wrappers, h).Some?)
          && (h in txHash2Wrapper ==> txHash2Wrapper[h] == FindWrapper(db.wrappers, h).value))
    && (forall c :: c in chain2Fees <==> FindFee(db.chainFees, c).Some?)
    && (forall c :: c in chain2Fees ==> chain2Fees[c] == FindFee(db.chainFees, c).value)
  }

  /** The decision for one request, through the maps. */
  method DecideSwapThroughMaps(check: Request, ghost checks: seq<Request>, ghost db: Database,
                               ghost relations: seq<Relation>, ghost o3Hashs: set<string>,
                               key2Txhash: map<string, string>, srcHashs: map<string, string>,
                               txHash2Wrapper: map<string, Wrapper>, chain2Fees: map<int, ChainFee>)
    returns (d: Decision)
    requires check in checks
    requires SwapPrepared(checks, db, relations, o3Hashs, key2Txhash, srcHashs, txHash2Wrapper, chain2Fees)
    ensures d == DecideSwap(check, checks, db, relations)
  {
    if check.chain !in chain2Fees {
      return Undecided(check, -1);
    }
    if check.hash !in key2Txhash {
      return Undecided(check, 0);
    }
    var newHash := key2Txhash[check.hash];
    if newHash !in srcHashs {
      return Undecided(check, 0);
    }
    newHash := srcHashs[newHash];
    if newHash !in txHash2Wrapper {
      return Undecided(check, -1);
    }
    var wrapper := txHash2Wrapper[newHash];
    if wrapper.dstChain !in chain2Fees {
      return Undecided(check, -1);
    }
    var chainFee := chain2Fees[wrapper.dstChain];
    if wrapper.feeToken.None? || chainFee.coin.None? {
      return Fault;
    }
    var payState, feePay, feeMin := ComparePayment(wrapper.feeAmount, wrapper.feeToken.value, chainFee.minFee,
        chainFee.coin.value,
                                                   false, [], 0);
    d := Decided(CheckFee(check.hash, check.chain, payState, feePay, feeMin));
  }

  method PayerHashes(checks: seq<Request>, key2Txhash: map<string, string>, srcHashs: map<string, string>)
    returns (checkHashes: set<string>)
    ensures forall c :: c in checks && c.hash in key2Txhash && key2Txhash[c.hash] in srcHashs ==>
              srcHashs[key2Txhash[c.hash]] in checkHashes
  {
    checkHashes := {};
    for i := 0 to |checks|
      invariant forall k :: 0 <= k < i && checks[k].hash in key2Txhash && key2Txhash[checks[k].hash] in srcHashs ==>
                  srcHashs[key2Txhash[checks[k].hash]] in checkHashes
    {
      if checks[i].hash in key2Txhash && key2Txhash[checks[i].hash] in srcHashs {
        checkHashes := checkHashes + {srcHashs[key2Txhash[checks[i].hash]]};
      }
    }
  }

  /** The loop over the requests. */
  method DecideAllSwaps(checks: seq<Request>, ghost db: Database, ghost relations: seq<Relation>,
                        ghost o3Hashs: set<string>, key2Txhash: map<string, string>, srcHashs: map<string, string>,
                        txHash2Wrapper: map<string, Wrapper>, chain2Fees: map<int, ChainFee>)
    returns (r: Response)
    requires SwapPrepared(checks, db, relations, o3Hashs, key2Txhash, srcHashs, txHash2Wrapper, chain2Fees)
    ensures r.Answers? <==> forall c :: c in checks ==> DecideSwap(c, checks, db, relations).Decided?
    ensures r.Answers? ==>
      && |r.fees| == |checks|
      && forall i :: 0 <= i < |checks| ==> Decided(r.fees[i]) == DecideSwap(checks[i], checks, db, relations)
  {
    var checkFees: seq<CheckFee> := [];
    for i := 0 to |checks|
      invariant |checkFees| == i
      invariant forall k :: 0 <= k < i ==> Decided(checkFees[k]) == DecideSwap(checks[k], checks, db, relations)
    {
      var d := DecideSwapThroughMaps(checks[i], checks, db, relations, o3Hashs, key2Txhash, srcHashs, txHash2Wrapper,
          chain2Fees);
      if d.Fault? {
        assert checks[i] in checks;
        return Panics;
      }
      checkFees := checkFees + [d.fee];
    }
    r := Answers(checkFees);
  }

  /** Index refinement of the swap check; `relations` is missing when the join cannot be read. */
  method CheckSwapFee(checks: seq<Request>, db: Database, relations: Option<seq<Relation>>) returns (r: Response)
    ensures r.Answers? <==> SwapSurvives(checks, db, relations)
    ensures r.Answers? ==>
      && |r.fees| == (if relations.Some? then |checks| else 0)
      && forall i :: 0 <= i < |r.fees| ==> Decided(r.fees[i]) == DecideSwap(checks[i], checks, db, relations.value)
  {
    var hash2ChainId, requestHashs := IndexRequests(checks);
    var rows := Fetch(db.srcTxs, checks);
    var panics, key2Txhash, o3Hashs := IndexSwaps(rows, checks, hash2ChainId);
    if panics {
      return Panics;
    }
    if relations.None? {
      return Answers([]);
    }
    var srcHashs := GetSwapSrcTransactions(relations.value, o3Hashs);
    var checkHashes := PayerHashes(checks, key2Txhash, srcHashs);
    var txHash2Wrapper := IndexWrappers(db.wrappers, checkHashes);
    var chain2Fees := IndexFees(db.chainFees);
    r := DecideAllSwaps(checks, db, relations.value, o3Hashs, key2Txhash, srcHashs, txHash2Wrapper, chain2Fees);
  }

  /** The same law for the swap check: only the chain given last for a text can make a batch differ. */
  lemma SwapBatchingIsHarmless(check: Request, checks: seq<Request>, db: Database, relations: seq<Relation>)
    requires check in checks && Complete(check, db)
    requires ChainIsIrrelevant(Fetch(db.srcTxs, [check]), check.hash, LastAsked(check, checks).chain, check.chain)
    ensures DecideSwap(check, checks, db, relations) == DecideSwap(check, [check], db, relations)
  {
    BatchLookupAgreesIff(check, checks, db);
  }

  lemma ScaledBy(fee: real, percent: int)
    ensures fee * (percent as real / 100.0) == fee <==> percent == 100 || fee == 0.0
  {
    var ratio := percent as real / 100.0;
    assert fee * (ratio - 1.0) == fee * ratio - fee;
    if fee * (ratio - 1.0) == 0.0 && fee != 0.0 {
      NoZeroProduct(fee, ratio - 1.0);
    }
  }

  /** Two verdicts: the minimum is the same exactly when no ratio changes it, and then so is the state. */
  ghost predicate AgreeIff(a: CheckFee, b: CheckFee, percent: int)
  {
    && a.amount == b.amount
    && (a.minProxyFee == b.minProxyFee <==> percent == 100 || b.minProxyFee == 0.0)
    && (a.minProxyFee == b.minProxyFee ==> a.payState == b.payState)
  }

  /** A reported state is the comparison of the two reported numbers. */
  predicate IsComparison(f: CheckFee) { f.payState == if f.amount >= f.minProxyFee then 1 else -1 }

  lemma CompareIsComparison(check: Request, wrapper: Wrapper, token: Coin, fee: ChainFee, coin: Coin, tx: SrcTx,
                            s: Settings)
    ensures IsComparison(Compare(check, wrapper, token, fee, coin, tx, s).fee)
  {
    DecisionIsIntegral(wrapper.feeAmount, token, fee.minFee, coin, CheckPercent(tx, s));
  }

  lemma CompareSwapIsComparison(check: Request, wrapper: Wrapper, token: Coin, fee: ChainFee, coin: Coin)
    ensures IsComparison(CompareSwap(check, wrapper, token, fee, coin).fee)
  {
    DecisionIsIntegral(wrapper.feeAmount, token, fee.minFee, coin, 100);
    ScaledBy(FeeMin(fee.minFee, coin), 100);
  }

  lemma VerdictsAgree(a: CheckFee, b: CheckFee, percent: int)
    requires IsComparison(a) && IsComparison(b)
    requires a.amount == b.amount && a.minProxyFee == b.minProxyFee * (percent as real / 100.0)
    ensures AgreeIff(a, b, percent)
  {
    ScaledBy(b.minProxyFee, percent);
  }

  lemma ComparisonsAgreeIff(check: Request, swap: Request, wrapper: Wrapper, token: Coin, fee: ChainFee, coin: Coin,
                            tx: SrcTx, s: Settings)
    ensures AgreeIff(Compare(check, wrapper, token, fee, coin, tx, s).fee,
          CompareSwap(swap, wrapper, token, fee, coin).fee,
                     CheckPercent(tx, s))
  {
    CompareIsComparison(check, wrapper, token, fee, coin, tx, s);
    CompareSwapIsComparison(swap, wrapper, token, fee, coin);
    VerdictsAgree(Compare(check, wrapper, token, fee, coin, tx, s).fee,
        CompareSwap(swap, wrapper, token, fee, coin).fee,
                  CheckPercent(tx, s));
  }

  /**
   The two checks against each other. When they decide from the same wrapper record they report the same
   amount; the minimum is the same exactly when no NFT ratio other than 100 percent changes it, and then so
   is the verdict.
   */
  lemma ChecksAgreeIff(check: Request, checks: seq<Request>, swap: Request, swaps: seq<Request>, db: Database,
                       s: Settings,
                       relations: seq<Relation>, tx: SrcTx)
    requires ReachesComparison(check, checks, db, s) && FindFee(db.chainFees, swap.chain).Some?
    requires LastStored(Fetch(db.srcTxs, checks), check.hash) == Some(tx)
    requires Payer(swap, swaps, db, relations)
          == Some(LastNamed(Fetch(db.srcTxs, checks), checks, check.hash).value.hash)
    ensures
      var a, b := Decide(check, checks, db, s), DecideSwap(swap, swaps, db, relations);
      a.Decided? && b.Decided? && AgreeIff(a.fee, b.fee, CheckPercent(tx, s))
  {
    var wrapper := FindWrapper(db.wrappers, Payer(swap, swaps, db, relations).value).value;
    var fee := FindFee(db.chainFees, wrapper.dstChain).value;
    ComparisonsAgreeIff(check, swap, wrapper, wrapper.feeToken.value, fee, fee.coin.value, tx, s);
  }
}
