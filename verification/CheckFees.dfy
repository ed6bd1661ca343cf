/**
 Answering whether the fees of a list of transactions were paid. The program answers through hash maps it
 fills from three queries; the specification searches the rows.
 */
module CheckFees {
  import opened Options
  import opened FeeMath
  import opened HexText

  const ERC721: int := 1

  datatype Request = Request(hash: string, chain: int)

  datatype SrcTx = SrcTx(hash: string, chain: int, standard: int, dstChain: int, contract: string, key: string)

  /** A wrapper record; its fee token is missing when the token table has no such token. */
  datatype Wrapper = Wrapper(hash: string, dstChain: int, feeToken: Option<Coin>, feeAmount: int)

  datatype ChainFee = ChainFee(chain: int, minFee: int, coin: Option<Coin>)

  datatype Database = Database(srcTxs: seq<SrcTx>, wrappers: seq<Wrapper>, chainFees: seq<ChainFee>)

  /** The upper-cased contracts of the bridge, and the NFT ratios. */
  datatype Settings = Settings(polyProxies: set<string>, fees: seq<FeeConfig>)

  datatype CheckFee = CheckFee(hash: string, chain: int, payState: int, amount: real, minProxyFee: real)

  /** One decision, or the fault of following a missing reference. */
  datatype Decision = Fault | Decided(fee: CheckFee)

  datatype Response = Panics | Answers(fees: seq<CheckFee>)

  function UpperChar(c: char): char { if 'a' <= c <= 'z' then c - 'a' + 'A' else c }

  function Upper(s: string): string { seq(|s|, i requires 0 <= i < |s| => UpperChar(s[i])) }

  // Plain search

  predicate Asked(checks: seq<Request>, text: string)
  {
    exists i :: 0 <= i < |checks| && (checks[i].hash == text || HexStringReverse(checks[i].hash) == text)
  }

  /** The source transactions the query returns. */
  function Fetch(txs: seq<SrcTx>, checks: seq<Request>): seq<SrcTx>
  {
    if txs == [] then [] else
    var n := |txs| - 1;
    Fetch(txs[..n], checks) + if Asked(checks, txs[n].key) || Asked(checks, txs[n].hash) then [txs[n]] else []
  }

  /** The chain given with the last request of a hash. */
  function ChainAsked(checks: seq<Request>, hash: string): Option<int>
  {
    if checks == [] then None else
    var n := |checks| - 1;
    if checks[n].hash == hash then Some(checks[n].chain) else ChainAsked(checks[..n], hash)
  }

  predicate ZeroKey(tx: SrcTx) { |tx.key| >= 8 && tx.key[..8] == "00000000" }

  /**
   The text names the transaction: by its key, on the right chain, if the key starts with zeros, else by its
   hash either way round.
   */
  predicate Names(tx: SrcTx, text: string, checks: seq<Request>)
  {
    if ZeroKey(tx) then text == tx.key && ChainAsked(checks, text) == Some(tx.chain)
    else text == tx.hash || text == HexStringReverse(tx.hash)
  }

  function LastNamed(rows: seq<SrcTx>, checks: seq<Request>, text: string): Option<SrcTx>
  {
    if rows == [] then None else
    var n := |rows| - 1;
    if Names(rows[n], text, checks) then Some(rows[n]) else LastNamed(rows[..n], checks, text)
  }

  function LastStored(rows: seq<SrcTx>, hash: string): Option<SrcTx>
  {
    if rows == [] then None else
    var n := |rows| - 1;
    if rows[n].hash == hash then Some(rows[n]) else LastStored(rows[..n], hash)
  }

  predicate PolyNames(tx: SrcTx, text: string, s: Settings)
  {
    Upper(tx.contract) in s.polyProxies && (text == tx.key || text == tx.hash || text == HexStringReverse(tx.hash))
  }

  /** Some transaction of the bridge's contracts goes by the text. */
  predicate IsPoly(rows: seq<SrcTx>, text: string, s: Settings)
  {
    exists i :: 0 <= i < |rows| && PolyNames(rows[i], text, s)
  }

  function FindWrapper(wrappers: seq<Wrapper>, hash: string): Option<Wrapper>
  {
    if wrappers == [] then None else
    var n := |wrappers| - 1;
    if wrappers[n].hash == hash then Some(wrappers[n]) else FindWrapper(wrappers[..n], hash)
  }

  function FindFee(fees: seq<ChainFee>, chain: int): Option<ChainFee>
  {
    if fees == [] then None else
    var n := |fees| - 1;
    if fees[n].chain == chain then Some(fees[n]) else FindFee(fees[..n], chain)
  }

  function Undecided(check: Request, payState: int): Decision
  {
    Decided(CheckFee(check.hash, check.chain, payState, 0.0, 0.0))
  }

  /** The ratio the check applies to a transaction. */
  function CheckPercent(tx: SrcTx, s: Settings): int
  {
    if tx.standard == ERC721 then NftPercent(s.fees, tx.dstChain) else 100
  }

  function Compare(check: Request, wrapper: Wrapper, token: Coin, fee: ChainFee, coin: Coin, tx: SrcTx,
                   s: Settings): Decision
  {
    var percent := CheckPercent(tx, s);
    Decided(CheckFee(check.hash, check.chain,
                     if PaidEnough(wrapper.feeAmount, token, fee.minFee, coin, percent) then 1 else -1,
                     FeePay(wrapper.feeAmount, token),
                     FeeMin(fee.minFee, coin) * (percent as real / 100.0)))
  }

  /** The decision for one request, by search alone. */
  function Decide(check: Request, checks: seq<Request>, db: Database, s: Settings): Decision
  {
    var rows := Fetch(db.srcTxs, checks);
    if !IsPoly(rows, check.hash, s) then Undecided(check, -2)
    else if FindFee(db.chainFees, check.chain).None? then Undecided(check, -1)
    else match LastNamed(rows, checks, check.hash)
    case None => Undecided(check, 0)
    case Some(named) =>
      match FindWrapper(db.wrappers, named.hash)
      case None => Undecided(check, -1)
      case Some(wrapper) =>
        match FindFee(db.chainFees, wrapper.dstChain)
        case None => Undecided(check, -1)
        case Some(fee) =>
          match (wrapper.feeToken, fee.coin, LastStored(rows, check.hash))
          case (Some(token), Some(coin), Some(tx)) => Compare(check, wrapper, token, fee, coin, tx, s)
          case _ => Fault
  }

  /** All requests together: a short key or a fault of any of them takes the whole answer down. */
  predicate Survives(checks: seq<Request>, db: Database, s: Settings)
  {
    && (forall tx :: tx in Fetch(db.srcTxs, checks) ==> |tx.key| >= 8)
    && (forall c :: c in checks ==> Decide(c, checks, db, s).Decided?)
  }

  // The maps

  method IndexRequests(checks: seq<Request>) returns (hash2ChainId: map<string, int>, requestHashs: set<string>)
    ensures forall h :: h in hash2ChainId <==> ChainAsked(checks, h).Some?
    ensures forall h :: h in hash2ChainId ==> hash2ChainId[h] == ChainAsked(checks, h).value
    ensures forall h :: h in requestHashs <==> Asked(checks, h)
  {
    hash2ChainId := map[];
    requestHashs := {};
    for i := 0 to |checks|
      invariant forall h :: h in hash2ChainId <==> ChainAsked(checks[..i], h).Some?
      invariant forall h :: h in hash2ChainId ==> hash2ChainId[h] == ChainAsked(checks[..i], h).value
      invariant forall h :: h in requestHashs <==> Asked(checks[..i], h)
    {
      assert checks[..i + 1][..i] == checks[..i];
      AskedGrows(checks, i);
      hash2ChainId := hash2ChainId[checks[i].hash := checks[i].chain];
      requestHashs := requestHashs + {checks[i].hash, HexStringReverse(checks[i].hash)};
    }
    assert checks[..|checks|] == checks;
  }

  lemma AskedGrows(checks: seq<Request>, i: nat)
    requires i < |checks|
    ensures forall h :: Asked(checks[..i + 1], h) <==>
              Asked(checks[..i], h) || h == checks[i].hash || h == HexStringReverse(checks[i].hash)
  {
    forall h ensures Asked(checks[..i + 1], h) <==>
              Asked(checks[..i], h) || h == checks[i].hash || h == HexStringReverse(checks[i].hash)
    {
      if Asked(checks[..i], h) {
        var k :| 0 <= k < i && (checks[..i][k].hash == h || HexStringReverse(checks[..i][k].hash) == h);
        assert checks[..i + 1][k] == checks[k];
      }
      if h == checks[i].hash || h == HexStringReverse(checks[i].hash) {
        assert checks[..i + 1][i] == checks[i];
      }
      if Asked(checks[..i + 1], h) {
        var k :| 0 <= k < i + 1 && (checks[..i + 1][k].hash == h || HexStringReverse(checks[..i + 1][k].hash) == h);
        if k < i { assert checks[..i][k] == checks[k]; }
      }
    }
  }

  /** What the maps hold after the given rows. */
  ghost predicate IndexOf(rows: seq<SrcTx>, checks: seq<Request>, s: Settings,
                          hash2Tx: map<string, SrcTx>, key2Txhash: map<string, string>, isPolyProxy: set<string>)
  {
    && (forall h :: h in hash2Tx <==> LastStored(rows, h).Some?)
    && (forall h :: h in hash2Tx ==> hash2Tx[h] == LastStored(rows, h).value)
    && (forall h :: h in key2Txhash <==> LastNamed(rows, checks, h).Some?)
    && (forall h :: h in key2Txhash ==> key2Txhash[h] == LastNamed(rows, checks, h).value.hash)
    && (forall h :: h in isPolyProxy <==> IsPoly(rows, h, s))
  }

  lemma IsPolyGrows(rows: seq<SrcTx>, i: nat, s: Settings)
    requires i < |rows|
    ensures forall h :: IsPoly(rows[..i + 1], h, s) <==> IsPoly(rows[..i], h, s) || PolyNames(rows[i], h, s)
  {
    forall h ensures IsPoly(rows[..i + 1], h, s) <==> IsPoly(rows[..i], h, s) || PolyNames(rows[i], h, s) {
      if IsPoly(rows[..i], h, s) {
        var k :| 0 <= k < i && PolyNames(rows[..i][k], h, s);
        assert rows[..i + 1][k] == rows[k];
      }
      if PolyNames(rows[i], h, s) {
        assert rows[..i + 1][i] == rows[i];
      }
      if IsPoly(rows[..i + 1], h, s) {
        var k :| 0 <= k < i + 1 && PolyNames(rows[..i + 1][k], h, s);
        if k < i { assert rows[..i][k] == rows[k]; }
      }
    }
  }

  /** Every text that names the transaction leads to it, over what was there before. */
  method NameTransaction(tx: SrcTx, ghost checks: seq<Request>, key2Txhash: map<string, string>,
                         hash2ChainId: map<string, int>)
    returns (named: map<string, string>)
    requires |tx.key| >= 8
    requires forall h :: h in hash2ChainId <==> ChainAsked(checks, h).Some?
    requires forall h :: h in hash2ChainId ==> hash2ChainId[h] == ChainAsked(checks, h).value
    ensures forall h :: h in named <==> h in key2Txhash || Names(tx, h, checks)
    ensures forall h :: h in named ==> named[h] == if Names(tx, h, checks) then tx.hash else key2Txhash[h]
  {
    named := key2Txhash;
    var prefix := tx.key[0..8];
    if prefix == "00000000" {
      if tx.key in hash2ChainId && hash2ChainId[tx.key] == tx.chain {
        named := named[tx.key := tx.hash];
      }
    } else {
      named := named[tx.hash := tx.hash];
      named := named[HexStringReverse(tx.hash) := tx.hash];
    }
  }

  lemma IndexGrows(rows: seq<SrcTx>, i: nat, checks: seq<Request>, s: Settings, hash2Tx: map<string, SrcTx>,
                   key2Txhash: map<string, string>, isPolyProxy: set<string>, named: map<string, string>,
                       polys: set<string>)
    requires i < |rows| && IndexOf(rows[..i], checks, s, hash2Tx, key2Txhash, isPolyProxy)
    requires forall h :: h in named <==> h in key2Txhash || Names(rows[i], h, checks)
    requires forall h :: h in named ==> named[h] == if Names(rows[i], h, checks) then rows[i].hash else key2Txhash[h]
    requires forall h :: h in polys <==> h in isPolyProxy || PolyNames(rows[i], h, s)
    ensures IndexOf(rows[..i + 1], checks, s, hash2Tx[rows[i].hash := rows[i]], named, polys)
  {
    assert rows[..i + 1][..i] == rows[..i];
    IsPolyGrows(rows, i, s);
  }

  /** One row of the loop; a short key panics. */
  method IndexTransaction(ghost rows: seq<SrcTx>, ghost i: nat, tx: SrcTx, ghost checks: seq<Request>, s: Settings,
                          hash2ChainId: map<string, int>,
                          hash2Tx: map<string, SrcTx>, key2Txhash: map<string, string>, isPolyProxy: set<string>)
    returns (panics: bool, stored: map<string, SrcTx>, named: map<string, string>, polys: set<string>)
    requires i < |rows| && rows[i] == tx && IndexOf(rows[..i], checks, s, hash2Tx, key2Txhash, isPolyProxy)
    requires forall h :: h in hash2ChainId <==> ChainAsked(checks, h).Some?
    requires forall h :: h in hash2ChainId ==> hash2ChainId[h] == ChainAsked(checks, h).value
    ensures panics <==> |tx.key| < 8
    ensures !panics ==> IndexOf(rows[..i + 1], checks, s, stored, named, polys)
  {
    stored, named, polys := hash2Tx[tx.hash := tx], key2Txhash, isPolyProxy;
    if |tx.key| < 8 {
      return true, stored, named, polys;
    }
    if Upper(tx.contract) in s.polyProxies {
      polys := polys + {tx.key, tx.hash, HexStringReverse(tx.hash)};
    }
    named := NameTransaction(tx, checks, key2Txhash, hash2ChainId);
    IndexGrows(rows, i, checks, s, hash2Tx, key2Txhash, isPolyProxy, named, polys);
    panics := false;
  }

  method IndexTransactions(rows: seq<SrcTx>, checks: seq<Request>, s: Settings, hash2ChainId: map<string, int>)
    returns (panics: bool, hash2Tx: map<string, SrcTx>, key2Txhash: map<string, string>, isPolyProxy: set<string>)
    requires forall h :: h in hash2ChainId <==> ChainAsked(checks, h).Some?
    requires forall h :: h in hash2ChainId ==> hash2ChainId[h] == ChainAsked(checks, h).value
    ensures panics <==> exists tx :: tx in rows && |tx.key| < 8
    ensures !panics ==> IndexOf(rows, checks, s, hash2Tx, key2Txhash, isPolyProxy)
  {
    hash2Tx, key2Txhash, isPolyProxy := map[], map[], {};
    for i := 0 to |rows|
      invariant IndexOf(rows[..i], checks, s, hash2Tx, key2Txhash, isPolyProxy)
      invariant forall k :: 0 <= k < i ==> |rows[k].key| >= 8
    {
      assert rows[i] in rows;
      panics, hash2Tx, key2Txhash, isPolyProxy :=
        IndexTransaction(rows, i, rows[i], checks, s, hash2ChainId, hash2Tx, key2Txhash, isPolyProxy);
      if panics {
        return;
      }
    }
    assert rows[..|rows|] == rows;
    panics := false;
  }

  /** The wrapper records of the hashes asked for, by hash. */
  method IndexWrappers(wrappers: seq<Wrapper>, checkHashes: set<string>) returns (byHash: map<string, Wrapper>)
    ensures forall h :: h in byHash <==> h in checkHashes && FindWrapper(wrappers, h).Some?
    ensures forall h :: h in byHash ==> byHash[h] == FindWrapper(wrappers, h).value
  {
    byHash := map[];
    for i := 0 to |wrappers|
      invariant forall h :: h in byHash <==> h in checkHashes && FindWrapper(wrappers[..i], h).Some?
      invariant forall h :: h in byHash ==> byHash[h] == FindWrapper(wrappers[..i], h).value
    {
      assert wrappers[..i + 1][..i] == wrappers[..i];
      if wrappers[i].hash in checkHashes {
        byHash := byHash[wrappers[i].hash := wrappers[i]];
      }
    }
    assert wrappers[..|wrappers|] == wrappers;
  }

  method IndexFees(fees: seq<ChainFee>) returns (byChain: map<int, ChainFee>)
    ensures forall c :: c in byChain <==> FindFee(fees, c).Some?
    ensures forall c :: c in byChain ==> byChain[c] == FindFee(fees, c).value
  {
    byChain := map[];
    for i := 0 to |fees|
      invariant forall c :: c in byChain <==> FindFee(fees[..i], c).Some?
      invariant forall c :: c in byChain ==> byChain[c] == FindFee(fees[..i], c).value
    {
      assert fees[..i + 1][..i] == fees[..i];
      byChain := byChain[fees[i].chain := fees[i]];
    }
    assert fees[..|fees|] == fees;
  }

  /** The wrapper records and the fees found by search are in the maps, for every transaction the requests name. */
  ghost predicate Prepared(checks: seq<Request>, db: Database, key2Txhash: map<string, string>,
                           txHash2Wrapper: map<string, Wrapper>, chain2Fees: map<int, ChainFee>)
  {
    && (forall c :: c in checks && c.hash in key2Txhash ==>
          var h := key2Txhash[c.hash];
          && (h in txHash2Wrapper <==> FindWrapper(db.wrappers, h).Some?)
          && (h in txHash2Wrapper ==> txHash2Wrapper[h] == FindWrapper(db.wrappers, h).value))
    && (forall c :: c in chain2Fees <==> FindFee(db.chainFees, c).Some?)
    && (forall c :: c in chain2Fees ==> chain2Fees[c] == FindFee(db.chainFees, c).value)
  }

  /** The decision for one request, through the maps. */
  method DecideThroughMaps(check: Request, ghost checks: seq<Request>, ghost db: Database, s: Settings,
                           hash2Tx: map<string, SrcTx>, key2Txhash: map<string, string>, isPolyProxy: set<string>,
                           txHash2Wrapper: map<string, Wrapper>, chain2Fees: map<int, ChainFee>)
    returns (d: Decision)
    requires check in checks && Prepared(checks, db, key2Txhash, txHash2Wrapper, chain2Fees)
    requires IndexOf(Fetch(db.srcTxs, checks), checks, s, hash2Tx, key2Txhash, isPolyProxy)
    ensures d == Decide(check, checks, db, s)
  {
    if check.hash !in isPolyProxy {
      return Undecided(check, -2);
    }
    if check.chain !in chain2Fees {
      return Undecided(check, -1);
    }
    if check.hash !in key2Txhash {
      return Undecided(check, 0);
    }
    var newHash := key2Txhash[check.hash];
    if newHash !in txHash2Wrapper {
      return Undecided(check, -1);
    }
    var wrapper := txHash2Wrapper[newHash];
    if wrapper.dstChain !in chain2Fees {
      return Undecided(check, -1);
    }
    var chainFee := chain2Fees[wrapper.dstChain];
    if wrapper.feeToken.None? || chainFee.coin.None? || check.hash !in hash2Tx {
      return Fault;
    }
    var tx := hash2Tx[check.hash];
    var payState, feePay, feeMin := ComparePayment(wrapper.feeAmount, wrapper.feeToken.value, chainFee.minFee,
        chainFee.coin.value,
                                                   tx.standard == ERC721, s.fees, tx.dstChain);
    d := Decided(CheckFee(check.hash, check.chain, payState, feePay, feeMin));
  }

  /** The loop over the requests. */
  method DecideAll(checks: seq<Request>, ghost db: Database, s: Settings,
                   hash2Tx: map<string, SrcTx>, key2Txhash: map<string, string>, isPolyProxy: set<string>,
                   txHash2Wrapper: map<string, Wrapper>, chain2Fees: map<int, ChainFee>)
    returns (r: Response)
    requires Prepared(checks, db, key2Txhash, txHash2Wrapper, chain2Fees)
    requires IndexOf(Fetch(db.srcTxs, checks), checks, s, hash2Tx, key2Txhash, isPolyProxy)
    ensures r.Answers? <==> forall c :: c in checks ==> Decide(c, checks, db, s).Decided?
    ensures r.Answers? ==>
      && |r.fees| == |checks|
      && forall i :: 0 <= i < |checks| ==> Decided(r.fees[i]) == Decide(checks[i], checks, db, s)
  {
    var checkFees: seq<CheckFee> := [];
    for i := 0 to |checks|
      invariant |checkFees| == i
      invariant forall k :: 0 <= k < i ==> Decided(checkFees[k]) == Decide(checks[k], checks, db, s)
    {
      var d := DecideThroughMaps(checks[i], checks, db, s, hash2Tx, key2Txhash, isPolyProxy, txHash2Wrapper,
          chain2Fees);
      if d.Fault? {
        assert checks[i] in checks;
        return Panics;
      }
      checkFees := checkFees + [d.fee];
    }
    r := Answers(checkFees);
  }

  /**
   Index refinement. Through its maps, the program gives one answer per request, in the order of the
   requests, each the one that plain search over the rows gives; or it panics, exactly when it must.
   */
  method CheckAll(checks: seq<Request>, db: Database, s: Settings) returns (r: Response)
    ensures r.Answers? <==> Survives(checks, db, s)
    ensures r.Answers? ==>
      && |r.fees| == |checks|
      && forall i :: 0 <= i < |checks| ==> Decided(r.fees[i]) == Decide(checks[i], checks, db, s)
  {
    var hash2ChainId, requestHashs := IndexRequests(checks);
    var rows := Fetch(db.srcTxs, checks);
    var panics, hash2Tx, key2Txhash, isPolyProxy := IndexTransactions(rows, checks, s, hash2ChainId);
    if panics {
      return Panics;
    }
    var checkHashes: set<string> := {};
    for i := 0 to |checks|
      invariant forall k :: 0 <= k < i && checks[k].hash in key2Txhash ==> key2Txhash[checks[k].hash] in checkHashes
    {
      if checks[i].hash in key2Txhash {
        checkHashes := checkHashes + {key2Txhash[checks[i].hash]};
      }
    }
    var txHash2Wrapper := IndexWrappers(db.wrappers, checkHashes);
    var chain2Fees := IndexFees(db.chainFees);
    r := DecideAll(checks, db, s, hash2Tx, key2Txhash, isPolyProxy, txHash2Wrapper, chain2Fees);
  }
}
