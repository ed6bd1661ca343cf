/**
 The pass over the token statistics: records are added for tokens that have none, then every record is
 updated in place.
 */
module TokenRecords {
  import opened Powers
  import opened Decimals
  import opened Ledger
  import opened TokenTotals

  datatype Token = Token(asset: Asset, standard: int)

  /**
   What the pass looks up for a record, unless the token is unknown: its source chain, and the conversion its
   precision means.
   */
  datatype TokenInfo = Unknown | Known(sourceChain: int, inHundredths: int -> int)

  function Listed(sourceChain: int, precision: nat): TokenInfo { Known(sourceChain, InHundredths(precision)) }

  datatype Balance = NoBalance | Balance(amount: int)

  /** A save may fail with or without having reached the table. */
  datatype Save = Written | FailedBefore | FailedAfter

  /** The environment's answers for one record. */
  datatype Answers = Answers(info: TokenInfo, balance: Balance, inFails: bool, outFails: bool, save: Save)

  function PlaceOf(asset: Asset, info: TokenInfo): Place
    requires info.Known?
  {
    if info.sourceChain == asset.chain then OnSource else OffSource(info.inHundredths)
  }

  /** On its source chain a token's stock is the balance held there, and no query is made. */
  function InAfter(side: Side, asset: Asset, a: Answers, dst: seq<Transfer>): Outcome
    requires a.info.Known?
  {
    if PlaceOf(asset, a.info).OffSource? then RunSide(side, dst, asset, PlaceOf(asset, a.info), a.inFails)
    else Stands(Side(if a.balance.NoBalance? then side.amount
        else a.info.inHundredths(a.balance.amount), side.counter, LastId(dst)))
  }

  function OutAfter(side: Side, asset: Asset, a: Answers, src: seq<Transfer>): Outcome
    requires a.info.Known?
  {
    RunSide(side, src, asset, PlaceOf(asset, a.info), a.outFails)
  }

  // The stored record

  datatype Row = Row(inSide: Side, outSide: Side)

  /** The row of a token; one that has no row yet counts from zero. */
  function RowOf(rows: map<Asset, Row>, asset: Asset): Row
  {
    if asset in rows then rows[asset] else Row(Side(0, 0, 0), Side(0, 0, 0))
  }

  /** The pass dies on a missing amount, and on the quotient by a bitcoin price of zero. */
  predicate DiesAt(row: Row, asset: Asset, a: Answers, t: Tables)
  {
    a.info.Known? && (t.btcPrice == 0 || InAfter(row.inSide, asset, a, t.dst).Dies?
        || OutAfter(row.outSide, asset, a, t.src).Dies?)
  }

  /** What a pass reads: the transfers in, the transfers out, and the price of bitcoin. */
  datatype Tables = Tables(dst: seq<Transfer>, src: seq<Transfer>, btcPrice: int)

  /** The stored row after the record's turn. */
  function RowAfter(row: Row, asset: Asset, a: Answers, t: Tables): Row
  {
    if a.info.Unknown? || DiesAt(row, asset, a, t) || a.save.FailedBefore? then row
    else Row(InAfter(row.inSide, asset, a, t.dst).side, OutAfter(row.outSide, asset, a, t.src).side)
  }

  /** The pass goes on to the next record. */
  predicate GoesOn(row: Row, asset: Asset, a: Answers, t: Tables)
  {
    a.info.Unknown? || (!DiesAt(row, asset, a, t) && a.save.Written?)
  }

  /**
   A record's turn is an event of the histories of token totals, on the stored row: in both directions off
   the source chain, and for transfers out on it. The run of one direction is saved if the other one stands too.
   */
  lemma PassIsRun(ins: State, outs: State, asset: Asset, a: Answers, btcPrice: int)
    requires a.info.Known?
    ensures
      var row, t := Row(ins.side, outs.side), Tables(ins.transfers, outs.transfers, btcPrice);
      var saved := !DiesAt(row, asset, a, t) && !a.save.FailedBefore?;
      var place := PlaceOf(asset, a.info);
      && RowAfter(row, asset, a, t).outSide == Next(outs, Run(a.outFails, saved), asset, place).side
      && (place.OffSource? ==> RowAfter(row, asset, a, t).inSide == Next(ins, Run(a.inFails, saved), asset, place).side)
  {
  }

  /** When the pass dies at a record, by its token and the environment alone. */
  lemma DiesIff(row: Row, asset: Asset, a: Answers, t: Tables)
    ensures DiesAt(row, asset, a, t) <==>
              a.info.Known? && (t.btcPrice == 0 || (a.info.sourceChain != asset.chain && (a.inFails || a.outFails)))
  {
    if a.info.Known? {
      RunReachesNewest(row.inSide, t.dst, asset, PlaceOf(asset, a.info), a.inFails);
      RunReachesNewest(row.outSide, t.src, asset, PlaceOf(asset, a.info), a.outFails);
    }
  }

  /**
   When a turn is stored: exactly when the token is known, the pass does not die there, and the save takes effect,
   both checkpoints then stand at the newest ids. And the pass goes on unless it dies or the save is reported failed.
   */
  lemma TurnIsStored(row: Row, asset: Asset, a: Answers, t: Tables)
    ensures
      var dies := t.btcPrice == 0 || (a.info.Known? && a.info.sourceChain != asset.chain && (a.inFails || a.outFails));
      && (a.info.Unknown? || dies || a.save.FailedBefore? ==> RowAfter(row, asset, a, t) == row)
      && (a.info.Known? && !dies && !a.save.FailedBefore? ==>
            && RowAfter(row, asset, a, t).inSide.checkId == LastId(t.dst)
            && RowAfter(row, asset, a, t).outSide.checkId == LastId(t.src))
      && (GoesOn(row, asset, a, t) <==> a.info.Unknown? || (!dies && a.save.Written?))
  {
    DiesIff(row, asset, a, t);
    if a.info.Known? {
      RunReachesNewest(row.inSide, t.dst, asset, PlaceOf(asset, a.info), a.inFails);
      RunReachesNewest(row.outSide, t.src, asset, PlaceOf(asset, a.info), a.outFails);
    }
  }

  /** A failed query off the source chain kills the process and leaves the stored row alone. */
  lemma FailedQueryDies(row: Row, asset: Asset, a: Answers, t: Tables)
    requires a.info.Known? && a.info.sourceChain != asset.chain && (a.inFails || a.outFails)
    ensures DiesAt(row, asset, a, t) && RowAfter(row, asset, a, t) == row
  {
  }

  /** On its source chain a record holds the balance in hundredths, truncated once, and no amount going out. */
  lemma SourceHoldsBalance(row: Row, asset: Asset, a: Answers, precision: nat, t: Tables)
    requires precision <= DIVISION_PRECISION && a.info == Listed(asset.chain, precision)
    requires t.btcPrice != 0 && !a.save.FailedBefore?
    ensures
      var after := RowAfter(row, asset, a, t);
      && after.inSide.amount == (if a.balance.NoBalance? then row.inSide.amount
          else Quo(100 * a.balance.amount, Pow10(precision)))
      && after.inSide.counter == row.inSide.counter
      && after.outSide.amount == 0
  {
    if a.balance.Balance? {
      HundredthsIsTruncation(a.balance.amount, precision);
    }
  }

  // The record in memory

  class TokenStatistic {
    const asset: Asset
    var inAmount: int
    var inCounter: int
    var lastInCheckId: int
    var outAmount: int
    var outCounter: int
    var lastOutCheckId: int

    constructor (asset: Asset)
      ensures this.asset == asset && In() == Out() == Side(0, 0, 0)
    {
      this.asset := asset;
      inAmount, inCounter, lastInCheckId := 0, 0, 0;
      outAmount, outCounter, lastOutCheckId := 0, 0, 0;
    }

    function In(): Side
      reads this
    {
      Side(inAmount, inCounter, lastInCheckId)
    }

    function Out(): Side
      reads this
    {
      Side(outAmount, outCounter, lastOutCheckId)
    }

    /** The record's turn up to the save; the process dies in it or the record is ready to be saved. */
    method Update(a: Answers, t: Tables) returns (dies: bool)
      requires a.info.Known?
      modifies this
      ensures dies <==> DiesAt(Row(old(In()), old(Out())), asset, a, t)
      ensures !dies ==> InAfter(old(In()), asset, a, t.dst) == Stands(In())
      ensures !dies ==> OutAfter(old(Out()), asset, a, t.src) == Stands(Out())
    {
      var nowInId, nowOutId := LastId(t.dst), LastId(t.src);
      if a.info.sourceChain == asset.chain {
        if a.balance.Balance? {
          inAmount := a.info.inHundredths(a.balance.amount);
        }
        outAmount := 0;
      } else {
        var found := Query(t.dst, asset, lastInCheckId, nowInId, a.inFails);
        if found.Found? {
          if found.amount.None? {
            return true;
          }
          inAmount := inAmount + a.info.inHundredths(found.amount.value);
          inCounter := inCounter + found.counter;
        }
      }
      if t.btcPrice == 0 {
        return true;
      }
      var found := Query(t.src, asset, lastOutCheckId, nowOutId, a.outFails);
      if found.Found? {
        if asset.chain != a.info.sourceChain {
          if found.amount.None? {
            return true;
          }
          outAmount := outAmount + a.info.inHundredths(found.amount.value);
        }
        outCounter := outCounter + found.counter;
      }
      lastInCheckId := nowInId;
      lastOutCheckId := nowOutId;
      dies := false;
    }
  }

  function Keys(records: seq<TokenStatistic>): (r: seq<Asset>)
    ensures |r| == |records|
  {
    seq(|records|, i requires 0 <= i < |records| => records[i].asset)
  }

  function AsSet(keys: seq<Asset>): set<Asset> { set k | k in keys }

  ghost predicate Distinct(keys: seq<Asset>) { forall i, j :: 0 <= i < j < |keys| ==> keys[i] != keys[j] }

  /** The fungible tokens; only they get statistics. */
  function Fungible(tokens: seq<Token>): set<Asset> { set t | t in tokens && t.standard == 0 :: t.asset }

  lemma FungibleConcat(tokens: seq<Token>, t: Token)
    ensures Fungible(tokens + [t]) == Fungible(tokens) + if t.standard == 0 then {t.asset} else {}
  {
    assert forall x :: x in tokens + [t] <==> x in tokens || x == t;
  }

  /**
   Record reconciliation, for any iteration order of the map: the records found stay as they are, in front;
   each fungible token without a record gets one that starts at zero; and no key occurs twice if none did.
   */
  method Reconcile(tokens: seq<Token>, records: seq<TokenStatistic>) returns (all: seq<TokenStatistic>)
    ensures |records| <= |all| && all[..|records|] == records
    ensures AsSet(Keys(all)) == AsSet(Keys(records)) + Fungible(tokens)
    ensures forall k :: k in Keys(all) <==>
              k in Keys(records) || exists t :: t in tokens && t.standard == 0 && t.asset == k
    ensures Distinct(Keys(records)) ==> Distinct(Keys(all))
    ensures forall i :: |records| <= i < |all| ==>
              fresh(all[i]) && all[i].asset !in Keys(records) && all[i].In() == all[i].Out() == Side(0, 0, 0)
    ensures forall i, j :: |records| <= i < j < |all| ==> all[i].asset != all[j].asset
  {
    var tokensMap: map<Asset, bool> := map[];
    for i := 0 to |tokens|
      invariant tokensMap.Keys == Fungible(tokens[..i])
      invariant forall k :: k in tokensMap ==> tokensMap[k]
    {
      assert tokens[..i + 1] == tokens[..i] + [tokens[i]];
      FungibleConcat(tokens[..i], tokens[i]);
      if tokens[i].standard == 0 {
        tokensMap := tokensMap[tokens[i].asset := true];
      }
    }
    assert tokens[..|tokens|] == tokens;
    var keys := Keys(records);
    for i := 0 to |records|
      invariant tokensMap.Keys == Fungible(tokens) + AsSet(keys[..i])
      invariant forall k :: k in tokensMap ==> (tokensMap[k] <==> k !in keys[..i])
    {
      assert keys[..i + 1] == keys[..i] + [keys[i]];
      tokensMap := tokensMap[records[i].asset := false];
    }
    assert keys[..|records|] == keys;
    all := AddMissing(tokensMap, records);
    KeysOfAll(tokensMap, records, all);
    UnionByKey(tokens, Keys(records), Keys(all));
  }

  lemma UnionByKey(tokens: seq<Token>, found: seq<Asset>, all: seq<Asset>)
    requires AsSet(all) == AsSet(found) + Fungible(tokens)
    ensures forall k :: k in all <==> k in found || exists t :: t in tokens && t.standard == 0 && t.asset == k
  {
    forall k ensures k in all <==> k in found || exists t :: t in tokens && t.standard == 0 && t.asset == k {
      assert k in all <==> k in AsSet(all);
      assert k in found <==> k in AsSet(found);
    }
  }

  lemma KeysOfAll(tokensMap: map<Asset, bool>, records: seq<TokenStatistic>, all: seq<TokenStatistic>)
    requires |records| <= |all| && all[..|records|] == records
    requires AsSet(Keys(records)) <= tokensMap.Keys
    requires forall k :: k in tokensMap ==> (tokensMap[k] <==> k !in Keys(records))
    requires forall i :: |records| <= i < |all| ==> all[i].asset in tokensMap && tokensMap[all[i].asset]
    requires forall i, j :: |records| <= i < j < |all| ==> all[i].asset != all[j].asset
    requires forall k :: k in tokensMap && tokensMap[k] ==> k in Keys(all)
    ensures AsSet(Keys(all)) == tokensMap.Keys
    ensures Distinct(Keys(records)) ==> Distinct(Keys(all))
    ensures forall i :: |records| <= i < |all| ==> all[i].asset !in Keys(records)
  {
    forall i | 0 <= i < |records| ensures Keys(all)[i] == Keys(records)[i] {
      assert all[..|records|][i] == all[i];
    }
    forall k | k in Keys(records) ensures k in Keys(all) {
      var i :| 0 <= i < |records| && Keys(records)[i] == k;
      assert Keys(all)[i] == k;
    }
  }

  /** One new record per key marked as missing, in any order. */
  method AddMissing(tokensMap: map<Asset, bool>, records: seq<TokenStatistic>) returns (all: seq<TokenStatistic>)
    ensures |records| <= |all| && all[..|records|] == records
    ensures forall i :: |records| <= i < |all| ==> all[i].asset in tokensMap && tokensMap[all[i].asset]
    ensures forall i :: |records| <= i < |all| ==> fresh(all[i]) && all[i].In() == all[i].Out() == Side(0, 0, 0)
    ensures forall i, j :: |records| <= i < j < |all| ==> all[i].asset != all[j].asset
    ensures forall k :: k in tokensMap && tokensMap[k] ==> k in Keys(all)
  {
    all := records;
    var rest := tokensMap.Keys;
    while rest != {}
      invariant rest <= tokensMap.Keys
      invariant |records| <= |all| && all[..|records|] == records
      invariant forall i :: |records| <= i < |all| ==>
                  all[i].asset in tokensMap && all[i].asset !in rest && tokensMap[all[i].asset]
      invariant forall i :: |records| <= i < |all| ==> fresh(all[i]) && all[i].In() == all[i].Out() == Side(0, 0, 0)
      invariant forall i, j :: |records| <= i < j < |all| ==> all[i].asset != all[j].asset
      invariant forall k :: k in tokensMap && tokensMap[k] && k !in rest ==> k in Keys(all)
      decreases rest
    {
      var k :| k in rest;
      rest := rest - {k};
      if tokensMap[k] {
        var record := new TokenStatistic(k);
        KeysGrow(all, record);
        all := all + [record];
      }
    }
  }

  lemma KeysGrow(records: seq<TokenStatistic>, record: TokenStatistic)
    ensures Keys(records + [record]) == Keys(records) + [record.asset]
  {
  }

  // The pass

  /** The stored records. */
  class TokenTable {
    var rows: map<Asset, Row>

    constructor (rows: map<Asset, Row>)
      ensures this.rows == rows
    {
      this.rows := rows;
    }

    method Save(statistic: TokenStatistic, save: Save) returns (ok: bool)
      modifies this
      ensures rows == if save.FailedBefore? then old(rows)
            else old(rows)[statistic.asset := Row(statistic.In(), statistic.Out())]
      ensures ok <==> save.Written?
    {
      if !save.FailedBefore? {
        rows := rows[statistic.asset := Row(statistic.In(), statistic.Out())];
      }
      ok := save.Written?;
    }
  }

  datatype Ending = Finished | SaveFailed | Died

  /** Every record holds what is stored for its token. */
  ghost predicate Loaded(records: seq<TokenStatistic>, rows: map<Asset, Row>)
    reads records
  {
    forall i :: 0 <= i < |records| ==> Row(records[i].In(), records[i].Out()) == RowOf(rows, records[i].asset)
  }

  /** The turn of one record: only its own row can change, and the pass is finished with it or ends there. */
  method TakeTurn(table: TokenTable, statistic: TokenStatistic, a: Answers, t: Tables) returns (end: Ending)
    requires Row(statistic.In(), statistic.Out()) == RowOf(table.rows, statistic.asset)
    modifies table, statistic
    ensures RowOf(table.rows, statistic.asset)
          == RowAfter(RowOf(old(table.rows), statistic.asset), statistic.asset, a, t)
    ensures forall k :: k != statistic.asset ==> RowOf(table.rows, k) == RowOf(old(table.rows), k)
    ensures end.Finished? <==> GoesOn(RowOf(old(table.rows), statistic.asset), statistic.asset, a, t)
    ensures end.Died? <==> DiesAt(RowOf(old(table.rows), statistic.asset), statistic.asset, a, t)
  {
    if a.info.Unknown? {
      return Finished;
    }
    var dies := statistic.Update(a, t);
    if dies {
      return Died;
    }
    var ok := table.Save(statistic, a.save);
    end := if ok then Finished else SaveFailed;
  }

  /**
   The pass over the records just loaded. `done` of them have had their turn: their stored rows are those
   after the turn, all other rows are as before. It ends early exactly at the first record it does not go on from.
   */
  method ComputeTokenStatistics(table: TokenTable, records: seq<TokenStatistic>, answers: seq<Answers>, t: Tables)
    returns (end: Ending, done: nat)
    requires |answers| == |records| && Distinct(Keys(records)) && Loaded(records, table.rows)
    modifies table, records
    ensures done <= |records|
    ensures forall i :: 0 <= i < done ==>
              RowOf(table.rows, records[i].asset)
                  == RowAfter(RowOf(old(table.rows), records[i].asset), records[i].asset, answers[i], t)
    ensures forall k :: k !in Keys(records)[..done] ==> RowOf(table.rows, k) == RowOf(old(table.rows), k)
    ensures forall i :: 0 <= i < done && (end.Finished? || i < done - 1) ==>
              GoesOn(RowOf(old(table.rows), records[i].asset), records[i].asset, answers[i], t)
    ensures end.Finished? ==> done == |records|
    ensures !end.Finished? ==>
      && done > 0
      && !GoesOn(RowOf(old(table.rows), records[done - 1].asset), records[done - 1].asset, answers[done - 1], t)
    ensures end.Died? ==> DiesAt(RowOf(old(table.rows), records[done - 1].asset), records[done - 1].asset,
          answers[done - 1], t)
  {
    ghost var keys, before := Keys(records), table.rows;
    DistinctRecords(records);
    done := 0;
    while done < |records|
      invariant done <= |records|
      invariant forall i :: done <= i < |records| ==> unchanged(records[i])
      invariant forall i :: 0 <= i < done ==>
                  RowOf(table.rows, keys[i]) == RowAfter(RowOf(before, keys[i]), keys[i], answers[i], t)
      invariant forall k :: k !in keys[..done] ==> RowOf(table.rows, k) == RowOf(before, k)
      invariant forall i :: 0 <= i < done ==> GoesOn(RowOf(before, keys[i]), keys[i], answers[i], t)
    {
      assert keys[..done + 1] == keys[..done] + [keys[done]];
      end := TakeTurn(table, records[done], answers[done], t);
      done := done + 1;
      if !end.Finished? {
        return;
      }
    }
    end := Finished;
  }

  lemma DistinctRecords(records: seq<TokenStatistic>)
    requires Distinct(Keys(records))
    ensures forall i :: 0 <= i < |records| ==> Keys(records)[i] == records[i].asset
    ensures forall i, j :: 0 <= i < j < |records| ==> records[i] != records[j]
  {
    forall i, j | 0 <= i < j < |records| ensures records[i] != records[j] {
      assert Keys(records)[i] != Keys(records)[j];
    }
  }
}
