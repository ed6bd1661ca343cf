/** The fee-checking endpoint: which check answers a request, and in which order the answers are sent. */
module FeeEndpoint {
  import opened Options
  import opened FeeMath
  import opened CheckFees
  import opened SwapFees

  /** The chain id of the O3 swap pool, whose requests are answered by another check. */
  const O3_CROSSCHAIN_ID: int := 10

  predicate IsSwap(c: Request) { c.chain == O3_CROSSCHAIN_ID }

  function Pick(checks: seq<Request>, swap: bool): seq<Request>
  {
    if checks == [] then [] else
    var n := |checks| - 1;
    Pick(checks[..n], swap) + if IsSwap(checks[n]) == swap then [checks[n]] else []
  }

  /** The order in which the endpoint answers. */
  function ReplyOrder(checks: seq<Request>): seq<Request> { Pick(checks, false) + Pick(checks, true) }

  ghost predicate SwapsLast(checks: seq<Request>)
  {
    forall i, j :: 0 <= i < j < |checks| && IsSwap(checks[i]) ==> IsSwap(checks[j])
  }

  lemma {:induction false} PickIsUniform(checks: seq<Request>, swap: bool)
    ensures forall c :: c in Pick(checks, swap) ==> IsSwap(c) == swap
    ensures |Pick(checks, swap)| <= |checks|
  {
    if checks == [] {
    } else {
      PickIsUniform(checks[..|checks| - 1], swap);
    }
  }

  lemma {:induction false} PickSizes(checks: seq<Request>)
    ensures |Pick(checks, false)| + |Pick(checks, true)| == |checks|
    ensures multiset(ReplyOrder(checks)) == multiset(checks)
  {
    if checks == [] {
    } else {
      var n := |checks| - 1;
      PickSizes(checks[..n]);
      assert checks == checks[..n] + [checks[n]];
      var plain, swaps := Pick(checks[..n], false), Pick(checks[..n], true);
      assert multiset(plain + swaps) == multiset(plain) + multiset(swaps);
      assert multiset(ReplyOrder(checks)) == multiset(Pick(checks, false)) + multiset(Pick(checks, true));
    }
  }

  lemma {:induction false} NothingToPick(checks: seq<Request>)
    requires forall c :: c in checks ==> !IsSwap(c)
    ensures Pick(checks, true) == []
  {
    if checks == [] {
    } else {
      var n := |checks| - 1;
      assert checks[n] in checks;
      assert forall c :: c in checks[..n] ==> c in checks;
      NothingToPick(checks[..n]);
    }
  }

  lemma {:induction false} SortedStays(checks: seq<Request>)
    requires SwapsLast(checks)
    ensures ReplyOrder(checks) == checks
  {
    if checks == [] {
    } else {
      var n := |checks| - 1;
      SortedStays(checks[..n]);
      assert checks == checks[..n] + [checks[n]];
      if !IsSwap(checks[n]) {
        NothingToPick(checks[..n]);
      }
    }
  }

  lemma ReplyIsSorted(checks: seq<Request>)
    ensures SwapsLast(ReplyOrder(checks))
  {
    PickIsUniform(checks, false);
    PickIsUniform(checks, true);
    var plain, order := Pick(checks, false), ReplyOrder(checks);
    assert forall k :: 0 <= k < |plain| ==> order[k] == plain[k] && !IsSwap(order[k]);
    forall i, j | 0 <= i < j < |order| && IsSwap(order[i]) ensures IsSwap(order[j]) {
      assert order[j] in Pick(checks, true);
    }
  }

  /** The reply keeps the order of the requests if and only if no swap request comes before another one. */
  lemma ReplyInOrderIff(checks: seq<Request>)
    ensures ReplyOrder(checks) == checks <==> SwapsLast(checks)
  {
    ReplyIsSorted(checks);
    if SwapsLast(checks) {
      SortedStays(checks);
    }
  }

  /** Requests and answers match, one by one. */
  ghost predicate AnswersTo(fees: seq<CheckFee>, checks: seq<Request>)
  {
    && |fees| == |checks|
    && forall i :: 0 <= i < |checks| ==> fees[i].hash == checks[i].hash && fees[i].chain == checks[i].chain
  }

  lemma DecideNamesItsRequest(check: Request, checks: seq<Request>, db: Database, s: Settings)
    ensures Decide(check, checks, db, s).Decided? ==>
      Decide(check, checks, db, s).fee.hash == check.hash && Decide(check, checks, db, s).fee.chain == check.chain
  {
  }

  /** The requests that are no swaps; without any of them the check is not made. */
  method AnswerNormal(normal: seq<Request>, db: Database, s: Settings) returns (r: Response)
    ensures r.Answers? <==> Survives(normal, db, s)
    ensures r.Answers? ==> AnswersTo(r.fees, normal)
    ensures r.Answers? ==> forall i :: 0 <= i < |normal| ==> Decided(r.fees[i]) == Decide(normal[i], normal, db, s)
  {
    if |normal| == 0 {
      NothingToSurvive(db, s);
      return Answers([]);
    }
    r := CheckAll(normal, db, s);
    if r.Answers? {
      forall i | 0 <= i < |normal| ensures r.fees[i].hash == normal[i].hash && r.fees[i].chain == normal[i].chain {
        DecideNamesItsRequest(normal[i], normal, db, s);
      }
    }
  }

  lemma AnswersConcat(a: seq<CheckFee>, b: seq<CheckFee>, x: seq<Request>, y: seq<Request>)
    requires AnswersTo(a, x) && AnswersTo(b, y)
    ensures AnswersTo(a + b, x + y)
  {
  }

  method Split(checks: seq<Request>) returns (normal: seq<Request>, swaps: seq<Request>)
    ensures normal == Pick(checks, false) && swaps == Pick(checks, true)
  {
    normal, swaps := [], [];
    for i := 0 to |checks|
      invariant normal == Pick(checks[..i], false) && swaps == Pick(checks[..i], true)
    {
      assert checks[..i + 1][..i] == checks[..i];
      if checks[i].chain == O3_CROSSCHAIN_ID {
        swaps := swaps + [checks[i]];
      } else {
        normal := normal + [checks[i]];
      }
    }
    assert checks[..|checks|] == checks;
  }

  /** The requests of the swap pool; they go unanswered when the join cannot be read. */
  method AnswerSwaps(swaps: seq<Request>, db: Database, relations: Option<seq<Relation>>) returns (r: Response)
    ensures r.Answers? <==> SwapSurvives(swaps, db, relations)
    ensures r.Answers? ==> AnswersTo(r.fees, if relations.Some? then swaps else [])
    ensures r.Answers? ==>
      forall i :: 0 <= i < |r.fees| ==> Decided(r.fees[i]) == DecideSwap(swaps[i], swaps, db, relations.value)
  {
    if |swaps| == 0 {
      NothingIsFetched(db.srcTxs);
      return Answers([]);
    }
    r := CheckSwapFee(swaps, db, relations);
    if r.Answers? && relations.Some? {
      forall i | 0 <= i < |swaps| ensures r.fees[i].hash == swaps[i].hash && r.fees[i].chain == swaps[i].chain {
        DecideSwapNamesItsRequest(swaps[i], swaps, db, relations.value);
      }
    }
  }

  lemma DecideSwapNamesItsRequest(check: Request, checks: seq<Request>, db: Database, relations: seq<Relation>)
    ensures DecideSwap(check, checks, db, relations).Decided? ==>
      && DecideSwap(check, checks, db, relations).fee.hash == check.hash
      && DecideSwap(check, checks, db, relations).fee.chain == check.chain
  {
  }

  /**
   The endpoint: requests of the swap pool are checked apart and answered last; one fault on either side
   takes the whole reply down.
   */
  method CheckFeeEndpoint(checks: seq<Request>, db: Database, s: Settings, relations: Option<seq<Relation>>)
    returns (r: Response)
    ensures r.Answers? <==> Survives(Pick(checks, false), db, s) && SwapSurvives(Pick(checks, true), db, relations)
    ensures r.Answers? ==> AnswersTo(r.fees, if relations.Some? then ReplyOrder(checks) else Pick(checks, false))
    ensures r.Answers? ==>
      var n := |Pick(checks, false)|;
      && (forall i :: 0 <= i < n ==> Decided(r.fees[i]) == Decide(Pick(checks, false)[i], Pick(checks, false), db, s))
      && (forall i :: n <= i < |r.fees| ==>
            Decided(r.fees[i]) == DecideSwap(Pick(checks, true)[i - n], Pick(checks, true), db, relations.value))
  {
    var normal, swaps := Split(checks);
    var swapAnswer := AnswerSwaps(swaps, db, relations);
    if swapAnswer.Panics? {
      return Panics;
    }
    var answer := AnswerNormal(normal, db, s);
    if answer.Panics? {
      return Panics;
    }
    AnswersConcat(answer.fees, swapAnswer.fees, normal, if relations.Some? then swaps else []);
    r := Answers(answer.fees + swapAnswer.fees);
  }

  lemma {:induction false} NothingIsFetched(txs: seq<SrcTx>)
    ensures Fetch(txs, []) == []
  {
    if txs == [] {
    } else {
      NothingIsFetched(txs[..|txs| - 1]);
    }
  }

  lemma NothingToSurvive(db: Database, s: Settings)
    ensures Survives([], db, s)
  {
    NothingIsFetched(db.srcTxs);
  }
}
