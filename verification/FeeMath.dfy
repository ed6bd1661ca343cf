/**
 Quoting the fee of a cross-chain transfer, and deciding whether a fee that was paid is enough. Both are
 chains of scaled quotients; they are taken over exact numbers here.
 */
module FeeMath {
  import opened Options
  import opened Machine
  import opened Powers
  import opened FeeAlgebra

  const PRICE_PRECISION: int := 100_000_000
  const FEE_PRECISION: int := 100_000_000

  type Unit = u: int | u >= 1 witness 1

  /** A price in 10^-8 dollars, and how many of its smallest units make a coin: ten to its number of decimals. */
  datatype Coin = Coin(price: int, unit: Unit)

  /** The coin with the unit the program computes for it; a wrapped power that is not positive is no unit. */
  method MakeCoin(price: int, decimals: nat) returns (c: Option<Coin>)
    ensures decimals <= 18 ==> c == Some(Coin(price, Pow10(decimals)))
    ensures c.Some? ==> c.value.price == price && c.value.unit == ToInt64(Pow10(decimals))
    ensures c.None? <==> ToInt64(Pow10(decimals)) < 1
  {
    var unit := Int64FromFigure(decimals);
    FigureIsExactIff(decimals);
    c := if unit < 1 then None else Some(Coin(price, unit));
  }

  function Scale(u: Unit): real { u as real }

  // The risk rate

  datatype Mark = NotMarked | Marked(ratio: Option<real>)

  /** The configured handling of risky coins: by default the rate is 1 and the threshold 100. */
  datatype RiskConfig = Default | Configured(threshold: int, ratePercent: int)

  function RiskThreshold(c: RiskConfig): int { if c.Default? then 100 else c.threshold }

  function RisingRate(c: RiskConfig): real { if c.Default? then 1.0 else c.ratePercent as real / 100.0 }

  /** A coin marked as dying has the rate of its mark, if that can be read; otherwise risky ranks pay more. */
  function RiskRate(mark: Mark, rank: int, c: RiskConfig): real
  {
    match mark
    case Marked(ratio) => if ratio.Some? then ratio.value else 1.0
    case NotMarked => if rank > RiskThreshold(c) then RisingRate(c) else 1.0
  }

  /** No mark and no configuration lowers the fee of the coin. */
  predicate NeverLowered(mark: Mark, rank: int, c: RiskConfig)
  {
    match mark
    case Marked(ratio) => ratio.Some? ==> ratio.value >= 1.0
    case NotMarked => rank <= RiskThreshold(c) || c.Default? || c.ratePercent >= 100
  }

  lemma RateIsAtLeastOneIff(mark: Mark, rank: int, c: RiskConfig)
    ensures RiskRate(mark, rank, c) >= 1.0 <==> NeverLowered(mark, rank, c)
  {
  }

  /** The rate by case: the mark's ratio, the configured percentage above the threshold, or one. */
  lemma RateByCase(mark: Mark, rank: int, threshold: int, percent: int)
    ensures forall ratio :: RiskRate(Marked(Some(ratio)), rank, Default) == ratio
    ensures RiskRate(Marked(None), rank, Configured(threshold, percent)) == 1.0
    ensures RiskRate(NotMarked, rank, Default) == 1.0
    ensures rank > threshold ==> RiskRate(NotMarked, rank, Configured(threshold, percent)) * 100.0 == percent as real
    ensures rank <= threshold ==> RiskRate(NotMarked, rank, Configured(threshold, percent)) == 1.0
  {
  }

  /** The proxy fee after the risk handling. */
  method RateProxyFee(proxy: int, mark: Mark, rank: int, c: RiskConfig) returns (proxyFee: real)
    ensures proxyFee == proxy as real * RiskRate(mark, rank, c)
  {
    proxyFee := proxy as real;
    if mark.Marked? {
      if mark.ratio.Some? {
        proxyFee := proxyFee * mark.ratio.value;
      }
    } else if rank > RiskThreshold(c) {
      proxyFee := proxyFee * RisingRate(c);
    }
  }

  // The ratio for NFTs

  datatype FeeConfig = FeeConfig(chain: int, nftRatio: int)

  /** The ratio in percent of the first configuration of the chain; 100 when there is none or it is not positive. */
  function NftPercent(configs: seq<FeeConfig>, chain: int): (r: int)
    ensures r > 0
  {
    if configs == [] then 100
    else if configs[0].chain == chain then (if configs[0].nftRatio > 0 then configs[0].nftRatio else 100)
    else NftPercent(configs[1..], chain)
  }

  /** The ratio is that of the first configuration of the chain, if it is positive. */
  lemma {:induction false} NftPercentIsFirst(configs: seq<FeeConfig>, chain: int, k: nat)
    requires k < |configs| && configs[k].chain == chain
    requires forall j :: 0 <= j < k ==> configs[j].chain != chain
    ensures NftPercent(configs, chain) == if configs[k].nftRatio > 0 then configs[k].nftRatio else 100
  {
    if k == 0 {
    } else {
      NftPercentIsFirst(configs[1..], chain, k - 1);
    }
  }

  /** Without a configuration of the chain the ratio is 100 percent. */
  lemma {:induction false} NftPercentDefault(configs: seq<FeeConfig>, chain: int)
    requires forall j :: 0 <= j < |configs| ==> configs[j].chain != chain
    ensures NftPercent(configs, chain) == 100
  {
    if configs == [] {
    } else {
      NftPercentDefault(configs[1..], chain);
    }
  }

  /** The loop over the configurations that multiplies a fee and stops at the first of the chain. */
  method ApplyNftRatio(fee: real, configs: seq<FeeConfig>, chain: int) returns (scaled: real)
    ensures scaled == fee * (NftPercent(configs, chain) as real / 100.0)
  {
    scaled := fee;
    var i := 0;
    while i < |configs|
      invariant 0 <= i <= |configs|
      invariant NftPercent(configs, chain) == NftPercent(configs[i..], chain)
      invariant scaled == fee
    {
      assert configs[i..][1..] == configs[i + 1..];
      if configs[i].chain == chain {
        if configs[i].nftRatio > 0 {
          var nftRatio := configs[i].nftRatio as real / 100.0;
          scaled := fee * nftRatio;
        }
        return;
      }
      i := i + 1;
    }
  }

  // The check

  function FeePay(paid: int, token: Coin): real
  {
    (paid * token.price) as real / Scale(token.unit) / PRICE_PRECISION as real
  }

  function FeeMin(minFee: int, chain: Coin): real
  {
    (minFee * chain.price) as real / PRICE_PRECISION as real / FEE_PRECISION as real / Scale(chain.unit)
  }

  /** The two numbers in dollars: what was paid, at the token's price, and the minimum fee at the chain's. */
  lemma NumbersInDollars(paid: int, token: Coin, minFee: int, chain: Coin)
    ensures FeePay(paid, token) * PRICE_PRECISION as real * Scale(token.unit) == (paid * token.price) as real
    ensures FeeMin(minFee, chain) * Scale(chain.unit) * FEE_PRECISION as real * PRICE_PRECISION as real
         == (minFee * chain.price) as real
  {
    CancelDiv((paid * token.price) as real / Scale(token.unit), PRICE_PRECISION as real);
    CancelDiv((paid * token.price) as real, Scale(token.unit));
    CancelDiv((minFee * chain.price) as real / PRICE_PRECISION as real / FEE_PRECISION as real, Scale(chain.unit));
    CancelDiv((minFee * chain.price) as real / PRICE_PRECISION as real, FEE_PRECISION as real);
    CancelDiv((minFee * chain.price) as real, PRICE_PRECISION as real);
  }

  /** The decision on integers alone; `percent` is the NFT ratio, 100 for fungible tokens. */
  predicate PaidEnough(paid: int, token: Coin, minFee: int, chain: Coin, percent: int)
  {
    paid * token.price * FEE_PRECISION * chain.unit * 100
      >= minFee * chain.price * token.unit * percent
  }

  /** The fee decision as integers: the program's quotients compare exactly as the products do. */
  lemma DecisionIsIntegral(paid: int, token: Coin, minFee: int, chain: Coin, percent: int)
    ensures FeePay(paid, token) >= FeeMin(minFee, chain) * (percent as real / 100.0)
       <==> PaidEnough(paid, token, minFee, chain, percent)
  {
    DecisionOnIntegers(paid, token.price, minFee, chain.price, token.unit, chain.unit, FEE_PRECISION, percent);
  }

  /** The comparison as the program makes it: 1 for paid, -1 for not. */
  method ComparePayment(paid: int, token: Coin, minFee: int, chain: Coin, isNft: bool, configs: seq<FeeConfig>,
                        dstChain: int)
    returns (payState: int, feePay: real, feeMin: real)
    ensures payState == if PaidEnough(paid, token, minFee, chain, if isNft then NftPercent(configs, dstChain) else 100)
          then 1 else -1
    ensures feePay == FeePay(paid, token)
    ensures feeMin == FeeMin(minFee, chain) * ((if isNft then NftPercent(configs, dstChain) else 100) as real / 100.0)
  {
    var x := paid * token.price;
    feePay := x as real / Scale(token.unit);
    feePay := feePay / PRICE_PRECISION as real;
    x := minFee * chain.price;
    feeMin := x as real / PRICE_PRECISION as real;
    feeMin := feeMin / FEE_PRECISION as real;
    feeMin := feeMin / Scale(chain.unit);
    if isNft {
      feeMin := ApplyNftRatio(feeMin, configs, dstChain);
    }
    payState := if feePay >= feeMin then 1 else -1;
    DecisionIsIntegral(paid, token, minFee, chain, if isNft then NftPercent(configs, dstChain) else 100);
  }

  /** Paying more never turns a paid fee into an unpaid one. */
  lemma DecisionIsMonotone(paid: int, more: int, token: Coin, minFee: int, chain: Coin, percent: int)
    requires paid <= more && token.price >= 0 && PaidEnough(paid, token, minFee, chain, percent)
    ensures PaidEnough(more, token, minFee, chain, percent)
  {
    MorePaidWhole(paid, more, token.price, FEE_PRECISION, chain.unit);
  }

  /** The documented check: the payment is more than the minimum, where the program is content with the minimum. */
  predicate PaidMore(paid: int, token: Coin, minFee: int, chain: Coin, percent: int)
  {
    paid * token.price * FEE_PRECISION * chain.unit * 100
      > minFee * chain.price * token.unit * percent
  }

  /** The program and its documentation disagree exactly on a payment of the very minimum. */
  lemma DocumentedCheckDiffersIff(paid: int, token: Coin, minFee: int, chain: Coin, percent: int)
    ensures PaidEnough(paid, token, minFee, chain, percent) != PaidMore(paid, token, minFee, chain, percent)
       <==> FeePay(paid, token) == FeeMin(minFee, chain) * (percent as real / 100.0)
  {
    DecisionIsIntegral(paid, token, minFee, chain, percent);
    MoreIsIntegral(paid, token, minFee, chain, percent);
  }

  lemma MoreIsIntegral(paid: int, token: Coin, minFee: int, chain: Coin, percent: int)
    ensures FeePay(paid, token) > FeeMin(minFee, chain) * (percent as real / 100.0)
          <==> PaidMore(paid, token, minFee, chain, percent)
  {
    DecisionOnIntegers(paid, token.price, minFee, chain.price, token.unit, chain.unit, FEE_PRECISION, percent);
  }

  /** A payment of the very minimum, which the program accepts. */
  lemma MinimumIsAccepted()
    ensures
      var coin := Coin(1, 1);
      PaidEnough(1, coin, FEE_PRECISION, coin, 100) && !PaidMore(1, coin, FEE_PRECISION, coin, 100)
  {
  }

  // The quote

  /**
   The fee quoted for a payment token, in its smallest unit, as one quotient; `rated` is the proxy fee with its
   rate.
   */
  function QuotedFrom(rated: real, chain: Coin, token: Coin, percent: int, l1Usd: real): real
    requires token.price > 0
  {
    (rated * chain.price as real * (percent as real / 100.0) / (FEE_PRECISION as real * Scale(chain.unit))
     + l1Usd * PRICE_PRECISION as real) * (Scale(token.unit) / token.price as real)
  }

  function Quoted(proxyFee: int, rate: real, chain: Coin, token: Coin, percent: int, l1Usd: real): real
    requires token.price > 0
  {
    QuotedFrom(proxyFee as real * rate, chain, token, percent, l1Usd)
  }

  /** The ratio a quote uses: that of an NFT unless the swapped token is known to be fungible. */
  function QuotePercent(swapStandard: Option<int>, configs: seq<FeeConfig>, dstChain: int): int
  {
    if swapStandard == Some(0) then 100 else NftPercent(configs, dstChain)
  }

  /** The part of the quote that does not depend on the destination being Optimism. */
  method QuoteProxyFee(rated: real, chain: Coin, token: Coin, isNftSwap: bool, configs: seq<FeeConfig>, dstChain: int)
    returns (tokenFeeWithPrecision: real)
    requires token.price > 0
    ensures tokenFeeWithPrecision
          == QuotedFrom(rated, chain, token, if isNftSwap then NftPercent(configs, dstChain) else 100, 0.0)
  {
    var proxyFee := rated / FEE_PRECISION as real;
    ghost var perFee := proxyFee;
    proxyFee := proxyFee / Scale(chain.unit);
    var usdtFee := proxyFee * chain.price as real;
    ghost var usd := usdtFee;
    usdtFee := usdtFee / PRICE_PRECISION as real;
    var tokenFee := usdtFee * PRICE_PRECISION as real;
    ghost var back := tokenFee;
    tokenFee := tokenFee / token.price as real;
    ghost var percent := if isNftSwap then NftPercent(configs, dstChain) else 100;
    QuoteSteps(rated, perFee, proxyFee, usd, usdtFee, back, tokenFee, chain.price as real, FEE_PRECISION as real,
        Scale(chain.unit),
               PRICE_PRECISION as real, token.price as real, percent as real / 100.0, Scale(token.unit));
    if isNftSwap {
      tokenFee := ApplyNftRatio(tokenFee, configs, dstChain);
    }
    tokenFeeWithPrecision := tokenFee * Scale(token.unit);
  }

  /**
   The quote as the program computes it, variable by variable. `swapStandard` is the standard of the swapped
   token, if it was given and found; `l1Usd` is the extra fee of an Optimism destination.
   */
  method GetFee(proxy: int, mark: Mark, rank: int, risk: RiskConfig, chain: Coin, token: Coin,
                swapStandard: Option<int>,
                configs: seq<FeeConfig>, dstChain: int, l1Usd: Option<real>)
    returns (tokenFeeWithPrecision: real)
    requires token.price > 0
    ensures tokenFeeWithPrecision
         == Quoted(proxy, RiskRate(mark, rank, risk), chain, token, QuotePercent(swapStandard, configs, dstChain),
                   if l1Usd.Some? then l1Usd.value else 0.0)
  {
    var rated := RateProxyFee(proxy, mark, rank, risk);
    tokenFeeWithPrecision := QuoteProxyFee(rated, chain, token, swapStandard != Some(0), configs, dstChain);
    if l1Usd.Some? {
      var l1TokenFee := l1Usd.value * PRICE_PRECISION as real;
      l1TokenFee := l1TokenFee / token.price as real;
      var l1TokenFeeWithPrecision := l1TokenFee * Scale(token.unit);
      L1Adds(proxy, RiskRate(mark, rank, risk), chain, token, QuotePercent(swapStandard, configs, dstChain),
          l1Usd.value);
      tokenFeeWithPrecision := tokenFeeWithPrecision + l1TokenFeeWithPrecision;
    }
  }

  lemma L1Adds(proxy: int, rate: real, chain: Coin, token: Coin, percent: int, l1Usd: real)
    requires token.price > 0
    ensures Quoted(proxy, rate, chain, token, percent, l1Usd)
         == Quoted(proxy, rate, chain, token, percent, 0.0)
            + l1Usd * PRICE_PRECISION as real / token.price as real * Scale(token.unit)
  {
    var base := proxy as real * rate * chain.price as real * (percent as real / 100.0)
                / (FEE_PRECISION as real * Scale(chain.unit));
    DistributeReal(base, l1Usd * PRICE_PRECISION as real, Scale(token.unit) / token.price as real);
    L1Steps(l1Usd * PRICE_PRECISION as real, token.price as real, Scale(token.unit));
  }

  // The quote against the check

  /**
   The quote is worth the fee: at the token's price it is as many dollars as the proxy fee, with its rate and ratio,
   at the price of the chain's coin, and the extra fee.
   */
  lemma QuoteIsWorthTheFee(proxyFee: int, rate: real, chain: Coin, token: Coin, percent: int, l1Usd: real)
    requires token.price > 0
    ensures Quoted(proxyFee, rate, chain, token, percent, l1Usd) * token.price as real / Scale(token.unit)
         == proxyFee as real * rate * chain.price as real * (percent as real / 100.0)
              / (FEE_PRECISION as real * Scale(chain.unit)) + l1Usd * PRICE_PRECISION as real
  {
    var worth := proxyFee as real * rate * chain.price as real * (percent as real / 100.0)
                   / (FEE_PRECISION as real * Scale(chain.unit)) + l1Usd * PRICE_PRECISION as real;
    PriceCancels(worth, token.price as real, Scale(token.unit));
  }

  /** What a quote is worth to the check: proxy fee, rate, chain price and ratio, and the extra fee. */
  function QuoteWorth(proxyFee: int, rate: real, chain: Coin, percent: int, l1Usd: real): real
  {
    proxyFee as real * rate * chain.price as real * percent as real
    + l1Usd * PRICE_PRECISION as real * FEE_PRECISION as real * Scale(chain.unit) * 100.0
  }

  /** The check, on an amount that need not be whole. */
  predicate WouldPay(amount: real, token: Coin, minFee: int, chain: Coin, percent: int)
  {
    amount * token.price as real * FEE_PRECISION as real * Scale(chain.unit) * 100.0
      >= minFee as real * chain.price as real * Scale(token.unit) * percent as real
  }

  lemma WholeAmounts(paid: int, token: Coin, minFee: int, chain: Coin, percent: int)
    ensures WouldPay(paid as real, token, minFee, chain, percent) <==> PaidEnough(paid, token, minFee, chain, percent)
  {
    CastMul(paid, token.price);
    CastLeft(paid, token.price, FEE_PRECISION, chain.unit);
    CastMul(minFee, chain.price);
    CastRight(minFee, chain.price, token.unit, percent);
  }

  /**
   The quote against the check, exactly. The quoted amount passes the check if and only if what the quote is
   worth, by proxy fee, rate and ratio, is at least the minimum fee with the ratio the check uses.
   */
  lemma QuoteAcceptedIff(proxyFee: int, rate: real, chain: Coin, token: Coin, quotePercent: int, l1Usd: real,
                         minFee: int, checkPercent: int)
    requires token.price > 0
    ensures WouldPay(Quoted(proxyFee, rate, chain, token, quotePercent, l1Usd), token, minFee, chain, checkPercent)
       <==> QuoteWorth(proxyFee, rate, chain, quotePercent, l1Usd)
              >= minFee as real * chain.price as real * checkPercent as real
  {
    QuoteAgainstCheck(proxyFee as real, rate, chain.price as real, quotePercent as real, FEE_PRECISION as real,
        Scale(chain.unit),
                      l1Usd * PRICE_PRECISION as real, Scale(token.unit), token.price as real, minFee as real,
                          checkPercent as real);
  }

  lemma WouldPayMonotone(a: real, b: real, token: Coin, minFee: int, chain: Coin, percent: int)
    requires a <= b && token.price >= 0 && WouldPay(a, token, minFee, chain, percent)
    ensures WouldPay(b, token, minFee, chain, percent)
  {
    MorePaid(a, b, token.price as real, FEE_PRECISION as real, Scale(chain.unit));
  }

  lemma WorthIsEnough(proxyFee: int, rate: real, chain: Coin, percent: int, l1Usd: real, minFee: int, checkPercent: int)
    requires 0 <= minFee <= proxyFee && rate >= 1.0 && chain.price >= 0 && 0 <= checkPercent <= percent && l1Usd >= 0.0
    ensures QuoteWorth(proxyFee, rate, chain, percent, l1Usd)
          >= minFee as real * chain.price as real * checkPercent as real
  {
    ProductMonotone(checkPercent as real, percent as real, minFee as real, chain.price as real);
    ProductsGrow(proxyFee as real, rate, chain.price as real, percent as real, minFee as real);
    NaturalProduct(l1Usd * PRICE_PRECISION as real, FEE_PRECISION as real, Scale(chain.unit));
  }

  /**
   Quote implies paid. With unchanged prices, a coin whose fee is never lowered, a proxy fee of at least the
   minimum fee and a ratio of at least the check's, every whole payment at or above the quote passes the check.
   */
  lemma QuoteImpliesPaid(proxyFee: int, mark: Mark, rank: int, risk: RiskConfig, chain: Coin, token: Coin,
                         quotePercent: int,
                         l1Usd: real, minFee: int, checkPercent: int, paid: int)
    requires token.price > 0 && chain.price >= 0 && 0 <= checkPercent <= quotePercent
    requires NeverLowered(mark, rank, risk) && 0 <= minFee <= proxyFee && l1Usd >= 0.0
    requires paid as real >= Quoted(proxyFee, RiskRate(mark, rank, risk), chain, token, quotePercent, l1Usd)
    ensures PaidEnough(paid, token, minFee, chain, checkPercent)
  {
    var rate := RiskRate(mark, rank, risk);
    var quote := Quoted(proxyFee, rate, chain, token, quotePercent, l1Usd);
    RateIsAtLeastOneIff(mark, rank, risk);
    WorthIsEnough(proxyFee, rate, chain, quotePercent, l1Usd, minFee, checkPercent);
    QuoteAcceptedIff(proxyFee, rate, chain, token, quotePercent, l1Usd, minFee, checkPercent);
    WouldPayMonotone(quote, paid as real, token, minFee, chain, checkPercent);
    WholeAmounts(paid, token, minFee, chain, checkPercent);
  }

  /**
   A quote asked without naming the swapped token uses the NFT ratio. Below 100 percent, paying it for a
   fungible token is refused although the proxy fee equals the minimum fee.
   */
  lemma NftQuoteRefused(configs: seq<FeeConfig>, dstChain: int)
    requires NftPercent(configs, dstChain) == 50
    ensures
      var coin, token := Coin(1, 1), Coin(1, 10);
      && Quoted(100_000_000, 1.0, coin, token, QuotePercent(None, configs, dstChain), 0.0) == 5.0
      && !PaidEnough(5, token, 100_000_000, coin, 100)
  {
  }
}
