/** One tick of the trading loop: the 09:00 reset (liquidation, new
    candidates, new targets), the stop-loss scan over held coins and the
    breakout entry scan over the candidates. The exchange's answers are
    inputs, gathered in a Feed. */
module Trading {
  import opened Types
  import opened Strategy
  import opened Ranking

  /** What the exchange answers during one phase of a tick. */
  datatype Feed = Feed(
    balances: Option<seq<Balance>>,        // get_balances()
    krwBalance: Option<real>,              // get_balance("KRW")
    coinBalance: Market -> Option<real>,   // get_balance(coin)
    avgBuyPrice: Market -> Option<real>,   // get_avg_buy_price(coin)
    price: Market -> Option<real>,         // get_current_price(coin)
    tickers: Option<seq<Ticker>>,          // the ticker snapshot, None when the request fails
    ohlcv: Market -> Option<seq<Bar>>      // get_ohlcv(coin, "day", 2)
  )

  /** What one tick does: whether the reset ran, the liquidation orders of the
      reset, the coins sold by the stop-loss, and the one buy, if any. */
  datatype TickOutcome = TickOutcome(reset: bool, liquidation: seq<Order>, stopLoss: seq<Market>, buy: Option<Order>)

  // ---------------------------------------------------------------------
  // Liquidation at the reset (`sell_all`)

  /** The sell orders `sell_all` places for a balance list. Reading the price
      or volume of a coin as None makes `price * amount` raise, which ends
      the loop: no later balance is sold. */
  function Liquidation(bs: seq<Balance>, volume: Market -> Option<real>, price: Market -> Option<real>): seq<Order>
  {
    if bs == [] then []
    else if bs[0].currency == HOME then Liquidation(bs[1..], volume, price)
    else
      var coin := MarketOf(bs[0].currency);
      if price(coin).None? || volume(coin).None? then []
      else
        (if price(coin).value * volume(coin).value > MIN_ORDER then [Sell(coin, volume(coin).value)] else [])
        + Liquidation(bs[1..], volume, price)
  }

  /** Every liquidation order sells the whole volume of a non-KRW balance worth
      more than the order floor at the current price. */
  lemma {:induction false} LiquidationSound(bs: seq<Balance>, volume: Market -> Option<real>, price: Market -> Option<real>, o: Order)
    requires o in Liquidation(bs, volume, price)
    ensures o.Sell?
    ensures exists i :: 0 <= i < |bs| && bs[i].currency != HOME && o.market == MarketOf(bs[i].currency)
    ensures price(o.market).Some? && volume(o.market) == Some(o.volume)
    ensures price(o.market).value * o.volume > MIN_ORDER
  {
    assert bs != [];
    if o in Liquidation(bs[1..], volume, price) {
      LiquidationSound(bs[1..], volume, price, o);
      var i :| 0 <= i < |bs[1..]| && bs[1..][i].currency != HOME && o.market == MarketOf(bs[1..][i].currency);
      assert bs[i + 1] == bs[1..][i];
    }
  }

  /** When every non-KRW coin has a price and a volume, every such coin worth
      more than the order floor is sold. */
  lemma {:induction false} LiquidationComplete(bs: seq<Balance>, volume: Market -> Option<real>, price: Market -> Option<real>, i: nat)
    requires forall k :: 0 <= k < |bs| && bs[k].currency != HOME ==>
               price(MarketOf(bs[k].currency)).Some? && volume(MarketOf(bs[k].currency)).Some?
    requires i < |bs| && bs[i].currency != HOME
    requires price(MarketOf(bs[i].currency)).value * volume(MarketOf(bs[i].currency)).value > MIN_ORDER
    ensures Sell(MarketOf(bs[i].currency), volume(MarketOf(bs[i].currency)).value) in Liquidation(bs, volume, price)
  {
    if i > 0 {
      assert bs[1..][i - 1] == bs[i];
      LiquidationComplete(bs[1..], volume, price, i - 1);
    }
  }

  /** `sell_all`: walks the balance list in order and places the liquidation
      orders; nothing is sold when the balance list is None or empty. */
  method SellAll(balances: Option<seq<Balance>>, volume: Market -> Option<real>, price: Market -> Option<real>)
    returns (orders: seq<Order>)
    ensures balances.None? ==> orders == []
    ensures balances.Some? ==> orders == Liquidation(balances.value, volume, price)
  {
    orders := [];
    if balances.None? || balances.value == [] {
      return;
    }
    var bs := balances.value;
    var i := 0;
    while i < |bs|
      invariant 0 <= i <= |bs|
      invariant Liquidation(bs, volume, price) == orders + Liquidation(bs[i..], volume, price)
    {
      assert bs[i..][1..] == bs[i + 1..];
      if bs[i].currency != HOME {
        var coin := MarketOf(bs[i].currency);
        var amount := volume(coin);
        var current := price(coin);
        if current.None? || amount.None? {
          // `current * amount` raises: the handler ends the liquidation
          return;
        }
        if current.value * amount.value > MIN_ORDER {
          orders := orders + [Sell(coin, amount.value)];
        }
      }
      i := i + 1;
    }
  }

  // ---------------------------------------------------------------------
  // Stop-loss scan

  /** The held coins the stop-loss sells, in holding order. */
  function StopLossSells(myCoins: seq<Market>, price: Market -> Option<real>, avg: Market -> Option<real>): seq<Market>
  {
    if myCoins == [] then []
    else
      var last := myCoins[|myCoins| - 1];
      StopLossSells(myCoins[..|myCoins| - 1], price, avg)
      + (if StopLossHit(price(last), avg(last)) then [last] else [])
  }

  /** A coin is sold by the stop-loss exactly when it is held and its loss
      reaches the threshold. */
  lemma {:induction false} StopLossSellsMembers(myCoins: seq<Market>, price: Market -> Option<real>, avg: Market -> Option<real>, m: Market)
    ensures m in StopLossSells(myCoins, price, avg) <==> m in myCoins && StopLossHit(price(m), avg(m))
  {
    if myCoins != [] {
      var init := myCoins[..|myCoins| - 1];
      StopLossSellsMembers(init, price, avg, m);
      assert myCoins == init + [myCoins[|myCoins| - 1]];
    }
  }

  /** The `for coin in my_coins` loop of the stop-loss check. */
  method StopLossScan(myCoins: seq<Market>, price: Market -> Option<real>, avg: Market -> Option<real>)
    returns (sold: seq<Market>)
    ensures sold == StopLossSells(myCoins, price, avg)
  {
    sold := [];
    for i := 0 to |myCoins|
      invariant sold == StopLossSells(myCoins[..i], price, avg)
    {
      assert myCoins[..i + 1][..i] == myCoins[..i];
      var coin := myCoins[i];
      if StopLossHit(price(coin), avg(coin)) {
        sold := sold + [coin];
      }
    }
    assert myCoins[..|myCoins|] == myCoins;
  }

  // ---------------------------------------------------------------------
  // Entry scan

  /** A candidate the entry scan buys: not held, with a target that is
      present and non-zero, and a current price that is present, non-zero and
      at or above the target. */
  predicate EntryQualifies(coin: Market, myCoins: seq<Market>, targets: map<Market, real>, price: Market -> Option<real>) {
    && coin !in myCoins
    && Truthy(Get(targets, coin))
    && Truthy(price(coin))
    && price(coin).value >= targets[coin]
  }

  /** The first qualifying candidate in list order. */
  function FirstEntry(candidates: seq<Market>, myCoins: seq<Market>, targets: map<Market, real>, price: Market -> Option<real>): Option<Market>
  {
    if candidates == [] then None
    else if EntryQualifies(candidates[0], myCoins, targets, price) then Some(candidates[0])
    else FirstEntry(candidates[1..], myCoins, targets, price)
  }

  /** FirstEntry picks the candidate at the first qualifying position, and
      picks none when no candidate qualifies. */
  lemma {:induction false} FirstEntryIsFirst(candidates: seq<Market>, myCoins: seq<Market>, targets: map<Market, real>, price: Market -> Option<real>)
    ensures FirstEntry(candidates, myCoins, targets, price).None? <==>
              forall j :: 0 <= j < |candidates| ==> !EntryQualifies(candidates[j], myCoins, targets, price)
    ensures FirstEntry(candidates, myCoins, targets, price).Some? ==>
              exists i :: 0 <= i < |candidates|
                && candidates[i] == FirstEntry(candidates, myCoins, targets, price).value
                && EntryQualifies(candidates[i], myCoins, targets, price)
                && forall j :: 0 <= j < i ==> !EntryQualifies(candidates[j], myCoins, targets, price)
  {
    if candidates != [] && !EntryQualifies(candidates[0], myCoins, targets, price) {
      var tail := candidates[1..];
      FirstEntryIsFirst(tail, myCoins, targets, price);
      assert forall j :: 1 <= j < |candidates| ==> candidates[j] == tail[j - 1];
      if FirstEntry(tail, myCoins, targets, price).Some? {
        var i :| 0 <= i < |tail| && tail[i] == FirstEntry(tail, myCoins, targets, price).value
                 && EntryQualifies(tail[i], myCoins, targets, price)
                 && forall j :: 0 <= j < i ==> !EntryQualifies(tail[j], myCoins, targets, price);
        assert candidates[i + 1] == tail[i];
      }
    }
  }

  /** The `for coin in candidates` loop of the buy check: it stops at the
      first qualifying candidate, so at most one coin is picked, and no
      earlier candidate qualifies. */
  method EntryScan(candidates: seq<Market>, myCoins: seq<Market>, targets: map<Market, real>, price: Market -> Option<real>)
    returns (pick: Option<Market>)
    ensures pick.Some? ==>
              exists i :: 0 <= i < |candidates|
                && candidates[i] == pick.value
                && EntryQualifies(candidates[i], myCoins, targets, price)
                && forall j :: 0 <= j < i ==> !EntryQualifies(candidates[j], myCoins, targets, price)
    ensures pick.None? ==> forall j :: 0 <= j < |candidates| ==> !EntryQualifies(candidates[j], myCoins, targets, price)
  {
    pick := None;
    var i := 0;
    while i < |candidates|
      invariant 0 <= i <= |candidates|
      invariant forall j :: 0 <= j < i ==> !EntryQualifies(candidates[j], myCoins, targets, price)
    {
      var coin := candidates[i];
      if coin !in myCoins {
        var target := Get(targets, coin);
        var current := price(coin);
        if Truthy(target) && Truthy(current) && current.value >= target.value {
          pick := Some(coin);
          return;
        }
      }
      i := i + 1;
    }
  }

  /** The buy check of one tick: with fewer than MAX_HOLDINGS coins held and a
      buy amount at the order floor or above, the first qualifying candidate is
      bought for that amount. */
  function EntryOrder(myCoins: seq<Market>, krw: Option<real>, candidates: seq<Market>, targets: map<Market, real>, price: Market -> Option<real>): Option<Order>
  {
    if |myCoins| < MAX_HOLDINGS && BuyAmount(|myCoins|, krw) >= MIN_ORDER then
      match FirstEntry(candidates, myCoins, targets, price)
      case Some(coin) => Some(Buy(coin, BuyAmount(|myCoins|, krw)))
      case None => None
    else None
  }

  /** A buy happens only below MAX_HOLDINGS, for an amount within the sizing
      bounds, on the first qualifying candidate; and exactly when all three
      conditions allow it. */
  lemma EntryOrderSpec(myCoins: seq<Market>, krw: Option<real>, candidates: seq<Market>, targets: map<Market, real>, price: Market -> Option<real>)
    ensures var o := EntryOrder(myCoins, krw, candidates, targets, price);
            && (o.None? <==>
                  || |myCoins| >= MAX_HOLDINGS
                  || BuyAmount(|myCoins|, krw) < MIN_ORDER
                  || forall j :: 0 <= j < |candidates| ==> !EntryQualifies(candidates[j], myCoins, targets, price))
            && (o.Some? ==>
                  && o.value.Buy?
                  && |myCoins| < MAX_HOLDINGS
                  && MIN_ORDER <= o.value.krw <= MAX_BUY_AMOUNT
                  && o.value.krw == BuyAmount(|myCoins|, krw)
                  && exists i :: 0 <= i < |candidates|
                       && candidates[i] == o.value.market
                       && EntryQualifies(candidates[i], myCoins, targets, price)
                       && forall j :: 0 <= j < i ==> !EntryQualifies(candidates[j], myCoins, targets, price))
  {
    FirstEntryIsFirst(candidates, myCoins, targets, price);
  }

  /** A coin the stop-loss sells in a tick is not bought back in the same tick:
      the entry scan skips every coin in the holdings list the stop-loss walked. */
  lemma NoBuyBackAfterStopLoss(myCoins: seq<Market>, krw: Option<real>, candidates: seq<Market>, targets: map<Market, real>,
                               price: Market -> Option<real>, avg: Market -> Option<real>)
    requires EntryOrder(myCoins, krw, candidates, targets, price).Some?
    ensures EntryOrder(myCoins, krw, candidates, targets, price).value.market !in StopLossSells(myCoins, price, avg)
  {
    var coin := EntryOrder(myCoins, krw, candidates, targets, price).value.market;
    EntryOrderSpec(myCoins, krw, candidates, targets, price);
    StopLossSellsMembers(myCoins, price, avg, coin);
  }

  // ---------------------------------------------------------------------
  // The session

  /** The state the trading loop carries from tick to tick: the watched
      candidates and their target prices. */
  class Session {
    var candidates: seq<Market>
    var targetPrices: map<Market, real>

    /** The candidates and targets are derived together: at most
        CANDIDATE_SIZE candidates, and every target belongs to a candidate and
        is non-zero. */
    ghost predicate Valid()
      reads this
    {
      && |candidates| <= CANDIDATE_SIZE
      && forall c :: c in targetPrices ==> c in candidates && targetPrices[c] != 0.0
    }

    /** The start-up set-up: candidates and their targets. */
    constructor (start: Feed)
      ensures Valid()
      ensures candidates == TopCandidates(start.tickers, CANDIDATE_SIZE)
      ensures targetPrices == TargetMap(candidates, start.ohlcv)
    {
      candidates := TopCandidates(start.tickers, CANDIDATE_SIZE);
      targetPrices := TargetMap(TopCandidates(start.tickers, CANDIDATE_SIZE), start.ohlcv);
    }

    /** One pass of the `while True` body at clock reading `now`. `atReset`
        answers the reset's requests and `atTrade` those of the trading checks. */
    method Tick(now: Clock, atReset: Feed, atTrade: Feed) returns (out: TickOutcome)
      requires Valid()
      modifies this
      ensures Valid()
      ensures out.reset == InResetWindow(now)
      ensures out.reset ==>
                && out.liquidation == (if atReset.balances.None? then [] else Liquidation(atReset.balances.value, atReset.coinBalance, atReset.price))
                && candidates == TopCandidates(atReset.tickers, CANDIDATE_SIZE)
                && targetPrices == TargetMap(candidates, atReset.ohlcv)
      ensures !out.reset ==>
                out.liquidation == [] && candidates == old(candidates) && targetPrices == old(targetPrices)
      ensures out.stopLoss == StopLossSells(MyCoins(atTrade.balances), atTrade.price, atTrade.avgBuyPrice)
      ensures out.buy == EntryOrder(MyCoins(atTrade.balances), atTrade.krwBalance, candidates, targetPrices, atTrade.price)
    {
      var reset := InResetWindow(now);
      var liquidation: seq<Order> := [];
      if reset {
        liquidation := SellAll(atReset.balances, atReset.coinBalance, atReset.price);
        candidates := TopCandidates(atReset.tickers, CANDIDATE_SIZE);
        targetPrices := TargetMap(candidates, atReset.ohlcv);
      }

      var myCoins := MyCoins(atTrade.balances);
      var sold := StopLossScan(myCoins, atTrade.price, atTrade.avgBuyPrice);

      var buy: Option<Order> := None;
      if |myCoins| < MAX_HOLDINGS {
        var amount := BuyAmount(|myCoins|, atTrade.krwBalance);
        if amount >= MIN_ORDER {
          var pick := EntryScan(candidates, myCoins, targetPrices, atTrade.price);
          FirstEntryIsFirst(candidates, myCoins, targetPrices, atTrade.price);
          FirstEntryUnique(candidates, myCoins, targetPrices, atTrade.price, pick);
          if pick.Some? {
            buy := Some(Buy(pick.value, amount));
          }
        }
      }
      out := TickOutcome(reset, liquidation, sold, buy);
    }
  }

  /** The first-match property determines the pick: any answer with it is FirstEntry's. */
  lemma FirstEntryUnique(candidates: seq<Market>, myCoins: seq<Market>, targets: map<Market, real>, price: Market -> Option<real>, pick: Option<Market>)
    requires pick.Some? ==>
               exists i :: 0 <= i < |candidates|
                 && candidates[i] == pick.value
                 && EntryQualifies(candidates[i], myCoins, targets, price)
                 && forall j :: 0 <= j < i ==> !EntryQualifies(candidates[j], myCoins, targets, price)
    requires pick.None? ==> forall j :: 0 <= j < |candidates| ==> !EntryQualifies(candidates[j], myCoins, targets, price)
    ensures pick == FirstEntry(candidates, myCoins, targets, price)
  {
    FirstEntryIsFirst(candidates, myCoins, targets, price);
    var f := FirstEntry(candidates, myCoins, targets, price);
    if pick.Some? && f.Some? {
      var i :| 0 <= i < |candidates| && candidates[i] == pick.value
               && EntryQualifies(candidates[i], myCoins, targets, price)
               && forall j :: 0 <= j < i ==> !EntryQualifies(candidates[j], myCoins, targets, price);
      var k :| 0 <= k < |candidates| && candidates[k] == f.value
               && EntryQualifies(candidates[k], myCoins, targets, price)
               && forall j :: 0 <= j < k ==> !EntryQualifies(candidates[j], myCoins, targets, price);
      assert i == k;
    }
  }
}
