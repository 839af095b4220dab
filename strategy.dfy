/** The trading bot's pure decision rules: position sizing, the breakout
    target price, the holdings filter, the stop-loss test and the daily
    reset window. */
module Strategy {
  import opened Types

  /** Breakout sensitivity K. */
  const K_VALUE: real := 0.5
  /** Stop-loss threshold: sell at a loss of 3% or more. */
  const STOP_LOSS_PCT: real := 0.03
  /** Largest number of coins held at once. */
  const MAX_HOLDINGS: int := 5
  /** Largest amount of KRW spent on one buy. */
  const MAX_BUY_AMOUNT: real := 19000.0
  /** Number of markets watched. */
  const CANDIDATE_SIZE: nat := 20
  /** Smallest order value, in KRW, the bot places or counts as a holding. */
  const MIN_ORDER: real := 5000.0
  /** Share of the balance spendable after reserving a margin for fees. */
  const FEE_MARGIN: real := 0.999
  /** The home currency. */
  const HOME: string := "KRW"

  /** The KRW market of a currency. */
  function MarketOf(currency: string): Market {
    "KRW-" + currency
  }

  // ---------------------------------------------------------------------
  // Position sizing

  /** The balance, less the fee margin, split evenly over the free slots. */
  function SlotShare(krw: real, count: nat): real
    requires count < MAX_HOLDINGS
  {
    krw * FEE_MARGIN / (MAX_HOLDINGS - count) as real
  }

  /** `calculate_buy_amount`: the KRW to spend on one buy, or 0 for "do not buy",
      given the number of coins held and the KRW balance (None when unknown). */
  function BuyAmount(count: nat, krw: Option<real>): (r: real)
    ensures krw.None? || count >= MAX_HOLDINGS ==> r == 0.0
    ensures krw.Some? && count < MAX_HOLDINGS ==>
              (r == 0.0 <==> SlotShare(krw.value, count) < MIN_ORDER)
    ensures r != 0.0 ==>
              && krw.Some? && count < MAX_HOLDINGS
              && MIN_ORDER <= r <= MAX_BUY_AMOUNT
              && r <= SlotShare(krw.value, count)
              && (r < SlotShare(krw.value, count) ==> r == MAX_BUY_AMOUNT)
  {
    if krw.None? then 0.0
    else if MAX_HOLDINGS - count <= 0 then 0.0
    else
      var amount := SlotShare(krw.value, count);
      if amount >= MIN_ORDER then (if amount <= MAX_BUY_AMOUNT then amount else MAX_BUY_AMOUNT)
      else 0.0
  }

  /** Buying this amount in every free slot never spends more than the
      balance less the fee margin. */
  lemma BuyAmountWithinBalance(count: nat, krw: Option<real>)
    requires BuyAmount(count, krw) != 0.0
    ensures krw.Some? && count < MAX_HOLDINGS
    ensures BuyAmount(count, krw) * (MAX_HOLDINGS - count) as real <= krw.value * FEE_MARGIN
  {
    var slots := (MAX_HOLDINGS - count) as real;
    var share := SlotShare(krw.value, count);
    assert share * slots == krw.value * FEE_MARGIN;
    MulMono(BuyAmount(count, krw), share, slots);
  }

  /** Multiplying both sides by a positive factor keeps the order. */
  lemma MulMono(x: real, y: real, f: real)
    requires f > 0.0
    ensures x <= y <==> x * f <= y * f
  {
  }

  // ---------------------------------------------------------------------
  // Breakout target price

  /** The target price from the last two daily bars (`get_target_price`);
      None when the bars are unavailable or fewer than two. */
  function TargetPrice(bars: Option<seq<Bar>>): (r: Option<real>)
    ensures r.Some? <==> bars.Some? && |bars.value| >= 2
    ensures r.Some? ==>
              var yesterday, today := bars.value[|bars.value| - 2], bars.value[|bars.value| - 1];
              && r.value - today.open == (yesterday.high - yesterday.low) * K_VALUE
              && (yesterday.high >= yesterday.low ==> today.open <= r.value <= today.open + (yesterday.high - yesterday.low))
  {
    if bars.None? || |bars.value| < 2 then None
    else
      var yesterday := bars.value[|bars.value| - 2];
      var todayOpen := bars.value[|bars.value| - 1].open;
      Some(todayOpen + (yesterday.high - yesterday.low) * K_VALUE)
  }

  /** The dict comprehension building the target map: candidates are visited
      in order and each one whose target is present and non-zero is stored. */
  function TargetMap(candidates: seq<Market>, ohlcv: Market -> Option<seq<Bar>>): (r: map<Market, real>)
    ensures forall c :: c in r <==> c in candidates && Truthy(TargetPrice(ohlcv(c)))
    ensures forall c :: c in r ==> Some(r[c]) == TargetPrice(ohlcv(c))
  {
    if candidates == [] then map[]
    else
      var last := candidates[|candidates| - 1];
      var earlier := TargetMap(candidates[..|candidates| - 1], ohlcv);
      assert candidates == candidates[..|candidates| - 1] + [last];
      var t := TargetPrice(ohlcv(last));
      if Truthy(t) then earlier[last := t.value] else earlier
  }

  // ---------------------------------------------------------------------
  // Holdings filter

  /** A balance counted as a holding: not KRW and worth more than the order floor at its average price. */
  predicate Counted(b: Balance) {
    && b.currency != HOME
    && b.avgBuyPrice.Some? && b.balance.Some?
    && b.avgBuyPrice.value * b.balance.value > MIN_ORDER
  }

  /** A non-KRW balance whose numeric fields cannot be read as floats. */
  predicate Unparsable(b: Balance) {
    b.currency != HOME && (b.avgBuyPrice.None? || b.balance.None?)
  }

  /** The list comprehension of `get_my_coins`, over balances that all parse. */
  function HeldMarkets(bs: seq<Balance>): (r: seq<Market>)
    ensures |r| <= |bs|
    ensures forall m :: m in r <==> exists i :: 0 <= i < |bs| && Counted(bs[i]) && m == MarketOf(bs[i].currency)
  {
    if bs == [] then []
    else
      var rest := HeldMarkets(bs[1..]);
      assert forall i :: 1 <= i < |bs| ==> bs[i] == bs[1..][i - 1];
      (if Counted(bs[0]) then [MarketOf(bs[0].currency)] else []) + rest
  }

  /** The filter keeps the order of the balance list: it distributes over concatenation. */
  lemma {:induction false} HeldMarketsAppend(a: seq<Balance>, b: seq<Balance>)
    ensures HeldMarkets(a + b) == HeldMarkets(a) + HeldMarkets(b)
  {
    if a == [] {
      assert a + b == b;
    } else {
      assert (a + b)[1..] == a[1..] + b;
      HeldMarketsAppend(a[1..], b);
    }
  }

  /** `get_my_coins`: the markets held, or [] when the balances are unavailable
      or some non-KRW balance cannot be parsed (the except path). */
  function MyCoins(balances: Option<seq<Balance>>): (r: seq<Market>)
    ensures balances.None? ==> r == []
    ensures balances.Some? && (exists i :: 0 <= i < |balances.value| && Unparsable(balances.value[i])) ==> r == []
    ensures balances.Some? && (forall i :: 0 <= i < |balances.value| ==> !Unparsable(balances.value[i])) ==>
              forall m :: m in r <==> exists i :: 0 <= i < |balances.value| && Counted(balances.value[i]) && m == MarketOf(balances.value[i].currency)
    ensures balances.Some? && (forall i :: 0 <= i < |balances.value| ==> !Unparsable(balances.value[i])) ==>
              r == HeldMarkets(balances.value)
  {
    match balances
    case None => []
    case Some(bs) =>
      if exists i :: 0 <= i < |bs| && Unparsable(bs[i]) then [] else HeldMarkets(bs)
  }

  // ---------------------------------------------------------------------
  // Stop-loss

  /** The stop-loss test on a held coin's current and average buy price. The
      truthiness guard rules out division by zero. */
  predicate StopLossHit(curr: Option<real>, avg: Option<real>) {
    Truthy(curr) && Truthy(avg) && (curr.value - avg.value) / avg.value <= -STOP_LOSS_PCT
  }

  /** For a positive average price, the stop-loss fires exactly when the
      current price has fallen to 97% of it or below. */
  lemma StopLossThreshold(curr: real, avg: real)
    requires curr != 0.0 && avg > 0.0
    ensures StopLossHit(Some(curr), Some(avg)) <==> curr <= avg * (1.0 - STOP_LOSS_PCT)
  {
    var rate := (curr - avg) / avg;
    assert rate * avg == curr - avg;
    MulMono(rate, -STOP_LOSS_PCT, avg);
  }

  // ---------------------------------------------------------------------
  // Daily reset window

  /** A clock reading within the day. */
  predicate ValidClock(t: Clock) {
    t.hour < 24 && t.minute < 60 && t.second < 60
  }

  /** Seconds since midnight. */
  function SecondOfDay(t: Clock): nat {
    t.hour * 3600 + t.minute * 60 + t.second
  }

  /** The 09:00 reset test: hour 9, minute 0, second at most 10. */
  predicate InResetWindow(t: Clock) {
    t.hour == 9 && t.minute == 0 && t.second <= 10
  }

  /** The reset window is the eleven seconds 09:00:00 to 09:00:10. */
  lemma ResetWindowSeconds(t: Clock)
    requires ValidClock(t)
    ensures InResetWindow(t) <==> 32400 <= SecondOfDay(t) <= 32410
  {
    if t.hour < 9 {
      assert t.hour * 3600 <= 8 * 3600;
    } else if t.hour > 9 {
      assert t.hour * 3600 >= 10 * 3600;
    } else if t.minute > 0 {
      assert t.minute * 60 >= 60;
    }
  }

  /** The eleven-second pause after a reset carries the loop past the window,
      so a reset fires once per window when the clock does not go back. */
  lemma ResetSleepLeavesWindow(t: Clock, later: Clock)
    requires ValidClock(t) && ValidClock(later)
    requires InResetWindow(t) && SecondOfDay(later) >= SecondOfDay(t) + 11
    ensures !InResetWindow(later)
  {
    ResetWindowSeconds(t);
    ResetWindowSeconds(later);
  }
}
