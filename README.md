# Volatility-breakout trading bot: the decision core

This project models, in Dafny, the trading decisions of a single-file
cryptocurrency bot (`test.py`) that trades KRW markets on an exchange. Every
tick of its polling loop it:

- runs a reset in the 09:00:00–09:00:10 window. The reset sells every
  non-KRW balance worth more than 5000 KRW, rebuilds the list of 20
  candidate markets ranked by 24h traded value, and recomputes each
  candidate's breakout target price (today's open + yesterday's range × 0.5);
- reads the coins held (balances worth more than 5000 KRW at their average
  buy price);
- sells every held coin that is 3% or more below its average buy price
  (the stop-loss);
- if fewer than 5 coins are held, sizes one buy from the KRW balance. The
  size is 99.9% of the balance split over the free slots, capped at 19000
  and 0 below 5000. It then buys the first candidate, in rank order, that is
  not held and whose current price has reached its target.

The exchange's answers are inputs, gathered in a `Feed`: balances, the KRW
balance, per-coin volume, average buy price and current price, the ticker
snapshot and the daily bars. Money is `real`, which is exact arithmetic.
Python's `None` is `Option.None`. Python's truth test on a float is
`Truthy`: the value is present and non-zero.

Files:
- `types.dfy` (module `Types`): `Option`, `Balance`, `Bar`, `Ticker`,
  `Clock`, `Order`.
- `strategy.dfy` (module `Strategy`): the constants and the pure rules.
  These are position sizing, the target price and target map, the holdings
  filter, the stop-loss test and the reset window.
- `ranking.dfy` (module `Ranking`): the stable descending sort by traded
  value and the top-N selection with its fallback list.
- `trading.dfy` (module `Trading`): the loops of one tick as methods proved
  against specification functions. These are the liquidation loop of the
  reset, the stop-loss loop and the entry scan. The module also holds the
  class `Session`, whose fields are the candidate list and the target map
  that the loop reassigns at each reset.

Facts about `test.py` that the model follows:

- On failure, the candidate fetch returns the fixed list `["KRW-BTC", "KRW-ETH"]`.
  It does not keep the previous candidate list.
- This revision has no take-profit rule and no cooldown map.
- The reset has no once-per-date marker. It fires whenever the clock shows
  hour 9, minute 0 and second ≤ 10. The 11-second pause after it moves the
  loop past that window.
- The order floor is 5000 everywhere.
- A ticker snapshot that parses as an empty list yields an empty candidate
  list. Only a failure yields the fallback.

## Model

| member | source | states |
|---|---|---|
| Strategy.BuyAmount | test.py:100-105 | The amount is 0 when the balance is None or no slot is free. With a balance and a free slot, it is 0 exactly when the per-slot share is below 5000. A non-zero amount lies in [5000, 19000], never exceeds balance × 0.999 / free slots, and is below that share only when capped at 19000. |
| Strategy.BuyAmountWithinBalance | test.py:102-105 | A non-zero buy amount times the number of free slots is at most 99.9% of the KRW balance. |
| Strategy.SlotShare | test.py:102-104 | The definition: the KRW balance times 0.999, divided by the free slots (5 − holdings count). |
| Strategy.TargetPrice | test.py:67-75 | A target exists exactly when at least two bars are available. It is today's open plus yesterday's high−low range times K. When high ≥ low, it lies between today's open and today's open plus the full range. |
| Strategy.TargetMap | test.py:115 | The keys are exactly the candidates whose target is present and non-zero. Each value is that candidate's target price. |
| Strategy.Counted | test.py:81 | The definition of the comprehension's filter: the currency is not "KRW" and avg_buy_price × balance > 5000, with both numbers readable. |
| Strategy.Unparsable | test.py:81-83 | The definition of the except path: a non-KRW balance whose avg_buy_price or balance cannot be read by `float()`. Python's `and` short-circuits, so KRW entries are never parsed. |
| Strategy.HeldMarkets | test.py:81 | The result is no longer than the balance list. A market is in it exactly when some balance is non-KRW, has a value at average price above 5000, and that market is "KRW-" + its currency. |
| Strategy.HeldMarketsAppend | test.py:81 | The filter distributes over concatenation, so it keeps the balance list's order. |
| Strategy.MyCoins | test.py:77-83 | The result is [] when balances are None, or when a non-KRW balance has an unparsable number (the except path). Otherwise it holds exactly the markets of the counted balances, and it equals `HeldMarkets` of the balance list, so it has that filter's length and order. |
| Strategy.StopLossThreshold | test.py:137 | For a positive average price and a non-zero current price, the stop-loss test holds exactly when the current price is at most 97% of the average price. |
| Strategy.StopLossHit | test.py:137 | The definition: the current and average prices are both present and non-zero, and (curr − avg) / avg ≤ −0.03. The truthiness guard comes first, so the division never has a zero divisor. |
| Strategy.InResetWindow | test.py:124 | The definition: hour 9, minute 0, second ≤ 10. |
| Strategy.ResetWindowSeconds | test.py:124 | For a valid clock, the reset test holds exactly for the seconds of day 32400–32410 (09:00:00 to 09:00:10). |
| Strategy.ResetSleepLeavesWindow | test.py:124-128 | A reading at least 11 seconds after a reset reading is outside the window, so one window triggers one reset. |
| Ranking.InsertByValue | test.py:62 | Insertion adds exactly the new ticker: the length grows by one and the multiset gains that ticker. |
| Ranking.InsertKeepsOrder | test.py:62 | Inserting into a list ordered by non-increasing traded value keeps it ordered. |
| Ranking.RankByValue | test.py:62 | The ranking is a permutation of the snapshot, ordered by non-increasing 24h traded value. |
| Ranking.Markets | test.py:63 | The `x['market']` projection: same length, and each position holds the market of the entry at that position. |
| Ranking.TopCandidates | test.py:57-65 | A failed snapshot gives exactly ["KRW-BTC", "KRW-ETH"]. Otherwise there are min(limit, n) candidates. |
| Ranking.TopCandidatesAreTop | test.py:62-63 | The candidates are the markets of the first min(limit, n) entries of a value-ordered permutation of the snapshot. They are in non-increasing order, and no entry left out has a larger traded value than any chosen entry. |
| Ranking.TopCandidatesFromSnapshot | test.py:61-63 | Every candidate is the market of some entry of the snapshot. |
| Trading.Liquidation | test.py:88-94 | The definition: walk the balances in order and skip KRW. For each other coin, a missing price or volume raises and ends the walk. Otherwise the coin is sold for its whole volume when price × volume > 5000. |
| Trading.LiquidationSound | test.py:88-94 | Every liquidation order is a sell of a non-KRW balance's market, for that coin's whole volume, whose price × volume exceeds 5000. |
| Trading.LiquidationComplete | test.py:88-94 | When every non-KRW coin has a price and a volume, every such coin worth more than 5000 is sold. |
| Trading.SellAll | test.py:85-98 | The loop places exactly the liquidation orders of the balance list. It places none for None. It stops at the first coin whose price or volume is None. |
| Trading.StopLossSells | test.py:134-139 | The definition: the held coins that pass the stop-loss test, in holding order. |
| Trading.StopLossSellsMembers | test.py:134-139 | A coin is sold by the stop-loss exactly when it is held and its current and average prices pass the stop-loss test. |
| Trading.StopLossScan | test.py:134-139 | The loop sells exactly the stop-loss coins, in holding order. |
| Trading.EntryQualifies | test.py:146-149 | The definition: the coin is not held, `target_prices.get(coin)` is present and non-zero, and the current price is present, non-zero and ≥ the target. |
| Trading.FirstEntry | test.py:145-152 | The definition: the first candidate, in list order, that qualifies; None if there is none. |
| Types.Get | test.py:147 | `dict.get`: present exactly when the key is in the map, and then it is the stored value. |
| Trading.FirstEntryIsFirst | test.py:145-152 | The pick is None exactly when no candidate qualifies. Otherwise the pick is the candidate at a qualifying position with no qualifying candidate before it. |
| Trading.EntryScan | test.py:145-152 | The loop returns at most one candidate. If it returns one, that candidate qualifies (not held, target present and non-zero, price present, non-zero and ≥ target) and no earlier candidate does. If it returns none, no candidate qualifies. |
| Trading.EntryOrder | test.py:142-152 | The definition: when fewer than 5 coins are held and the buy amount is at least 5000, buy the first qualifying candidate for that amount; otherwise no buy. |
| Trading.EntryOrderSpec | test.py:142-152 | A tick buys nothing exactly when 5 or more coins are held, the buy amount is below 5000, or no candidate qualifies. Otherwise it buys the first qualifying candidate for the sized amount, which is within [5000, 19000]. |
| Trading.NoBuyBackAfterStopLoss | test.py:134-152 | A coin the stop-loss sells in a tick is never the coin bought in the same tick. |
| Trading.Session.constructor | test.py:114-115 | The session starts with the top 20 candidates and their target map, and satisfies the session invariant. |
| Trading.Session.Tick | test.py:119-153 | The tick keeps the invariant: at most 20 candidates, and every target belongs to a candidate and is non-zero. It resets exactly inside the window. A reset liquidates, replaces the candidates and rebuilds the targets (line 127); without a reset these are unchanged. The stop-loss sells and the one buy are those of the specification functions, over the freshly read holdings. |

## Left out

- The dashboard, the IP lookup and the secrets loading (test.py:10-35) are presentation and configuration. They are not modelled.
- `send_discord` (test.py:50-55) is a best-effort webhook. Notifications are not modelled.
- Exchange calls are inputs, not behaviour. There is one snapshot (`Feed`) for the reset phase and one for the trading phase. So the two `get_target_price` calls per candidate in the target-map comprehension see the same answer. The stop-loss and the entry scan also see the same prices.
- Wall-clock reads, `time.sleep` and the infinite loop are not modelled. One tick is a method of its inputs. `ResetSleepLeavesWindow` states what the 11-second pause achieves.
- The catch-all handler of the loop is not modelled. An exception raised by an order call in mid-tick would skip the rest of that tick. The model assumes order calls return.
- Order results are not modelled. The exchange's acceptance or rejection of an order is outside the model.
- The stop-loss outcome lists the markets sold, not the volume passed to the sell order. That volume is `get_balance(coin)` read at that moment.
- IEEE floating-point rounding of `float(...)`, `* 0.999` and the division in the stop-loss test is not modelled. The model uses exact reals.
- Missing dictionary keys (a `KeyError` caught by an except clause) and an unparsable KRW balance are not modelled. In `get_my_coins`, only unparsable average prices and volumes are modelled.
- Ranking.TopCandidates: ties in traded value keep their snapshot order, as in Python's stable sort. `InsertByValue` builds this into the definition, but it is not stated as a separate proved property.
- Ranking.TopCandidates: `limit` is a natural number. The only call site passes 20, so Python's negative slice bounds are not modelled.
- Take-profit, cooldown and a once-per-date reset marker do not exist in this revision of the bot.
