/** Candidate selection: rank the ticker snapshot by 24h traded value,
    largest first, and keep the top markets (`get_top_candidates`). */
module Ranking {
  import opened Types

  /** Markets watched when the ticker snapshot cannot be fetched. */
  const FALLBACK: seq<Market> := ["KRW-BTC", "KRW-ETH"]

  /** Ordered by traded value, largest first. */
  ghost predicate NonIncreasing(s: seq<Ticker>) {
    forall i, j :: 0 <= i < j < |s| ==> s[j].accTradePrice24h <= s[i].accTradePrice24h
  }

  /** Inserts t, which came before every element of s in the input, in front
      of the first element whose value does not exceed its own; so entries of
      equal value keep their input order, as in a stable sort. */
  function InsertByValue(t: Ticker, s: seq<Ticker>): (r: seq<Ticker>)
    ensures |r| == |s| + 1
    ensures multiset(r) == multiset(s) + multiset{t}
    ensures forall x :: x in r ==> x == t || x in s
  {
    if s == [] || t.accTradePrice24h >= s[0].accTradePrice24h then [t] + s
    else
      var rest := InsertByValue(t, s[1..]);
      assert s == [s[0]] + s[1..];
      [s[0]] + rest
  }

  /** Inserting into a value-ordered list keeps it value-ordered. */
  lemma {:induction false} InsertKeepsOrder(t: Ticker, s: seq<Ticker>)
    requires NonIncreasing(s)
    ensures NonIncreasing(InsertByValue(t, s))
  {
    if s != [] && t.accTradePrice24h < s[0].accTradePrice24h {
      var tail := s[1..];
      var rest := InsertByValue(t, tail);
      InsertKeepsOrder(t, tail);
      assert forall k :: 0 <= k < |rest| ==> rest[k].accTradePrice24h <= s[0].accTradePrice24h by {
        forall k | 0 <= k < |rest|
          ensures rest[k].accTradePrice24h <= s[0].accTradePrice24h
        {
          assert rest[k] in rest;
          if rest[k] != t {
            var m :| 0 <= m < |tail| && tail[m] == rest[k];
            assert s[m + 1] == rest[k];
          }
        }
      }
      var r := [s[0]] + rest;
      assert InsertByValue(t, s) == r;
      forall i, j | 0 <= i < j < |r|
        ensures r[j].accTradePrice24h <= r[i].accTradePrice24h
      {
        assert r[j] == rest[j - 1];
        if i > 0 {
          assert r[i] == rest[i - 1];
        }
      }
    }
  }

  /** `sorted(resp, key=acc_trade_price_24h, reverse=True)`: a stable sort by
      traded value, largest first. */
  function RankByValue(s: seq<Ticker>): (r: seq<Ticker>)
    ensures |r| == |s|
    ensures multiset(r) == multiset(s)
    ensures NonIncreasing(r)
  {
    if s == [] then []
    else
      assert s == [s[0]] + s[1..];
      InsertKeepsOrder(s[0], RankByValue(s[1..]));
      InsertByValue(s[0], RankByValue(s[1..]))
  }

  /** The market codes of a ticker list, in order. */
  function Markets(s: seq<Ticker>): (r: seq<Market>)
    ensures |r| == |s| && forall i :: 0 <= i < |s| ==> r[i] == s[i].market
  {
    seq(|s|, i requires 0 <= i < |s| => s[i].market)
  }

  /** `get_top_candidates(limit)`: the markets of the `limit` largest entries
      by traded value, or the fixed fallback pair when the snapshot fails. */
  function TopCandidates(snapshot: Option<seq<Ticker>>, limit: nat): (r: seq<Market>)
    ensures snapshot.None? ==> r == FALLBACK
    ensures snapshot.Some? ==> |r| == if limit < |snapshot.value| then limit else |snapshot.value|
  {
    match snapshot
    case None => FALLBACK
    case Some(s) =>
      var ranked := RankByValue(s);
      Markets(if limit < |ranked| then ranked[..limit] else ranked)
  }

  /** The candidates are the leading entries of a value-ordered permutation of
      the snapshot: in non-increasing order, and none of the entries left out
      has a larger traded value than any entry chosen. */
  lemma TopCandidatesAreTop(s: seq<Ticker>, limit: nat)
    ensures var ranked := RankByValue(s);
            var n := if limit < |s| then limit else |s|;
            var r := TopCandidates(Some(s), limit);
            && multiset(ranked) == multiset(s)
            && |r| == n
            && (forall i :: 0 <= i < n ==> r[i] == ranked[i].market)
            && (forall i, j :: 0 <= i < j < n ==> ranked[j].accTradePrice24h <= ranked[i].accTradePrice24h)
            && (forall i, j :: 0 <= i < n <= j < |s| ==> ranked[j].accTradePrice24h <= ranked[i].accTradePrice24h)
  {
    var ranked := RankByValue(s);
    assert |ranked| == |multiset(ranked)| == |multiset(s)| == |s|;
  }

  /** Every candidate is a market of the snapshot. */
  lemma TopCandidatesFromSnapshot(s: seq<Ticker>, limit: nat, i: nat)
    requires i < |TopCandidates(Some(s), limit)|
    ensures exists k :: 0 <= k < |s| && s[k].market == TopCandidates(Some(s), limit)[i]
  {
    var ranked := RankByValue(s);
    TopCandidatesAreTop(s, limit);
    assert ranked[i] in multiset(s);
    var k :| 0 <= k < |s| && s[k] == ranked[i];
  }
}
