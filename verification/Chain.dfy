/** The blockchain as the history service sees it: block times and the proxy contract's logs. */
module Chain {

  /** The event types that `filterProxyEvents` knows. */
  datatype EventName =
    | Trade | Settle | SettleV2 | TokensDeposited | TokensWithdrawn | Liquidate
    | UpdateMarginAccount | LiquidityAdded | LiquidityRemoved
    | LiquidityWithdrawalInitiated | SetOracles

  /** One log: `index` is its position in the block, `key` stands for the key of the row it is stored under. */
  datatype Log = Log(block: nat, index: nat, name: EventName, key: nat)

  /** `times[b]` is the timestamp of block b in seconds; the last entry is the head. */
  datatype Chain = Chain(times: seq<nat>, logs: seq<Log>) {

    function Head(): nat
      requires times != []
    {
      |times| - 1
    }

    /** Block times never decrease and logs come in chain order. */
    ghost predicate Valid() {
      && times != []
      && (forall a, b :: 0 <= a <= b < |times| ==> times[a] <= times[b])
      && Known(this, logs)
      && (forall j, k :: 0 <= j < k < |logs| ==> Before(logs[j], logs[k]))
    }

    /** A log's block time in milliseconds, the unit of the service's dates. */
    function TimeMs(log: Log): int
      requires log.block < |times|
    {
      times[log.block] * 1000
    }
  }

  /** Chain order: by block, then by position in the block. */
  predicate Before(x: Log, y: Log) {
    x.block < y.block || (x.block == y.block && x.index < y.index)
  }

  /** Every log's block has a time. */
  predicate Known(c: Chain, logs: seq<Log>) {
    forall k :: 0 <= k < |logs| ==> logs[k].block < |c.times|
  }

  /** How many of the logs lie in blocks strictly below b. */
  function CountBelow(logs: seq<Log>, b: int): (n: nat)
    ensures n <= |logs|
  {
    if logs == [] || b <= logs[0].block then 0 else 1 + CountBelow(logs[1..], b)
  }

  /** In a valid chain `CountBelow` splits the logs exactly at block b. */
  lemma {:induction false} CountBelowSplits(logs: seq<Log>, b: int)
    requires forall j, k :: 0 <= j < k < |logs| ==> Before(logs[j], logs[k])
    ensures forall k :: 0 <= k < |logs| ==> (k < CountBelow(logs, b) <==> logs[k].block < b)
  {
    if logs == [] {
    } else if b <= logs[0].block {
      forall k | 0 <= k < |logs| ensures b <= logs[k].block {
        if k > 0 { assert Before(logs[0], logs[k]); }
      }
    } else {
      CountBelowSplits(logs[1..], b);
      forall k | 0 <= k < |logs|
        ensures k < CountBelow(logs, b) <==> logs[k].block < b
      {
        if k > 0 { assert logs[k] == logs[1..][k - 1]; }
      }
    }
  }

  lemma CountBelowMonotone(logs: seq<Log>, a: int, b: int)
    requires a <= b
    requires forall j, k :: 0 <= j < k < |logs| ==> Before(logs[j], logs[k])
    ensures CountBelow(logs, a) <= CountBelow(logs, b)
  {
    CountBelowSplits(logs, a);
    CountBelowSplits(logs, b);
    var k := CountBelow(logs, b);
    assert k < |logs| ==> b <= logs[k].block;
  }

  /** What `queryFilter(first, last)` returns: the logs of blocks first..last, both included. */
  function LogsIn(c: Chain, first: int, last: int): (r: seq<Log>)
    requires Known(c, c.logs)
    ensures Known(c, r)
  {
    var lo, hi := CountBelow(c.logs, first), CountBelow(c.logs, last + 1);
    if lo <= hi then c.logs[lo..hi] else []
  }

  lemma LogsInExact(c: Chain, first: int, last: int)
    requires c.Valid()
    ensures forall log :: log in LogsIn(c, first, last) <==> log in c.logs && first <= log.block <= last
  {
    CountBelowSplits(c.logs, first);
    CountBelowSplits(c.logs, last + 1);
    var lo, hi := CountBelow(c.logs, first), CountBelow(c.logs, last + 1);
    forall log | log in c.logs && first <= log.block <= last ensures log in LogsIn(c, first, last) {
      var k :| 0 <= k < |c.logs| && c.logs[k] == log;
      assert lo <= k < hi;
      assert c.logs[lo..hi][k - lo] == log;
    }
  }
}
