/** `calculateBlockFromTime`: bisection for the block a scan starts from. */
module BlockSearch {
  import opened Chain

  const MAX_RPC_CALLS := 7
  const PRECISION_SEC := 6 * 3600

  /** ceil(n / 2^k) for the number k of halvings already done. */
  function Halved(n: nat, k: nat): nat {
    if k == 0 then n else (Halved(n, k - 1) + 1) / 2
  }

  lemma HalvedSevenTimes(n: nat)
    ensures Halved(n, 7) == (n + 127) / 128
  {
    assert Halved(n, 1) == (n + 1) / 2;
    assert Halved(n, 2) == (n + 3) / 4;
    assert Halved(n, 3) == (n + 7) / 8;
    assert Halved(n, 4) == (n + 15) / 16;
    assert Halved(n, 5) == (n + 31) / 32;
    assert Halved(n, 6) == (n + 63) / 64;
  }

  /** A start block from which no log at or after `sinceMs` can be missed below it. */
  predicate SafeStart(times: seq<nat>, sinceMs: int, block: nat) {
    block < |times| && (block == 0 || times[block] * 1000 < sinceMs)
  }

  /** JavaScript's `Math.round((l + r) / 2)`: halves round up. */
  function Midpoint(l: nat, r: nat): nat {
    (l + r + 1) / 2
  }

  lemma MidpointRoundsUp(l: nat, r: nat)
    ensures 2 * Midpoint(l, r) == l + r || 2 * Midpoint(l, r) == l + r + 1
  {
  }

  method CalculateBlockFromTime(c: Chain, sinceMs: int, mustBeBefore: bool)
    returns (block: nat, maxBlock: nat, ghost left: nat, ghost right: nat, ghost probes: nat)
    requires c.times != []
    ensures maxBlock == c.Head()
    ensures block == if mustBeBefore then left else right
    // the left end is 0 or strictly older, the right end is the head or not older
    ensures left <= right <= maxBlock
    ensures SafeStart(c.times, sinceMs, left)
    ensures right == maxBlock || c.times[right] * 1000 >= sinceMs
    // the bracket either spans under six hours or is at most ceil(head / 128) blocks wide
    ensures c.times[right] < (if left == 0 then 0 else c.times[left]) + 21_600
            || right - left <= (c.Head() + 127) / 128
    ensures probes <= 7
  {
    var rightBlockNum := c.Head();
    var rightBlockTime := c.times[rightBlockNum];
    maxBlock := rightBlockNum;
    var leftBlockTime, leftBlockNum := 0, 0;
    probes := 0;
    var i := 0;
    while i < MAX_RPC_CALLS
      invariant 0 <= i <= MAX_RPC_CALLS && probes == i
      invariant leftBlockNum <= rightBlockNum <= maxBlock
      invariant rightBlockTime == c.times[rightBlockNum]
      invariant maxBlock == 0 || leftBlockTime == if leftBlockNum == 0 then 0 else c.times[leftBlockNum]
      invariant SafeStart(c.times, sinceMs, leftBlockNum)
      invariant rightBlockNum == maxBlock || rightBlockTime * 1000 >= sinceMs
      invariant rightBlockNum - leftBlockNum <= Halved(maxBlock, i)
    {
      var middleBlockNum := Midpoint(leftBlockNum, rightBlockNum);
      ghost var width := rightBlockNum - leftBlockNum;
      assert middleBlockNum == leftBlockNum + (width + 1) / 2;
      var middleBlockTime := c.times[middleBlockNum];
      probes := probes + 1;
      if middleBlockTime * 1000 < sinceMs {
        leftBlockNum := middleBlockNum;
        leftBlockTime := middleBlockTime;
      } else {
        rightBlockNum := middleBlockNum;
        rightBlockTime := middleBlockTime;
      }
      if rightBlockTime - leftBlockTime < PRECISION_SEC {
        break;
      }
      i := i + 1;
    }
    HalvedSevenTimes(maxBlock);
    left, right := leftBlockNum, rightBlockNum;
    block := if mustBeBefore then leftBlockNum else rightBlockNum;
  }

  /** With ordered block times, everything at or after `sinceMs` lies above a non-zero safe start. */
  lemma NothingMissedBelow(c: Chain, sinceMs: int, start: nat)
    requires c.Valid() && SafeStart(c.times, sinceMs, start)
    ensures forall b :: 0 <= b < |c.times| && c.times[b] * 1000 >= sinceMs ==> start == 0 || start < b
  {
    forall b | 0 <= b < |c.times| && c.times[b] * 1000 >= sinceMs ensures start == 0 || start < b {
      if b <= start { assert c.times[b] <= c.times[start]; }
    }
  }
}
