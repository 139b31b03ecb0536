/** `getCloseDeploymentBlock` of `svc/main.ts`: walk back in growing steps, then bisect. */
module DeploymentSearch {
  import opened Prelude

  const FIRST_STEP := 10_000
  const MAX_STEP := 2_000_000
  const MAX_ERRORS := 10

  /** How one `getCode` call goes. */
  datatype Reply = Answered | NoHistoricalState | Error

  /** Where the errors from i on end. */
  function ErrorsEnd(replies: seq<Reply>, i: nat): (n: nat)
    requires i <= |replies|
    ensures i <= n <= |replies|
    decreases |replies| - i
  {
    if i == |replies| || replies[i] != Error then i else ErrorsEnd(replies, i + 1)
  }

  /** The next code is had: an answer comes after at most ten errors. */
  predicate Answers(replies: seq<Reply>, i: nat)
    requires i <= |replies|
  {
    var n := ErrorsEnd(replies, i);
    n <= i + MAX_ERRORS && n < |replies| && replies[n] == Answered
  }

  lemma {:induction false} ErrorsEndThere(replies: seq<Reply>, i: nat)
    requires i <= |replies|
    ensures var n := ErrorsEnd(replies, i);
            (forall k :: i <= k < n ==> replies[k] == Error) && (n < |replies| ==> replies[n] != Error)
    decreases |replies| - i
  {
    if i < |replies| && replies[i] == Error { ErrorsEndThere(replies, i + 1); }
  }

  /** A code is had exactly if one of the next eleven replies is an answer and all before it are errors. */
  lemma AnswersIff(replies: seq<Reply>, i: nat)
    requires i <= |replies|
    ensures Answers(replies, i) <==>
            exists n :: i <= n <= i + 10 && n < |replies| && replies[n] == Answered
                        && forall k :: i <= k < n ==> replies[k] == Error
  {
    ErrorsEndThere(replies, i);
  }

  /** How many codes are had one after the other. */
  function Served(replies: seq<Reply>, i: nat): nat
    requires i <= |replies|
    decreases |replies| - i
  {
    if Answers(replies, i) then 1 + Served(replies, ErrorsEnd(replies, i) + 1) else 0
  }

  /** The node as a code oracle: it answers calls from its replies in order, and a search without replies is stuck. */
  class Provider {
    const hasCode: int -> bool
    const replies: seq<Reply>
    var next: nat
    ghost var answered: seq<int>       // blocks whose code was returned

    ghost predicate Valid()
      reads this
    {
      next <= |replies|
    }

    ghost function Left(): nat
      requires Valid()
      reads this
    {
      Served(replies, next)
    }

    constructor (hasCode: int -> bool, replies: seq<Reply>)
      ensures Valid() && this.hasCode == hasCode && this.replies == replies && next == 0 && answered == []
    {
      this.hasCode, this.replies := hasCode, replies;
      next, answered := 0, [];
    }

    /** `getCodeAt`: ten errors are retried; the eleventh, or a missing archive state, is thrown (`None`). */
    method GetCodeAt(b: int) returns (code: Option<bool>)
      requires Valid()
      modifies this
      ensures Valid()
      ensures code == if Answers(replies, old(next)) then Some(hasCode(b)) else None
      ensures next == Min(ErrorsEnd(replies, old(next)) + 1, Min(old(next) + MAX_ERRORS + 1, |replies|))
      ensures answered == old(answered) + if code.Some? then [b] else []
    {
      var consecutiveErrors := 0;
      while next < |replies|
        invariant 0 <= consecutiveErrors <= MAX_ERRORS && Valid()
        invariant next == old(next) + consecutiveErrors && answered == old(answered)
        invariant ErrorsEnd(replies, next) == ErrorsEnd(replies, old(next))
        decreases |replies| - next
      {
        var reply := replies[next];
        next := next + 1;
        match reply {
          case Answered =>
            answered := answered + [b];
            return Some(hasCode(b));
          case NoHistoricalState =>
            return None;
          case Error =>
            consecutiveErrors := consecutiveErrors + 1;
            if consecutiveErrors > MAX_ERRORS {
              return None;
            }
        }
      }
      return None;
    }
  }

  /** The contract is there from block d on, as far as the search can look. */
  ghost predicate PresentFrom(hasCode: int -> bool, d: int, head: int) {
    forall b :: Min(0, head - 11_000) <= b <= head ==> (hasCode(b) <==> b >= d)
  }

  function Pow2(k: nat): nat {
    if k == 0 then 1 else 2 * Pow2(k - 1)
  }

  lemma Pow2Of21()
    ensures Pow2(21) == 2_097_152
  {
    assert Pow2(7) == 128;
    assert Pow2(14) == 16_384;
  }

  /** The n-th step back, and how far n of them reach. */
  function Step(n: nat): (r: nat)
    ensures FIRST_STEP <= r <= MAX_STEP
  {
    if n == 0 then FIRST_STEP else Min(Step(n - 1) * 2, MAX_STEP)
  }

  function Reach(n: nat): nat {
    if n == 0 then 0 else Reach(n - 1) + Step(n - 1)
  }

  lemma {:induction false} PowerGrows(a: nat, b: nat)
    requires a <= b
    ensures Pow2(a) <= Pow2(b)
  {
    if a < b { PowerGrows(a, b - 1); }
  }

  /** Eight doubling steps, then steps of 2,000,000. */
  lemma {:induction false} ReachIs(n: nat)
    ensures n <= 8 ==> Reach(n) == FIRST_STEP * (Pow2(n) - 1) && Step(n) == Min(FIRST_STEP * Pow2(n), MAX_STEP)
    ensures n >= 8 ==> Reach(n) == 2_550_000 + (n - 8) * MAX_STEP && Step(n) == MAX_STEP
  {
    assert Pow2(7) == 128 && Pow2(4) == 16;
    if n > 0 {
      ReachIs(n - 1);
      if n <= 7 { PowerGrows(n, 7); }
    }
  }

  /** How many probes walking back takes at most. */
  function MaxWalk(head: int): nat {
    8 + Max(0, head) / MAX_STEP
  }

  lemma WalkIsShort(n: nat, head: int)
    requires Reach(n) < head - 1000
    ensures n <= MaxWalk(head)
  {
    ReachIs(n);
  }

  /** The edge that a search from `head` can see. */
  function Edge(d: int, head: int): int {
    Min(d, head - 1000) - 1
  }

  method GetCloseDeploymentBlock(head: int, provider: Provider)
    returns (block: Option<int>, ghost walk: nat, ghost bisections: nat)
    requires provider.Valid()
    modifies provider
    ensures provider.Valid()
    // just below the first block with code, as long as that is at least 1000 blocks below the head
    ensures forall d :: d >= 1 && PresentFrom(provider.hasCode, d, head) && block.Some? ==>
              block.value == Edge(d, head)
    ensures forall d :: d <= 0 && head >= 11_000 && PresentFrom(provider.hasCode, d, head) && block.Some? ==>
              block.value == 0
    // one code per probe: walking back, at the ends of growing steps, then bisecting
    ensures |provider.answered| == |old(provider.answered)| + walk + bisections
    ensures old(provider.answered) + Walked(head, walk) <= provider.answered
    ensures walk > 0 ==> Reach(walk) < head - 1000
    ensures walk <= MaxWalk(head) && bisections <= 21
    // it throws only where the node has no further code to give, so never if that gives MaxWalk(head) + 21 codes
    ensures block.Some? ==> walk + bisections <= old(provider.Left())
    ensures block.None? ==> walk + bisections == old(provider.Left()) < MaxWalk(head) + 21
    // whatever the node says
    ensures block.Some? && head >= 11_000 ==> 0 <= block.value < head - 1000
    ensures block.Some? && block.value > 0 && head >= 11_000 ==> !provider.hasCode(block.value)
    ensures block.Some? ==> block.value + 1 == head - 1000 || provider.hasCode(block.value + 1)
  {
    var bracket;
    bracket, walk := WalkBack(head, provider);
    bisections := 0;
    if walk > 0 { WalkIsShort(walk, head); }
    if bracket.None? {
      WalkIsShort(walk + 1, head);
      return None, walk, 0;
    }
    block, bisections := Bisect(head, bracket.value.0, bracket.value.1, provider);
  }

  /** The blocks probed walking back: the ends of the steps. */
  function Walked(head: int, n: nat): (r: seq<int>)
    ensures |r| == n
  {
    if n == 0 then [] else Walked(head, n - 1) + [head - 1000 - Reach(n)]
  }

  /** What is known of the two ends. */
  ghost predicate Bracket(hasCode: int -> bool, head: int, lower: int, upper: int) {
    && Min(0, head - 11_000) <= lower < upper <= head - 1000
    && (upper == head - 1000 || hasCode(upper))
    && (lower <= Max(0, Min(0, head - 11_000)) || !hasCode(lower))
    && (head >= 11_000 ==> lower >= 0)
  }

  /** The bracket after n steps back. */
  ghost predicate AtStep(head: int, n: nat, upper: int, lower: int, step: int) {
    && step == Step(n) && upper == head - 1000 - Reach(n)
    && 0 < upper - lower <= step && lower >= Min(0, head - 11_000)
    && (lower > 0 ==> lower == head - 1000 - Reach(n + 1))
  }

  lemma SteppedBack(head: int, n: nat, upper: int, lower: int, step: int)
    requires AtStep(head, n, upper, lower, step) && lower > 0
    ensures var next := Min(step * 2, MAX_STEP);
            AtStep(head, n + 1, lower, Max(0, lower - next), next)
  {
  }

  /** The first loop: back in growing steps to a block without the contract. */
  method WalkBack(head: int, provider: Provider) returns (bracket: Option<(int, int)>, ghost walk: nat)
    requires provider.Valid()
    modifies provider
    ensures provider.Valid()
    ensures bracket.Some? ==>
              Bracket(provider.hasCode, head, bracket.value.0, bracket.value.1)
              && bracket.value.1 - bracket.value.0 <= MAX_STEP
    ensures provider.answered == old(provider.answered) + Walked(head, walk)
    ensures walk > 0 ==> Reach(walk) < head - 1000
    ensures bracket.Some? ==> old(provider.Left()) == walk + provider.Left()
    ensures bracket.None? ==> old(provider.Left()) == walk && Reach(walk + 1) < head - 1000
  {
    var upper := head - 1000;
    var step := FIRST_STEP;
    var lower := upper - step;
    ghost var before := provider.answered;
    walk := 0;
    while lower > 0
      invariant AtStep(head, walk, upper, lower, step)
      invariant upper == head - 1000 || (provider.hasCode(upper) && lower >= 0)
      invariant provider.Valid() && provider.answered == before + Walked(head, walk)
      invariant walk > 0 ==> Reach(walk) < head - 1000
      invariant old(provider.Left()) == walk + provider.Left()
      decreases upper
    {
      var code := provider.GetCodeAt(lower);
      if code.None? {
        return None, walk;
      }
      walk := walk + 1;
      if !code.value {
        break;
      }
      SteppedBack(head, walk - 1, upper, lower, step);
      upper := lower;
      step := Min(step * 2, MAX_STEP);
      lower := Max(0, upper - step);
    }
    return Some((lower, upper)), walk;
  }

  /** The second loop: the boundary between the ends. */
  method Bisect(head: int, from: int, to: int, provider: Provider) returns (block: Option<int>, ghost bisections: nat)
    requires Bracket(provider.hasCode, head, from, to) && to - from <= MAX_STEP
    requires provider.Valid()
    modifies provider
    ensures provider.Valid()
    ensures block.Some? ==> Bracket(provider.hasCode, head, block.value, block.value + 1)
    ensures old(provider.answered) <= provider.answered && |provider.answered| == |old(provider.answered)| + bisections
    ensures block.Some? ==> bisections <= 21 && bisections <= old(provider.Left())
    ensures block.None? ==> old(provider.Left()) == bisections < 21
  {
    var lower, upper := from, to;
    bisections := 0;
    Pow2Of21();
    while upper - lower > 1
      invariant Bracket(provider.hasCode, head, lower, upper)
      invariant bisections <= 21 && upper - lower <= Pow2(21 - bisections)
      invariant provider.Valid() && old(provider.answered) <= provider.answered
      invariant |provider.answered| == |old(provider.answered)| + bisections
      invariant old(provider.Left()) == bisections + provider.Left()
      decreases upper - lower
    {
      var mid := lower + (upper - lower) / 2;
      var code := provider.GetCodeAt(mid);
      if code.None? {
        return None, bisections;
      }
      bisections := bisections + 1;
      if !code.value {
        lower := mid;
      } else {
        upper := mid;
      }
    }
    return Some(lower), bisections;
  }
}
