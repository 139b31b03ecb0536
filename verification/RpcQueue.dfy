/** `rpcManager.ts`: a queue of RPC URLs, turned by one at every request, with health checks on the way. */
module RpcQueue {
  import opened Prelude

  datatype Url = Url(text: string)

  const CHECK_INTERVAL_MS := 60_000

  // ---------------------------------------------------------------- one request after the other

  /** Pop from the end, put back at the front. */
  function Turned(q: seq<Url>): (r: seq<Url>)
    requires q != []
  {
    [q[|q| - 1]] + q[..|q| - 1]
  }

  /** The queue after k turns. */
  function TurnedBy(q: seq<Url>, k: nat): (r: seq<Url>)
    requires q != []
    ensures |r| == |q|
  {
    if k == 0 then q else Turned(TurnedBy(q, k - 1))
  }

  lemma {:induction false} TurnedByIs(q: seq<Url>, k: nat)
    requires q != [] && k <= |q|
    ensures TurnedBy(q, k) == q[|q| - k..] + q[..|q| - k]
  {
    if k > 0 {
      TurnedByIs(q, k - 1);
      var r := q[|q| - k + 1..] + q[..|q| - k + 1];
      assert r[|r| - 1] == q[|q| - k];
      assert Turned(r) == [q[|q| - k]] + (q[|q| - k + 1..] + q[..|q| - k]);
      assert q[|q| - k..] == [q[|q| - k]] + q[|q| - k + 1..];
    }
  }

  lemma NextInTurn(q: seq<Url>, k: nat)
    requires k < |q|
    ensures TurnedBy(q, k)[|q| - 1] == q[|q| - 1 - k]
  {
    TurnedByIs(q, k);
  }

  lemma FullTurn(q: seq<Url>)
    requires q != []
    ensures TurnedBy(q, |q|) == q
  {
    TurnedByIs(q, |q|);
  }

  /** What k requests without health check are given. */
  function Served(q: seq<Url>, k: nat): seq<Url>
    requires q != []
  {
    if k == 0 then [] else var r := TurnedBy(q, k - 1); Served(q, k - 1) + [r[|r| - 1]]
  }

  lemma {:induction false} ServedInTurn(q: seq<Url>, k: nat)
    requires q != [] && k <= |q|
    ensures |Served(q, k)| == k && forall j :: 0 <= j < k ==> Served(q, k)[j] == q[|q| - 1 - j]
  {
    if k > 0 {
      ServedInTurn(q, k - 1);
      NextInTurn(q, k - 1);
      var r := TurnedBy(q, k - 1);
      assert Served(q, k) == Served(q, k - 1) + [r[|r| - 1]];
    }
  }

  /** n requests are given each of n URLs once, last to first, and leave the queue as it was. */
  lemma EveryUrlServedOnce(q: seq<Url>)
    requires q != []
    ensures |Served(q, |q|)| == |q| && forall j :: 0 <= j < |q| ==> Served(q, |q|)[j] == q[|q| - 1 - j]
    ensures multiset(Served(q, |q|)) == multiset(q) && TurnedBy(q, |q|) == q
  {
    ServedInTurn(q, |q|);
    FullTurn(q);
    BackwardsHoldsTheSame(Served(q, |q|), q);
  }

  lemma {:induction false} BackwardsHoldsTheSame(r: seq<Url>, q: seq<Url>)
    requires |r| == |q| && forall j :: 0 <= j < |q| ==> r[j] == q[|q| - 1 - j]
    ensures multiset(r) == multiset(q)
  {
    if q != [] {
      var n := |q| - 1;
      assert r == [q[n]] + r[1..] && q == q[..n] + [q[n]];
      BackwardsHoldsTheSame(r[1..], q[..n]);
    }
  }

  // ---------------------------------------------------------------- health

  /** How a health check of some try would go: when it is asked for, whether it succeeds, and when it is over. */
  datatype Check = Check(asked: int, alive: bool, over: int)

  datatype Health = Health(healthy: map<Url, bool>, lastCheck: map<Url, int>)

  /** Never checked, or not within the last minute. */
  predicate Due(h: Health, rpc: Url, now: int) {
    rpc !in h.healthy || (if rpc in h.lastCheck then h.lastCheck[rpc] else 0) + CHECK_INTERVAL_MS < now
  }

  /** A URL's turn: its health is checked if that is due. */
  function Visited(h: Health, rpc: Url, check: Check): (r: Health)
    ensures rpc in r.healthy
  {
    if Due(h, rpc, check.asked) then Health(h.healthy[rpc := check.alive], h.lastCheck[rpc := check.over]) else h
  }

  /** What is known of the URLs of queue q after k tries, of which the n-th would be checked with `checks(n)`. */
  function HealthAfter(q: seq<Url>, h: Health, checks: nat -> Check, k: nat): Health
    requires k <= |q|
  {
    if k == 0 then h else Visited(HealthAfter(q, h, checks, k - 1), q[|q| - k], checks(k - 1))
  }

  /** Whether the k-th URL in turn is held healthy when it has had its turn. */
  predicate Passes(q: seq<Url>, h: Health, checks: nat -> Check, k: nat)
    requires k < |q|
  {
    HealthAfter(q, h, checks, k + 1).healthy[q[|q| - 1 - k]]
  }

  /** Until its turn, nothing is learnt about a URL. */
  lemma {:induction false} UntouchedBefore(q: seq<Url>, h: Health, checks: nat -> Check, k: nat, rpc: Url)
    requires k <= |q| && rpc !in q[|q| - k..]
    ensures var r := HealthAfter(q, h, checks, k);
            && (rpc in r.healthy <==> rpc in h.healthy) && (rpc in h.healthy ==> r.healthy[rpc] == h.healthy[rpc])
            && (rpc in r.lastCheck <==> rpc in h.lastCheck) && (rpc in h.lastCheck ==> r.lastCheck[rpc] == h.lastCheck[rpc])
  {
    if k > 0 {
      assert q[|q| - k..] == [q[|q| - k]] + q[|q| - (k - 1)..];
      UntouchedBefore(q, h, checks, k - 1, rpc);
    }
  }

  /** A URL in its first turn passes iff it answers, if a check is due, or else iff it was last known to be healthy. */
  lemma PassesIff(q: seq<Url>, h: Health, checks: nat -> Check, k: nat)
    requires k < |q| && q[|q| - 1 - k] !in q[|q| - k..]
    ensures var rpc := q[|q| - 1 - k];
            Passes(q, h, checks, k) <==> if Due(h, rpc, checks(k).asked) then checks(k).alive else h.healthy[rpc]
  {
    UntouchedBefore(q, h, checks, k, q[|q| - 1 - k]);
  }

  // ---------------------------------------------------------------- when a check is made, in numbers

  /** Unknown, or last checked more than a minute before now. */
  predicate Stale(h: Health, rpc: Url, now: int) {
    rpc !in h.healthy || (rpc in h.lastCheck && h.lastCheck[rpc] + 60_000 < now)
  }

  /** Known, and last checked a minute before now at most. */
  predicate Fresh(h: Health, rpc: Url, now: int) {
    rpc in h.healthy && rpc in h.lastCheck && now <= h.lastCheck[rpc] + 60_000
  }

  /** A stale URL is checked: it is as healthy as the check says, from the end of the check on, others are as before. */
  lemma StaleIsChecked(h: Health, rpc: Url, check: Check)
    requires Stale(h, rpc, check.asked)
    ensures var r := Visited(h, rpc, check);
            && rpc in r.healthy && r.healthy[rpc] == check.alive
            && rpc in r.lastCheck && r.lastCheck[rpc] == check.over
            && r.healthy - {rpc} == h.healthy - {rpc} && r.lastCheck - {rpc} == h.lastCheck - {rpc}
  {
  }

  /** A fresh one is not, so no URL is checked twice within a minute. */
  lemma FreshIsNotChecked(h: Health, rpc: Url, check: Check)
    requires Fresh(h, rpc, check.asked)
    ensures Visited(h, rpc, check) == h
  {
  }

  lemma NotCheckedTwice(h: Health, rpc: Url, check: Check, again: Check)
    requires Stale(h, rpc, check.asked) && again.asked <= check.over + 60_000
    ensures Visited(Visited(h, rpc, check), rpc, again) == Visited(h, rpc, check)
  {
    FreshIsNotChecked(Visited(h, rpc, check), rpc, again);
  }

  /** In its first turn a stale URL passes iff the check succeeds, a fresh one iff it was last healthy. */
  lemma FirstTurn(q: seq<Url>, h: Health, checks: nat -> Check, k: nat)
    requires k < |q| && q[|q| - 1 - k] !in q[|q| - k..]
    ensures Stale(h, q[|q| - 1 - k], checks(k).asked) ==> (Passes(q, h, checks, k) <==> checks(k).alive)
    ensures Fresh(h, q[|q| - 1 - k], checks(k).asked) ==> (Passes(q, h, checks, k) <==> h.healthy[q[|q| - 1 - k]])
  {
    PassesIff(q, h, checks, k);
  }

  /** No URL is there twice, all up to the k-th in turn are stale, and the k-th is the first to answer. */
  ghost predicate FirstToAnswer(q: seq<Url>, h: Health, checks: nat -> Check, k: nat) {
    && k < |q| && (forall i, j :: 0 <= i < j < |q| ==> q[i] != q[j])
    && (forall j :: 0 <= j <= k ==> Stale(h, q[|q| - 1 - j], checks(j).asked))
    && (forall j :: 0 <= j < k ==> !checks(j).alive) && checks(k).alive
  }

  lemma FirstToAnswerPasses(q: seq<Url>, h: Health, checks: nat -> Check, k: nat)
    requires FirstToAnswer(q, h, checks, k)
    ensures Passes(q, h, checks, k) && forall j :: 0 <= j < k ==> !Passes(q, h, checks, j)
  {
    forall j | 0 <= j <= k ensures Passes(q, h, checks, j) <==> checks(j).alive {
      FirstTurn(q, h, checks, j);
    }
  }

  lemma FirstToAnswerIsFirst(q: seq<Url>, h: Health, checks: nat -> Check, tries: nat, some: bool)
    requires tries <= |q| && forall k :: 0 <= k < tries && (!some || k < tries - 1) ==> !Passes(q, h, checks, k)
    requires some ==> 0 < tries && Passes(q, h, checks, tries - 1)
    requires !some ==> tries == |q|
    ensures forall k :: FirstToAnswer(q, h, checks, k) ==> some && k == tries - 1
  {
    forall k | FirstToAnswer(q, h, checks, k) ensures some && k == tries - 1 {
      FirstToAnswerPasses(q, h, checks, k);
    }
  }

  class RPCManager {
    var rpcURLs: seq<Url>
    var healthy: map<Url, bool>
    var lastCheck: map<Url, int>

    function Known(): Health
      reads this
    {
      Health(healthy, lastCheck)
    }

    constructor (rpcURLs: seq<Url>)
      ensures this.rpcURLs == rpcURLs && healthy == map[] && lastCheck == map[]
    {
      this.rpcURLs, healthy, lastCheck := rpcURLs, map[], map[];
    }

    method AddRPC(rpc: Url)
      modifies this
      ensures rpcURLs == old(rpcURLs) + [rpc] && healthy == old(healthy) && lastCheck == old(lastCheck)
    {
      rpcURLs := rpcURLs + [rpc];
    }

    method CycleRPCs(check: Check) returns (rpc: Url)
      requires rpcURLs != []
      modifies this
      ensures rpc == old(rpcURLs)[|old(rpcURLs)| - 1] && rpcURLs == Turned(old(rpcURLs))
      ensures rpc in healthy
      ensures healthy == if Due(old(Known()), rpc, check.asked) then old(healthy)[rpc := check.alive] else old(healthy)
      ensures lastCheck == if Due(old(Known()), rpc, check.asked) then old(lastCheck)[rpc := check.over] else old(lastCheck)
    {
      rpc := rpcURLs[|rpcURLs| - 1];
      rpcURLs := rpcURLs[..|rpcURLs| - 1];
      if rpc !in healthy || (if rpc in lastCheck then lastCheck[rpc] else 0) + CHECK_INTERVAL_MS < check.asked {
        healthy := healthy[rpc := check.alive];
        lastCheck := lastCheck[rpc := check.over];
      }
      rpcURLs := [rpc] + rpcURLs;
    }

    /** `getRPC` undisturbed: the first URL in cyclic order that passes, or none and the queue as it was. */
    method GetRPC(wantHealthy: bool, checks: nat -> Check) returns (rpc: Option<Url>, ghost tries: nat)
      modifies this
      ensures tries <= |old(rpcURLs)| && (!wantHealthy && old(rpcURLs) != [] ==> tries == 1)
      // every URL passed over was held unhealthy
      ensures forall k :: 0 <= k < tries && (rpc.None? || k < tries - 1) ==>
                wantHealthy && !Passes(old(rpcURLs), old(Known()), checks, k)
      ensures rpc.Some? ==>
                && 0 < tries && rpc.value == old(rpcURLs)[|old(rpcURLs)| - tries]
                && rpcURLs == TurnedBy(old(rpcURLs), tries)
                && (wantHealthy ==> Passes(old(rpcURLs), old(Known()), checks, tries - 1))
      // the throw
      ensures rpc.None? <==>
                || old(rpcURLs) == []
                || (wantHealthy && forall k :: 0 <= k < |old(rpcURLs)| ==> !Passes(old(rpcURLs), old(Known()), checks, k))
      ensures rpc.None? ==> rpcURLs == old(rpcURLs) && tries == |rpcURLs|
      ensures Known() == HealthAfter(old(rpcURLs), old(Known()), checks, tries)
      // where all last checks are more than a minute old, the first URL to answer is returned
      ensures wantHealthy ==>
                forall k :: FirstToAnswer(old(rpcURLs), old(Known()), checks, k) ==>
                  rpc == Some(old(rpcURLs)[|old(rpcURLs)| - 1 - k])
    {
      if rpcURLs == [] {
        return None, 0;
      }
      ghost var q, h := rpcURLs, Known();
      rpc, tries := TryInTurn(wantHealthy, checks);
      if wantHealthy { FirstToAnswerIsFirst(q, h, checks, tries, rpc.Some?); }
    }

    /** The loop of `getRPC`. */
    method TryInTurn(wantHealthy: bool, checks: nat -> Check) returns (rpc: Option<Url>, ghost tries: nat)
      requires rpcURLs != []
      modifies this
      ensures 0 < tries <= |old(rpcURLs)| && (!wantHealthy ==> tries == 1)
      ensures forall k :: 0 <= k < tries && (rpc.None? || k < tries - 1) ==>
                wantHealthy && !Passes(old(rpcURLs), old(Known()), checks, k)
      ensures rpc.Some? ==>
                && rpc.value == old(rpcURLs)[|old(rpcURLs)| - tries] && rpcURLs == TurnedBy(old(rpcURLs), tries)
                && (wantHealthy ==> Passes(old(rpcURLs), old(Known()), checks, tries - 1))
      ensures rpc.None? ==> wantHealthy && rpcURLs == old(rpcURLs) && tries == |rpcURLs|
      ensures Known() == HealthAfter(old(rpcURLs), old(Known()), checks, tries)
    {
      var numTries := 0;
      ghost var q, h := rpcURLs, Known();
      while numTries < |rpcURLs|
        invariant numTries <= |q| && rpcURLs == TurnedBy(q, numTries)
        invariant Known() == HealthAfter(q, h, checks, numTries)
        invariant numTries > 0 ==> wantHealthy
        invariant forall k :: 0 <= k < numTries ==> !Passes(q, h, checks, k)
        decreases |q| - numTries
      {
        NextInTurn(q, numTries);
        var url := CycleRPCs(checks(numTries));
        assert Known() == HealthAfter(q, h, checks, numTries + 1);
        assert Passes(q, h, checks, numTries) == healthy[url];
        numTries := numTries + 1;
        if !wantHealthy || healthy[url] {
          return Some(url), numTries;
        }
      }
      FullTurn(q);
      return None, numTries;
    }

    /** As many requests without health check as there are URLs: each URL is given once, and the queue is as before. */
    method RequestEach(checks: nat -> nat -> Check) returns (served: seq<Url>)
      modifies this
      ensures |served| == |old(rpcURLs)| && multiset(served) == multiset(old(rpcURLs)) && rpcURLs == old(rpcURLs)
      ensures forall j :: 0 <= j < |served| ==> served[j] == old(rpcURLs)[|served| - 1 - j]
    {
      ghost var q := rpcURLs;
      served := [];
      var n := |rpcURLs|;
      for k := 0 to n
        invariant q != [] ==> served == Served(q, k) && rpcURLs == TurnedBy(q, k)
        invariant q == [] ==> n == 0 && served == [] && rpcURLs == q
      {
        ghost var r := rpcURLs;
        var rpc, tries := GetRPC(false, checks(k));
        assert TurnedBy(r, 0) == r && TurnedBy(r, 1) == Turned(r);
        served := served + [rpc.value];
      }
      if q != [] { EveryUrlServedOnce(q); }
    }
  }

  // ---------------------------------------------------------------- requests that overlap

  /** A request: before its next try, waiting for the URL it has popped, or over. */
  datatype Phase = Looping | Waiting(url: Url) | Returned(url: Url) | Threw
  datatype Request = Request(wantHealthy: bool, tries: nat, phase: Phase)

  /** `owned` collects the URLs the manager was given. */
  datatype World = World(queue: seq<Url>, requests: seq<Request>, owned: multiset<Url>)

  /** How many requests hold the URL. */
  function InFlight(requests: seq<Request>, u: Url): nat {
    if requests == [] then 0
    else InFlight(requests[..|requests| - 1], u) + Held(requests[|requests| - 1].phase, u)
  }

  function Held(p: Phase, u: Url): nat {
    if p == Waiting(u) then 1 else 0
  }

  ghost predicate Add(s: World, t: World, url: Url) {
    t == World(s.queue + [url], s.requests, s.owned + multiset{url})
  }

  ghost predicate Call(s: World, t: World, wantHealthy: bool) {
    t == s.(requests := s.requests + [Request(wantHealthy, 0, if s.queue == [] then Threw else Looping)])
  }

  /** The next try: take a URL from the end, or give up after as many tries as the queue is long now. */
  ghost predicate Take(s: World, t: World, i: nat) {
    && i < |s.requests| && s.requests[i].phase.Looping?
    && var r := s.requests[i];
    if r.tries < |s.queue| then
      t == s.(queue := s.queue[..|s.queue| - 1],
              requests := s.requests[i := Request(r.wantHealthy, r.tries + 1, Waiting(s.queue[|s.queue| - 1]))])
    else t == s.(requests := s.requests[i := r.(phase := Threw)])
  }

  /** The check is over: the URL goes to the front, and is returned or not. */
  ghost predicate PutBack(s: World, t: World, i: nat, verdict: bool) {
    && i < |s.requests| && s.requests[i].phase.Waiting?
    && var r := s.requests[i];
    t == s.(queue := [r.phase.url] + s.queue,
            requests := s.requests[i := r.(phase :=
              if !r.wantHealthy || verdict then Returned(r.phase.url) else Looping)])
  }

  ghost predicate Next(s: World, t: World) {
    || (exists url :: Add(s, t, url))
    || (exists wantHealthy :: Call(s, t, wantHealthy))
    || (exists i :: Take(s, t, i))
    || (exists i, verdict :: PutBack(s, t, i, verdict))
  }

  ghost predicate History(tr: seq<World>, urls: seq<Url>) {
    && tr != [] && tr[0] == World(urls, [], multiset(urls))
    && forall n :: 0 <= n < |tr| - 1 ==> Next(tr[n], tr[n + 1])
  }

  ghost predicate Conserved(s: World) {
    && (forall u :: multiset(s.queue)[u] + InFlight(s.requests, u) == s.owned[u])
    && ReturnedOwned(s.requests, s.owned)
  }

  ghost predicate ReturnedOwned(requests: seq<Request>, owned: multiset<Url>) {
    forall i :: 0 <= i < |requests| && requests[i].phase.Returned? ==> requests[i].phase.url in owned
  }

  lemma {:induction false} InFlightUpdate(requests: seq<Request>, i: nat, r: Request, u: Url)
    requires i < |requests|
    ensures InFlight(requests[i := r], u) + Held(requests[i].phase, u) == InFlight(requests, u) + Held(r.phase, u)
  {
    var n := |requests| - 1;
    if i == n {
      assert requests[i := r][..n] == requests[..n];
    } else {
      InFlightUpdate(requests[..n], i, r, u);
      assert requests[i := r][..n] == requests[..n][i := r];
    }
  }

  lemma {:induction false} HeldIsInFlight(requests: seq<Request>, i: nat, u: Url)
    requires i < |requests| && requests[i].phase == Waiting(u)
    ensures InFlight(requests, u) > 0
  {
    var n := |requests| - 1;
    if i < n { HeldIsInFlight(requests[..n], i, u); }
  }

  lemma CallKeeps(s: World, t: World, wantHealthy: bool)
    requires Conserved(s) && Call(s, t, wantHealthy)
    ensures Conserved(t)
  {
    assert t.requests[..|t.requests| - 1] == s.requests;
  }

  lemma TakeKeeps(s: World, t: World, i: nat)
    requires Conserved(s) && Take(s, t, i)
    ensures Conserved(t)
  {
    var r := t.requests[i];
    assert t.requests == s.requests[i := r];
    forall u ensures multiset(t.queue)[u] + InFlight(t.requests, u) == t.owned[u] {
      InFlightUpdate(s.requests, i, r, u);
      if s.requests[i].tries < |s.queue| {
        assert s.queue == t.queue + [r.phase.url];
      }
    }
  }

  lemma PutBackKeeps(s: World, t: World, i: nat, verdict: bool)
    requires Conserved(s) && PutBack(s, t, i, verdict)
    ensures Conserved(t)
  {
    var url := s.requests[i].phase.url;
    assert t.requests == s.requests[i := t.requests[i]];
    forall u ensures multiset(t.queue)[u] + InFlight(t.requests, u) == t.owned[u] {
      InFlightUpdate(s.requests, i, t.requests[i], u);
    }
    HeldIsInFlight(s.requests, i, url);
    assert s.owned[url] > 0;
  }

  // a request that nothing interrupts does what the method above does

  /** A request is over at once if there is no URL. */
  lemma CallBegins(s: World, t: World, wantHealthy: bool)
    requires Call(s, t, wantHealthy)
    ensures t.queue == s.queue && |t.requests| == |s.requests| + 1
    ensures t.requests[|s.requests|] == Request(wantHealthy, 0, if s.queue == [] then Threw else Looping)
  {
  }

  /** The k-th try takes the k-th URL in turn and returns it, or goes on with the queue turned once more. */
  lemma TryTurnsQueue(q: seq<Url>, s: World, t: World, u: World, i: nat, k: nat, verdict: bool)
    requires q != [] && k < |q| && s.queue == TurnedBy(q, k)
    requires i < |s.requests| && s.requests[i].phase.Looping? && s.requests[i].tries == k
    requires Take(s, t, i) && PutBack(t, u, i, verdict)
    ensures u.queue == TurnedBy(q, k + 1) && u.requests[i].tries == k + 1
    ensures u.requests[i].phase ==
              if s.requests[i].wantHealthy && !verdict then Looping else Returned(q[|q| - 1 - k])
  {
    NextInTurn(q, k);
    var r := s.queue;
    assert t.queue == r[..|r| - 1] && t.requests[i].phase == Waiting(r[|r| - 1]);
    assert u.queue == Turned(r);
  }

  /** After as many tries as there are URLs it throws, and the queue is as before. */
  lemma TriesRunOut(q: seq<Url>, s: World, t: World, i: nat)
    requires q != [] && s.queue == TurnedBy(q, |q|)
    requires i < |s.requests| && s.requests[i].phase.Looping? && s.requests[i].tries == |q| && Take(s, t, i)
    ensures t.queue == q && t.requests[i].phase == Threw
  {
    FullTurn(q);
  }

  lemma NextKeeps(s: World, t: World)
    requires Conserved(s) && Next(s, t)
    ensures Conserved(t)
  {
    if wantHealthy :| Call(s, t, wantHealthy) {
      CallKeeps(s, t, wantHealthy);
    } else if i :| Take(s, t, i) {
      TakeKeeps(s, t, i);
    } else if i, verdict :| PutBack(s, t, i, verdict) {
      PutBackKeeps(s, t, i, verdict);
    }
  }

  lemma {:induction false} NothingInFlight(requests: seq<Request>, u: Url)
    requires forall i :: 0 <= i < |requests| ==> !requests[i].phase.Waiting?
    ensures InFlight(requests, u) == 0
  {
    if requests != [] { NothingInFlight(requests[..|requests| - 1], u); }
  }

  /**
   * However requests and additions interleave, no URL is lost or doubled: queue and URLs in flight are those
   * given, every URL returned is one of them, and once no request waits the queue is a reordering of them.
   */
  lemma {:induction false} NoUrlIsLost(tr: seq<World>, urls: seq<Url>, n: nat)
    requires History(tr, urls) && n < |tr|
    ensures Conserved(tr[n])
    ensures (forall i :: 0 <= i < |tr[n].requests| ==> !tr[n].requests[i].phase.Waiting?) ==>
              multiset(tr[n].queue) == tr[n].owned
  {
    if n > 0 {
      NoUrlIsLost(tr, urls, n - 1);
      NextKeeps(tr[n - 1], tr[n]);
    }
    if forall i :: 0 <= i < |tr[n].requests| ==> !tr[n].requests[i].phase.Waiting? {
      forall u ensures multiset(tr[n].queue)[u] == tr[n].owned[u] {
        NothingInFlight(tr[n].requests, u);
      }
    }
  }
}
