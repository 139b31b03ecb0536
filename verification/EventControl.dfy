/** The duplicate filter of `eventListener.ts`: per handler, a ring of the last ten event hashes let through. */
module EventControl {
  import opened Prelude

  const SIZE := 10

  datatype Handler = OnTrade | OnUpdateMarkPrice | OnPerpetualLimitOrderCreated | OnExecutionFailed

  datatype Hash = Hash(text: string)

  /** The last ten of a sequence. */
  function LastTen<T>(s: seq<T>): (r: seq<T>) {
    if |s| <= SIZE then s else s[|s| - SIZE..]
  }

  /** Any two of eleven consecutive entries differ. */
  ghost predicate WindowsDistinct(s: seq<Hash>) {
    forall j, k :: 0 <= j < k < |s| && k - j <= SIZE ==> s[j] != s[k]
  }

  /** Slot i holds the newest grant whose number is i modulo 10; unused slots are empty. */
  ghost predicate HoldsLast(slots: seq<Option<Hash>>, granted: seq<Hash>) {
    && |slots| == SIZE
    && (forall n :: 0 <= n < |granted| && |granted| - n <= SIZE ==> slots[n % SIZE] == Some(granted[n]))
    && (forall i :: |granted| <= i < SIZE ==> slots[i] == None)
  }

  /** Grants fewer than ten apart sit in different slots. */
  lemma SlotsDiffer(n: nat, last: nat)
    requires n <= last < n + SIZE
    ensures n % SIZE == last % SIZE <==> n == last
  {
  }

  /** The number of the newest of `count` grants that went to slot i. */
  lemma NewestIn(i: nat, count: nat) returns (n: nat)
    requires i < SIZE && i < count
    ensures n % SIZE == i && n < count <= n + SIZE
  {
    n := i + (count - 1 - i) / SIZE * SIZE;
  }

  lemma LastTenExact<T>(s: seq<T>, x: T)
    ensures x in LastTen(s) <==> exists n :: 0 <= n < |s| && |s| - n <= SIZE && s[n] == x
  {
    var skip := if |s| <= SIZE then 0 else |s| - SIZE;
    if k :| 0 <= k < |LastTen(s)| && LastTen(s)[k] == x { assert s[k + skip] == x; }
    if n :| 0 <= n < |s| && |s| - n <= SIZE && s[n] == x { assert LastTen(s)[n - skip] == x; }
  }

  /** Ten, in numbers. */
  lemma LastTenAre<T>(s: seq<T>)
    ensures |s| <= 10 ==> LastTen(s) == s
    ensures |s| > 10 ==> |LastTen(s)| == 10 && s == s[..|s| - 10] + LastTen(s)
  {
  }

  /** And eleven. */
  lemma ElevenDiffer(s: seq<Hash>, n: nat)
    requires WindowsDistinct(s) && n + 11 <= |s|
    ensures var window := s[n..n + 11]; forall j, k :: 0 <= j < k < 11 ==> window[j] != window[k]
  {
    var window := s[n..n + 11];
    forall j, k | 0 <= j < k < 11 ensures window[j] != window[k] {
      assert window[j] == s[n + j] && window[k] == s[n + k];
    }
  }

  /** The ring as a queue: its entries are the last ten grants. */
  lemma RingIsLastTen(slots: seq<Option<Hash>>, granted: seq<Hash>, h: Hash)
    requires HoldsLast(slots, granted)
    ensures Some(h) in slots <==> h in LastTen(granted)
  {
    LastTenExact(granted, h);
    if i :| 0 <= i < |slots| && slots[i] == Some(h) {
      var n := NewestIn(i, |granted|);
      assert granted[n] == h;
    }
    if n :| 0 <= n < |granted| && |granted| - n <= SIZE && granted[n] == h {
      assert slots[n % SIZE] == Some(h);
    }
  }

  lemma StoringKeeps(slots: seq<Option<Hash>>, granted: seq<Hash>, h: Hash)
    requires HoldsLast(slots, granted)
    ensures HoldsLast(slots[|granted| % SIZE := Some(h)], granted + [h])
  {
    var after := granted + [h];
    forall n | 0 <= n < |after| && |after| - n <= SIZE
      ensures slots[|granted| % SIZE := Some(h)][n % SIZE] == Some(after[n])
    {
      SlotsDiffer(n, |granted|);
    }
  }

  lemma PointerMoves(pointer: nat, count: nat)
    requires pointer == count % SIZE
    ensures (pointer + 1) % SIZE == (count + 1) % SIZE
  {
  }

  lemma WindowsStayDistinct(granted: seq<Hash>, h: Hash)
    requires WindowsDistinct(granted) && h !in LastTen(granted)
    ensures WindowsDistinct(granted + [h])
  {
    LastTenExact(granted, h);
  }

  class Ring {
    const hash: array<Option<Hash>>
    var pointer: nat
    ghost var granted: seq<Hash>        // all hashes let through, oldest first

    ghost predicate Valid()
      reads this, hash
    {
      hash.Length == SIZE && pointer == |granted| % SIZE && HoldsLast(hash[..], granted) && WindowsDistinct(granted)
    }

    constructor ()
      ensures Valid() && fresh(hash) && granted == []
    {
      hash := new Option<Hash>[SIZE](_ => None);
      pointer, granted := 0, [];
    }

    /** `grantEventControlPassage` on one handler's ring. */
    method Grant(h: Hash) returns (passed: bool)
      requires Valid()
      modifies this, hash
      ensures Valid()
      ensures passed <==> h !in LastTen(old(granted))
      ensures granted == old(granted) + (if passed then [h] else [])
    {
      RingIsLastTen(hash[..], granted, h);
      if Some(h) in hash[..] {
        return false;
      }
      StoringKeeps(hash[..], granted, h);
      WindowsStayDistinct(granted, h);
      PointerMoves(pointer, |granted|);
      ghost var after := hash[..][pointer := Some(h)];
      hash[pointer] := Some(h);
      assert hash[..] == after;
      pointer := (pointer + 1) % hash.Length;
      granted := granted + [h];
      return true;
    }
  }

  predicate Apart(x: Ring, y: Ring) {
    x != y && x.hash != y.hash
  }

  class EventListener {
    const onTrade: Ring
    const onUpdateMarkPrice: Ring
    const onPerpetualLimitOrderCreated: Ring
    const onExecutionFailed: Ring

    function Buffer(name: Handler): Ring {
      match name
      case OnTrade => onTrade
      case OnUpdateMarkPrice => onUpdateMarkPrice
      case OnPerpetualLimitOrderCreated => onPerpetualLimitOrderCreated
      case OnExecutionFailed => onExecutionFailed
    }

    /** One ring per handler, sharing nothing. */
    ghost predicate Valid()
      reads onTrade, onTrade.hash, onUpdateMarkPrice, onUpdateMarkPrice.hash
      reads onPerpetualLimitOrderCreated, onPerpetualLimitOrderCreated.hash, onExecutionFailed, onExecutionFailed.hash
    {
      && onTrade.Valid() && onUpdateMarkPrice.Valid()
      && onPerpetualLimitOrderCreated.Valid() && onExecutionFailed.Valid()
      && Apart(onTrade, onUpdateMarkPrice) && Apart(onTrade, onPerpetualLimitOrderCreated)
      && Apart(onTrade, onExecutionFailed) && Apart(onUpdateMarkPrice, onPerpetualLimitOrderCreated)
      && Apart(onUpdateMarkPrice, onExecutionFailed) && Apart(onPerpetualLimitOrderCreated, onExecutionFailed)
    }

    constructor ()
      ensures Valid()
      ensures forall name: Handler :: Buffer(name).granted == []
    {
      onTrade := new Ring();
      onUpdateMarkPrice := new Ring();
      onPerpetualLimitOrderCreated := new Ring();
      onExecutionFailed := new Ring();
    }

    /** A hash passes a handler iff it is not among the last ten that passed it; other handlers see nothing of it. */
    method GrantEventControlPassage(hash: Hash, name: Handler) returns (passed: bool)
      requires Valid()
      modifies Buffer(name), Buffer(name).hash
      ensures Valid()
      ensures passed <==> hash !in LastTen(old(Buffer(name).granted))
      ensures Buffer(name).granted == old(Buffer(name).granted) + (if passed then [hash] else [])
      ensures forall x: Handler :: x != name ==> Buffer(x).granted == old(Buffer(x).granted)
    {
      passed := Buffer(name).Grant(hash);
    }
  }
}
