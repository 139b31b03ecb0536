/** Websocket subscriptions of `eventListener.ts`: two indexes kept inverse, and the handlers that hang on them. */
module SubscriptionHub {
  import opened Prelude

  /** A websocket client, by identity. */
  datatype Ws = Ws(id: nat)
  datatype Address = Address(text: string)
  datatype Symbol = Symbol(text: string)

  datatype ClientSubscription = ClientSubscription(perpetualId: int, symbol: Symbol, traderAddr: Address)

  /** perpetual id -> trader address -> clients */
  type Index = map<int, map<Address, seq<Ws>>>

  function Subscribers(ix: Index, id: int, trader: Address): seq<Ws> {
    if id in ix && trader in ix[id] then ix[id][trader] else []
  }

  predicate Distinct<T(==)>(s: seq<T>) {
    forall j, k :: 0 <= j < k < |s| ==> s[j] != s[k]
  }

  /** No empty client list, and no client twice in a list. */
  predicate ListsClean(ix: Index) {
    forall id, trader :: id in ix && trader in ix[id] ==> ix[id][trader] != [] && Distinct(ix[id][trader])
  }

  /** A perpetual without a trader. */
  predicate Hollow(ix: Index, id: int) {
    id in ix && ix[id] == map[]
  }

  /** `splice` at `indexOf(x)`, if x is there. */
  function Without<T(==)>(s: seq<T>, x: T): seq<T> {
    if s == [] then [] else if s[0] == x then s[1..] else [s[0]] + Without(s[1..], x)
  }

  lemma {:induction false} WithoutExact<T>(s: seq<T>, x: T)
    requires Distinct(s)
    ensures Distinct(Without(s, x))
    ensures forall y :: y in Without(s, x) <==> y in s && y != x
  {
    if s != [] {
      assert s == [s[0]] + s[1..];
      assert s[0] !in s[1..];
      WithoutExact(s[1..], x);
    }
  }

  /** Only the first occurrence goes; the others keep their order. */
  lemma {:induction false} WithoutFirst<T>(s: seq<T>, x: T, n: nat)
    requires n <= |s| && x !in s[..n] && (n < |s| ==> s[n] == x)
    ensures Without(s, x) == if n < |s| then s[..n] + s[n + 1..] else s
  {
    if n > 0 {
      assert s[0] in s[..n];
      assert s[1..][..n - 1] == s[..n][1..];
      WithoutFirst(s[1..], x, n - 1);
    }
  }

  /** A pool has the hundred thousand perpetual ids that begin with its number. */
  lemma PoolHas(pool: nat, id: int)
    ensures Excepted(Some(pool), id) <==> pool * 100_000 <= id < (pool + 1) * 100_000
    ensures !Excepted(None, id)
  {
  }

  function Pool(id: int): int {
    id / 100_000
  }

  predicate Excepted(exceptionPoolId: Option<int>, id: int) {
    exceptionPoolId.Some? && Pool(id) == exceptionPoolId.value
  }

  /** One turn of the loop in `_unsubscribe`. */
  function RemoveOne(ix: Index, c: ClientSubscription, except: Option<int>, ws: Ws): Index {
    var id, trader := c.perpetualId, c.traderAddr;
    if Excepted(except, id) || id !in ix then ix
    else
      var rest := Without(Subscribers(ix, id, trader), ws);
      var traders := if rest == [] then ix[id] - {trader} else ix[id][trader := rest];
      if traders == map[] then ix - {id} else ix[id := traders]
  }

  function RemoveAll(ix: Index, cs: seq<ClientSubscription>, except: Option<int>, ws: Ws): Index {
    if cs == [] then ix
    else RemoveOne(RemoveAll(ix, cs[..|cs| - 1], except, ws), cs[|cs| - 1], except, ws)
  }

  /** A turn changes one list at most. */
  lemma RemoveOneLists(ix: Index, c: ClientSubscription, except: Option<int>, ws: Ws, id: int, trader: Address)
    ensures Subscribers(RemoveOne(ix, c, except, ws), id, trader) ==
              if id == c.perpetualId && trader == c.traderAddr && !Excepted(except, id)
              then Without(Subscribers(ix, id, trader), ws) else Subscribers(ix, id, trader)
  {
    var after := RemoveOne(ix, c, except, ws);
    if Excepted(except, c.perpetualId) || c.perpetualId !in ix {
      assert after == ix;
    } else if Without(Subscribers(ix, c.perpetualId, c.traderAddr), ws) == [] {
      var traders := ix[c.perpetualId] - {c.traderAddr};
      assert id == c.perpetualId && trader in traders ==> id in after && after[id] == traders;
    } else {
      var traders := ix[c.perpetualId][c.traderAddr := Without(Subscribers(ix, c.perpetualId, c.traderAddr), ws)];
      assert c.traderAddr in traders;
      assert after == ix[c.perpetualId := traders];
    }
  }

  lemma RemoveOneExact(ix: Index, c: ClientSubscription, except: Option<int>, ws: Ws)
    requires ListsClean(ix)
    ensures ListsClean(RemoveOne(ix, c, except, ws))
    ensures forall id, trader :: Subscribers(RemoveOne(ix, c, except, ws), id, trader) ==
              if id == c.perpetualId && trader == c.traderAddr && !Excepted(except, id)
              then Without(Subscribers(ix, id, trader), ws) else Subscribers(ix, id, trader)
  {
    WithoutExact(Subscribers(ix, c.perpetualId, c.traderAddr), ws);
    forall id, trader
      ensures Subscribers(RemoveOne(ix, c, except, ws), id, trader) ==
              if id == c.perpetualId && trader == c.traderAddr && !Excepted(except, id)
              then Without(Subscribers(ix, id, trader), ws) else Subscribers(ix, id, trader)
    {
      RemoveOneLists(ix, c, except, ws, id, trader);
    }
    RemoveOneClean(ix, c, except, ws);
  }

  lemma RemoveOneClean(ix: Index, c: ClientSubscription, except: Option<int>, ws: Ws)
    requires ListsClean(ix)
    ensures ListsClean(RemoveOne(ix, c, except, ws))
  {
    var after := RemoveOne(ix, c, except, ws);
    WithoutExact(Subscribers(ix, c.perpetualId, c.traderAddr), ws);
    forall id, trader | id in after && trader in after[id] ensures after[id][trader] != [] && Distinct(after[id][trader]) {
      if id == c.perpetualId && trader == c.traderAddr && !Excepted(except, id) {
        assert after[id][trader] == Without(Subscribers(ix, id, trader), ws);
      } else {
        assert id in ix && trader in ix[id] && after[id][trader] == ix[id][trader];
      }
    }
  }

  /** A turn leaves no hollow perpetual where it looks, and touches no other. */
  lemma RemoveOneHollow(ix: Index, c: ClientSubscription, except: Option<int>, ws: Ws)
    ensures forall id :: Hollow(RemoveOne(ix, c, except, ws), id) <==>
              Hollow(ix, id) && (id != c.perpetualId || Excepted(except, id))
    ensures RemoveOne(ix, c, except, ws).Keys <= ix.Keys
    ensures ix.Keys - {c.perpetualId} <= RemoveOne(ix, c, except, ws).Keys
  {
  }

  predicate Listed(cs: seq<ClientSubscription>, id: int, trader: Address) {
    exists k :: 0 <= k < |cs| && cs[k].perpetualId == id && cs[k].traderAddr == trader
  }

  predicate ListsPerpetual(cs: seq<ClientSubscription>, id: int) {
    exists k :: 0 <= k < |cs| && cs[k].perpetualId == id
  }

  /** No (perpetual, trader) pair twice. */
  predicate DistinctPairs(cs: seq<ClientSubscription>) {
    forall j, k :: 0 <= j < k < |cs| ==> cs[j].perpetualId != cs[k].perpetualId || cs[j].traderAddr != cs[k].traderAddr
  }

  /** The whole loop takes ws out of exactly the listed pairs outside the excepted pool; all else stays as it was. */
  lemma {:induction false} RemoveAllExact(ix: Index, cs: seq<ClientSubscription>, except: Option<int>, ws: Ws)
    requires ListsClean(ix) && DistinctPairs(cs)
    ensures ListsClean(RemoveAll(ix, cs, except, ws))
    ensures forall id, trader :: Subscribers(RemoveAll(ix, cs, except, ws), id, trader) ==
              if Listed(cs, id, trader) && !Excepted(except, id)
              then Without(Subscribers(ix, id, trader), ws) else Subscribers(ix, id, trader)
  {
    if cs != [] {
      var front, last := cs[..|cs| - 1], cs[|cs| - 1];
      RemoveAllExact(ix, front, except, ws);
      RemoveOneExact(RemoveAll(ix, front, except, ws), last, except, ws);
      ListedAppend(front, last);
      assert cs == front + [last];
      assert !Listed(front, last.perpetualId, last.traderAddr);
    }
  }

  lemma {:induction false} RemoveAllHollow(ix: Index, cs: seq<ClientSubscription>, except: Option<int>, ws: Ws)
    ensures forall id :: Hollow(RemoveAll(ix, cs, except, ws), id) <==>
              Hollow(ix, id) && (!ListsPerpetual(cs, id) || Excepted(except, id))
    ensures RemoveAll(ix, cs, except, ws).Keys <= ix.Keys
  {
    if cs != [] {
      var front, last := cs[..|cs| - 1], cs[|cs| - 1];
      RemoveAllHollow(ix, front, except, ws);
      RemoveOneHollow(RemoveAll(ix, front, except, ws), last, except, ws);
      forall id ensures ListsPerpetual(cs, id) <==> ListsPerpetual(front, id) || last.perpetualId == id {
        if k :| 0 <= k < |front| && front[k].perpetualId == id { assert cs[k].perpetualId == id; }
        if k :| 0 <= k < |cs| && cs[k].perpetualId == id { assert k < |front| ==> front[k].perpetualId == id; }
        assert cs[|cs| - 1].perpetualId == last.perpetualId;
      }
    }
  }

  function Inserted(ix: Index, id: int, trader: Address, ws: Ws): Index {
    ix[id := (if id in ix then ix[id] else map[])[trader := Subscribers(ix, id, trader) + [ws]]]
  }

  lemma InsertedExact(ix: Index, id: int, trader: Address, ws: Ws)
    requires ListsClean(ix) && ws !in Subscribers(ix, id, trader)
    ensures ListsClean(Inserted(ix, id, trader, ws))
    ensures forall i, t :: Subscribers(Inserted(ix, id, trader, ws), i, t) ==
              Subscribers(ix, i, t) + if i == id && t == trader then [ws] else []
    ensures forall i :: Hollow(Inserted(ix, id, trader, ws), i) <==> Hollow(ix, i) && i != id
  {
    var traders := (if id in ix then ix[id] else map[])[trader := Subscribers(ix, id, trader) + [ws]];
    assert trader in traders;
  }

  lemma ListedAppend(cs: seq<ClientSubscription>, c: ClientSubscription)
    ensures forall id, trader :: Listed(cs + [c], id, trader) <==>
              Listed(cs, id, trader) || (c.perpetualId == id && c.traderAddr == trader)
  {
    forall id, trader
      ensures Listed(cs + [c], id, trader) <==>
              Listed(cs, id, trader) || (c.perpetualId == id && c.traderAddr == trader)
    {
      if k :| 0 <= k < |cs| && cs[k].perpetualId == id && cs[k].traderAddr == trader {
        assert (cs + [c])[k] == cs[k];
      }
      assert (cs + [c])[|cs|] == c;
    }
  }

  // ---------------------------------------------------------------- the two indexes

  type Clients = map<Ws, seq<ClientSubscription>>

  /** ws holds a subscription to the perpetual for the trader. */
  predicate Holds(clients: Clients, ws: Ws, id: int, trader: Address) {
    ws in clients && Listed(clients[ws], id, trader)
  }

  /** A subscription that the client believes it has, and that nothing is sent for. */
  predicate Stranded(clients: Clients, ix: Index, ws: Ws, id: int, trader: Address) {
    Holds(clients, ws, id, trader) && ws !in Subscribers(ix, id, trader)
  }

  /** Neither index holds anything twice, and each subscriber has its subscription. */
  ghost predicate Sound(clients: Clients, ix: Index) {
    && ListsClean(ix)
    && (forall ws :: ws in clients ==> DistinctPairs(clients[ws]))
    && (forall ws, id, trader :: ws in Subscribers(ix, id, trader) ==> Holds(clients, ws, id, trader))
  }

  /** The two indexes are inverse to each other, and neither holds anything twice or empty. */
  ghost predicate Inverse(clients: Clients, ix: Index) {
    && Sound(clients, ix)
    && (forall id :: !Hollow(ix, id))
    && (forall ws, id, trader :: !Stranded(clients, ix, ws, id, trader))
  }

  function Added(clients: Clients, ws: Ws, c: ClientSubscription): Clients {
    clients[ws := (if ws in clients then clients[ws] else []) + [c]]
  }

  lemma AddedHolds(clients: Clients, ws: Ws, c: ClientSubscription)
    ensures forall w, id, trader ::
              Holds(Added(clients, ws, c), w, id, trader) <==>
              Holds(clients, w, id, trader) || (w == ws && id == c.perpetualId && trader == c.traderAddr)
  {
    ListedAppend(if ws in clients then clients[ws] else [], c);
  }

  lemma AddedDistinct(clients: Clients, ws: Ws, c: ClientSubscription)
    requires !Holds(clients, ws, c.perpetualId, c.traderAddr) && forall w :: w in clients ==> DistinctPairs(clients[w])
    ensures forall w :: w in Added(clients, ws, c) ==> DistinctPairs(Added(clients, ws, c)[w])
  {
    var had := if ws in clients then clients[ws] else [];
    assert !Listed(had, c.perpetualId, c.traderAddr);
  }

  /** A new subscription keeps the indexes sound, and strands nobody. */
  lemma SubscribingKeepsSound(clients: Clients, ix: Index, ws: Ws, c: ClientSubscription)
    requires Sound(clients, ix) && !Holds(clients, ws, c.perpetualId, c.traderAddr)
    ensures var clients', ix' := Added(clients, ws, c), Inserted(ix, c.perpetualId, c.traderAddr, ws);
            && Sound(clients', ix')
            && (forall w, id, trader :: Stranded(clients', ix', w, id, trader) <==> Stranded(clients, ix, w, id, trader))
            && (forall id :: Hollow(ix', id) <==> Hollow(ix, id) && id != c.perpetualId)
  {
    InsertedExact(ix, c.perpetualId, c.traderAddr, ws);
    AddedHolds(clients, ws, c);
    AddedDistinct(clients, ws, c);
  }

  /** A subscription that reaches only the first index. */
  lemma AddedStaysSound(clients: Clients, ix: Index, ws: Ws, c: ClientSubscription)
    requires Sound(clients, ix) && !Holds(clients, ws, c.perpetualId, c.traderAddr) && c.perpetualId !in ix
    ensures Sound(Added(clients, ws, c), ix[c.perpetualId := map[]])
  {
    var ix' := ix[c.perpetualId := map[]];
    assert forall id, trader :: Subscribers(ix', id, trader) == Subscribers(ix, id, trader);
    AddedHolds(clients, ws, c);
    AddedDistinct(clients, ws, c);
  }

  lemma SubscribingKeepsInverse(clients: Clients, ix: Index, ws: Ws, c: ClientSubscription)
    requires Inverse(clients, ix) && !Holds(clients, ws, c.perpetualId, c.traderAddr)
    ensures Inverse(Added(clients, ws, c), Inserted(ix, c.perpetualId, c.traderAddr, ws))
  {
    SubscribingKeepsSound(clients, ix, ws, c);
  }

  /** Nobody but ws is stranded, and ws has subscribed to every hollow perpetual. */
  ghost predicate OnlyAmiss(clients: Clients, ix: Index, ws: Ws) {
    && (forall w, id, trader :: Stranded(clients, ix, w, id, trader) ==> w == ws)
    && (forall id :: Hollow(ix, id) ==> ws in clients && ListsPerpetual(clients[ws], id))
  }

  /** A client's departure keeps the indexes sound, and makes them inverse exactly if only it was amiss. */
  lemma UnsubscribingRestoresIff(clients: Clients, ix: Index, ws: Ws)
    requires Sound(clients, ix) && ws in clients
    ensures var clients', ix' := clients - {ws}, RemoveAll(ix, clients[ws], None, ws);
            Sound(clients', ix') && (Inverse(clients', ix') <==> OnlyAmiss(clients, ix, ws))
  {
    var cs := clients[ws];
    var after := RemoveAll(ix, cs, None, ws);
    RemoveAllExact(ix, cs, None, ws);
    RemoveAllHollow(ix, cs, None, ws);
    forall w, id, trader
      ensures w in Subscribers(after, id, trader) <==> w in Subscribers(ix, id, trader) && w != ws
    {
      if Listed(cs, id, trader) {
        WithoutExact(Subscribers(ix, id, trader), ws);
      } else {
        assert !Holds(clients, ws, id, trader);
      }
    }
    forall w, id, trader
      ensures Stranded(clients - {ws}, after, w, id, trader) <==> Stranded(clients, ix, w, id, trader) && w != ws
    {
      assert Holds(clients - {ws}, w, id, trader) <==> Holds(clients, w, id, trader) && w != ws;
    }
  }

  lemma UnsubscribingKeepsInverse(clients: Clients, ix: Index, ws: Ws)
    requires Inverse(clients, ix) && ws in clients
    ensures Inverse(clients - {ws}, RemoveAll(ix, clients[ws], None, ws))
  {
    UnsubscribingRestoresIff(clients, ix, ws);
  }

  /**
   * When attaching handlers throws, the client is left with a subscription that nothing is sent for, until it leaves:
   * its departure makes the indexes inverse again.
   */
  lemma FailedAttachStrands(clients: Clients, ix: Index, ws: Ws, c: ClientSubscription)
    requires Inverse(clients, ix) && c.perpetualId !in ix
    ensures var clients', ix' := Added(clients, ws, c), ix[c.perpetualId := map[]];
            && Sound(clients', ix') && !Inverse(clients', ix')
            && Stranded(clients', ix', ws, c.perpetualId, c.traderAddr)
            && OnlyAmiss(clients', ix', ws)
  {
    var clients', ix' := Added(clients, ws, c), ix[c.perpetualId := map[]];
    assert forall id, trader :: Subscribers(ix', id, trader) == Subscribers(ix, id, trader);
    assert !Stranded(clients, ix, ws, c.perpetualId, c.traderAddr);
    AddedStaysSound(clients, ix, ws, c);
    AddedHolds(clients, ws, c);
    forall w, id, trader | Stranded(clients', ix', w, id, trader) ensures w == ws {
      assert !Stranded(clients, ix, w, id, trader);
    }
    assert Hollow(ix', c.perpetualId);
    forall id | Hollow(ix', id) ensures id == c.perpetualId {
      assert !Hollow(ix, id);
    }
    var cs := clients'[ws];
    assert cs[|cs| - 1].perpetualId == c.perpetualId;
  }

  // ---------------------------------------------------------------- order book handlers

  /** Each symbol's current contract object, the objects that have handlers, and how many were made. */
  datatype Books = Books(current: map<Symbol, nat>, attached: set<nat>, made: nat)

  /** Handlers hang on exactly the current contracts of the perpetuals in `live`. */
  ghost predicate HandlersExact(perpIds: map<Symbol, int>, live: set<int>, b: Books) {
    Owned(perpIds, b) && AllCurrent(b) && AttachedIffLive(perpIds, live, b) && AllServed(perpIds, live, b)
  }

  ghost predicate Owned(perpIds: map<Symbol, int>, b: Books) {
    && (forall s :: s in b.current ==> s in perpIds && b.current[s] < b.made)
    && (forall s, t :: s in b.current && t in b.current && s != t ==> b.current[s] != b.current[t])
  }

  /** No handler is left on an object that has been replaced. */
  ghost predicate AllCurrent(b: Books) {
    forall n :: n in b.attached ==> n in b.current.Values
  }

  ghost predicate AttachedIffLive(perpIds: map<Symbol, int>, live: set<int>, b: Books)
    requires Owned(perpIds, b)
  {
    forall s :: s in b.current ==> (b.current[s] in b.attached <==> perpIds[s] in live)
  }

  ghost predicate AllServed(perpIds: map<Symbol, int>, live: set<int>, b: Books)
    requires Owned(perpIds, b)
  {
    forall id :: id in live ==> exists s :: s in b.current && perpIds[s] == id
  }

  /** No two symbols share a perpetual id. */
  ghost predicate SymbolsDistinct(perpIds: map<Symbol, int>) {
    forall s, t :: s in perpIds && t in perpIds && s != t ==> perpIds[s] != perpIds[t]
  }

  /** A new contract object with handlers; the symbol's former object keeps any it has. */
  function Attach(b: Books, s: Symbol): Books {
    Books(b.current[s := b.made], b.attached + {b.made}, b.made + 1)
  }

  /** `removeAllListeners` on the symbol's current object. */
  function Detach(b: Books, s: Symbol): Books {
    if s in b.current then b.(attached := b.attached - {b.current[s]}) else b
  }

  lemma AttachKeepsExact(perpIds: map<Symbol, int>, live: set<int>, b: Books, s: Symbol)
    requires SymbolsDistinct(perpIds) && HandlersExact(perpIds, live, b) && s in perpIds && perpIds[s] !in live
    ensures HandlersExact(perpIds, live + {perpIds[s]}, Attach(b, s))
  {
    var after := Attach(b, s);
    assert Owned(perpIds, after);
    forall n | n in after.attached ensures n in after.current.Values {
      if n == b.made {
        assert after.current[s] == n;
      } else {
        var t :| t in b.current && b.current[t] == n;
        assert t != s;
        assert after.current[t] == n;
      }
    }
    AttachServes(perpIds, live, b, s);
  }

  lemma AttachServes(perpIds: map<Symbol, int>, live: set<int>, b: Books, s: Symbol)
    requires Owned(perpIds, b) && Owned(perpIds, Attach(b, s)) && s in perpIds && AllServed(perpIds, live, b)
    ensures AllServed(perpIds, live + {perpIds[s]}, Attach(b, s))
  {
    forall id | id in live + {perpIds[s]} ensures exists t :: t in Attach(b, s).current && perpIds[t] == id {
      if id == perpIds[s] {
        assert s in Attach(b, s).current;
      } else {
        var t :| t in b.current && perpIds[t] == id;
        assert t in Attach(b, s).current;
      }
    }
  }

  lemma DetachKeepsExact(perpIds: map<Symbol, int>, live: set<int>, b: Books, s: Symbol)
    requires SymbolsDistinct(perpIds) && HandlersExact(perpIds, live, b) && s in perpIds && perpIds[s] in live
    ensures HandlersExact(perpIds, live - {perpIds[s]}, Detach(b, s))
  {
    var t :| t in b.current && perpIds[t] == perpIds[s];
    assert t == s;
  }

  /** Handlers are right for the perpetuals in live except `unattached`: for all of live exactly if that is empty. */
  lemma ExactIff(perpIds: map<Symbol, int>, live: set<int>, unattached: set<int>, b: Books)
    requires unattached <= live && HandlersExact(perpIds, live - unattached, b)
    ensures HandlersExact(perpIds, live, b) <==> unattached == {}
  {
    if unattached == {} {
      assert live - unattached == live;
    }
    if HandlersExact(perpIds, live, b) {
      forall id ensures id !in unattached {
        if id in live {
          var s :| s in b.current && perpIds[s] == id;
          assert b.current[s] in b.attached && perpIds[s] in live - unattached;
        }
      }
    }
  }

  /** A perpetual without handlers has none to lose. */
  lemma DetachIdle(perpIds: map<Symbol, int>, live: set<int>, b: Books, s: Symbol)
    requires HandlersExact(perpIds, live, b) && s in perpIds && perpIds[s] !in live
    ensures Detach(b, s) == b
  {
  }

  /** Whoever subscribes to the perpetual next, after attaching failed, is served without handlers. */
  lemma FailedAttachStaysUnattached(perpIds: map<Symbol, int>, ix: Index, b: Books, id: int, trader: Address, ws: Ws)
    requires HandlersExact(perpIds, ix.Keys, b) && id !in ix
    ensures !HandlersExact(perpIds, Inserted(ix[id := map[]], id, trader, ws).Keys, b)
  {
    var live := Inserted(ix[id := map[]], id, trader, ws).Keys;
    assert id in live;
    if s :| s in b.current && perpIds[s] == id {
      assert b.current[s] !in b.attached;
    }
  }

  /** Two symbols with one id break it: the last subscriber leaves under t, the handlers under s stay. */
  lemma SharedIdLeavesHandlers(perpIds: map<Symbol, int>, s: Symbol, t: Symbol)
    requires s in perpIds && t in perpIds && s != t && perpIds[s] == perpIds[t]
    ensures var b := Attach(Books(map[], {}, 0), s);
            HandlersExact(perpIds, {perpIds[s]}, b) && !HandlersExact(perpIds, {}, Detach(b, t))
  {
    var b := Attach(Books(map[], {}, 0), s);
    assert b.current[s] == 0;
    assert AllServed(perpIds, {perpIds[s]}, b);
    assert Detach(b, t) == b;
  }

  /** Every subscription's symbol is the SDK's for its perpetual. */
  ghost predicate SymbolsKnown(perpIds: map<Symbol, int>, cs: seq<ClientSubscription>) {
    forall k :: 0 <= k < |cs| ==> cs[k].symbol in perpIds && perpIds[cs[k].symbol] == cs[k].perpetualId
  }

  /** `push` onto the trader's client list, made empty first if it was not there. */
  function Pushed(ix: Index, id: int, trader: Address, ws: Ws): Index
    requires id in ix
  {
    var traders := if trader in ix[id] then ix[id] else ix[id][trader := []];
    ix[id := traders[trader := traders[trader] + [ws]]]
  }

  lemma PushedIsInserted(ix: Index, id: int, trader: Address, ws: Ws)
    ensures Pushed(if id in ix then ix else ix[id := map[]], id, trader, ws) == Inserted(ix, id, trader, ws)
    ensures Inserted(ix, id, trader, ws).Keys == ix.Keys + {id}
  {
    var had := if id in ix then ix[id] else map[];
    var traders := if trader in had then had else had[trader := []];
    assert traders[trader := traders[trader] + [ws]] == had[trader := Subscribers(ix, id, trader) + [ws]];
  }

  lemma AddedKnown(perpIds: map<Symbol, int>, clients: Clients, ws: Ws, c: ClientSubscription)
    requires forall w :: w in clients ==> SymbolsKnown(perpIds, clients[w])
    requires c.symbol in perpIds && perpIds[c.symbol] == c.perpetualId
    ensures forall w :: w in Added(clients, ws, c) ==> SymbolsKnown(perpIds, Added(clients, ws, c)[w])
  {
  }

  lemma ReleasedMore(first: Index, before: Index, after: Index, released: seq<int>, now: seq<int>)
    requires Distinct(released) && Released(first, before, released)
    requires after.Keys == before.Keys - (set id | id in now)
    requires now == [] || (|now| == 1 && now[0] in before)
    ensures Distinct(released + now) && Released(first, after, released + now)
  {
  }

  /** The perpetuals that have lost their last subscriber. */
  ghost predicate Released(before: Index, after: Index, released: seq<int>) {
    after.Keys <= before.Keys && forall id :: id in released <==> id in before && id !in after
  }

  lemma TraderMapIs(ix: Index, id: int, trader: Address, ws: Ws, traders: map<Address, seq<Ws>>)
    requires ListsClean(ix) && id in ix
    requires var cut := if trader in ix[id] then ix[id][trader := Without(ix[id][trader], ws)] else ix[id];
             traders == if trader !in cut || cut[trader] == [] then cut - {trader} else cut
    ensures var rest := Without(Subscribers(ix, id, trader), ws);
            traders == if rest == [] then ix[id] - {trader} else ix[id][trader := rest]
  {
  }

  lemma KeysAfter(ix: Index, id: int, traders: map<Address, seq<Ws>>)
    requires id in ix
    ensures ix[id := traders].Keys == ix.Keys
    ensures (ix[id := traders] - {id}) == ix - {id} && (ix - {id}).Keys == ix.Keys - {id}
  {
  }

  /** The trader addresses under which ws listens to the perpetual. */
  function TradersOf(ix: Index, ws: Ws, id: int): set<Address> {
    if id in ix then set t | t in ix[id] && ws in ix[id][t] else {}
  }

  lemma {:induction false} DistinctOccursOnce(s: seq<Ws>, x: Ws)
    requires Distinct(s)
    ensures multiset(s)[x] == if x in s then 1 else 0
  {
    if s != [] {
      assert s == [s[0]] + s[1..];
      assert s[0] !in s[1..];
      DistinctOccursOnce(s[1..], x);
    }
  }

  lemma OneMoreTrader(ix: Index, id: int, ws: Ws, t: Address, todo: set<Address>)
    requires ListsClean(ix) && id in ix && t in ix[id] && t in todo
    ensures |TradersOf(ix, ws, id) - (todo - {t})| == |TradersOf(ix, ws, id) - todo| + multiset(ix[id][t])[ws]
  {
    DistinctOccursOnce(ix[id][t], ws);
    var all := TradersOf(ix, ws, id);
    assert all - (todo - {t}) == all - todo + (if ws in ix[id][t] then {t} else {});
  }

  /** Every client has had the message once per address it holds, outside the addresses still to do. */
  ghost predicate HeardOnce(ix: Index, id: int, sent: seq<Ws>, todo: set<Address>) {
    forall ws :: multiset(sent)[ws] == |TradersOf(ix, ws, id) - todo|
  }

  lemma HeardOnceMore(ix: Index, id: int, sent: seq<Ws>, todo: set<Address>, t: Address)
    requires ListsClean(ix) && id in ix && t in ix[id] && t in todo && HeardOnce(ix, id, sent, todo)
    ensures HeardOnce(ix, id, sent + ix[id][t], todo - {t})
  {
    forall ws ensures multiset(sent + ix[id][t])[ws] == |TradersOf(ix, ws, id) - (todo - {t})| {
      OneMoreTrader(ix, id, ws, t, todo);
    }
  }

  /** Opening a perpetual attaches handlers, or leaves it unattached. */
  lemma OpenedHandlers(perpIds: map<Symbol, int>, live: set<int>, unattached: set<int>, b: Books, s: Symbol)
    requires s in perpIds && perpIds[s] !in live && unattached <= live
    requires SymbolsDistinct(perpIds) ==> HandlersExact(perpIds, live - unattached, b)
    ensures SymbolsDistinct(perpIds) ==> HandlersExact(perpIds, live + {perpIds[s]} - unattached, Attach(b, s))
    ensures live + {perpIds[s]} - (unattached + {perpIds[s]}) == live - unattached
  {
    assert live + {perpIds[s]} - unattached == live - unattached + {perpIds[s]};
    if SymbolsDistinct(perpIds) { AttachKeepsExact(perpIds, live - unattached, b, s); }
  }

  /** A release detaches them. */
  lemma ReleasedHandlers(perpIds: map<Symbol, int>, live: set<int>, unattached: set<int>, b: Books, s: Symbol)
    requires s in perpIds && perpIds[s] in live && unattached <= live
    requires SymbolsDistinct(perpIds) ==> HandlersExact(perpIds, live - unattached, b)
    ensures SymbolsDistinct(perpIds) ==>
              HandlersExact(perpIds, live - {perpIds[s]} - (unattached - {perpIds[s]}), Detach(b, s))
  {
    var id := perpIds[s];
    assert live - {id} - (unattached - {id}) == live - unattached - {id};
    if SymbolsDistinct(perpIds) {
      if id in unattached {
        DetachIdle(perpIds, live - unattached, b, s);
        assert live - unattached - {id} == live - unattached;
      } else {
        DetachKeepsExact(perpIds, live - unattached, b, s);
      }
    }
  }

  /** What is left when attaching throws. */
  lemma AttachingFails(clients: Clients, ix: Index, ws: Ws, c: ClientSubscription)
    requires Sound(clients, ix) && !Holds(clients, ws, c.perpetualId, c.traderAddr) && c.perpetualId !in ix
    ensures Sound(Added(clients, ws, c), ix[c.perpetualId := map[]])
    ensures !Inverse(Added(clients, ws, c), ix[c.perpetualId := map[]])
    ensures ix[c.perpetualId := map[]].Keys == ix.Keys + {c.perpetualId}
  {
    AddedStaysSound(clients, ix, ws, c);
    assert Hollow(ix[c.perpetualId := map[]], c.perpetualId);
  }

  datatype Outcome = Subscribed | Already | UnknownSymbol | AttachFailed

  class EventListener {
    const perpIds: map<Symbol, int>                // symbol -> perpetual id, from the SDK
    var clients: Clients
    var subscriptions: Index
    var books: Books
    ghost var unattached: set<int>                 // perpetuals whose attaching threw and that are still there

    ghost predicate Valid()
      reads this
    {
      Sound(clients, subscriptions) && KnownSymbols() && HandlersKept()
    }

    /** Handlers are right for all live perpetuals but the unattached ones. */
    ghost predicate HandlersKept()
      reads this
    {
      && unattached <= subscriptions.Keys
      && (SymbolsDistinct(perpIds) ==> HandlersExact(perpIds, subscriptions.Keys - unattached, books))
    }

    /** Also inverse. */
    ghost predicate InStep()
      reads this
    {
      Inverse(clients, subscriptions)
    }

    ghost predicate KnownSymbols()
      reads this
    {
      forall ws :: ws in clients ==> SymbolsKnown(perpIds, clients[ws])
    }

    ghost predicate Exact()
      reads this
    {
      HandlersExact(perpIds, subscriptions.Keys, books)
    }

    /** In every state, handlers are exact if and only if no live perpetual's attaching has thrown. */
    lemma ExactUnlessAttachFailed()
      requires HandlersKept()
      ensures SymbolsDistinct(perpIds) ==> (Exact() <==> unattached == {})
    {
      if SymbolsDistinct(perpIds) { ExactIff(perpIds, subscriptions.Keys, unattached, books); }
    }

    constructor (perpIds: map<Symbol, int>)
      ensures Valid() && InStep() && Exact() && unattached == {} && this.perpIds == perpIds && clients == map[] && subscriptions == map[]
    {
      this.perpIds := perpIds;
      clients, subscriptions, books, unattached := map[], map[], Books(map[], {}, 0), {};
    }

    method FindSubscription(cs: seq<ClientSubscription>, id: int, trader: Address) returns (found: bool)
      ensures found <==> Listed(cs, id, trader)
    {
      for k := 0 to |cs|
        invariant !Listed(cs[..k], id, trader)
      {
        if cs[k].perpetualId == id && cs[k].traderAddr == trader {
          return true;
        }
        assert cs[..k + 1] == cs[..k] + [cs[k]];
      }
      assert cs[..|cs|] == cs;
      return false;
    }

    /** `attachOk` is whether `addOrderBookEventHandlers` gets through, should it be called. */
    method Subscribe(ws: Ws, symbol: Symbol, trader: Address, attachOk: bool) returns (r: Outcome)
      requires Valid()
      modifies this
      ensures r.UnknownSymbol? <==> symbol !in perpIds
      ensures r.Already? <==> symbol in perpIds && old(Holds(clients, ws, perpIds[symbol], trader))
      ensures r.UnknownSymbol? || r.Already? ==> unchanged(this)
      ensures r.AttachFailed? <==>
              symbol in perpIds && !old(Holds(clients, ws, perpIds[symbol], trader))
              && perpIds[symbol] !in old(subscriptions) && !attachOk
      ensures Valid()
      // the indexes stay inverse exactly if attaching did not fail
      ensures old(InStep()) ==> (InStep() <==> !r.AttachFailed?)
      ensures r.Subscribed? || r.AttachFailed? ==>
              var id := perpIds[symbol];
              && clients == Added(old(clients), ws, ClientSubscription(id, symbol, trader))
              && subscriptions == (if r.Subscribed? then Inserted(old(subscriptions), id, trader, ws)
                                   else old(subscriptions)[id := map[]])
              && books == if r.Subscribed? && id !in old(subscriptions) then Attach(old(books), symbol) else old(books)
      ensures unattached == old(unattached) + if r.AttachFailed? then {perpIds[symbol]} else {}
      ensures SymbolsDistinct(perpIds) ==> (Exact() <==> unattached == {})
    {
      ExactUnlessAttachFailed();
      if symbol !in perpIds {
        return UnknownSymbol;
      }
      var c := ClientSubscription(perpIds[symbol], symbol, trader);
      var found := ws in clients;
      if found {
        found := FindSubscription(clients[ws], c.perpetualId, trader);
      }
      if found {
        return Already;
      }
      r := SubscribeAnew(ws, c, attachOk);
    }

    /** From "push" on, for a client that does not hold the subscription. */
    method SubscribeAnew(ws: Ws, c: ClientSubscription, attachOk: bool) returns (r: Outcome)
      requires Valid() && !Holds(clients, ws, c.perpetualId, c.traderAddr)
      requires c.symbol in perpIds && perpIds[c.symbol] == c.perpetualId
      modifies this
      ensures Valid()
      ensures r == if c.perpetualId !in old(subscriptions) && !attachOk then AttachFailed else Subscribed
      ensures old(InStep()) ==> (InStep() <==> !r.AttachFailed?)
      ensures clients == Added(old(clients), ws, c)
      ensures subscriptions == if r.Subscribed? then Inserted(old(subscriptions), c.perpetualId, c.traderAddr, ws)
                               else old(subscriptions)[c.perpetualId := map[]]
      ensures books == if r.Subscribed? && c.perpetualId !in old(subscriptions) then Attach(old(books), c.symbol)
                       else old(books)
      ensures unattached == old(unattached) + if r.AttachFailed? then {c.perpetualId} else {}
      ensures SymbolsDistinct(perpIds) ==> (Exact() <==> unattached == {})
    {
      var id := c.perpetualId;
      if ws !in clients {
        clients := clients[ws := []];
      }
      clients := clients[ws := clients[ws] + [c]];
      assert clients == Added(old(clients), ws, c);
      AddedKnown(perpIds, old(clients), ws, c);
      if id !in subscriptions {
        var ok := Open(c.symbol, attachOk);
        if !ok {
          AttachingFails(old(clients), old(subscriptions), ws, c);
          ExactUnlessAttachFailed();
          return AttachFailed;
        }
      }
      PushedIsInserted(old(subscriptions), id, c.traderAddr, ws);
      SubscribingKeepsSound(old(clients), old(subscriptions), ws, c);
      Enter(id, c.traderAddr, ws);
      ExactUnlessAttachFailed();
      return Subscribed;
    }

    /** The client joins the trader's list. */
    method Enter(id: int, trader: Address, ws: Ws)
      requires id in subscriptions && HandlersKept()
      modifies this`subscriptions
      ensures subscriptions == Pushed(old(subscriptions), id, trader, ws) && HandlersKept()
    {
      subscriptions := Pushed(subscriptions, id, trader, ws);
      assert subscriptions.Keys == old(subscriptions.Keys);
    }

    /** A perpetual's first subscription: an empty trader map and handlers, unless attaching them throws. */
    method Open(symbol: Symbol, attachOk: bool) returns (ok: bool)
      requires symbol in perpIds && perpIds[symbol] !in subscriptions && HandlersKept()
      modifies this`subscriptions, this`books, this`unattached
      ensures ok == attachOk && HandlersKept()
      ensures subscriptions == old(subscriptions)[perpIds[symbol] := map[]]
      ensures books == if ok then Attach(old(books), symbol) else old(books)
      ensures unattached == old(unattached) + if ok then {} else {perpIds[symbol]}
    {
      var id := perpIds[symbol];
      OpenedHandlers(perpIds, subscriptions.Keys, unattached, books, symbol);
      subscriptions := subscriptions[id := map[]];
      assert subscriptions.Keys == old(subscriptions.Keys) + {id};
      ok := attachOk;
      if !ok {
        unattached := unattached + {id};
        return;
      }
      books := Attach(books, symbol);
    }

    /** A client's subscriptions end; every other client's stay, in their order. */
    method Unsubscribe(ws: Ws) returns (released: seq<int>)
      requires Valid()
      modifies this
      ensures Valid()
      ensures InStep() <==> OnlyAmiss(old(clients), old(subscriptions), ws)
      ensures clients == old(clients) - {ws}
      ensures forall id, trader :: Subscribers(subscriptions, id, trader) ==
                if old(Holds(clients, ws, id, trader)) then Without(old(Subscribers(subscriptions, id, trader)), ws)
                else old(Subscribers(subscriptions, id, trader))
      ensures Distinct(released) && Released(old(subscriptions), subscriptions, released)
      ensures unattached == old(unattached) * subscriptions.Keys
      ensures SymbolsDistinct(perpIds) ==> (Exact() <==> unattached == {})
    {
      if ws !in clients {
        ExactUnlessAttachFailed();
        return [];
      }
      var cs := clients[ws];
      released := UnsubscribeAll(cs, None, ws);
      clients := clients - {ws};
      RemoveAllExact(old(subscriptions), cs, None, ws);
      UnsubscribingRestoresIff(old(clients), old(subscriptions), ws);
      ExactUnlessAttachFailed();
    }

    /** `_unsubscribe`. */
    method UnsubscribeAll(cs: seq<ClientSubscription>, exceptionPoolId: Option<int>, ws: Ws)
      returns (released: seq<int>)
      requires ListsClean(subscriptions) && SymbolsKnown(perpIds, cs) && HandlersKept()
      modifies this`subscriptions, this`books, this`unattached
      ensures subscriptions == RemoveAll(old(subscriptions), cs, exceptionPoolId, ws)
      ensures Distinct(released) && Released(old(subscriptions), subscriptions, released)
      ensures HandlersKept() && unattached == old(unattached) * subscriptions.Keys
    {
      released := [];
      for k := 0 to |cs|
        invariant ListsClean(subscriptions)
        invariant subscriptions == RemoveAll(old(subscriptions), cs[..k], exceptionPoolId, ws)
        invariant Distinct(released) && Released(old(subscriptions), subscriptions, released)
        invariant HandlersKept() && unattached == old(unattached) * subscriptions.Keys
      {
        assert cs[..k + 1][..k] == cs[..k];
        RemoveOneExact(subscriptions, cs[k], exceptionPoolId, ws);
        RemoveOneHollow(subscriptions, cs[k], exceptionPoolId, ws);
        ghost var before := subscriptions;
        var now := Release(cs[k], exceptionPoolId, ws);
        ReleasedMore(old(subscriptions), before, subscriptions, released, now);
        released := released + now;
      }
      assert cs[..|cs|] == cs;
    }

    /** One turn of the loop: what it releases is the perpetual, if it lost its last subscriber. */
    method Release(c: ClientSubscription, exceptionPoolId: Option<int>, ws: Ws) returns (now: seq<int>)
      requires ListsClean(subscriptions) && c.symbol in perpIds && perpIds[c.symbol] == c.perpetualId && HandlersKept()
      modifies this`subscriptions, this`books, this`unattached
      ensures subscriptions == RemoveOne(old(subscriptions), c, exceptionPoolId, ws)
      ensures subscriptions.Keys == old(subscriptions.Keys) - (set id | id in now)
      ensures now == [] || (now == [c.perpetualId] && c.perpetualId in old(subscriptions))
      ensures HandlersKept() && unattached == old(unattached) * subscriptions.Keys
    {
      now := [];
      var id, trader := c.perpetualId, c.traderAddr;
      if exceptionPoolId.Some? && Pool(id) == exceptionPoolId.value {
        return;
      }
      if id !in subscriptions {
        return;
      }
      var traderMap := subscriptions[id];
      if trader in traderMap {
        traderMap := traderMap[trader := Without(traderMap[trader], ws)];
      }
      if trader !in traderMap || traderMap[trader] == [] {
        traderMap := traderMap - {trader};
      }
      TraderMapIs(subscriptions, id, trader, ws, traderMap);
      KeysAfter(subscriptions, id, traderMap);
      subscriptions := subscriptions[id := traderMap];
      if traderMap == map[] {
        now := [id];
        ReleasedHandlers(perpIds, subscriptions.Keys, unattached, books, c.symbol);
        books := Detach(books, c.symbol);
        subscriptions, unattached := subscriptions - {id}, unattached - {id};
      }
    }

    // ---------------------------------------------------------------- sending

    /** `sendToSubscribers`: to a trader's clients, or to all of the perpetual's. */
    method SendToSubscribers(id: int, trader: Option<Address>) returns (sent: seq<Ws>)
      requires Valid()
      // a targeted message reaches each client subscribed to (perpetual, trader) exactly once, and no other
      ensures trader.Some? ==>
              Distinct(sent)
              && forall ws :: ws in sent <==>
                   Holds(clients, ws, id, trader.value) && !Stranded(clients, subscriptions, ws, id, trader.value)
      // a broadcast reaches each client once per address it holds in the perpetual
      ensures trader.None? ==> forall ws :: multiset(sent)[ws] == |TradersOf(subscriptions, ws, id)|
      ensures forall ws, t :: t in TradersOf(subscriptions, ws, id) <==>
                Holds(clients, ws, id, t) && !Stranded(clients, subscriptions, ws, id, t)
      ensures InStep() ==> forall ws, t :: !Stranded(clients, subscriptions, ws, id, t)
    {
      forall ws, t
        ensures ws in Subscribers(subscriptions, id, t) <==>
                  Holds(clients, ws, id, t) && !Stranded(clients, subscriptions, ws, id, t)
      {
      }
      sent := [];
      if trader.Some? {
        if id in subscriptions && trader.value in subscriptions[id] {
          sent := SendAll(subscriptions[id][trader.value], []);
        }
        assert sent == Subscribers(subscriptions, id, trader.value);
      } else if id in subscriptions {
        sent := Broadcast(subscriptions[id], subscriptions, id);
      }
    }

    static method Broadcast(traders: map<Address, seq<Ws>>, ghost ix: Index, ghost id: int) returns (sent: seq<Ws>)
      requires id in ix && ix[id] == traders && ListsClean(ix)
      ensures forall ws :: multiset(sent)[ws] == |TradersOf(ix, ws, id)|
    {
      sent := [];
      var todo := traders.Keys;
      while todo != {}
        invariant todo <= traders.Keys
        invariant HeardOnce(ix, id, sent, todo)
        decreases todo
      {
        var t := NextKey(todo);
        HeardOnceMore(ix, id, sent, todo, t);
        sent := SendAll(traders[t], sent);
        todo := todo - {t};
      }
      forall ws ensures TradersOf(ix, ws, id) - {} == TradersOf(ix, ws, id) { }
    }

    static method NextKey(todo: set<Address>) returns (t: Address)
      requires todo != {}
      ensures t in todo
    {
      t :| t in todo;
    }

    static method SendAll(list: seq<Ws>, already: seq<Ws>) returns (sent: seq<Ws>)
      ensures sent == already + list
    {
      sent := already;
      for k := 0 to |list|
        invariant sent == already + list[..k]
      {
        sent := sent + [list[k]];
      }
    }
  }
}
