/**
 * The threaded resolver (lib/asyn-thrdd.c): the main thread hands query items to worker threads
 * through a queue (lib/thrdqueue.c) and dispatches what comes back. Modelled as the interleaved
 * steps of both sides. HTTPS-RR queries are not part of this model.
 */
module ThreadedResolver {
  import opened Basics

  datatype Kind = A | AAAA

  /** A query item. `found` says that addresses came back, `negative` that the name has none. */
  datatype Item = Item(uid: nat, rid: nat, kind: Kind, found: bool, negative: bool)

  /** What the transfer keeps for one name resolve. */
  datatype Resolve = Resolve(
    asked: set<Kind>,
    isV4Addr: bool,
    ongoing: int,
    done: bool,
    responses: set<Kind>,
    slots: map<Kind, Item>,
    negativeAnswer: bool,
    shut: bool)

  /** Where the main thread is: between calls, or in the middle of starting a resolve's queries. */
  datatype Main = Idle | Sending(rid: nat, kind: Kind)

  datatype State = State(
    resolves: map<nat, Resolve>,
    used: set<nat>,        // resolve ids handed out so far
    sendq: seq<Item>,
    working: seq<Item>,
    recvq: seq<Item>,
    freed: seq<Item>,
    made: nat,             // items created so far
    main: Main)

  datatype Step =
    | Create(rid: nat, asked: set<Kind>, isV4Addr: bool)
    | Start(rid: nat)
    | Send(accepted: bool)
    | Take(timedOut: bool)
    | Return(i: nat, found: bool, negative: bool)
    | Dispatch
    | TakeResult(rid: nat)
    | Shutdown(rid: nat)
    | Destroy(rid: nat)

  function Init(): State {
    State(map[], {}, [], [], [], [], 0, Idle)
  }

  /** Whether a query of this kind is sent: no AAAA query for an IPv4 address if A is asked too. */
  predicate Wanted(r: Resolve, kind: Kind) {
    kind in r.asked && !(kind == AAAA && r.isV4Addr && A in r.asked)
  }

  /** `async_thrdd_query` for the kind the main thread has reached; AAAA goes first. */
  function SendOne(s: State, accepted: bool): State
    requires s.main.Sending? && s.main.rid in s.resolves
  {
    var rid, kind := s.main.rid, s.main.kind;
    var r := s.resolves[rid];
    var next := if kind == AAAA then Sending(rid, A) else Idle;
    if !Wanted(r, kind) then s.(main := next)
    else
      var item := Item(s.made, rid, kind, false, false);
      if accepted then
        s.(sendq := s.sendq + [item], made := s.made + 1, main := next,
           resolves := s.resolves[rid := r.(ongoing := r.ongoing + 1)])
      else
        s.(freed := s.freed + [item], made := s.made + 1, main := Idle)
  }

  /** Hands one answer to its resolve; an answer nobody waits for is freed. */
  function DispatchOne(s: State): State
    requires s.recvq != []
  {
    var item := s.recvq[0];
    var s' := s.(recvq := s.recvq[1..]);
    if item.rid !in s.resolves then s'.(freed := s.freed + [item])
    else
      var r := s.resolves[item.rid];
      var r' := r.(responses := r.responses + {item.kind}, ongoing := r.ongoing - 1,
                   done := r.ongoing - 1 == 0);
      if item.kind !in r.slots then
        s'.(resolves := s.resolves[item.rid := r'.(slots := r.slots[item.kind := item])])
      else
        s'.(resolves := s.resolves[item.rid := r'], freed := s.freed + [item])
  }

  /** Whether the failure is an authoritative negative answer. */
  predicate Negative(r: Resolve) {
    && r.responses * r.asked == r.asked
    && (A in r.slots ==> !r.slots[A].found && r.slots[A].negative)
    && (AAAA in r.slots ==> !r.slots[AAAA].found && r.slots[AAAA].negative)
    && (A in r.slots || AAAA in r.slots)
  }

  function Without(items: seq<Item>, rid: nat): seq<Item> {
    if items == [] then []
    else if items[0].rid == rid then Without(items[1..], rid)
    else [items[0]] + Without(items[1..], rid)
  }

  function Only(items: seq<Item>, rid: nat): seq<Item> {
    if items == [] then []
    else if items[0].rid == rid then [items[0]] + Only(items[1..], rid)
    else Only(items[1..], rid)
  }

  function SlotItems(r: Resolve): seq<Item> {
    (if A in r.slots then [r.slots[A]] else []) + (if AAAA in r.slots then [r.slots[AAAA]] else [])
  }

  /** `Curl_async_thrdd_destroy`: clears the queue of the resolve's items and frees its results. */
  function Teardown(s: State, rid: nat): State
    requires rid in s.resolves
  {
    var r := s.resolves[rid];
    var clear := r.ongoing != 0 && !r.done;
    var freed := if clear then Only(s.sendq, rid) + Only(s.recvq, rid) else [];
    s.(sendq := if clear then Without(s.sendq, rid) else s.sendq,
       recvq := if clear then Without(s.recvq, rid) else s.recvq,
       freed := s.freed + freed + SlotItems(r),
       resolves := s.resolves[rid := r.(slots := map[], shut := true)])
  }

  ghost predicate Next(s: State, s': State, step: Step) {
    match step
    case Create(rid, asked, isV4Addr) =>
      && s.main == Idle && rid !in s.used
      && s' == s.(used := s.used + {rid}, resolves := s.resolves[rid :=
           Resolve(asked, isV4Addr, 0, false, {}, map[], false, false)])
    case Start(rid) =>
      && s.main == Idle && rid in s.resolves && !s.resolves[rid].shut
      && var r := s.resolves[rid];
         s' == if r.ongoing != 0 || r.done then s else s.(main := Sending(rid, AAAA))
    case Send(accepted) =>
      && s.main.Sending? && s.main.rid in s.resolves
      && s' == SendOne(s, accepted)
    case Take(timedOut) =>
      && s.sendq != []
      && var rest := s.(sendq := s.sendq[1..]);
         s' == if timedOut then rest.(recvq := s.recvq + [s.sendq[0]])
               else rest.(working := s.working + [s.sendq[0]])
    case Return(i, found, negative) =>
      && i < |s.working| && !(found && negative)
      && s' == s.(working := s.working[..i] + s.working[i + 1..],
                  recvq := s.recvq + [s.working[i].(found := found, negative := negative)])
    case Dispatch =>
      && s.main == Idle && s.recvq != []
      && s' == DispatchOne(s)
    case TakeResult(rid) =>
      && s.main == Idle && rid in s.resolves && !s.resolves[rid].shut
      && s' == if !s.resolves[rid].done then s
               else Teardown(s.(resolves := s.resolves[rid :=
                 s.resolves[rid].(negativeAnswer := Negative(s.resolves[rid]))]), rid)
    case Shutdown(rid) =>
      && s.main == Idle && rid in s.resolves
      && s' == Teardown(s, rid)
    case Destroy(rid) =>
      && s.main == Idle && rid in s.resolves
      && s' == var t := Teardown(s, rid); t.(resolves := t.resolves - {rid})
  }

  // ---------- What every step keeps ----------

  /** How many of the items are queries of kind `k` for resolve `rid`. */
  ghost function Count(items: seq<Item>, rid: nat, k: Kind): nat {
    if items == [] then 0
    else (if items[0].rid == rid && items[0].kind == k then 1 else 0) + Count(items[1..], rid, k)
  }

  /** How often item `u` is in the list. */
  ghost function Times(items: seq<Item>, u: nat): nat {
    if items == [] then 0 else (if items[0].uid == u then 1 else 0) + Times(items[1..], u)
  }

  lemma {:induction false} Concat(a: seq<Item>, b: seq<Item>, rid: nat, k: Kind, u: nat)
    ensures Count(a + b, rid, k) == Count(a, rid, k) + Count(b, rid, k)
    ensures Times(a + b, u) == Times(a, u) + Times(b, u)
  {
    if a == [] {
      assert a + b == b;
    } else {
      assert (a + b)[1..] == a[1..] + b;
      Concat(a[1..], b, rid, k, u);
    }
  }

  lemma {:induction false} Push(items: seq<Item>, item: Item)
    ensures forall rid: nat, k ::
      Count(items + [item], rid, k) == Count(items, rid, k) + One(item.rid == rid && item.kind == k)
    ensures forall u: nat :: Times(items + [item], u) == Times(items, u) + One(item.uid == u)
  {
    forall rid: nat, k
      ensures Count(items + [item], rid, k)
           == Count(items, rid, k) + One(item.rid == rid && item.kind == k)
    {
      Concat(items, [item], rid, k, 0);
    }
    forall u: nat ensures Times(items + [item], u) == Times(items, u) + One(item.uid == u) {
      Concat(items, [item], 0, A, u);
    }
  }

  lemma {:induction false} PullOne(items: seq<Item>, i: nat, rid: nat, k: Kind, u: nat)
    requires i < |items|
    ensures var rest := items[..i] + items[i + 1..];
      && Count(items, rid, k) == Count(rest, rid, k) + One(items[i].rid == rid && items[i].kind == k)
      && Times(items, u) == Times(rest, u) + One(items[i].uid == u)
  {
    var item, a, b := items[i], items[..i], items[i + 1..];
    var c := [item] + b;
    assert items == a + c;
    assert c[1..] == b;
    Concat(a, c, rid, k, u);
    Concat(a, b, rid, k, u);
  }

  lemma {:induction false} Pull(items: seq<Item>, i: nat)
    requires i < |items|
    ensures var rest := items[..i] + items[i + 1..];
      && (forall rid: nat, k :: Count(items, rid, k)
           == Count(rest, rid, k) + One(items[i].rid == rid && items[i].kind == k))
      && (forall u: nat :: Times(items, u) == Times(rest, u) + One(items[i].uid == u))
  {
    var rest := items[..i] + items[i + 1..];
    forall rid: nat, k
      ensures Count(items, rid, k)
           == Count(rest, rid, k) + One(items[i].rid == rid && items[i].kind == k)
    {
      PullOne(items, i, rid, k, 0);
    }
    forall u: nat ensures Times(items, u) == Times(rest, u) + One(items[i].uid == u) {
      PullOne(items, i, 0, A, u);
    }
  }

  lemma {:induction false} Pop(items: seq<Item>)
    requires items != []
    ensures forall rid: nat, k ::
      Count(items, rid, k) == Count(items[1..], rid, k) + One(items[0].rid == rid && items[0].kind == k)
    ensures forall u: nat :: Times(items, u) == Times(items[1..], u) + One(items[0].uid == u)
  {
  }

  /** Queries of kind `k` for resolve `rid` that the queue and the workers hold. */
  ghost function Flying(s: State, rid: nat, k: Kind): nat {
    Count(s.sendq, rid, k) + Count(s.working, rid, k) + Count(s.recvq, rid, k)
  }

  /** How often item `u` is held by the queue or the workers, or was freed. */
  ghost function Loose(s: State, u: nat): nat {
    Times(s.sendq, u) + Times(s.working, u) + Times(s.recvq, u) + Times(s.freed, u)
  }

  /** The books of one resolve that is not shut down. */
  ghost predicate Balanced(s: State, rid: nat)
    requires rid in s.resolves
  {
    var r := s.resolves[rid];
    && r.ongoing == Flying(s, rid, A) + Flying(s, rid, AAAA)
    && (r.done <==> r.ongoing == 0 && r.responses != {})
    && r.responses == r.slots.Keys && r.responses <= r.asked
    && (forall k :: Flying(s, rid, k) + One(k in r.slots) <= 1)
    && (forall k :: Flying(s, rid, k) > 0 ==> k in r.asked)
  }

  /** Every waiting resolve is balanced; ids of items in flight have been handed out. */
  ghost predicate Books(s: State) {
    && s.resolves.Keys <= s.used
    && (forall rid: nat, k :: Flying(s, rid, k) > 0 ==> rid in s.used)
    && (forall rid :: rid in s.resolves && !s.resolves[rid].shut ==> Balanced(s, rid))
    && (s.main.Sending? ==>
          && s.main.rid in s.resolves && !s.resolves[s.main.rid].shut
          && s.resolves[s.main.rid].responses == {}
          && Flying(s, s.main.rid, A) == 0
          && (s.main.kind == AAAA ==> Flying(s, s.main.rid, AAAA) == 0))
  }

  /** Item `u` is the result kept in slot `k` of resolve `rid`. */
  ghost predicate InSlot(s: State, rid: nat, k: Kind, u: nat) {
    rid in s.resolves && k in s.resolves[rid].slots && s.resolves[rid].slots[k].uid == u
  }

  ghost predicate Kept(s: State, u: nat) {
    exists rid: nat, k :: InSlot(s, rid, k, u)
  }

  /** Every item made is in one place, and once: loose (in flight or freed), or kept as one result. */
  ghost predicate Owned(s: State) {
    && (forall u: nat :: Loose(s, u) > 0 ==> Loose(s, u) == 1 && u < s.made && !Kept(s, u))
    && (forall u: nat :: u < s.made ==> Loose(s, u) == 1 || Kept(s, u))
    && (forall rid: nat, k, u: nat :: InSlot(s, rid, k, u) ==> u < s.made)
    && (forall rid: nat, k, rid': nat, k', u: nat ::
          InSlot(s, rid, k, u) && InSlot(s, rid', k', u) ==> rid == rid' && k == k')
  }

  ghost predicate Inv(s: State) {
    Books(s) && Owned(s)
  }

  /** A step that only moves items between queue and workers. */
  lemma {:induction false} Moved(s: State, s': State)
    requires Inv(s)
    requires forall rid: nat, k :: Flying(s', rid, k) == Flying(s, rid, k)
    requires forall u: nat :: Loose(s', u) == Loose(s, u)
    requires s' == s.(sendq := s'.sendq, working := s'.working, recvq := s'.recvq)
    ensures Inv(s')
  {
    assert forall rid: nat, k, u: nat :: InSlot(s', rid, k, u) <==> InSlot(s, rid, k, u);
    assert forall u: nat :: Kept(s', u) <==> Kept(s, u);
  }

  lemma {:induction false} TakeKeeps(s: State, s': State, timedOut: bool)
    requires Inv(s) && Next(s, s', Take(timedOut))
    ensures Inv(s')
  {
    Pop(s.sendq);
    Push(s.working, s.sendq[0]);
    Push(s.recvq, s.sendq[0]);
    Moved(s, s');
  }

  lemma {:induction false} ReturnKeeps(s: State, s': State, i: nat, found: bool, negative: bool)
    requires Inv(s) && Next(s, s', Return(i, found, negative))
    ensures Inv(s')
  {
    Pull(s.working, i);
    Push(s.recvq, s.working[i].(found := found, negative := negative));
    Moved(s, s');
  }

  lemma {:induction false} CreateKeeps(s: State, s': State, rid: nat, asked: set<Kind>, isV4Addr: bool)
    requires Inv(s) && Next(s, s', Create(rid, asked, isV4Addr))
    ensures Inv(s')
  {
    assert forall r: nat, k :: Flying(s', r, k) == Flying(s, r, k);
    assert forall r: nat, k, u: nat :: InSlot(s', r, k, u) <==> InSlot(s, r, k, u);
    assert forall u: nat :: Loose(s', u) == Loose(s, u) && (Kept(s', u) <==> Kept(s, u));
    assert forall r :: r in s.resolves && !s.resolves[r].shut ==> Balanced(s, r);
  }

  lemma {:induction false} StartKeeps(s: State, s': State, rid: nat)
    requires Inv(s) && Next(s, s', Start(rid))
    ensures Inv(s')
  {
    assert Balanced(s, rid);
    assert forall r: nat, k :: Flying(s', r, k) == Flying(s, r, k);
    assert forall r: nat, k, u: nat :: InSlot(s', r, k, u) <==> InSlot(s, r, k, u);
    assert forall u: nat :: Loose(s', u) == Loose(s, u) && (Kept(s', u) <==> Kept(s, u));
  }

  /** The results kept are the same, and so is what is loose, but for `made` new items. */
  lemma {:induction false} OwnedSame(s: State, s': State)
    requires Owned(s) && s'.made - 1 <= s.made <= s'.made
    requires forall u: nat :: Loose(s', u) == Loose(s, u) + One(s.made <= u < s'.made)
    requires s'.resolves.Keys == s.resolves.Keys
    requires forall rid :: rid in s.resolves ==> s'.resolves[rid].slots == s.resolves[rid].slots
    ensures Owned(s')
  {
    assert forall r: nat, k, u: nat :: InSlot(s', r, k, u) <==> InSlot(s, r, k, u);
    assert forall u: nat :: Kept(s', u) <==> Kept(s, u);
  }

  /** Resolves other than `rid` are as before, and so are their queries in flight. */
  lemma {:induction false} BooksOthers(s: State, s': State, rid: nat)
    requires Books(s) && s'.used == s.used && s'.resolves.Keys <= s.resolves.Keys
    requires forall r: nat, k :: r != rid ==> Flying(s', r, k) == Flying(s, r, k)
    requires forall r :: r in s'.resolves && r != rid ==> s'.resolves[r] == s.resolves[r]
    ensures forall r :: r in s'.resolves && r != rid && !s'.resolves[r].shut ==> Balanced(s', r)
  {
    forall r | r in s'.resolves && r != rid && !s'.resolves[r].shut ensures Balanced(s', r) {
      assert Balanced(s, r);
    }
  }

  /** The step of sending counts one more query in flight if it was accepted. */
  lemma {:induction false} SendFlying(s: State, s': State, accepted: bool)
    requires Inv(s) && s.main.Sending? && s' == SendOne(s, accepted)
    ensures var rid, kind := s.main.rid, s.main.kind;
      var sent := accepted && Wanted(s.resolves[rid], kind);
      forall r: nat, k :: Flying(s', r, k) == Flying(s, r, k) + One(sent && r == rid && k == kind)
  {
    Push(s.sendq, Item(s.made, s.main.rid, s.main.kind, false, false));
  }

  lemma {:induction false} SendBooks(s: State, s': State, accepted: bool)
    requires Inv(s) && s.main.Sending? && s' == SendOne(s, accepted)
    ensures Books(s')
  {
    SendFlying(s, s', accepted);
    BooksOthers(s, s', s.main.rid);
    assert Balanced(s, s.main.rid);
  }

  lemma {:induction false} SendKeeps(s: State, s': State, accepted: bool)
    requires Inv(s) && s.main.Sending? && s' == SendOne(s, accepted)
    ensures Inv(s')
  {
    var item := Item(s.made, s.main.rid, s.main.kind, false, false);
    SendBooks(s, s', accepted);
    Push(s.sendq, item);
    Push(s.freed, item);
    OwnedSame(s, s');
  }

  lemma {:induction false} DispatchFlying(s: State, s': State)
    requires Inv(s) && s.main == Idle && s.recvq != [] && s' == DispatchOne(s)
    ensures var item := s.recvq[0];
      && Flying(s, item.rid, item.kind) > 0
      && forall r: nat, k :: Flying(s', r, k) == Flying(s, r, k) - One(r == item.rid && k == item.kind)
  {
    Pop(s.recvq);
  }

  /** The answer finds its slot free, and leaves its resolve balanced. */
  lemma {:induction false} DispatchBalanced(s: State, s': State)
    requires Inv(s) && s.main == Idle && s.recvq != [] && s' == DispatchOne(s)
    requires s.recvq[0].rid in s.resolves && !s.resolves[s.recvq[0].rid].shut
    ensures s.recvq[0].kind !in s.resolves[s.recvq[0].rid].slots
    ensures s.recvq[0].rid in s'.resolves && Balanced(s', s.recvq[0].rid)
  {
    var item := s.recvq[0];
    DispatchFlying(s, s');
    assert Balanced(s, item.rid);
    assert s'.resolves[item.rid].slots.Keys == s.resolves[item.rid].slots.Keys + {item.kind};
  }

  lemma {:induction false} DispatchBooks(s: State, s': State)
    requires Inv(s) && s.main == Idle && s.recvq != [] && s' == DispatchOne(s)
    ensures Books(s')
    ensures var item := s.recvq[0];
      item.rid in s.resolves && !s.resolves[item.rid].shut ==>
        item.kind !in s.resolves[item.rid].slots
  {
    var item := s.recvq[0];
    DispatchFlying(s, s');
    BooksOthers(s, s', item.rid);
    if item.rid in s.resolves && !s.resolves[item.rid].shut {
      DispatchBalanced(s, s');
    }
  }

  /** An item that was loose and is now kept in one slot is still owned once. */
  lemma {:induction false} NowKept(s: State, s': State, rid: nat, kind: Kind, uid: nat)
    requires Owned(s) && s'.made == s.made && Loose(s, uid) > 0
    requires forall u: nat :: Loose(s', u) == Loose(s, u) - One(u == uid)
    requires forall r: nat, k, u: nat ::
      InSlot(s', r, k, u) <==> InSlot(s, r, k, u) || (r == rid && k == kind && u == uid)
    ensures Owned(s')
  {
    assert InSlot(s', rid, kind, uid);
    assert forall u: nat :: u != uid ==> (Kept(s', u) <==> Kept(s, u));
  }

  lemma {:induction false} DispatchOwned(s: State, s': State)
    requires Inv(s) && s.main == Idle && s.recvq != [] && s' == DispatchOne(s)
    ensures Owned(s')
  {
    var item := s.recvq[0];
    Pop(s.recvq);
    if item.rid in s.resolves && item.kind !in s.resolves[item.rid].slots {
      NowKept(s, s', item.rid, item.kind, item.uid);
    } else {
      Push(s.freed, item);
      OwnedSame(s, s');
    }
  }

  lemma {:induction false} Split(items: seq<Item>, rid: nat)
    ensures forall r: nat, k ::
      Count(Without(items, rid), r, k) == if r == rid then 0 else Count(items, r, k)
    ensures forall u: nat :: Times(Without(items, rid), u) + Times(Only(items, rid), u) == Times(items, u)
  {
    if items == [] {
    } else {
      Split(items[1..], rid);
      assert ([items[0]] + Without(items[1..], rid))[1..] == Without(items[1..], rid);
      assert ([items[0]] + Only(items[1..], rid))[1..] == Only(items[1..], rid);
    }
  }

  /** How often item `u` is a result of the resolve. */
  ghost function Held(r: Resolve, u: nat): nat {
    One(A in r.slots && r.slots[A].uid == u) + One(AAAA in r.slots && r.slots[AAAA].uid == u)
  }

  lemma {:induction false} SlotTimes(r: Resolve)
    ensures forall u: nat :: Times(SlotItems(r), u) == Held(r, u)
  {
    forall u: nat ensures Times(SlotItems(r), u) == Held(r, u) {
      var a := if A in r.slots then [r.slots[A]] else [];
      var b := if AAAA in r.slots then [r.slots[AAAA]] else [];
      Concat(a, b, 0, A, u);
    }
  }

  /** Clearing and freeing move the resolve's items to the freed ones; nothing else changes. */
  lemma {:induction false} TeardownMoves(s: State, rid: nat)
    requires rid in s.resolves
    ensures var s' := Teardown(s, rid);
      && (forall r: nat, k :: r != rid ==> Flying(s', r, k) == Flying(s, r, k))
      && (forall r: nat, k :: Flying(s', r, k) <= Flying(s, r, k))
      && (forall u: nat :: Loose(s', u) == Loose(s, u) + Held(s.resolves[rid], u))
  {
    var r := s.resolves[rid];
    var s' := Teardown(s, rid);
    Split(s.sendq, rid);
    Split(s.recvq, rid);
    SlotTimes(r);
    var cleared := if r.ongoing != 0 && !r.done then Only(s.sendq, rid) + Only(s.recvq, rid) else [];
    forall u: nat ensures Loose(s', u) == Loose(s, u) + Held(r, u) {
      Concat(s.freed + cleared, SlotItems(r), 0, A, u);
      Concat(s.freed, cleared, 0, A, u);
      Concat(Only(s.sendq, rid), Only(s.recvq, rid), 0, A, u);
    }
  }

  /** Freeing all results of one resolve. */
  lemma {:induction false} Released(s: State, t: State, rid: nat)
    requires Owned(s) && rid in s.resolves && t.made == s.made
    requires forall u: nat :: Loose(t, u) == Loose(s, u) + Held(s.resolves[rid], u)
    requires forall q: nat, k, u: nat :: InSlot(t, q, k, u) <==> q != rid && InSlot(s, q, k, u)
    ensures Owned(t)
  {
    forall u: nat
      ensures Held(s.resolves[rid], u) <= 1
      ensures Kept(s, u) <==> Kept(t, u) || Held(s.resolves[rid], u) == 1
      ensures Held(s.resolves[rid], u) == 1 ==> Loose(s, u) == 0 && u < s.made && !Kept(t, u)
    {
      assert Held(s.resolves[rid], u) == One(InSlot(s, rid, A, u)) + One(InSlot(s, rid, AAAA, u));
      assert InSlot(s, rid, A, u) ==> !InSlot(s, rid, AAAA, u);
      if q: nat, k :| InSlot(s, q, k, u) {
        assert q != rid ==> InSlot(t, q, k, u);
        assert k == A || k == AAAA;
      }
    }
  }

  lemma {:induction false} TeardownKeeps(s: State, rid: nat)
    requires Inv(s) && s.main == Idle && rid in s.resolves
    ensures var t := Teardown(s, rid);
      Inv(t) && Inv(t.(resolves := t.resolves - {rid}))
  {
    var t := Teardown(s, rid);
    var t' := t.(resolves := t.resolves - {rid});
    TeardownMoves(s, rid);
    Released(s, t, rid);
    assert forall u: nat :: Loose(t', u) == Loose(t, u);
    Released(s, t', rid);
    assert forall r: nat, k :: Flying(t', r, k) == Flying(t, r, k);
    BooksOthers(s, t, rid);
    BooksOthers(s, t', rid);
  }

  /** Tearing a resolve down leaves none of its items in the queues; only workers may still have some. */
  lemma {:induction false} TeardownClears(s: State, rid: nat, k: Kind)
    requires Inv(s) && rid in s.resolves && !s.resolves[rid].shut
    ensures var t := Teardown(s, rid);
      Count(t.sendq, rid, k) == Count(t.recvq, rid, k) == 0 && Flying(t, rid, k) == Count(s.working, rid, k)
  {
    assert Balanced(s, rid);
    Split(s.sendq, rid);
    Split(s.recvq, rid);
  }

  lemma {:induction false} TakeResultKeeps(s: State, s': State, rid: nat)
    requires Inv(s) && Next(s, s', TakeResult(rid))
    ensures Inv(s')
  {
    if s.resolves[rid].done {
      var m := s.(resolves := s.resolves[rid :=
        s.resolves[rid].(negativeAnswer := Negative(s.resolves[rid]))]);
      NotingKeeps(s, m, rid, Negative(s.resolves[rid]));
      TeardownKeeps(m, rid);
    }
  }

  /** Noting whether the answer is negative moves no item. */
  lemma {:induction false} NotingKeeps(s: State, m: State, rid: nat, negative: bool)
    requires Inv(s) && s.main == Idle && rid in s.resolves && !s.resolves[rid].shut
    requires m == s.(resolves := s.resolves[rid := s.resolves[rid].(negativeAnswer := negative)])
    ensures Inv(m)
  {
    NotingOwned(s, m);
    assert forall r: nat, k :: Flying(m, r, k) == Flying(s, r, k);
    BooksOthers(s, m, rid);
    assert Balanced(s, rid);
  }

  lemma {:induction false} NotingOwned(s: State, m: State)
    requires Owned(s) && m == s.(resolves := m.resolves) && m.resolves.Keys == s.resolves.Keys
    requires forall r :: r in s.resolves ==> m.resolves[r].slots == s.resolves[r].slots
    ensures Owned(m)
  {
    assert forall u: nat :: Loose(m, u) == Loose(s, u);
    OwnedSame(s, m);
  }

  /** Every step keeps the books and the ownership of items. */
  lemma {:induction false} StepKeeps(s: State, s': State, step: Step)
    requires Inv(s) && Next(s, s', step)
    ensures Inv(s')
  {
    match step
    case Create(rid, asked, isV4Addr) => CreateKeeps(s, s', rid, asked, isV4Addr);
    case Start(rid) => StartKeeps(s, s', rid);
    case Send(accepted) => SendKeeps(s, s', accepted);
    case Take(timedOut) => TakeKeeps(s, s', timedOut);
    case Return(i, found, negative) => ReturnKeeps(s, s', i, found, negative);
    case Dispatch => DispatchBooks(s, s'); DispatchOwned(s, s');
    case TakeResult(rid) => TakeResultKeeps(s, s', rid);
    case Shutdown(rid) => TeardownKeeps(s, rid);
    case Destroy(rid) => TeardownKeeps(s, rid);
  }

  ghost predicate IsRun(run: seq<State>, steps: seq<Step>) {
    && |run| == |steps| + 1 && run[0] == Init()
    && forall i :: 0 <= i < |steps| ==> Next(run[i], run[i + 1], steps[i])
  }

  /** Over every interleaving, every state keeps the books and the ownership of items. */
  lemma {:induction false} RunKeeps(run: seq<State>, steps: seq<Step>, i: nat)
    requires IsRun(run, steps) && i < |run|
    ensures Inv(run[i])
  {
    if i == 0 {
    } else {
      RunKeeps(run, steps, i - 1);
      assert Next(run[i - 1], run[i], steps[i - 1]);
      StepKeeps(run[i - 1], run[i], steps[i - 1]);
    }
  }

  /**
   * In every run, for a resolve that is not shut down: its counter is the number of its queries
   * that are queued, in a worker or awaiting dispatch; it is done exactly when something was
   * answered and nothing is outstanding.
   */
  lemma {:induction false} CounterExact(run: seq<State>, steps: seq<Step>, i: nat, rid: nat)
    requires IsRun(run, steps) && i < |run|
    requires rid in run[i].resolves && !run[i].resolves[rid].shut
    ensures var s, r := run[i], run[i].resolves[rid];
      && r.ongoing == Flying(s, rid, A) + Flying(s, rid, AAAA)
      && (r.done <==> r.ongoing == 0 && r.responses != {})
      && r.responses == r.slots.Keys
  {
    RunKeeps(run, steps, i);
    assert Balanced(run[i], rid);
  }

  /**
   * No result slot is filled twice: whenever an answer for a resolve that is not shut down is
   * dispatched, its slot is empty, and `done` becomes true exactly with the last one.
   */
  lemma {:induction false} SlotFilledOnce(run: seq<State>, steps: seq<Step>, i: nat)
    requires IsRun(run, steps) && i < |steps| && steps[i] == Dispatch
    requires run[i].recvq != [] && var item := run[i].recvq[0];
      item.rid in run[i].resolves && !run[i].resolves[item.rid].shut
    ensures var s, s', item := run[i], run[i + 1], run[i].recvq[0];
      var r, r' := s.resolves[item.rid], s'.resolves[item.rid];
      && item.kind !in r.slots && r'.slots == r.slots[item.kind := item] && !r.done
      && (r'.done <==> Flying(s', item.rid, A) + Flying(s', item.rid, AAAA) == 0)
  {
    var s, s', item := run[i], run[i + 1], run[i].recvq[0];
    RunKeeps(run, steps, i);
    RunKeeps(run, steps, i + 1);
    assert Next(s, s', steps[i]);
    DispatchBooks(s, s');
    Pop(s.recvq);
    assert Balanced(s, item.rid) && Balanced(s', item.rid);
  }

  /**
   * A negative answer is recorded exactly when every A and AAAA query asked for came back, each
   * saying that the name does not exist.
   */
  lemma {:induction false} NegativeExact(run: seq<State>, steps: seq<Step>, i: nat, rid: nat)
    requires IsRun(run, steps) && i < |steps| && steps[i] == TakeResult(rid)
    requires rid in run[i].resolves && run[i].resolves[rid].done
    ensures rid in run[i + 1].resolves
    ensures run[i + 1].resolves[rid].negativeAnswer <==> AllNegative(run[i].resolves[rid])
  {
    RunKeeps(run, steps, i);
    assert Next(run[i], run[i + 1], steps[i]);
    assert Balanced(run[i], rid);
    var r := run[i].resolves[rid];
    assert r.responses * r.asked == r.asked <==> forall k :: k in r.asked ==> k in r.responses;
    assert forall k :: k in r.slots <==> k in r.responses;
    var k :| k in r.responses;
    assert k in r.slots && (k == A || k == AAAA);
    assert r.slots.Keys <= r.asked;
    if Negative(r) {
      forall k | k in r.asked
        ensures k in r.slots && !r.slots[k].found && r.slots[k].negative
      {
        assert k == A || k == AAAA;
      }
    }
    if AllNegative(r) {
      assert (A in r.slots ==> A in r.asked) && (AAAA in r.slots ==> AAAA in r.asked);
    }
  }

  /** Every query asked for is answered, and answered negatively. */
  ghost predicate AllNegative(r: Resolve) {
    forall k :: k in r.asked ==> k in r.slots && !r.slots[k].found && r.slots[k].negative
  }

  // ---------- Which queries are sent ----------

  /** The query is to be made: it was asked for, but AAAA is left out for an IPv4 address if A is asked for. */
  ghost predicate Due(r: Resolve, k: Kind) {
    if k == A then A in r.asked else AAAA in r.asked && !(A in r.asked && r.isV4Addr)
  }

  /** A query of this kind is in flight, or has been answered. */
  ghost predicate Sent(s: State, rid: nat, k: Kind)
    requires rid in s.resolves
  {
    Flying(s, rid, k) > 0 || k in s.resolves[rid].responses
  }

  /** The step is one at which a query that is due for the resolve is not accepted. */
  ghost predicate Refused(s: State, step: Step, rid: nat) {
    && step == Send(false) && s.main.Sending? && s.main.rid == rid
    && rid in s.resolves && Due(s.resolves[rid], s.main.kind)
  }

  /** How far the start of a resolve, none of whose queries was refused, has come. */
  ghost predicate Underway(s: State, rid: nat) {
    && rid in s.used
    && (rid in s.resolves && !s.resolves[rid].shut ==>
          match s.main
          case Idle => forall k :: Sent(s, rid, k) <==> Due(s.resolves[rid], k)
          case Sending(q, kind) =>
            if q != rid then forall k :: Sent(s, rid, k) <==> Due(s.resolves[rid], k)
            else !Sent(s, rid, A) && (Sent(s, rid, AAAA) <==> kind == A && Due(s.resolves[rid], AAAA)))
  }

  /** Steps that leave the resolve alone, but for an answer that comes in. */
  lemma {:induction false} SameSent(s: State, s': State, rid: nat)
    requires Underway(s, rid) && rid in s'.used && (s'.main == s.main || s'.main == Idle || s'.main.rid != rid)
    requires s.main.Sending? && s.main.rid == rid ==> s'.main == s.main
    requires rid in s'.resolves && !s'.resolves[rid].shut ==>
      && rid in s.resolves && !s.resolves[rid].shut
      && s'.resolves[rid].asked == s.resolves[rid].asked && s'.resolves[rid].isV4Addr == s.resolves[rid].isV4Addr
      && forall k :: Sent(s', rid, k) <==> Sent(s, rid, k)
    ensures Underway(s', rid)
  {
    if rid in s'.resolves && !s'.resolves[rid].shut {
      assert forall k :: Due(s'.resolves[rid], k) <==> Due(s.resolves[rid], k);
    }
  }

  lemma {:induction false} SendUnderway(s: State, s': State, accepted: bool, rid: nat)
    requires Inv(s) && Underway(s, rid) && Next(s, s', Send(accepted)) && !Refused(s, Send(accepted), rid)
    ensures Underway(s', rid)
  {
    SendFlying(s, s', accepted);
    if s.main.rid != rid {
      SameSent(s, s', rid);
    } else {
      assert Balanced(s, rid);
    }
  }

  lemma {:induction false} StartUnderway(s: State, s': State, q: nat, rid: nat)
    requires Inv(s) && Underway(s, rid) && Next(s, s', Start(q))
    ensures Underway(s', rid)
  {
    assert forall r: nat, k :: Flying(s', r, k) == Flying(s, r, k);
    if q == rid && s'.main != s.main {
      assert Balanced(s, rid);
    } else {
      SameSent(s, s', rid);
    }
  }

  lemma {:induction false} DispatchUnderway(s: State, s': State, rid: nat)
    requires Inv(s) && Underway(s, rid) && Next(s, s', Dispatch)
    ensures Underway(s', rid)
  {
    DispatchFlying(s, s');
    if rid in s.resolves {
      forall k ensures Sent(s', rid, k) <==> Sent(s, rid, k) {
        assert Flying(s', rid, k) == Flying(s, rid, k) - One(s.recvq[0].rid == rid && s.recvq[0].kind == k);
      }
    }
    SameSent(s, s', rid);
  }

  lemma {:induction false} TeardownUnderway(s: State, q: nat, rid: nat)
    requires Underway(s, rid) && s.main == Idle && q in s.resolves
    ensures var t := Teardown(s, q);
      Underway(t, rid) && Underway(t.(resolves := t.resolves - {q}), rid)
  {
    var t := Teardown(s, q);
    var t' := t.(resolves := t.resolves - {q});
    TeardownMoves(s, q);
    assert forall r: nat, k :: Flying(t', r, k) == Flying(t, r, k);
    SameSent(s, t, rid);
    SameSent(s, t', rid);
  }

  lemma {:induction false} TakeResultUnderway(s: State, s': State, q: nat, rid: nat)
    requires Inv(s) && Underway(s, rid) && Next(s, s', TakeResult(q))
    ensures Underway(s', rid)
  {
    if s.resolves[q].done {
      var m := s.(resolves := s.resolves[q := s.resolves[q].(negativeAnswer := Negative(s.resolves[q]))]);
      assert forall r: nat, k :: Flying(m, r, k) == Flying(s, r, k);
      SameSent(s, m, rid);
      TeardownUnderway(m, q, rid);
    }
  }

  lemma {:induction false} WorkUnderway(s: State, s': State, step: Step, rid: nat)
    requires Inv(s) && Underway(s, rid) && Next(s, s', step) && (step.Take? || step.Return?)
    ensures Underway(s', rid)
  {
    match step {
      case Take(timedOut) =>
        Pop(s.sendq);
        Push(s.working, s.sendq[0]);
        Push(s.recvq, s.sendq[0]);
      case Return(i, found, negative) =>
        Pull(s.working, i);
        Push(s.recvq, s.working[i].(found := found, negative := negative));
    }
    assert forall r: nat, k :: Flying(s', r, k) == Flying(s, r, k);
    SameSent(s, s', rid);
  }

  lemma {:induction false} CreateUnderway(s: State, s': State, q: nat, asked: set<Kind>, isV4Addr: bool, rid: nat)
    requires Inv(s) && Underway(s, rid) && Next(s, s', Create(q, asked, isV4Addr))
    ensures Underway(s', rid)
  {
    assert forall r: nat, k :: Flying(s', r, k) == Flying(s, r, k);
    SameSent(s, s', rid);
  }

  lemma {:induction false} StepUnderway(s: State, s': State, step: Step, rid: nat)
    requires Inv(s) && Underway(s, rid) && Next(s, s', step) && !Refused(s, step, rid)
    ensures Underway(s', rid)
  {
    match step
    case Create(q, asked, isV4Addr) => CreateUnderway(s, s', q, asked, isV4Addr, rid);
    case Start(q) => StartUnderway(s, s', q, rid);
    case Send(accepted) => SendUnderway(s, s', accepted, rid);
    case Take(timedOut) => WorkUnderway(s, s', step, rid);
    case Return(i, found, negative) => WorkUnderway(s, s', step, rid);
    case Dispatch => DispatchUnderway(s, s', rid);
    case TakeResult(q) => TakeResultUnderway(s, s', q, rid);
    case Shutdown(q) => TeardownUnderway(s, q, rid);
    case Destroy(q) => TeardownUnderway(s, q, rid);
  }

  /** A resolve that has nothing outstanding and no answer is started. */
  ghost predicate Starts(s: State, step: Step, rid: nat) {
    step == Start(rid) && rid in s.resolves && s.resolves[rid].ongoing == 0 && !s.resolves[rid].done
  }

  /** From a start on, as long as nothing is refused. */
  lemma {:induction false} RunUnderway(run: seq<State>, steps: seq<Step>, j: nat, i: nat, rid: nat)
    requires IsRun(run, steps) && j < i < |run| && Starts(run[j], steps[j], rid)
    requires forall k :: j < k < i ==> !Refused(run[k], steps[k], rid)
    ensures Underway(run[i], rid)
  {
    RunKeeps(run, steps, i);
    if i == j + 1 {
      assert Next(run[j], run[i], steps[j]);
      assert Balanced(run[i], rid);
    } else {
      RunUnderway(run, steps, j, i - 1, rid);
      RunKeeps(run, steps, i - 1);
      assert Next(run[i - 1], run[i], steps[i - 1]);
      StepUnderway(run[i - 1], run[i], steps[i - 1], rid);
    }
  }

  /** Something was asked for, and every query made for it has its answer. */
  ghost predicate AllAnswered(r: Resolve) {
    && r.asked != {} && (A in r.asked ==> A in r.slots)
    && (AAAA in r.asked && !(A in r.asked && r.isV4Addr) ==> AAAA in r.slots)
  }

  /**
   * In every run, once the start of a resolve has ended and none of its queries was refused, those in
   * flight or answered are exactly those asked for, less AAAA if A is asked for an IPv4 address; and
   * the resolve is done exactly when there are such queries and all have been answered.
   */
  lemma {:induction false} AllAsked(run: seq<State>, steps: seq<Step>, j: nat, i: nat, rid: nat)
    requires IsRun(run, steps) && j < i < |run| && Starts(run[j], steps[j], rid)
    requires forall k :: j < k < i ==> !Refused(run[k], steps[k], rid)
    requires rid in run[i].resolves && !run[i].resolves[rid].shut && (run[i].main.Sending? ==> run[i].main.rid != rid)
    ensures var s, r := run[i], run[i].resolves[rid];
      && (Flying(s, rid, A) + One(A in r.slots) == One(A in r.asked))
      && (Flying(s, rid, AAAA) + One(AAAA in r.slots) == One(AAAA in r.asked && !(A in r.asked && r.isV4Addr)))
      && (r.done <==> AllAnswered(r))
  {
    RunUnderway(run, steps, j, i, rid);
    RunKeeps(run, steps, i);
    var s, r := run[i], run[i].resolves[rid];
    assert Balanced(s, rid);
    assert Sent(s, rid, A) <==> Due(r, A);
    assert Sent(s, rid, AAAA) <==> Due(r, AAAA);
    if r.asked != {} {
      var k :| k in r.asked;
      assert k == A || k == AAAA;
    }
  }

  /** Every item ever made is in exactly one place. */
  lemma {:induction false} OneOwner(run: seq<State>, steps: seq<Step>, i: nat, u: nat)
    requires IsRun(run, steps) && i < |run| && u < run[i].made
    ensures Loose(run[i], u) == if Kept(run[i], u) then 0 else 1
    ensures forall rid: nat, k, rid': nat, k' ::
      InSlot(run[i], rid, k, u) && InSlot(run[i], rid', k', u) ==> rid == rid' && k == k'
  {
    RunKeeps(run, steps, i);
  }
}
