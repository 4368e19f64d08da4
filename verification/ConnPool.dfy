/** The connection pool and the shutdown list (lib/conncache.c, lib/cshutdn.c). */
module ConnPool {
  import opened Basics
  import opened ConnLists

  datatype Limit = LimitOk | LimitDest | LimitTotal

  /** A multi handle's pool, with the list of connections being shut down. */
  class Pool {
    var bundles: seq<Bundle>       // in the order the hash is walked
    var numConn: nat
    var nextId: nat
    var shutdown: seq<Conn>        // oldest first
    var status: map<nat, Status>
    const share: bool              // owned by a share, not by the multi
    const maxHost: nat
    const maxTotal: nat
    ghost var added: set<Conn>
    ghost var registry: seq<Conn>  // by id
    ghost var freed: seq<Conn>

    ghost function Pooled(): seq<Conn>
      reads this
    {
      Flat(bundles)
    }

    ghost function Live(dest: string): nat
      reads this
    {
      CountDest(Flat(bundles), dest)
    }

    ghost function Closing(dest: string): nat
      reads this
    {
      CountDest(shutdown, dest)
    }

    /** Every connection added is in exactly one place: a bundle, the shutdown list, freed, or `hand`. */
    ghost predicate Books(hand: seq<Conn>)
      reads this
    {
      && Keyed(bundles) && numConn == |Flat(bundles)|
      && (forall c :: Occurs(Flat(bundles), c) + Occurs(shutdown, c) + Occurs(freed, c)
            + Occurs(hand, c) == One(c in added))
      && |registry| == nextId
      && (forall c :: c in added ==> c.id < nextId && registry[c.id] == c && c.id in status)
      && (forall c :: c in added ==> (status[c.id].inPool <==> Occurs(Flat(bundles), c) > 0))
    }

    ghost predicate Valid()
      reads this
    {
      Books([])
    }

    constructor (share: bool, maxHost: nat, maxTotal: nat)
      ensures Valid() && bundles == [] && shutdown == [] && added == {}
      ensures this.share == share && this.maxHost == maxHost && this.maxTotal == maxTotal
    {
      bundles, numConn, nextId, shutdown, status := [], 0, 0, [], map[];
      this.share, this.maxHost, this.maxTotal := share, maxHost, maxTotal;
      added, registry, freed := {}, [], [];
    }

    /** Adds a new connection to the bundle of its destination and gives it an id. */
    method Add(destination: string, connectOnly: bool, close: bool, users: nat, now: int)
      returns (c: Conn)
      requires Valid()
      modifies this
      ensures Valid() && c !in old(added) && added == old(added) + {c}
      ensures c == Conn(old(nextId), destination, connectOnly)
      ensures OneMore(old(Pooled()), Pooled(), c) && shutdown == old(shutdown) && freed == old(freed)
    {
      c := Conn(nextId, destination, connectOnly);
      Link(c);
      status := status[nextId := Status(users, now, false, true, close)];
      nextId := nextId + 1;
      added, registry := added + {c}, registry + [c];
    }

    /** Puts a connection in the bundle of its destination. */
    method Link(c: Conn)
      requires Keyed(bundles) && numConn == |Flat(bundles)|
      modifies this`bundles, this`numConn
      ensures Keyed(bundles) && numConn == |Flat(bundles)| && OneMore(old(Flat(bundles)), Flat(bundles), c)
    {
      AddToAdds(bundles, c);
      bundles := AddTo(bundles, c);
      numConn := numConn + 1;
    }

    /** Takes a connection out of its bundle; an emptied bundle goes too. */
    method Unlink(c: Conn)
      requires Valid() && c in Pooled()
      modifies this`bundles, this`numConn, this`status
      ensures Books([c]) && OneMore(Pooled(), old(Pooled()), c)
      ensures status == old(status)[c.id := old(status)[c.id].(inPool := false)]
    {
      Member(Flat(bundles), c);
      TakeOut(c);
      status := status[c.id := status[c.id].(inPool := false)];
    }

    method TakeOut(c: Conn)
      requires Keyed(bundles) && numConn == |Flat(bundles)| && c in Flat(bundles)
      modifies this`bundles, this`numConn
      ensures Keyed(bundles) && numConn == |Flat(bundles)| && OneMore(Flat(bundles), old(Flat(bundles)), c)
    {
      RemoveFromFlat(bundles, c);
      RemoveFromKeyed(bundles, c);
      bundles := RemoveFrom(bundles, c);
      numConn := numConn - 1;
    }

    predicate InPool(c: Conn)
      reads this
    {
      c.id in status && status[c.id].inPool
    }

    /** The connection is in the pool, or in none of the lists. */
    ghost predicate Has(c: Conn)
      reads this
    {
      if InPool(c) then Valid() && c in Pooled() else Books([c])
    }

    /** Takes a connection out of the pool; nothing is done if it is not there. */
    method RemoveConn(c: Conn)
      requires Has(c)
      modifies this`bundles, this`numConn, this`status
      ensures Books([c])
      ensures old(InPool(c)) ==>
        && OneMore(Pooled(), old(Pooled()), c)
        && status == old(status)[c.id := old(status)[c.id].(inPool := false)]
      ensures !old(InPool(c)) ==> bundles == old(bundles) && numConn == old(numConn) && status == old(status)
    {
      if InPool(c) {
        Unlink(c);
      }
    }

    /** Frees a connection that is in none of the lists. */
    method Terminate(c: Conn, ghost hand: seq<Conn>)
      requires Books([c] + hand)
      modifies this`freed
      ensures Books(hand) && freed == old(freed) + [c]
    {
      Appended(freed, c);
      assert ([c] + hand)[1..] == hand;
      freed := freed + [c];
    }

    /** The first connection of the list that goes to `dest`, or the first at all; the length if none. */
    static ghost predicate FirstTo(cs: seq<Conn>, dest: Option<string>, i: nat) {
      && i <= |cs|
      && (i < |cs| && dest.Some? ==> cs[i].destination == dest.value)
      && (forall j :: 0 <= j < i ==> dest.Some? && cs[j].destination != dest.value)
    }

    /** Closes the oldest connection in shutdown, or the oldest one to `dest`: number `i` of the list. */
    method DestroyOldest(dest: Option<string>, ghost hand: seq<Conn>) returns (b: bool, ghost i: nat)
      requires Books(hand)
      modifies this`shutdown, this`freed
      ensures Books(hand) && forall d :: Closing(d) <= old(Closing(d))
      ensures FirstTo(old(shutdown), dest, i) && (b <==> i < |old(shutdown)|)
      ensures b ==>
        && shutdown == old(shutdown)[..i] + old(shutdown)[i + 1..] && freed == old(freed) + [old(shutdown)[i]]
        && (dest.Some? ==> Closing(dest.value) == old(Closing(dest.value)) - 1)
      ensures !b ==>
        && shutdown == old(shutdown) && freed == old(freed) && (dest.None? ==> shutdown == [])
        && (dest.Some? ==> Closing(dest.value) == 0)
    {
      var k := FirstClosing(dest);
      i := k;
      if k == |shutdown| {
        return false, i;
      }
      var c := shutdown[k];
      TakenOut(shutdown, k);
      shutdown := shutdown[..k] + shutdown[k + 1..];
      InHand(hand, c);
      Terminate(c, hand);
      b := true;
    }

    /** The first connection in shutdown, or the first one to `dest`; the list's length if none. */
    method FirstClosing(dest: Option<string>) returns (i: nat)
      ensures FirstTo(shutdown, dest, i)
      ensures dest.Some? && i == |shutdown| ==> Closing(dest.value) == 0
    {
      i := 0;
      while i < |shutdown| && dest.Some? && shutdown[i].destination != dest.value
        invariant i <= |shutdown| && (dest.None? ==> i == 0)
        invariant forall j :: 0 <= j < i ==> dest.Some? && shutdown[j].destination != dest.value
        invariant dest.Some? ==> CountDest(shutdown[i..], dest.value) == Closing(dest.value)
      {
        assert shutdown[i..][1..] == shutdown[i + 1..];
        i := i + 1;
      }
    }

    lemma {:induction false} InHand(hand: seq<Conn>, c: Conn)
      ensures forall x :: Occurs([c] + hand, x) == Occurs(hand, x) + One(x == c)
    {
      assert ([c] + hand)[1..] == hand;
    }

    /** The list of connections in shutdown, without the oldest if there are too many. */
    ghost function Relieved(connsInPool: nat): seq<Conn>
      reads this
    {
      if 0 < maxTotal <= connsInPool + |shutdown| && shutdown != [] then shutdown[1..] else shutdown
    }

    method Relieve(c: Conn, connsInPool: nat)
      requires Books([c])
      modifies this`shutdown, this`freed
      ensures Books([c]) && shutdown == old(Relieved(connsInPool)) && old(freed) <= freed
      ensures forall d :: Closing(d) <= old(Closing(d))
    {
      if 0 < maxTotal <= connsInPool + |shutdown| {
        var closed, i := DestroyOldest(None, [c]);
      }
    }

    /**
     * Puts a connection last on the shutdown list, after closing the oldest one there if that is one
     * too many. It is freed instead if its socket events cannot be set up.
     */
    method ShutdownAdd(c: Conn, connsInPool: nat, eventsFail: bool)
      requires Books([c])
      modifies this`shutdown, this`freed
      ensures Valid() && old(freed) <= freed
      ensures shutdown == old(Relieved(connsInPool)) + if eventsFail then [] else [c]
      ensures eventsFail ==> freed != [] && freed[|freed| - 1] == c
      ensures forall d :: Closing(d) <= old(Closing(d)) + One(d == c.destination)
    {
      Relieve(c, connsInPool);
      if eventsFail {
        assert [c] + [] == [c];
        Terminate(c, []);
      } else {
        Enlist(c);
      }
    }

    method Enlist(c: Conn)
      requires Books([c])
      modifies this`shutdown
      ensures Valid() && shutdown == old(shutdown) + [c]
      ensures forall d :: Closing(d) == old(Closing(d)) + One(d == c.destination)
    {
      InHand([], c);
      assert [c] + [] == [c];
      Appended(shutdown, c);
      shutdown := shutdown + [c];
    }

    /** One connection less in the pool: it was freed or moved to the shutdown list. */
    twostate predicate Left(c: Conn)
      reads this
    {
      && OneMore(Pooled(), old(Pooled()), c)
      && |shutdown| <= old(|shutdown|) + 1 && old(freed) <= freed
      && (forall d :: Closing(d) <= old(Closing(d)) + One(d == c.destination))
      && added == old(added) && c.id in old(status)
      && status == old(status)[c.id := old(status)[c.id].(inPool := false)]
    }

    /**
     * Shuts an unlisted connection down. Without a graceful shutdown, or if that is done at once, it
     * is freed; otherwise it goes on the shutdown list.
     */
    method Discard(c: Conn, aborted: bool, done: bool, inPool: nat, eventsFail: bool)
      requires Books([c])
      modifies this`shutdown, this`freed
      ensures Valid() && |shutdown| <= old(|shutdown|) + 1 && old(freed) <= freed
      ensures if aborted || c.connectOnly || done then shutdown == old(shutdown) && freed == old(freed) + [c]
              else shutdown == old(Relieved(inPool)) + if eventsFail then [] else [c]
      ensures forall d :: Closing(d) <= old(Closing(d)) + One(d == c.destination)
    {
      assert [c] + [] == [c];
      if aborted || c.connectOnly || done {
        Terminate(c, []);
      } else {
        ShutdownAdd(c, inPool, eventsFail);
      }
    }

    /** Discards a connection: how its shutdown goes, and how many the multi's own pool has, is open. */
    method DiscardSomehow(c: Conn, aborted: bool)
      requires Books([c])
      modifies this`shutdown, this`freed
      ensures Valid() && |shutdown| <= old(|shutdown|) + 1 && old(freed) <= freed
      ensures aborted || c.connectOnly ==> shutdown == old(shutdown) && freed == old(freed) + [c]
      ensures forall d :: Closing(d) <= old(Closing(d)) + One(d == c.destination)
    {
      var done: bool, eventsFail: bool, inPool: nat := *, *, numConn;
      if share {
        inPool := *;
      }
      Discard(c, aborted, done, inPool, eventsFail);
    }

    /** Ends a connection, in the pool or not, unless transfers still use it and it is not aborted. */
    method ConnTerminate(c: Conn, aborted: bool)
      requires Has(c)
      modifies this`bundles, this`numConn, this`status, this`shutdown, this`freed
      ensures c.id in old(status)
      ensures old(status)[c.id].InUse() && !aborted ==>
        Has(c) && bundles == old(bundles) && status == old(status) && shutdown == old(shutdown) && freed == old(freed)
      ensures !old(status)[c.id].InUse() || aborted ==>
        && Valid() && (aborted || c.connectOnly ==> shutdown == old(shutdown) && freed == old(freed) + [c])
        && (if old(InPool(c)) then Left(c) else Pooled() == old(Pooled()))
    {
      Member(Pooled(), c);
      Member([c], c);
      if !status[c.id].InUse() || aborted {
        Finish(c, aborted);
      }
    }

    /** Takes a connection out of the pool, if it is there, and discards it. */
    method Finish(c: Conn, aborted: bool)
      requires Has(c) && c.id in status
      modifies this`bundles, this`numConn, this`status, this`shutdown, this`freed
      ensures Valid() && (aborted || c.connectOnly ==> shutdown == old(shutdown) && freed == old(freed) + [c])
      ensures if old(InPool(c)) then Left(c) else Pooled() == old(Pooled())
    {
      RemoveConn(c);
      DiscardSomehow(c, aborted);
    }

    /** Evicts an idle connection; a shared pool has no multi to shut it down. */
    method Evict(c: Conn)
      requires Valid() && c in Pooled() && c.id in status && !status[c.id].InUse()
      modifies this`bundles, this`numConn, this`status, this`shutdown, this`freed
      ensures Valid() && Left(c) && Eased() && numConn == old(numConn) - 1
    {
      Member(Pooled(), c);
      if share {
        DropShared(c);
      } else {
        ConnTerminate(c, false);
      }
      LeftEases(c);
    }

    method DropShared(c: Conn)
      requires Valid() && c in Pooled() && InPool(c)
      modifies this`bundles, this`numConn, this`status, this`freed
      ensures Valid() && Left(c)
    {
      RemoveConn(c);
      assert [c] + [] == [c];
      Terminate(c, []);
    }

    /** When an idle connection has left the pool, it has eased. */
    twostate lemma {:induction false} LeftEases(c: Conn)
      requires old(Valid()) && Valid() && Left(c) && c.id in old(status) && !old(status)[c.id].InUse()
      ensures Eased() && numConn == old(numConn) - 1
    {
      forall d ensures CountDest(shutdown, d) <= CountDest(old(shutdown), d) + One(d == c.destination) {
        assert Closing(d) <= old(Closing(d)) + One(d == c.destination);
      }
      LeftIsEased(old(State()), State(), c);
    }

    /** May be evicted for the bundle's sake (`any` false) or for the pool's. */
    predicate Idle(c: Conn, any: bool)
      requires c.id in status
      reads this
    {
      !status[c.id].InUse() && (any ==> !status[c.id].close && !c.connectOnly)
    }

    ghost predicate Known(cs: seq<Conn>)
      reads this
    {
      forall c :: c in cs ==> c.id in status
    }

    /** Looks through a list for the connection that has been idle longest. */
    method Scan(cs: seq<Conn>, any: bool, now: int, best: Option<Conn>, high: int)
      returns (best': Option<Conn>, high': int)
      requires Known(cs)
      ensures high <= high' && (high == high' ==> best' == best)
      ensures high < high' ==>
        && best'.Some? && best'.value in cs && Idle(best'.value, any)
        && now - status[best'.value.id].lastUsed == high'
      ensures forall c :: c in cs && Idle(c, any) ==> now - status[c.id].lastUsed <= high'
    {
      best', high' := best, high;
      for i := 0 to |cs|
        invariant high <= high' && (high == high' ==> best' == best)
        invariant high < high' ==>
          && best'.Some? && best'.value in cs && Idle(best'.value, any)
          && now - status[best'.value.id].lastUsed == high'
        invariant forall k :: 0 <= k < i && Idle(cs[k], any) ==> now - status[cs[k].id].lastUsed <= high'
      {
        if Idle(cs[i], any) && now - status[cs[i].id].lastUsed > high' {
          best', high' := Some(cs[i]), now - status[cs[i].id].lastUsed;
        }
      }
    }

    /** What a search for the oldest idle connection among `cs` finds. */
    ghost predicate Oldest(r: Option<Conn>, cs: seq<Conn>, any: bool, now: int)
      requires Known(cs)
      reads this
    {
      match r
      case Some(c) =>
        && c in cs && Idle(c, any) && status[c.id].lastUsed <= now
        && forall d :: d in cs && Idle(d, any) ==> status[c.id].lastUsed <= status[d.id].lastUsed
      case None =>
        forall d :: d in cs && Idle(d, any) ==> now < status[d.id].lastUsed
    }

    /** The connection of one bundle that has been idle longest. */
    method OldestInBundle(i: nat, now: int) returns (r: Option<Conn>)
      requires i < |bundles| && Known(bundles[i].conns)
      ensures Oldest(r, bundles[i].conns, false, now)
    {
      var high;
      r, high := Scan(bundles[i].conns, false, now, None, -1);
    }

    /** The connection of all bundles that has been idle longest. */
    method OldestInPool(now: int) returns (r: Option<Conn>)
      requires Known(Pooled())
      ensures Oldest(r, Pooled(), true, now)
    {
      var high := -1;
      r := None;
      for i := 0 to |bundles|
        invariant -1 <= high && (high == -1 ==> r == None)
        invariant high > -1 ==>
          && r.Some? && r.value in Pooled() && Idle(r.value, true)
          && now - status[r.value.id].lastUsed == high
        invariant forall c :: c in Flat(bundles[..i]) && c in Pooled() && Idle(c, true) ==>
          now - status[c.id].lastUsed <= high
      {
        FlatAround(bundles, i);
        assert bundles[..i + 1] == bundles[..i] + [bundles[i]];
        FlatConcat(bundles[..i], [bundles[i]]);
        r, high := Scan(bundles[i].conns, true, now, r, high);
      }
      assert bundles[..|bundles|] == bundles;
    }

    /** Where all connections are now. */
    ghost function State(): Ledger
      reads this
    {
      Ledger(added, status, Pooled(), shutdown, freed)
    }

    /** Connections in use stay in the pool, and no destination gets more connections. */
    twostate predicate Eased()
      reads this
    {
      EasedTo(old(State()), State())
    }

    lemma {:induction false} AllKnown(hand: seq<Conn>)
      requires Books(hand)
      ensures Known(Pooled())
    {
      forall c | c in Pooled() ensures c.id in status {
        Member(Pooled(), c);
      }
    }

    method CloseOldest(dest: Option<string>) returns (b: bool)
      requires Valid()
      modifies this`shutdown, this`freed
      ensures Valid() && Eased()
      ensures b ==> |shutdown| == old(|shutdown|) - 1
      ensures b && dest.Some? ==> Closing(dest.value) == old(Closing(dest.value)) - 1
      ensures !b ==>
        && shutdown == old(shutdown) && freed == old(freed) && (dest.None? ==> shutdown == [])
        && (dest.Some? ==> Closing(dest.value) == 0)
    {
      ghost var i, before := 0, State();
      b, i := DestroyOldest(dest, []);
      forall d ensures State().To(d) <= before.To(d) {
        assert Closing(d) <= old(Closing(d));
      }
    }

    /** Nothing has been closed. */
    twostate predicate Untouched()
      reads this
    {
      && bundles == old(bundles) && numConn == old(numConn) && status == old(status)
      && shutdown == old(shutdown) && freed == old(freed)
    }

    /** The oldest one of the bundle is the oldest one to its destination. */
    lemma {:induction false} OldestIsElder(i: nat, c: Conn, now: int)
      requires Valid() && i < |bundles| && Known(bundles[i].conns) && Find(bundles, bundles[i].dest) == i
      requires Oldest(Some(c), bundles[i].conns, false, now)
      ensures c in Pooled() && Elder(status, c, Pooled(), Some(bundles[i].dest), now)
    {
      var dest := bundles[i].dest;
      OnlyOwn(dest);
      forall d | Occurs(Pooled(), d) > 0 && Candidate(status, d, Some(dest))
        ensures status[c.id].lastUsed <= status[d.id].lastUsed
      {
        Member(Pooled(), d);
        assert d in bundles[i].conns && Idle(d, false);
      }
    }

    lemma {:induction false} OldestIsElderOfAll(c: Conn, now: int)
      requires Valid() && Known(Pooled()) && Oldest(Some(c), Pooled(), true, now)
      ensures Elder(status, c, Pooled(), None, now)
    {
      forall d | Occurs(Pooled(), d) > 0 && Candidate(status, d, None)
        ensures status[c.id].lastUsed <= status[d.id].lastUsed
      {
        Member(Pooled(), d);
        assert Idle(d, true);
      }
    }

    /** Evicts the connection to the destination that has been idle longest, if there is one. */
    method EvictTo(dest: string, now: int) returns (r: Option<Conn>)
      requires Valid()
      modifies this`bundles, this`numConn, this`status, this`shutdown, this`freed
      ensures Valid() && Eased()
      ensures r.Some? ==>
        && numConn == old(numConn) - 1 && OneMore(Pooled(), old(Pooled()), r.value)
        && Elder(old(status), r.value, old(Pooled()), Some(dest), now)
        && Live(dest) == old(Live(dest)) - 1
      ensures r.None? ==> Untouched() && Known(Pooled()) && NoneIdle(dest, now)
    {
      AllKnown([]);
      r := None;
      var i := Find(bundles, dest);
      OnlyOwn(dest);
      if i < |bundles| {
        r := OldestInBundle(i, now);
        if r.Some? {
          OldestIsElder(i, r.value, now);
          Evict(r.value);
        }
      }
    }

    /** The connections to `dest` are those of its bundle. */
    lemma {:induction false} OnlyOwn(dest: string)
      requires Valid()
      ensures var i := Find(bundles, dest);
        && (forall c :: c in Pooled() && c.destination == dest ==> i < |bundles| && c in bundles[i].conns)
        && (i < |bundles| ==> forall c :: c in bundles[i].conns ==> c in Pooled())
    {
      forall c | c in Pooled() && c.destination == dest
        ensures Find(bundles, dest) < |bundles| && c in bundles[Find(bundles, dest)].conns
      {
        InOwnBundle(bundles, c);
      }
      if Find(bundles, dest) < |bundles| {
        FlatAround(bundles, Find(bundles, dest));
      }
    }

    /**
     * How far making room has come, from the connections that were pooled and in shutdown: those
     * evicted went in turn, and only after all in shutdown had been closed.
     */
    ghost predicate Easing(was: seq<Conn>, st: map<nat, Status>, closing: seq<Conn>, dest: Option<string>, now: int)
      reads this
    {
      && Fewer(Pooled(), was) && SameUses(st, status)
      && InTurn(st, was, Pooled(), dest, now)
      && (SomeGone(was, Pooled()) ==> AllFreed(closing, freed, dest))
      && (forall c :: Occurs(was, c) > 0 ==> c.id in st)
      && (forall c :: Occurs(closing, c) > 0 ==> c in added && Occurs(was, c) == 0)
    }

    lemma {:induction false} StartsEasing(dest: Option<string>, now: int)
      requires Valid()
      ensures Easing(Pooled(), status, shutdown, dest, now)
    {
    }

    /** What was being shut down, and is not any more, has been freed. */
    lemma {:induction false} FreedByNow(was: seq<Conn>, st: map<nat, Status>, closing: seq<Conn>, dest: Option<string>,
      now: int)
      requires Valid() && Easing(was, st, closing, dest, now)
      requires if dest.Some? then Closing(dest.value) == 0 else shutdown == []
      ensures AllFreed(closing, freed, dest)
    {
      forall c | Occurs(closing, c) > 0 && (dest.Some? ==> c.destination == dest.value) ensures Occurs(freed, c) > 0 {
        if dest.Some? {
          NoneTo(shutdown, dest.value, c);
        }
        assert Occurs(Pooled(), c) <= Occurs(was, c);
      }
    }

    /** The first loop of `CheckLimits`: makes room for one more connection to `dest`, if there is none. */
    method EaseDest(dest: string, now: int) returns (ok: bool)
      requires Valid()
      modifies this`bundles, this`numConn, this`status, this`shutdown, this`freed
      ensures Valid() && Eased()
      ensures ok <==> Live(dest) + Closing(dest) < maxHost
      ensures !ok ==> Closing(dest) == 0 && Known(Pooled()) && NoneIdle(dest, now)
      ensures if old(Live(dest) + Closing(dest)) < maxHost then Untouched()
              else ok ==> Live(dest) + Closing(dest) == maxHost - 1
      ensures Easing(old(Pooled()), old(status), old(shutdown), Some(dest), now)
    {
      StartsEasing(Some(dest), now);
      ok := HasRoom(dest);
      if !ok {
        ok := EaseDestFull(dest, now);
      }
    }

    /** Closes connections until there is room, or nothing more can be closed. */
    method EaseDestFull(dest: string, now: int) returns (ok: bool)
      requires Valid() && Live(dest) + Closing(dest) >= maxHost
      modifies this`bundles, this`numConn, this`status, this`shutdown, this`freed
      ensures Valid() && Eased() && (ok <==> Live(dest) + Closing(dest) < maxHost)
      ensures ok ==> Live(dest) + Closing(dest) == maxHost - 1
      ensures !ok ==> Closing(dest) == 0 && Known(Pooled()) && NoneIdle(dest, now)
      ensures Easing(old(Pooled()), old(status), old(shutdown), Some(dest), now)
    {
      ghost var was, st, closing, start := Pooled(), status, shutdown, State();
      var more := true;
      ok := false;
      StartsEasing(Some(dest), now);
      while !ok && more
        invariant Valid() && Eased() && (ok <==> Live(dest) + Closing(dest) < maxHost)
        invariant !more ==> Closing(dest) == 0 && Known(Pooled()) && NoneIdle(dest, now)
        invariant ok ==> Live(dest) + Closing(dest) == maxHost - 1
        invariant Easing(was, st, closing, Some(dest), now)
        decreases numConn, |shutdown|, more
      {
        ghost var before := State();
        ok, more := EaseDestRound(dest, now, was, st, closing);
        EasedOn(start, before, State());
      }
    }

    /** One round of making room for `dest`; nothing is evicted while a connection to it is in shutdown. */
    method EaseDestRound(dest: string, now: int, ghost was: seq<Conn>, ghost st: map<nat, Status>,
      ghost closing: seq<Conn>) returns (ok: bool, more: bool)
      requires Valid() && Live(dest) + Closing(dest) >= maxHost && Easing(was, st, closing, Some(dest), now)
      modifies this`bundles, this`numConn, this`status, this`shutdown, this`freed
      ensures Valid() && Eased() && (ok <==> Live(dest) + Closing(dest) < maxHost)
      ensures more ==>
        numConn < old(numConn) || (numConn == old(numConn) && |shutdown| < old(|shutdown|))
      ensures !more ==>
        && numConn == old(numConn) && |shutdown| == old(|shutdown|)
        && Closing(dest) == 0 && Known(Pooled()) && NoneIdle(dest, now)
      ensures ok ==> Live(dest) + Closing(dest) == maxHost - 1
      ensures Easing(was, st, closing, Some(dest), now)
    {
      var n := CountClosing(dest);
      if n > 0 {
        CloseRound(dest, now, was, st, closing);
        more := true;
      } else {
        more := EvictRound(dest, now, was, st, closing);
      }
      ok := HasRoom(dest);
    }

    /** Closes the oldest connection to `dest` in shutdown. */
    method CloseRound(dest: string, now: int, ghost was: seq<Conn>, ghost st: map<nat, Status>,
      ghost closing: seq<Conn>)
      requires Valid() && Closing(dest) > 0 && Easing(was, st, closing, Some(dest), now)
      modifies this`shutdown, this`freed
      ensures Valid() && Eased() && |shutdown| == old(|shutdown|) - 1
      ensures Live(dest) + Closing(dest) == old(Live(dest) + Closing(dest)) - 1
      ensures Easing(was, st, closing, Some(dest), now)
    {
      ghost var left, before, freedBefore := Pooled(), status, freed;
      var closed := CloseOldest(Some(dest));
      EasesOn(was, st, closing, left, before, freedBefore, None, Some(dest), now);
    }

    /** Evicts the connection to `dest` that has been idle longest; false if there is none. */
    method EvictRound(dest: string, now: int, ghost was: seq<Conn>, ghost st: map<nat, Status>,
      ghost closing: seq<Conn>) returns (more: bool)
      requires Valid() && Closing(dest) == 0 && Easing(was, st, closing, Some(dest), now)
      modifies this`bundles, this`numConn, this`status, this`shutdown, this`freed
      ensures Valid() && Eased() && Easing(was, st, closing, Some(dest), now)
      ensures more ==>
        numConn < old(numConn) && Live(dest) + Closing(dest) >= old(Live(dest) + Closing(dest)) - 1
      ensures !more ==> Untouched() && Known(Pooled()) && NoneIdle(dest, now)
    {
      ghost var left, before, freedBefore := Pooled(), status, freed;
      FreedByNow(was, st, closing, Some(dest), now);
      var r := EvictTo(dest, now);
      more := r.Some?;
      EasesOn(was, st, closing, left, before, freedBefore, r, Some(dest), now);
    }

    /** One round more of making room. */
    lemma {:induction false} EasesOn(was: seq<Conn>, st: map<nat, Status>, closing: seq<Conn>, left: seq<Conn>,
      before: map<nat, Status>, freedBefore: seq<Conn>, gone: Option<Conn>, dest: Option<string>, now: int)
      requires Valid() && Fewer(left, was) && SameUses(st, before) && InTurn(st, was, left, dest, now)
      requires SomeGone(was, left) || gone.Some? ==> AllFreed(closing, freedBefore, dest)
      requires freedBefore <= freed && SameUses(before, status)
      requires forall c :: Occurs(was, c) > 0 ==> c.id in st
      requires forall c :: Occurs(closing, c) > 0 ==> c in added && Occurs(was, c) == 0
      requires gone.None? ==> Pooled() == left
      requires gone.Some? ==> OneMore(Pooled(), left, gone.value) && Elder(before, gone.value, left, dest, now)
      ensures Easing(was, st, closing, dest, now)
    {
      if SomeGone(was, left) || gone.Some? {
        StillFreed(closing, freedBefore, freed, dest);
      }
      TurnOn(st, before, was, left, gone, Pooled(), dest, now);
    }

    method HasRoom(dest: string) returns (b: bool)
      requires Valid()
      ensures b <==> Live(dest) + Closing(dest) < maxHost
    {
      LiveCount(bundles, dest);
      var i := Find(bundles, dest);
      var live := if i < |bundles| then |bundles[i].conns| else 0;
      var closing := CountClosing(dest);
      b := live + closing < maxHost;
    }

    ghost predicate NoneIdle(dest: string, now: int)
      requires Known(Pooled())
      reads this
    {
      forall c :: c in Pooled() && c.destination == dest && Idle(c, false) ==>
        now < status[c.id].lastUsed
    }

    method CountClosing(dest: string) returns (n: nat)
      ensures n == Closing(dest)
    {
      n := 0;
      for i := 0 to |shutdown|
        invariant n + CountDest(shutdown[i..], dest) == Closing(dest)
      {
        assert shutdown[i..][1..] == shutdown[i + 1..];
        if shutdown[i].destination == dest {
          n := n + 1;
        }
      }
    }

    /** No connection of the pool may be evicted at time `now`. */
    ghost predicate NoneEvictable(now: int)
      requires Known(Pooled())
      reads this
    {
      forall c :: c in Pooled() && Idle(c, true) ==> now < status[c.id].lastUsed
    }

    /** Evicts the connection that has been idle longest, if there is one. */
    method EvictAny(now: int) returns (r: Option<Conn>)
      requires Valid()
      modifies this`bundles, this`numConn, this`status, this`shutdown, this`freed
      ensures Valid() && Eased()
      ensures r.Some? ==>
        && numConn == old(numConn) - 1 && OneMore(Pooled(), old(Pooled()), r.value)
        && Elder(old(status), r.value, old(Pooled()), None, now)
      ensures r.None? ==> Untouched() && Known(Pooled()) && NoneEvictable(now)
    {
      AllKnown([]);
      r := OldestInPool(now);
      if r.Some? {
        OldestIsElderOfAll(r.value, now);
        Evict(r.value);
      }
    }

    /** The second loop of `CheckLimits`: makes room for one more connection to anywhere, if there is none. */
    method EaseTotal(now: int) returns (ok: bool)
      requires Valid()
      modifies this`bundles, this`numConn, this`status, this`shutdown, this`freed
      ensures Valid() && Eased()
      ensures ok <==> numConn + |shutdown| < maxTotal
      ensures !ok ==> shutdown == [] && Known(Pooled()) && NoneEvictable(now)
      ensures if old(numConn + |shutdown|) < maxTotal then Untouched()
              else ok ==> numConn + |shutdown| == maxTotal - 1
      ensures Easing(old(Pooled()), old(status), old(shutdown), None, now)
    {
      StartsEasing(None, now);
      ok := numConn + |shutdown| < maxTotal;
      if !ok {
        ok := EaseTotalFull(now);
      }
    }

    /** Closes connections until there is room, or nothing more can be closed. */
    method EaseTotalFull(now: int) returns (ok: bool)
      requires Valid() && numConn + |shutdown| >= maxTotal
      modifies this`bundles, this`numConn, this`status, this`shutdown, this`freed
      ensures Valid() && Eased() && (ok <==> numConn + |shutdown| < maxTotal)
      ensures ok ==> numConn + |shutdown| == maxTotal - 1
      ensures !ok ==> shutdown == [] && Known(Pooled()) && NoneEvictable(now)
      ensures Easing(old(Pooled()), old(status), old(shutdown), None, now)
    {
      ghost var was, st, closing, start := Pooled(), status, shutdown, State();
      StartsEasing(None, now);
      while numConn + |shutdown| >= maxTotal
        invariant Valid() && Eased() && numConn + |shutdown| >= maxTotal - 1
        invariant Easing(was, st, closing, None, now)
        decreases numConn, |shutdown|
      {
        ghost var before := State();
        var more := EaseTotalRound(now, was, st, closing);
        EasedOn(start, before, State());
        if !more {
          return false;
        }
      }
      ok := true;
    }

    /** One round of making room in total; nothing is evicted while a connection is in shutdown. */
    method EaseTotalRound(now: int, ghost was: seq<Conn>, ghost st: map<nat, Status>, ghost closing: seq<Conn>)
      returns (more: bool)
      requires Valid() && Easing(was, st, closing, None, now)
      modifies this`bundles, this`numConn, this`status, this`shutdown, this`freed
      ensures Valid() && Eased() && Easing(was, st, closing, None, now)
      ensures more ==>
        && (numConn < old(numConn) || (numConn == old(numConn) && |shutdown| < old(|shutdown|)))
        && numConn + |shutdown| >= old(numConn + |shutdown|) - 1
      ensures !more ==> Untouched() && shutdown == [] && Known(Pooled()) && NoneEvictable(now)
    {
      ghost var left, before, freedBefore := Pooled(), status, freed;
      if shutdown != [] {
        more := CloseOldest(None);
        EasesOn(was, st, closing, left, before, freedBefore, None, None, now);
        return;
      }
      FreedByNow(was, st, closing, None, now);
      var r := EvictAny(now);
      more := r.Some?;
      EasesOn(was, st, closing, left, before, freedBefore, r, None, now);
    }

    /** Not even one connection more was closed than was needed. */
    ghost predicate JustRoomFor(dest: string)
      reads this
    {
      || (0 < maxHost && Live(dest) + Closing(dest) == maxHost - 1)
      || (0 < maxTotal && numConn + |shutdown| == maxTotal - 1)
    }

    /** The part of `CheckLimits` that is about the destination. */
    method RoomAtDest(dest: string, now: int) returns (ok: bool)
      requires Valid()
      modifies this`bundles, this`numConn, this`status, this`shutdown, this`freed
      ensures Valid() && Eased() && (ok <==> DestRoom(dest))
      ensures !ok ==> Closing(dest) == 0 && Known(Pooled()) && NoneIdle(dest, now)
      ensures if old(DestRoom(dest)) then Untouched() else ok ==> Live(dest) + Closing(dest) == maxHost - 1
      ensures Easing(old(Pooled()), old(status), old(shutdown), Some(dest), now)
    {
      StartsEasing(Some(dest), now);
      ok := true;
      if maxHost > 0 {
        ok := EaseDest(dest, now);
      }
    }

    /** The part that is about the total, after the one about the destination. */
    method RoomInTotal(dest: string, now: int, ghost was: seq<Conn>, ghost st: map<nat, Status>,
      ghost closing: seq<Conn>) returns (ok: bool)
      requires Valid() && Easing(was, st, closing, Some(dest), now)
      modifies this`bundles, this`numConn, this`status, this`shutdown, this`freed
      ensures Valid() && Eased() && (ok <==> TotalRoom())
      ensures !ok ==> shutdown == [] && Known(Pooled()) && NoneEvictable(now)
      ensures if old(TotalRoom()) then Untouched() else ok ==> numConn + |shutdown| == maxTotal - 1
      ensures AllDue(was, st, closing, dest, now)
    {
      StartsEasing(None, now);
      FreedOrClosing(was, st, closing, dest, now);
      ghost var mid, stMid, closingMid, freedMid := Pooled(), status, shutdown, freed;
      ok := true;
      if maxTotal > 0 {
        ok := EaseTotal(now);
      }
      EvictedInTurn(was, st, closing, mid, stMid, closingMid, freedMid, dest, now);
    }

    ghost predicate DestRoom(dest: string)
      reads this
    {
      maxHost == 0 || Live(dest) + Closing(dest) < maxHost
    }

    ghost predicate TotalRoom()
      reads this
    {
      maxTotal == 0 || numConn + |shutdown| < maxTotal
    }

    /** Each connection that is gone was evicted when it was its turn. */
    ghost predicate AllDue(was: seq<Conn>, st: map<nat, Status>, closing: seq<Conn>, dest: string, now: int)
      reads this
    {
      forall c :: Occurs(was, c) > 0 && Occurs(Pooled(), c) == 0 ==> Due(st, closing, c, Pooled(), freed, dest, now)
    }

    /**
     * Makes room for one more connection to `dest`, by closing connections in shutdown and then
     * idle ones. Nothing is closed if there is room, and no more than needed if there is none. What is
     * evicted is each time the connection that has been idle longest, and only after those in shutdown
     * have been closed. On success both limits leave room; otherwise there was nothing left to close.
     */
    method CheckLimits(dest: string, now: int) returns (r: Limit)
      requires Valid()
      modifies this`bundles, this`numConn, this`status, this`shutdown, this`freed
      ensures Valid() && Eased()
      ensures old(DestRoom(dest) && TotalRoom()) ==> r == LimitOk && Untouched()
      ensures r == LimitOk ==> DestRoom(dest) && TotalRoom()
      ensures r == LimitOk && !old(DestRoom(dest) && TotalRoom()) ==> JustRoomFor(dest)
      ensures r == LimitDest ==>
        && 0 < maxHost <= Live(dest)
        && Closing(dest) == 0 && Known(Pooled()) && NoneIdle(dest, now)
      ensures r == LimitTotal ==>
        0 < maxTotal <= numConn && shutdown == [] && Known(Pooled()) && NoneEvictable(now)
      ensures AllDue(old(Pooled()), old(status), old(shutdown), dest, now)
    {
      ghost var was, st, closing, start := Pooled(), status, shutdown, State();
      var ok := RoomAtDest(dest, now);
      if !ok {
        DueAtDest(was, st, closing, dest, now);
        return LimitDest;
      }
      ghost var mid, room, n := State(), TotalRoom(), Live(dest) + Closing(dest);
      ok := RoomInTotal(dest, now, was, st, closing);
      EasedOn(start, mid, State());
      assert State().To(dest) == Live(dest) + Closing(dest) <= n && (room ==> Live(dest) + Closing(dest) == n);
      r := if ok then LimitOk else LimitTotal;
    }

    lemma {:induction false} DueAtDest(was: seq<Conn>, st: map<nat, Status>, closing: seq<Conn>, dest: string, now: int)
      requires Easing(was, st, closing, Some(dest), now)
      ensures AllDue(was, st, closing, dest, now)
    {
    }

    /** Those gone in the first loop or in the second. */
    lemma {:induction false} EvictedInTurn(was: seq<Conn>, st: map<nat, Status>, closing: seq<Conn>, mid: seq<Conn>,
      stMid: map<nat, Status>, closingMid: seq<Conn>, freedMid: seq<Conn>, dest: string, now: int)
      requires Easing(mid, stMid, closingMid, None, now) && freedMid <= freed
      requires Fewer(mid, was) && SameUses(st, stMid) && InTurn(st, was, mid, Some(dest), now)
      requires SomeGone(was, mid) ==> AllFreed(closing, freedMid, Some(dest))
      requires forall c :: Occurs(was, c) > 0 ==> c.id in st
      requires forall c :: Occurs(closing, c) > 0 ==> Occurs(freedMid, c) > 0 || Occurs(closingMid, c) > 0
      ensures AllDue(was, st, closing, dest, now)
    {
      var left := Pooled();
      forall c | Occurs(was, c) > 0 && Occurs(left, c) == 0 ensures Due(st, closing, c, left, freed, dest, now) {
        if Occurs(mid, c) == 0 {
          ElderStays(st, c, mid, left, Some(dest), now);
          StillFreed(closing, freedMid, freed, Some(dest));
        } else {
          SameElder(st, stMid, c, left, None, now);
          FreedLater(closing, freedMid, closingMid, freed);
        }
      }
    }

    /** What was in shutdown still is, or has been freed. */
    lemma {:induction false} FreedOrClosing(was: seq<Conn>, st: map<nat, Status>, closing: seq<Conn>, dest: string,
      now: int)
      requires Valid() && Easing(was, st, closing, Some(dest), now)
      ensures forall c :: Occurs(closing, c) > 0 ==> Occurs(freed, c) > 0 || Occurs(shutdown, c) > 0
    {
      forall c | Occurs(closing, c) > 0 ensures Occurs(freed, c) > 0 || Occurs(shutdown, c) > 0 {
        assert Occurs(Pooled(), c) <= Occurs(was, c);
      }
    }

    /** A pooled connection became idle; closes the oldest idle one if the pool is too full. */
    method NowIdle(c: Conn, maxConnects: nat, now: int) returns (kept: bool)
      requires Valid() && c in Pooled()
      modifies this`bundles, this`numConn, this`status, this`shutdown, this`freed
      ensures Valid() && added == old(added)
      ensures kept <==> c in Pooled()
      ensures numConn == old(numConn) || (0 < maxConnects < old(numConn) == numConn + 1)
      ensures c.id in old(status) && forall d :: d in old(Pooled()) && d !in Pooled() ==>
        Elder(old(status)[c.id := old(status)[c.id].(lastUsed := now)], d, old(Pooled()), None, now)
      ensures numConn == old(numConn) && 0 < maxConnects < numConn ==> Known(Pooled()) && NoneEvictable(now)
    {
      Touch(c, now);
      kept := true;
      if 0 < maxConnects < numConn {
        var oldest := CloseOldestIdle(now);
        kept := oldest != Some(c);
      }
    }

    /** Notes when a connection was last used. */
    method Touch(c: Conn, now: int)
      requires Valid() && c in Pooled()
      modifies this`status
      ensures Valid() && c.id in old(status)
      ensures status == old(status)[c.id := old(status)[c.id].(lastUsed := now)]
    {
      Member(Pooled(), c);
      status := status[c.id := status[c.id].(lastUsed := now)];
    }

    /** Evicts the connection that has been idle longest, if there is one. */
    method CloseOldestIdle(now: int) returns (r: Option<Conn>)
      requires Valid()
      modifies this`bundles, this`numConn, this`status, this`shutdown, this`freed
      ensures Valid() && added == old(added)
      ensures r.None? ==> Untouched() && Known(Pooled()) && NoneEvictable(now)
      ensures r.Some? ==>
        && numConn == old(numConn) - 1 && r.value !in Pooled()
        && Elder(old(status), r.value, old(Pooled()), None, now)
        && forall d :: d in old(Pooled()) && d != r.value ==> d in Pooled()
    {
      ghost var before := Pooled();
      r := EvictAny(now);
      if r.Some? {
        OnlyThatOne(before, Pooled(), r.value);
      }
    }

    /** Only one connection left the pool. */
    lemma {:induction false} OnlyThatOne(before: seq<Conn>, after: seq<Conn>, c: Conn)
      requires OneMore(after, before, c) && Occurs(before, c) <= 1
      ensures c !in after && forall d :: d in before && d != c ==> d in after
    {
      Member(after, c);
      forall d | d in before && d != c ensures d in after {
        Member(before, d);
        Member(after, d);
      }
    }

    ghost predicate Stale(cs: seq<Conn>)
      reads this
    {
      forall c :: c in cs ==> c.id in status && status[c.id].noReuse
    }

    /** Some connections were marked as not to be reused, and nothing else changed. */
    twostate predicate Marked()
      reads this
    {
      && status.Keys == old(status).Keys
      && forall id :: id in status ==>
           && status[id] == old(status)[id].(noReuse := status[id].noReuse)
           && (old(status)[id].noReuse ==> status[id].noReuse)
    }

    method MarkList(cs: seq<Conn>)
      requires Known(cs)
      modifies this`status
      ensures Marked() && Stale(cs)
    {
      for k := 0 to |cs|
        invariant Marked() && Stale(cs[..k])
      {
        status := status[cs[k].id := status[cs[k].id].(noReuse := true)];
        assert cs[..k + 1] == cs[..k] + [cs[k]];
      }
      assert cs[..|cs|] == cs;
    }

    /** Marks every pooled connection as not to be reused. */
    method MarkStale()
      requires Valid()
      modifies this`status
      ensures Valid() && Marked() && Stale(Pooled())
    {
      AllKnown([]);
      for i := 0 to |bundles|
        invariant Marked() && Known(Pooled()) && Stale(Flat(bundles[..i]))
      {
        MarkBundle(i);
      }
      assert bundles[..|bundles|] == bundles;
    }

    method MarkBundle(i: nat)
      requires i < |bundles| && Known(Pooled()) && Stale(Flat(bundles[..i]))
      modifies this`status
      ensures Marked() && Known(Pooled()) && Stale(Flat(bundles[..i + 1]))
    {
      FlatNext(bundles, i);
      MarkList(bundles[i].conns);
    }

    predicate Reapable(c: Conn)
      requires c.id in status
      reads this
    {
      !status[c.id].InUse() && status[c.id].noReuse
    }

    method ReapableIn(cs: seq<Conn>) returns (r: Option<Conn>)
      requires Known(cs)
      ensures r.Some? ==> r.value in cs && Reapable(r.value)
      ensures r.None? ==> forall c :: c in cs ==> !Reapable(c)
    {
      for k := 0 to |cs|
        invariant forall j :: 0 <= j < k ==> !Reapable(cs[j])
      {
        if Reapable(cs[k]) {
          return Some(cs[k]);
        }
      }
      return None;
    }

    /** The first connection of the pool that is idle and not to be reused. */
    method FindReapable() returns (r: Option<Conn>)
      requires Known(Pooled())
      ensures r.Some? ==> r.value in Pooled() && Reapable(r.value)
      ensures r.None? ==> forall c :: c in Pooled() ==> !Reapable(c)
    {
      for i := 0 to |bundles|
        invariant forall c :: c in Flat(bundles[..i]) && c in Pooled() ==> !Reapable(c)
      {
        FlatNext(bundles, i);
        r := ReapableIn(bundles[i].conns);
        if r.Some? {
          return;
        }
      }
      assert bundles[..|bundles|] == bundles;
      return None;
    }

    /** Ends the first connection that is idle and not to be reused; false if there is none. */
    method ReapOne() returns (found: bool)
      requires Valid()
      modifies this`bundles, this`numConn, this`status, this`shutdown, this`freed
      ensures Valid() && Eased()
      ensures numConn == old(numConn) - if found then 1 else 0
      ensures !found ==> Known(Pooled()) && forall c :: c in Pooled() ==> !Reapable(c)
    {
      AllKnown([]);
      var r := FindReapable();
      if r.None? {
        return false;
      }
      Member(Pooled(), r.value);
      ConnTerminate(r.value, false);
      LeftEases(r.value);
      found := true;
    }

    /** The network changed: afterwards every pooled connection is in use and marked no-reuse. */
    method NwChanged()
      requires Valid()
      modifies this`bundles, this`numConn, this`status, this`shutdown, this`freed
      ensures Valid() && added == old(added)
      ensures forall c :: c in Pooled() ==>
        c.id in status && status[c.id].InUse() && status[c.id].noReuse
      ensures forall c :: c in old(Pooled()) && c.id in old(status) && old(status)[c.id].InUse() ==> c in Pooled()
    {
      MarkStale();
      ghost var before, marked := Pooled(), status;
      ReapAll();
      StayersUsed(before, marked);
      forall c | c in before && c.id in marked && marked[c.id].InUse() ensures c in Pooled() {
        Member(before, c);
        Member(Pooled(), c);
      }
    }

    /** What has not been reaped is in use. */
    lemma {:induction false} StayersUsed(before: seq<Conn>, marked: map<nat, Status>)
      requires Known(Pooled()) && (forall c :: c in Pooled() ==> !Reapable(c)) && Fewer(Pooled(), before)
      requires SameUses(marked, status) && forall c :: c in before ==> c.id in marked && marked[c.id].noReuse
      ensures forall c :: c in Pooled() ==> c.id in status && status[c.id].InUse() && status[c.id].noReuse
    {
      forall c | c in Pooled() ensures status[c.id].InUse() && status[c.id].noReuse {
        Member(Pooled(), c);
        Member(before, c);
      }
    }

    method ReapAll()
      requires Valid()
      modifies this`bundles, this`numConn, this`status, this`shutdown, this`freed
      ensures Valid() && Eased() && Known(Pooled()) && forall c :: c in Pooled() ==> !Reapable(c)
    {
      ghost var start := State();
      var found := true;
      while found
        invariant Valid() && Eased()
        invariant !found ==> Known(Pooled()) && forall c :: c in Pooled() ==> !Reapable(c)
        decreases numConn, found
      {
        ghost var before := State();
        found := ReapOne();
        EasedOn(start, before, State());
      }
    }

    /** Lets every connection in shutdown make progress and frees those that are done. */
    method Perform()
      requires Valid()
      modifies this`shutdown, this`freed
      ensures Valid() && |shutdown| <= old(|shutdown|)
      ensures forall d :: Closing(d) <= old(Closing(d))
    {
      var i := 0;
      while i < |shutdown|
        invariant Valid() && i <= |shutdown| <= old(|shutdown|)
        invariant forall d :: Closing(d) <= old(Closing(d))
        decreases |shutdown| - i
      {
        var done: bool := *;
        if done {
          var c := shutdown[i];
          TakenOut(shutdown, i);
          shutdown := shutdown[..i] + shutdown[i + 1..];
          InHand([], c);
          Terminate(c, []);
        } else {
          i := i + 1;
        }
      }
    }

    /**
     * Ends all shutdowns: gracefully in one round and as many more as the clock allows, `patience`
     * at most, then by force. Every connection ever added is then in the pool or freed.
     */
    method TerminateAll(patience: nat)
      requires Valid()
      modifies this`shutdown, this`freed
      ensures Valid() && shutdown == []
      ensures forall c :: c in added ==> Occurs(Pooled(), c) + Occurs(freed, c) == 1
    {
      var rounds := patience + 1;
      while shutdown != [] && rounds > 0
        invariant Valid()
        decreases rounds
      {
        Perform();
        rounds := rounds - 1;
      }
      while shutdown != []
        invariant Valid()
        decreases |shutdown|
      {
        var b, i := DestroyOldest(None, []);
      }
    }
  }

  lemma {:induction false} TakenOut(cs: seq<Conn>, i: nat)
    requires i < |cs|
    ensures OneMore(cs[..i] + cs[i + 1..], cs, cs[i])
  {
    var a, b := cs[..i], cs[i + 1..];
    assert cs == a + ([cs[i]] + b) && [] + b == b;
    Appended([], cs[i]);
    assert [] + [cs[i]] == [cs[i]];
    Replaced(a, [], [cs[i]], b, cs[i]);
  }

  /** The smallest of the times left that are not 0; 0 if there is none. */
  ghost predicate IsSmallestLeft(lefts: seq<int>, m: int) {
    && (m == 0 <==> forall i :: 0 <= i < |lefts| ==> lefts[i] == 0)
    && (m != 0 ==> m in lefts && forall i :: 0 <= i < |lefts| && lefts[i] != 0 ==> m <= lefts[i])
  }

  /** The delay the shutdown timer is set to, from the times left of the connections; 0 for none. */
  method NextExpire(lefts: seq<int>) returns (next: int)
    ensures next <= 0
    ensures next < 0 ==> IsSmallestLeft(lefts, next)
    ensures next == 0 <==> forall i :: 0 <= i < |lefts| ==> lefts[i] >= 0
    ensures IsSmallestLeft(lefts, next) <==>
      (exists i :: 0 <= i < |lefts| && lefts[i] < 0) ||
      (forall i :: 0 <= i < |lefts| ==> lefts[i] == 0)
  {
    next := 0;
    for i := 0 to |lefts|
      invariant next <= 0 && (next < 0 ==> next in lefts[..i])
      invariant forall k :: 0 <= k < i && lefts[k] != 0 ==> next <= lefts[k]
    {
      if lefts[i] != 0 && lefts[i] < next {
        next := lefts[i];
      }
    }
  }
}
