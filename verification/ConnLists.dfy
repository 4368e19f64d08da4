/** Connections and the lists that hold them (lib/conncache.c, lib/cshutdn.c). */
module ConnLists {
  import opened Basics

  /** A connection, told from others by its id. What changes about it is in its `Status`. */
  datatype Conn = Conn(id: nat, destination: string, connectOnly: bool)

  /** The changing bits of a connection; `users` is the number of transfers attached to it. */
  datatype Status = Status(users: nat, lastUsed: int, noReuse: bool, inPool: bool, close: bool) {
    predicate InUse() {
      users > 0
    }
  }

  /** The connections to one destination. */
  datatype Bundle = Bundle(dest: string, conns: seq<Conn>)

  /** How often `c` is in the list. */
  ghost function Occurs(cs: seq<Conn>, c: Conn): nat {
    if cs == [] then 0 else One(cs[0] == c) + Occurs(cs[1..], c)
  }

  /** How many connections of the list go to `dest`. */
  ghost function CountDest(cs: seq<Conn>, dest: string): nat {
    if cs == [] then 0 else One(cs[0].destination == dest) + CountDest(cs[1..], dest)
  }

  /** All connections of all bundles. */
  ghost function Flat(bs: seq<Bundle>): seq<Conn> {
    if bs == [] then [] else bs[0].conns + Flat(bs[1..])
  }

  lemma {:induction false} Concat(a: seq<Conn>, b: seq<Conn>, c: Conn, d: string)
    ensures Occurs(a + b, c) == Occurs(a, c) + Occurs(b, c)
    ensures CountDest(a + b, d) == CountDest(a, d) + CountDest(b, d)
  {
    if a == [] {
      assert a + b == b;
    } else {
      assert (a + b)[1..] == a[1..] + b;
      Concat(a[1..], b, c, d);
    }
  }

  lemma {:induction false} Member(cs: seq<Conn>, c: Conn)
    ensures c in cs <==> Occurs(cs, c) > 0
  {
    if cs == [] {
    } else {
      Member(cs[1..], c);
      assert cs == [cs[0]] + cs[1..];
    }
  }

  /** `b` is `a` with one occurrence of `c` more. */
  ghost predicate OneMore(a: seq<Conn>, b: seq<Conn>, c: Conn) {
    && |b| == |a| + 1
    && (forall x :: Occurs(b, x) == Occurs(a, x) + One(x == c))
    && (forall d :: CountDest(b, d) == CountDest(a, d) + One(d == c.destination))
  }

  lemma {:induction false} Appended(cs: seq<Conn>, c: Conn)
    ensures OneMore(cs, cs + [c], c)
  {
    forall x ensures Occurs(cs + [c], x) == Occurs(cs, x) + One(x == c) {
      Concat(cs, [c], x, "");
    }
    forall d ensures CountDest(cs + [c], d) == CountDest(cs, d) + One(d == c.destination) {
      Concat(cs, [c], c, d);
    }
  }

  /** One connection more in the middle of a list is one more in the whole. */
  lemma {:induction false} Replaced(a: seq<Conn>, rest: seq<Conn>, cs: seq<Conn>, b: seq<Conn>, c: Conn)
    requires OneMore(rest, cs, c)
    ensures OneMore(a + (rest + b), a + (cs + b), c)
  {
    forall x ensures Occurs(a + (cs + b), x) == Occurs(a + (rest + b), x) + One(x == c) {
      Concat(a, cs + b, x, "");
      Concat(cs, b, x, "");
      Concat(a, rest + b, x, "");
      Concat(rest, b, x, "");
    }
    forall d
      ensures CountDest(a + (cs + b), d) == CountDest(a + (rest + b), d) + One(d == c.destination)
    {
      Concat(a, cs + b, c, d);
      Concat(cs, b, c, d);
      Concat(a, rest + b, c, d);
      Concat(rest, b, c, d);
    }
  }

  lemma {:induction false} FlatConcat(a: seq<Bundle>, b: seq<Bundle>)
    ensures Flat(a + b) == Flat(a) + Flat(b)
  {
    if a == [] {
      assert a + b == b;
    } else {
      assert (a + b)[1..] == a[1..] + b;
      FlatConcat(a[1..], b);
    }
  }

  /** The connections of the first bundles, and of one more. */
  lemma {:induction false} FlatNext(bs: seq<Bundle>, i: nat)
    requires i < |bs|
    ensures Flat(bs[..i + 1]) == Flat(bs[..i]) + bs[i].conns
    ensures forall c :: c in bs[i].conns ==> c in Flat(bs)
  {
    assert bs[..i + 1] == bs[..i] + [bs[i]];
    FlatConcat(bs[..i], [bs[i]]);
    assert [bs[i]][1..] == [];
    FlatAround(bs, i);
  }

  /** Destinations are distinct, no bundle is empty, and each holds its own destination only. */
  ghost predicate Keyed(bs: seq<Bundle>) {
    && (forall i, j :: 0 <= i < j < |bs| ==> bs[i].dest != bs[j].dest)
    && (forall i :: 0 <= i < |bs| ==> bs[i].conns != [])
    && (forall i, c :: 0 <= i < |bs| && c in bs[i].conns ==> c.destination == bs[i].dest)
  }

  /** The place of the bundle for `dest`, or the number of bundles if there is none. */
  function Find(bs: seq<Bundle>, dest: string): (i: nat)
    ensures i <= |bs| && (i < |bs| ==> bs[i].dest == dest)
    ensures forall j :: 0 <= j < i ==> bs[j].dest != dest
  {
    if bs == [] || bs[0].dest == dest then 0 else 1 + Find(bs[1..], dest)
  }

  /** The bundles with `c` added to its own one, which is created if need be. */
  function AddTo(bs: seq<Bundle>, c: Conn): seq<Bundle> {
    var i := Find(bs, c.destination);
    if i < |bs| then bs[i := Bundle(bs[i].dest, bs[i].conns + [c])]
    else bs + [Bundle(c.destination, [c])]
  }

  /** The connections of all bundles, seen around bundle `i`. */
  lemma {:induction false} FlatAround(bs: seq<Bundle>, i: nat)
    requires i < |bs|
    ensures Flat(bs) == Flat(bs[..i]) + (bs[i].conns + Flat(bs[i + 1..]))
  {
    assert bs == bs[..i] + bs[i..] && bs[i..][1..] == bs[i + 1..];
    FlatConcat(bs[..i], bs[i..]);
  }

  lemma {:induction false} AddToAdds(bs: seq<Bundle>, c: Conn)
    requires Keyed(bs)
    ensures Keyed(AddTo(bs, c)) && OneMore(Flat(bs), Flat(AddTo(bs, c)), c)
  {
    var i := Find(bs, c.destination);
    if i < |bs| {
      AddToOld(bs, i, c);
    } else {
      AddToNew(bs, c);
    }
  }

  lemma {:induction false} AddToOld(bs: seq<Bundle>, i: nat, c: Conn)
    requires Keyed(bs) && i < |bs| && bs[i].dest == c.destination
    ensures var after := bs[i := Bundle(bs[i].dest, bs[i].conns + [c])];
      Keyed(after) && OneMore(Flat(bs), Flat(after), c)
  {
    var conns := bs[i].conns + [c];
    var after := bs[i := Bundle(bs[i].dest, conns)];
    FlatAround(bs, i);
    FlatAround(after, i);
    assert after[..i] == bs[..i] && after[i + 1..] == bs[i + 1..];
    Appended(bs[i].conns, c);
    Replaced(Flat(bs[..i]), bs[i].conns, conns, Flat(bs[i + 1..]), c);
    KeyedMore(bs, i, c);
  }

  lemma {:induction false} KeyedMore(bs: seq<Bundle>, i: nat, c: Conn)
    requires Keyed(bs) && i < |bs| && bs[i].dest == c.destination
    ensures Keyed(bs[i := Bundle(bs[i].dest, bs[i].conns + [c])])
  {
  }

  lemma {:induction false} AddToNew(bs: seq<Bundle>, c: Conn)
    requires Keyed(bs) && Find(bs, c.destination) == |bs|
    ensures var after := bs + [Bundle(c.destination, [c])];
      Keyed(after) && OneMore(Flat(bs), Flat(after), c)
  {
    FlatConcat(bs, [Bundle(c.destination, [c])]);
    assert Flat([Bundle(c.destination, [c])]) == [c];
    Appended(Flat(bs), c);
  }

  /** The bundles without `c`; a bundle that is left empty is dropped. */
  function RemoveFrom(bs: seq<Bundle>, c: Conn): seq<Bundle>
  {
    var i := Find(bs, c.destination);
    if i == |bs| then bs
    else
      var rest := Remove(bs[i].conns, c);
      if rest == [] then bs[..i] + bs[i + 1..] else bs[i := Bundle(bs[i].dest, rest)]
  }

  /** The list without the first occurrence of `c`. */
  function Remove(cs: seq<Conn>, c: Conn): seq<Conn> {
    if cs == [] then [] else if cs[0] == c then cs[1..] else [cs[0]] + Remove(cs[1..], c)
  }

  lemma {:induction false} Removed(cs: seq<Conn>, c: Conn)
    requires c in cs
    ensures OneMore(Remove(cs, c), cs, c)
    ensures forall x :: x in Remove(cs, c) ==> x in cs
  {
    var r := Remove(cs, c);
    if cs[0] != c {
      Removed(cs[1..], c);
      assert r[1..] == Remove(cs[1..], c);
    }
    forall d ensures CountDest(cs, d) == CountDest(r, d) + One(d == c.destination) {
      if cs[0] != c {
        assert CountDest(cs[1..], d) == CountDest(r[1..], d) + One(d == c.destination);
      }
    }
  }

  lemma {:induction false} InFlat(bs: seq<Bundle>, c: Conn)
    ensures c in Flat(bs) <==> exists i :: 0 <= i < |bs| && c in bs[i].conns
  {
    if bs == [] {
    } else {
      InFlat(bs[1..], c);
      if i :| 0 <= i < |bs| && c in bs[i].conns {
        assert i > 0 ==> c in bs[1..][i - 1].conns;
      }
      if i :| 0 <= i < |bs[1..]| && c in bs[1..][i].conns {
        assert c in bs[i + 1].conns;
      }
    }
  }

  /** A connection that is in some bundle is in the bundle of its destination. */
  lemma {:induction false} InOwnBundle(bs: seq<Bundle>, c: Conn)
    requires Keyed(bs) && c in Flat(bs)
    ensures Find(bs, c.destination) < |bs| && c in bs[Find(bs, c.destination)].conns
  {
    InFlat(bs, c);
    var i :| 0 <= i < |bs| && c in bs[i].conns;
    assert bs[i].dest == c.destination;
  }

  lemma {:induction false} RemoveFromFlat(bs: seq<Bundle>, c: Conn)
    requires Keyed(bs) && c in Flat(bs)
    ensures OneMore(Flat(RemoveFrom(bs, c)), Flat(bs), c)
  {
    InOwnBundle(bs, c);
    var i, after := Find(bs, c.destination), RemoveFrom(bs, c);
    var a, b, cs := Flat(bs[..i]), Flat(bs[i + 1..]), bs[i].conns;
    var rest := Remove(cs, c);
    Removed(cs, c);
    FlatAround(bs, i);
    Replaced(a, rest, cs, b, c);
    if rest == [] {
      FlatConcat(bs[..i], bs[i + 1..]);
      assert rest + b == b;
    } else {
      FlatAround(after, i);
      assert after[..i] == bs[..i] && after[i + 1..] == bs[i + 1..];
    }
  }

  lemma {:induction false} RemoveFromKeyed(bs: seq<Bundle>, c: Conn)
    requires Keyed(bs) && c in Flat(bs)
    ensures Keyed(RemoveFrom(bs, c))
  {
    InOwnBundle(bs, c);
    var i := Find(bs, c.destination);
    Removed(bs[i].conns, c);
    if Remove(bs[i].conns, c) == [] {
      KeyedWithout(bs, i);
    } else {
      KeyedWith(bs, i, Remove(bs[i].conns, c));
    }
  }

  lemma {:induction false} KeyedWithout(bs: seq<Bundle>, i: nat)
    requires Keyed(bs) && i < |bs|
    ensures Keyed(bs[..i] + bs[i + 1..])
  {
  }

  lemma {:induction false} KeyedWith(bs: seq<Bundle>, i: nat, cs: seq<Conn>)
    requires Keyed(bs) && i < |bs| && cs != [] && forall c :: c in cs ==> c in bs[i].conns
    ensures Keyed(bs[i := Bundle(bs[i].dest, cs)])
  {
  }

  /** The bundle of a destination holds all connections to it. */
  lemma {:induction false} LiveCount(bs: seq<Bundle>, dest: string)
    requires Keyed(bs)
    ensures var i := Find(bs, dest);
      CountDest(Flat(bs), dest) == if i < |bs| then |bs[i].conns| else 0
  {
    if bs == [] {
    } else {
      assert Keyed(bs[1..]);
      LiveCount(bs[1..], dest);
      Concat(bs[0].conns, Flat(bs[1..]), bs[0].conns[0], dest);
      AllOrNone(bs[0].conns, bs[0].dest, dest);
      if bs[0].dest == dest {
        assert Find(bs[1..], dest) == |bs[1..]|;
      }
    }
  }

  lemma {:induction false} AllOrNone(cs: seq<Conn>, own: string, dest: string)
    requires forall c :: c in cs ==> c.destination == own
    ensures CountDest(cs, dest) == if own == dest then |cs| else 0
  {
    if cs == [] {
    } else {
      AllOrNone(cs[1..], own, dest);
    }
  }

  // ---------- What is closed to make room ----------

  /** Where all connections are. */
  datatype Ledger = Ledger(
    added: set<Conn>,
    status: map<nat, Status>,
    pooled: seq<Conn>,
    shutdown: seq<Conn>,
    freed: seq<Conn>)
  {
    /** How many go to the destination, pooled or in shutdown. */
    ghost function To(dest: string): nat {
      CountDest(pooled, dest) + CountDest(shutdown, dest)
    }
  }

  /** Connections in use stay in the pool, and no destination gets more connections. */
  ghost predicate EasedTo(a: Ledger, b: Ledger) {
    && b.added == a.added && SameUses(a.status, b.status) && a.freed <= b.freed
    && (forall d :: b.To(d) <= a.To(d))
    && |b.pooled| + |b.shutdown| <= |a.pooled| + |a.shutdown|
    && (forall c :: Occurs(a.pooled, c) > 0 && c.id in a.status && a.status[c.id].InUse() ==> Occurs(b.pooled, c) > 0)
    && Fewer(b.pooled, a.pooled)
  }

  /** An idle connection has left the pool, and at most itself joined those in shutdown. */
  lemma {:induction false} LeftIsEased(a: Ledger, b: Ledger, c: Conn)
    requires OneMore(b.pooled, a.pooled, c) && |b.shutdown| <= |a.shutdown| + 1
    requires forall d :: CountDest(b.shutdown, d) <= CountDest(a.shutdown, d) + One(d == c.destination)
    requires b.added == a.added && a.freed <= b.freed && c.id in a.status && !a.status[c.id].InUse()
    requires b.status == a.status[c.id := a.status[c.id].(inPool := false)]
    ensures EasedTo(a, b)
  {
    forall x | Occurs(a.pooled, x) > 0 && x.id in a.status && a.status[x.id].InUse() ensures Occurs(b.pooled, x) > 0 {
      assert x != c;
    }
    forall d ensures b.To(d) <= a.To(d) {
      assert CountDest(a.pooled, d) == CountDest(b.pooled, d) + One(d == c.destination);
    }
  }

  lemma {:induction false} EasedOn(a: Ledger, b: Ledger, c: Ledger)
    requires EasedTo(a, b) && EasedTo(b, c)
    ensures EasedTo(a, c)
  {
    forall d ensures c.To(d) <= a.To(d) {
      assert c.To(d) <= b.To(d);
    }
    forall x ensures Occurs(c.pooled, x) <= Occurs(a.pooled, x) {
      assert Occurs(c.pooled, x) <= Occurs(b.pooled, x);
    }
  }

  /** It may be evicted for the destination's sake, or for the pool's: then it must be fit for reuse. */
  predicate Candidate(st: map<nat, Status>, c: Conn, dest: Option<string>) {
    && c.id in st && !st[c.id].InUse()
    && match dest {
         case Some(d) => c.destination == d
         case None => !st[c.id].close && !c.connectOnly
       }
  }

  /** No other candidate among those that are left has been idle longer. */
  ghost predicate Elder(st: map<nat, Status>, c: Conn, left: seq<Conn>, dest: Option<string>, now: int) {
    && Candidate(st, c, dest) && st[c.id].lastUsed <= now
    && forall d :: Occurs(left, d) > 0 && Candidate(st, d, dest) ==> st[c.id].lastUsed <= st[d.id].lastUsed
  }

  /** Those that are gone were evicted in turn, the longest idle first. */
  ghost predicate InTurn(st: map<nat, Status>, was: seq<Conn>, left: seq<Conn>, dest: Option<string>, now: int) {
    forall c :: Occurs(was, c) > 0 && Occurs(left, c) == 0 ==> Elder(st, c, left, dest, now)
  }

  /** Some connection is gone. */
  ghost predicate SomeGone(was: seq<Conn>, left: seq<Conn>) {
    exists c :: Occurs(was, c) > 0 && Occurs(left, c) == 0
  }

  ghost predicate Fewer(left: seq<Conn>, was: seq<Conn>) {
    forall c :: Occurs(left, c) <= Occurs(was, c)
  }

  /** All that were being shut down, to the destination if one is given, have been freed. */
  ghost predicate AllFreed(closing: seq<Conn>, freed: seq<Conn>, dest: Option<string>) {
    forall c :: Occurs(closing, c) > 0 && (dest.Some? ==> c.destination == dest.value) ==> Occurs(freed, c) > 0
  }

  lemma {:induction false} ElderStays(st: map<nat, Status>, c: Conn, left: seq<Conn>, after: seq<Conn>,
    dest: Option<string>, now: int)
    requires Elder(st, c, left, dest, now) && Fewer(after, left)
    ensures Elder(st, c, after, dest, now)
  {
    forall d | Occurs(after, d) > 0 && Candidate(st, d, dest) ensures st[c.id].lastUsed <= st[d.id].lastUsed {
      assert Occurs(left, d) > 0;
    }
  }

  /** One more is gone, and it was the turn of that one. */
  lemma {:induction false} InTurnOn(st: map<nat, Status>, was: seq<Conn>, left: seq<Conn>, x: Conn, after: seq<Conn>,
    dest: Option<string>, now: int)
    requires InTurn(st, was, left, dest, now) && OneMore(after, left, x) && Elder(st, x, left, dest, now)
    ensures InTurn(st, was, after, dest, now)
  {
    forall c | Occurs(was, c) > 0 && Occurs(after, c) == 0 ensures Elder(st, c, after, dest, now) {
      if c == x {
        ElderStays(st, x, left, after, dest, now);
      } else {
        ElderStays(st, c, left, after, dest, now);
      }
    }
  }

  /** After one round of making room, `gone` being the one evicted in it, if any. */
  lemma {:induction false} TurnOn(st: map<nat, Status>, before: map<nat, Status>, was: seq<Conn>, left: seq<Conn>,
    gone: Option<Conn>, after: seq<Conn>, dest: Option<string>, now: int)
    requires Fewer(left, was) && SameUses(st, before) && InTurn(st, was, left, dest, now)
    requires forall c :: Occurs(was, c) > 0 ==> c.id in st
    requires gone.None? ==> after == left
    requires gone.Some? ==> OneMore(after, left, gone.value) && Elder(before, gone.value, left, dest, now)
    ensures Fewer(after, was) && InTurn(st, was, after, dest, now)
  {
    if gone.Some? {
      assert Occurs(left, gone.value) > 0;
      SameElder(st, before, gone.value, left, dest, now);
      InTurnOn(st, was, left, gone.value, after, dest, now);
    }
  }

  /** The statuses are those of before, but for what is in the pool and what is new. */
  ghost predicate SameUses(st: map<nat, Status>, status: map<nat, Status>) {
    forall id :: id in st ==> id in status && status[id] == st[id].(inPool := status[id].inPool)
  }

  lemma {:induction false} SameElder(st: map<nat, Status>, status: map<nat, Status>, x: Conn, left: seq<Conn>,
    dest: Option<string>, now: int)
    requires SameUses(st, status) && x.id in st && Elder(status, x, left, dest, now)
    ensures Elder(st, x, left, dest, now)
  {
    forall d | Occurs(left, d) > 0 && Candidate(st, d, dest) ensures st[x.id].lastUsed <= st[d.id].lastUsed {
      assert Candidate(status, d, dest);
    }
  }

  lemma {:induction false} StillFreed(closing: seq<Conn>, freed: seq<Conn>, more: seq<Conn>, dest: Option<string>)
    requires AllFreed(closing, freed, dest) && freed <= more
    ensures AllFreed(closing, more, dest)
  {
    assert more == freed + more[|freed|..];
    forall c | Occurs(freed, c) > 0 ensures Occurs(more, c) > 0 {
      Concat(freed, more[|freed|..], c, "");
    }
  }

  /** What was freed before, or was still in shutdown then and has been freed since. */
  lemma {:induction false} FreedLater(closing: seq<Conn>, freed: seq<Conn>, still: seq<Conn>, more: seq<Conn>)
    requires forall c :: Occurs(closing, c) > 0 ==> Occurs(freed, c) > 0 || Occurs(still, c) > 0
    requires freed <= more && AllFreed(still, more, None)
    ensures AllFreed(closing, more, None)
  {
    assert more == freed + more[|freed|..];
    forall c | Occurs(closing, c) > 0 ensures Occurs(more, c) > 0 {
      Concat(freed, more[|freed|..], c, "");
    }
  }

  lemma {:induction false} NoneTo(cs: seq<Conn>, dest: string, c: Conn)
    requires CountDest(cs, dest) == 0 && c.destination == dest
    ensures Occurs(cs, c) == 0
  {
    if cs == [] {
    } else {
      NoneTo(cs[1..], dest, c);
    }
  }

  /** It was evicted to make room for the destination, or in total, when it was its turn. */
  ghost predicate Due(st: map<nat, Status>, closing: seq<Conn>, c: Conn, left: seq<Conn>, freed: seq<Conn>,
    dest: string, now: int)
  {
    || (Elder(st, c, left, Some(dest), now) && AllFreed(closing, freed, Some(dest)))
    || (Elder(st, c, left, None, now) && AllFreed(closing, freed, None))
  }
}
