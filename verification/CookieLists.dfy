/** Cookies and lists of cookies (lib/cookie.c, lib/cookie.h). */
module CookieLists {
  import opened Basics
  import opened CookieText

  const MAX_TIME := 0x7FFF_FFFF_FFFF_FFFF

  type Time = t: int | -0x8000_0000_0000_0000 <= t <= 0x7FFF_FFFF_FFFF_FFFF

  /** A cookie. `expires` is 0 for a session cookie; `creation` is its place in the jar's history. */
  datatype Cookie = Cookie(
    name: string,
    value: string,
    path: Option<string>,
    domain: Option<string>,
    expires: Time,
    creation: nat,
    tailmatch: bool,
    secure: bool,
    live: bool,
    httpOnly: bool,
    prefixSecure: bool,    // the name begins with "__Secure-"
    prefixHost: bool)      // the name begins with "__Host-"

  predicate Expired(c: Cookie, now: int) {
    c.expires != 0 && c.expires < now
  }

  /** The list without expired cookies. */
  function Sweep(cs: seq<Cookie>, now: int): seq<Cookie> {
    if cs == [] then []
    else (if Expired(cs[0], now) then [] else [cs[0]]) + Sweep(cs[1..], now)
  }

  /** The list without session cookies. */
  function Lasting(cs: seq<Cookie>): seq<Cookie> {
    if cs == [] then []
    else (if cs[0].expires == 0 then [] else [cs[0]]) + Lasting(cs[1..])
  }

  /** Same name, domain (case aside, and matched the same way) and path. */
  predicate SameKey(a: Cookie, b: Cookie) {
    && a.name == b.name
    && (if a.domain.Some? && b.domain.Some? then
          Fold(a.domain.value) == Fold(b.domain.value) && a.tailmatch == b.tailmatch
        else a.domain.None? && b.domain.None?)
    && a.path == b.path
  }

  ghost predicate DistinctKeys(cs: seq<Cookie>) {
    forall j, k :: 0 <= j < k < |cs| ==> !SameKey(cs[j], cs[k])
  }

  /** How many cookies of the list have creation stamp `t`. */
  ghost function Stamped(cs: seq<Cookie>, t: nat): nat {
    if cs == [] then 0 else One(cs[0].creation == t) + Stamped(cs[1..], t)
  }

  /** The number of cookies in all lists. */
  ghost function Total(bs: seq<seq<Cookie>>): nat {
    if bs == [] then 0 else |bs[0]| + Total(bs[1..])
  }

  ghost function StampedIn(bs: seq<seq<Cookie>>, t: nat): nat {
    if bs == [] then 0 else Stamped(bs[0], t) + StampedIn(bs[1..], t)
  }

  lemma {:induction false} StampedConcat(a: seq<Cookie>, b: seq<Cookie>, t: nat)
    ensures Stamped(a + b, t) == Stamped(a, t) + Stamped(b, t)
  {
    if a == [] {
      assert a + b == b;
    } else {
      assert (a + b)[1..] == a[1..] + b;
      StampedConcat(a[1..], b, t);
    }
  }

  /** Changing one list changes the totals by as much. */
  lemma {:induction false} Changed(bs: seq<seq<Cookie>>, i: nat, b: seq<Cookie>, t: nat)
    requires i < |bs|
    ensures Total(bs[i := b]) == Total(bs) - |bs[i]| + |b|
    ensures StampedIn(bs[i := b], t) == StampedIn(bs, t) - Stamped(bs[i], t) + Stamped(b, t)
  {
    if i == 0 {
      assert bs[0 := b][1..] == bs[1..];
    } else {
      assert bs[i := b][1..] == bs[1..][i - 1 := b];
      Changed(bs[1..], i - 1, b, t);
    }
  }

  lemma {:induction false} StampedBound(bs: seq<seq<Cookie>>, i: nat, t: nat)
    requires i < |bs|
    ensures Stamped(bs[i], t) <= StampedIn(bs, t) && |bs[i]| <= Total(bs)
  {
    if i == 0 {
    } else {
      StampedBound(bs[1..], i - 1, t);
    }
  }

  /** `b` is part of `a`, in the same order. */
  ghost predicate Sublist(b: seq<Cookie>, a: seq<Cookie>) {
    if b == [] then true
    else a != [] && if b[0] == a[0] && Sublist(b[1..], a[1..]) then true else Sublist(b, a[1..])
  }

  /** What a part of a list inherits from it. */
  lemma {:induction false} SublistKeeps(b: seq<Cookie>, a: seq<Cookie>)
    requires Sublist(b, a)
    ensures |b| <= |a| && (forall c :: c in b ==> c in a) && (forall t: nat :: Stamped(b, t) <= Stamped(a, t))
    ensures DistinctKeys(a) ==> DistinctKeys(b)
    decreases |a|
  {
    if b == [] {
    } else {
      if b[0] == a[0] && Sublist(b[1..], a[1..]) {
        SublistKeeps(b[1..], a[1..]);
        assert a == [a[0]] + a[1..] && b == [b[0]] + b[1..];
        if DistinctKeys(a) {
          assert DistinctKeys(a[1..]);
          forall j, k | 0 <= j < k < |b| ensures !SameKey(b[j], b[k]) {
            assert b[k] == b[1..][k - 1] && b[1..][k - 1] in b[1..];
            if j > 0 {
              assert !SameKey(b[1..][j - 1], b[1..][k - 1]);
            } else {
              assert b[k] in a[1..];
              var m :| 0 <= m < |a[1..]| && a[1..][m] == b[k];
              assert !SameKey(a[0], a[m + 1]);
            }
          }
        }
      } else {
        SublistKeeps(b, a[1..]);
        assert DistinctKeys(a) ==> DistinctKeys(a[1..]);
      }
    }
  }

  lemma {:induction false} SweepIsSublist(cs: seq<Cookie>, now: int)
    ensures Sublist(Sweep(cs, now), cs)
  {
    if cs == [] {
    } else {
      SweepIsSublist(cs[1..], now);
      if Expired(cs[0], now) {
        assert Sweep(cs, now) == Sweep(cs[1..], now);
      } else {
        assert Sweep(cs, now)[1..] == Sweep(cs[1..], now);
      }
    }
  }

  lemma {:induction false} LastingIsSublist(cs: seq<Cookie>)
    ensures Sublist(Lasting(cs), cs)
  {
    if cs == [] {
    } else {
      LastingIsSublist(cs[1..]);
      if cs[0].expires == 0 {
        assert Lasting(cs) == Lasting(cs[1..]);
      } else {
        assert Lasting(cs)[1..] == Lasting(cs[1..]);
      }
    }
  }

  /** Without session cookies, exactly those that have an expiry are left. */
  lemma {:induction false} LastingLeaves(cs: seq<Cookie>, c: Cookie)
    ensures c in Lasting(cs) <==> c in cs && c.expires != 0
  {
    if cs == [] {
    } else {
      LastingLeaves(cs[1..], c);
      assert cs == [cs[0]] + cs[1..];
    }
  }

  /** Exactly the cookies that have not expired are left. */
  lemma {:induction false} SweepLeaves(cs: seq<Cookie>, now: int, c: Cookie)
    ensures c in Sweep(cs, now) <==> c in cs && !Expired(c, now)
  {
    if cs == [] {
    } else {
      SweepLeaves(cs[1..], now, c);
      assert cs == [cs[0]] + cs[1..];
    }
  }

  /** Nothing is removed if nothing has expired. */
  lemma {:induction false} SweepNothing(cs: seq<Cookie>, now: int)
    requires forall c :: c in cs ==> !Expired(c, now)
    ensures Sweep(cs, now) == cs
  {
    if cs == [] {
    } else {
      SweepNothing(cs[1..], now);
      assert cs == [cs[0]] + cs[1..];
    }
  }

  /** The list without the cookies of a given key. */
  ghost function Others(cs: seq<Cookie>, co: Cookie): seq<Cookie> {
    if cs == [] then []
    else (if SameKey(cs[0], co) then [] else [cs[0]]) + Others(cs[1..], co)
  }

  lemma {:induction false} OthersIsSublist(cs: seq<Cookie>, co: Cookie)
    ensures Sublist(Others(cs, co), cs)
  {
    if cs == [] {
    } else {
      OthersIsSublist(cs[1..], co);
      if SameKey(cs[0], co) {
        assert Others(cs, co) == Others(cs[1..], co);
      } else {
        assert Others(cs, co)[1..] == Others(cs[1..], co);
      }
    }
  }

  lemma {:induction false} OthersLeaves(cs: seq<Cookie>, co: Cookie, c: Cookie)
    ensures c in Others(cs, co) <==> c in cs && !SameKey(c, co)
  {
    if cs == [] {
    } else {
      OthersLeaves(cs[1..], co, c);
      assert cs == [cs[0]] + cs[1..];
    }
  }

  lemma {:induction false} OthersAll(cs: seq<Cookie>, co: Cookie)
    requires forall c :: c in cs ==> !SameKey(c, co)
    ensures Others(cs, co) == cs
  {
    if cs == [] {
    } else {
      OthersAll(cs[1..], co);
      assert cs == [cs[0]] + cs[1..];
    }
  }

  lemma {:induction false} DistinctRest(cs: seq<Cookie>)
    requires cs != [] && DistinctKeys(cs)
    ensures DistinctKeys(cs[1..]) && forall c :: c in cs[1..] ==> !SameKey(cs[0], c)
  {
    assert forall k :: 0 < k < |cs| ==> cs[1..][k - 1] == cs[k];
    forall c | c in cs[1..] ensures !SameKey(cs[0], c) {
      var k :| 0 <= k < |cs[1..]| && cs[1..][k] == c;
      assert !SameKey(cs[0], cs[k + 1]);
    }
  }

  lemma {:induction false} KeyJoins(a: Cookie, b: Cookie, co: Cookie)
    requires SameKey(a, co) && SameKey(b, co)
    ensures SameKey(a, b)
  {
  }

  lemma {:induction false} OthersRest(cs: seq<Cookie>, co: Cookie)
    requires cs != [] && DistinctKeys(cs) && SameKey(cs[0], co)
    ensures Others(cs, co) == cs[1..]
  {
    DistinctRest(cs);
    forall c | c in cs[1..] ensures !SameKey(c, co) {
      if SameKey(c, co) {
        KeyJoins(cs[0], c, co);
      }
    }
    OthersAll(cs[1..], co);
  }

  /** With distinct keys, leaving out the cookies of one key is removing the one that has it. */
  lemma {:induction false} OthersRemoves(cs: seq<Cookie>, co: Cookie, at: nat)
    requires at < |cs| && DistinctKeys(cs) && SameKey(cs[at], co)
    ensures Others(cs, co) == cs[..at] + cs[at + 1..]
  {
    if at == 0 {
      OthersRest(cs, co);
    } else {
      DistinctRest(cs);
      assert cs[1..][at - 1] == cs[at];
      if SameKey(cs[0], co) {
        KeyJoins(cs[0], cs[at], co);
      }
      OthersRemoves(cs[1..], co, at - 1);
      RemovedRest(cs, at);
    }
  }

  lemma {:induction false} RemovedRest(cs: seq<Cookie>, at: nat)
    requires 0 < at < |cs|
    ensures cs[..at] + cs[at + 1..] == [cs[0]] + (cs[1..][..at - 1] + cs[1..][at..])
  {
  }

  lemma {:induction false} OthersStamped(cs: seq<Cookie>, co: Cookie, at: nat, t: nat)
    requires at < |cs| && DistinctKeys(cs) && SameKey(cs[at], co)
    ensures Stamped(cs, t) == Stamped(Others(cs, co), t) + One(cs[at].creation == t)
  {
    OthersRemoves(cs, co, at);
    StampedConcat(cs[..at], cs[at + 1..], t);
    assert cs == cs[..at] + ([cs[at]] + cs[at + 1..]);
    StampedConcat(cs[..at], [cs[at]] + cs[at + 1..], t);
    assert ([cs[at]] + cs[at + 1..])[1..] == cs[at + 1..];
  }

  /** Adding a cookie to those with other keys keeps keys distinct. */
  lemma {:induction false} ReplacedDistinct(cs: seq<Cookie>, co: Cookie)
    requires DistinctKeys(cs)
    ensures DistinctKeys(Others(cs, co) + [co])
  {
    var rest := Others(cs, co);
    OthersIsSublist(cs, co);
    SublistKeeps(rest, cs);
    forall k | 0 <= k < |rest| ensures !SameKey(rest[k], co) {
      OthersLeaves(cs, co, rest[k]);
    }
  }

  lemma {:induction false} UnstampedIn(bs: seq<seq<Cookie>>, t: nat)
    requires forall i :: 0 <= i < |bs| ==> Stamped(bs[i], t) == 0
    ensures StampedIn(bs, t) == 0
  {
    if bs == [] {
    } else {
      assert forall i :: 0 <= i < |bs[1..]| ==> bs[1..][i] == bs[i + 1];
      UnstampedIn(bs[1..], t);
    }
  }

  /** The stamp of a new cookie: that of the cookie it replaces, if any. */
  ghost function StampFor(cs: seq<Cookie>, co: Cookie, next: nat): nat {
    if cs == [] then next
    else if SameKey(cs[0], co) then cs[0].creation
    else StampFor(cs[1..], co, next)
  }

  lemma {:induction false} StampForAt(cs: seq<Cookie>, co: Cookie, next: nat, at: int)
    requires -1 <= at < |cs| && DistinctKeys(cs)
    requires at >= 0 ==> SameKey(cs[at], co)
    requires at < 0 ==> forall c :: c in cs ==> !SameKey(c, co)
    ensures StampFor(cs, co, next) == if at >= 0 then cs[at].creation else next
  {
    if cs == [] {
    } else {
      assert forall k :: 0 < k < |cs| ==> cs[1..][k - 1] == cs[k];
      if at == 0 {
        assert SameKey(cs[0], co);
      } else {
        assert at > 0 ==> !SameKey(cs[0], cs[at]);
        assert DistinctKeys(cs[1..]);
        StampForAt(cs[1..], co, next, if at > 0 then at - 1 else -1);
      }
    }
  }

  /** Every list without expired cookies. */
  ghost function SweepAll(bs: seq<seq<Cookie>>, now: int): (r: seq<seq<Cookie>>)
    ensures |r| == |bs| && forall i :: 0 <= i < |bs| ==> r[i] == Sweep(bs[i], now)
  {
    seq(|bs|, i requires 0 <= i < |bs| => Sweep(bs[i], now))
  }

  // ---------- What all cookies of a jar satisfy ----------

  predicate SecureName(name: string) {
    "__Secure-" <= name
  }

  predicate HostName(name: string) {
    "__Host-" <= name
  }

  /** The rules for names with a reserved prefix. */
  predicate PrefixOk(co: Cookie) {
    && (co.prefixSecure ==> co.secure)
    && (co.prefixHost ==> co.secure && !co.tailmatch)
    && (co.prefixHost ==> co.path.Some? && |co.path.value| == 1 && co.path.value[0] == '/')
  }

  /** The cookie belongs in bucket `i`, and its stamp is one of the first `last`. */
  ghost predicate Home(c: Cookie, i: nat, ip: string -> bool, last: nat) {
    Bucket(c.domain, ip) == i && 0 < c.creation <= last && PrefixOk(c)
  }

  ghost predicate Homed(cs: seq<Cookie>, i: nat, ip: string -> bool, last: nat) {
    if cs == [] then true else Home(cs[0], i, ip, last) && Homed(cs[1..], i, ip, last)
  }

  lemma {:induction false} HomedAll(cs: seq<Cookie>, i: nat, ip: string -> bool, last: nat)
    ensures Homed(cs, i, ip, last) <==> forall c :: c in cs ==> Home(c, i, ip, last)
  {
    if cs == [] {
    } else {
      HomedAll(cs[1..], i, ip, last);
      assert cs == [cs[0]] + cs[1..];
    }
  }

  /** No cookie of the list expires before `next`. */
  ghost predicate Later(cs: seq<Cookie>, next: int) {
    if cs == [] then true else (cs[0].expires != 0 ==> next <= cs[0].expires) && Later(cs[1..], next)
  }

  /** One more cookie, and the noted time brought forward to its expiry. */
  lemma {:induction false} LaterOn(cs: seq<Cookie>, c: Cookie, next: int, next': int)
    requires Later(cs, next) && next' <= next && (c.expires != 0 ==> next' <= c.expires)
    ensures Later(cs + [c], next')
  {
    LaterAll(cs, next);
    LaterAll(cs + [c], next');
  }

  lemma {:induction false} SweepOn(kept: seq<Cookie>, cs: seq<Cookie>, i: nat, now: int)
    requires i < |cs|
    ensures kept + Sweep(cs[i..], now)
      == (if Expired(cs[i], now) then kept else kept + [cs[i]]) + Sweep(cs[i + 1..], now)
  {
    assert cs[i..][1..] == cs[i + 1..];
  }

  lemma {:induction false} LaterAll(cs: seq<Cookie>, next: int)
    ensures Later(cs, next) <==> forall c :: c in cs && c.expires != 0 ==> next <= c.expires
  {
    if cs == [] {
    } else {
      LaterAll(cs[1..], next);
      assert cs == [cs[0]] + cs[1..];
    }
  }

  lemma {:induction false} LaterLower(cs: seq<Cookie>, next: int, lower: int)
    requires Later(cs, next) && lower <= next
    ensures Later(cs, lower)
  {
    if cs == [] {
    } else {
      LaterLower(cs[1..], next, lower);
    }
  }

  lemma {:induction false} HomedLater(cs: seq<Cookie>, i: nat, ip: string -> bool, last: nat, later: nat)
    requires Homed(cs, i, ip, last) && last <= later
    ensures Homed(cs, i, ip, later)
  {
    if cs == [] {
    } else {
      HomedLater(cs[1..], i, ip, last, later);
    }
  }

  /** Stamps from the future are not in use. */
  lemma {:induction false} HomedUnstamped(cs: seq<Cookie>, i: nat, ip: string -> bool, last: nat, t: nat)
    requires Homed(cs, i, ip, last) && last < t
    ensures Stamped(cs, t) == 0
  {
    if cs == [] {
    } else {
      HomedUnstamped(cs[1..], i, ip, last, t);
    }
  }

  /** Every cookie is in its bucket, and no stamp is above `last`. */
  ghost predicate AllHomed(bs: seq<seq<Cookie>>, ip: string -> bool, last: nat) {
    forall i :: 0 <= i < |bs| ==> Homed(bs[i], i, ip, last)
  }

  /** The next stamp is not in use, and giving it out changes nothing else. */
  lemma {:induction false} StampAhead(bs: seq<seq<Cookie>>, ip: string -> bool, last: nat)
    requires AllHomed(bs, ip, last)
    ensures AllHomed(bs, ip, last + 1) && StampedIn(bs, last + 1) == 0
  {
    forall i | 0 <= i < |bs| ensures Homed(bs[i], i, ip, last + 1) && Stamped(bs[i], last + 1) == 0 {
      HomedLater(bs[i], i, ip, last, last + 1);
      HomedUnstamped(bs[i], i, ip, last, last + 1);
    }
    UnstampedIn(bs, last + 1);
  }

  /** Keys are distinct within each list. */
  ghost predicate AllDistinct(bs: seq<seq<Cookie>>) {
    if bs == [] then true else DistinctKeys(bs[0]) && AllDistinct(bs[1..])
  }

  lemma {:induction false} AllDistinctAt(bs: seq<seq<Cookie>>, i: nat)
    requires AllDistinct(bs) && i < |bs|
    ensures DistinctKeys(bs[i])
  {
    if i == 0 {
    } else {
      AllDistinctAt(bs[1..], i - 1);
    }
  }

  lemma {:induction false} AllDistinctUpdate(bs: seq<seq<Cookie>>, i: nat, b: seq<Cookie>)
    requires AllDistinct(bs) && i < |bs| && DistinctKeys(b)
    ensures AllDistinct(bs[i := b])
  {
    if i == 0 {
      assert bs[0 := b][1..] == bs[1..];
    } else {
      assert bs[i := b][1..] == bs[1..][i - 1 := b];
      AllDistinctUpdate(bs[1..], i - 1, b);
    }
  }

  /** What a part of a list inherits as a bucket. */
  lemma {:induction false} PartKeeps(part: seq<Cookie>, cs: seq<Cookie>, i: nat, ip: string -> bool, last: nat,
    next: int)
    requires Sublist(part, cs) && Homed(cs, i, ip, last)
    ensures Homed(part, i, ip, last) && (Later(cs, next) ==> Later(part, next))
  {
    SublistKeeps(part, cs);
    HomedAll(cs, i, ip, last);
    HomedAll(part, i, ip, last);
    LaterAll(cs, next);
    LaterAll(part, next);
  }

  /** The books of a jar: the counter is right, and creation stamps and keys are distinct. */
  ghost predicate Counted(bs: seq<seq<Cookie>>, num: nat) {
    num == Total(bs) && (forall t: nat :: StampedIn(bs, t) <= 1) && AllDistinct(bs)
  }

  lemma {:induction false} ThinCounted(bs: seq<seq<Cookie>>, num: nat, i: nat, part: seq<Cookie>)
    requires Counted(bs, num) && i < |bs| && Sublist(part, bs[i])
    ensures 0 <= |bs[i]| - |part| <= num && Counted(bs[i := part], num - (|bs[i]| - |part|))
  {
    SublistKeeps(part, bs[i]);
    AllDistinctAt(bs, i);
    AllDistinctUpdate(bs, i, part);
    var after := bs[i := part];
    forall t: nat ensures StampedIn(after, t) <= 1 {
      Changed(bs, i, part, t);
    }
    Changed(bs, i, part, 0);
    StampedBound(bs, i, 0);
  }

  lemma {:induction false} EmptyCounted(bs: seq<seq<Cookie>>)
    requires forall i :: 0 <= i < |bs| ==> bs[i] == []
    ensures Counted(bs, 0) && forall t: nat :: StampedIn(bs, t) == 0
  {
    if bs == [] {
    } else {
      EmptyCounted(bs[1..]);
    }
  }

  /** The bucket after a cookie has come in, in the place of the one with its key. */
  ghost function Received(cs: seq<Cookie>, co: Cookie, stamp: nat): seq<Cookie> {
    Others(cs, co) + [co.(creation := StampFor(cs, co, stamp))]
  }

  /** The position of the cookie with the key of `co`, -1 if there is none. */
  ghost predicate At(cs: seq<Cookie>, co: Cookie, at: int) {
    && -1 <= at < |cs|
    && (at >= 0 ==> SameKey(cs[at], co))
    && (at < 0 ==> forall c :: c in cs ==> !SameKey(c, co))
  }

  lemma {:induction false} ReceivedParts(cs: seq<Cookie>, co: Cookie, at: int, stamp: nat)
    requires DistinctKeys(cs) && At(cs, co, at)
    ensures at >= 0 ==> Received(cs, co, stamp) == cs[..at] + cs[at + 1..] + [co.(creation := cs[at].creation)]
    ensures at < 0 ==> Received(cs, co, stamp) == cs + [co.(creation := stamp)]
  {
    StampForAt(cs, co, stamp, at);
    if at >= 0 {
      OthersRemoves(cs, co, at);
    } else {
      OthersAll(cs, co);
    }
  }

  lemma {:induction false} OthersStamp(cs: seq<Cookie>, co: Cookie, stamp: nat)
    ensures Others(cs, co) == Others(cs, co.(creation := stamp))
  {
    if cs == [] {
    } else {
      OthersStamp(cs[1..], co, stamp);
    }
  }

  lemma {:induction false} ReceivedDistinct(cs: seq<Cookie>, co: Cookie, stamp: nat)
    requires DistinctKeys(cs)
    ensures DistinctKeys(Received(cs, co, stamp))
  {
    var t := StampFor(cs, co, stamp);
    OthersStamp(cs, co, t);
    ReplacedDistinct(cs, co.(creation := t));
  }

  lemma {:induction false} StampedOne(c: Cookie, t: nat)
    ensures Stamped([c], t) == One(c.creation == t)
  {
    assert [c][1..] == [];
  }

  lemma {:induction false} ReceivedStamped(cs: seq<Cookie>, co: Cookie, at: int, stamp: nat, t: nat)
    requires DistinctKeys(cs) && At(cs, co, at)
    ensures Stamped(Received(cs, co, stamp), t) == Stamped(cs, t) + One(at < 0 && t == stamp)
  {
    StampForAt(cs, co, stamp, at);
    var stored := co.(creation := StampFor(cs, co, stamp));
    StampedConcat(Others(cs, co), [stored], t);
    StampedOne(stored, t);
    if at >= 0 {
      OthersStamped(cs, co, at, t);
    } else {
      OthersAll(cs, co);
    }
  }

  /** Receiving a cookie keeps the books, with one more cookie unless one is replaced. */
  lemma {:induction false} ReceivedCounted(bs: seq<seq<Cookie>>, num: nat, b: nat, co: Cookie, at: int, stamp: nat)
    requires Counted(bs, num) && b < |bs| && At(bs[b], co, at) && StampedIn(bs, stamp) == 0
    ensures Counted(bs[b := Received(bs[b], co, stamp)], num + One(at < 0))
  {
    AllDistinctAt(bs, b);
    var now := Received(bs[b], co, stamp);
    var after := bs[b := now];
    ReceivedDistinct(bs[b], co, stamp);
    AllDistinctUpdate(bs, b, now);
    forall t: nat ensures StampedIn(after, t) <= 1 {
      Changed(bs, b, now, t);
      ReceivedStamped(bs[b], co, at, stamp, t);
    }
    Changed(bs, b, now, 0);
    ReceivedParts(bs[b], co, at, stamp);
  }

  lemma {:induction false} ReceivedHomed(cs: seq<Cookie>, co: Cookie, at: int, stamp: nat, i: nat, ip: string -> bool)
    requires DistinctKeys(cs) && At(cs, co, at) && Homed(cs, i, ip, stamp)
    requires Bucket(co.domain, ip) == i && PrefixOk(co) && stamp > 0
    ensures Homed(Received(cs, co, stamp), i, ip, stamp)
  {
    var stored := co.(creation := StampFor(cs, co, stamp));
    StampForAt(cs, co, stamp, at);
    HomedAll(cs, i, ip, stamp);
    assert at >= 0 ==> Home(cs[at], i, ip, stamp);
    assert Home(stored, i, ip, stamp);
    HomedAll(Received(cs, co, stamp), i, ip, stamp);
    OthersIsSublist(cs, co);
    SublistKeeps(Others(cs, co), cs);
  }

  lemma {:induction false} ReceivedLater(cs: seq<Cookie>, co: Cookie, stamp: nat, next: int, lower: int)
    requires Later(cs, next) && lower <= next && (co.expires != 0 ==> lower <= co.expires)
    ensures Later(Received(cs, co, stamp), lower)
  {
    LaterAll(cs, next);
    LaterAll(Received(cs, co, stamp), lower);
    OthersIsSublist(cs, co);
    SublistKeeps(Others(cs, co), cs);
  }

  /** Sweeping does not bring stamps back. */
  lemma {:induction false} SweptUnstamped(bs: seq<seq<Cookie>>, now: int, t: nat)
    requires StampedIn(bs, t) == 0
    ensures StampedIn(SweepAll(bs, now), t) == 0
  {
    if bs == [] {
    } else {
      SweepIsSublist(bs[0], now);
      SublistKeeps(Sweep(bs[0], now), bs[0]);
      SweptUnstamped(bs[1..], now, t);
      assert SweepAll(bs, now)[1..] == SweepAll(bs[1..], now);
    }
  }

  lemma {:induction false} StampedAt(cs: seq<Cookie>, p: nat)
    requires p < |cs|
    ensures Stamped(cs, cs[p].creation) >= 1
  {
    if p == 0 {
    } else {
      StampedAt(cs[1..], p - 1);
    }
  }

  lemma {:induction false} StampedTwice(cs: seq<Cookie>, p: nat, q: nat)
    requires p < q < |cs| && cs[p].creation == cs[q].creation
    ensures Stamped(cs, cs[p].creation) >= 2
  {
    if p > 0 {
      StampedTwice(cs[1..], p - 1, q - 1);
    } else {
      StampedAt(cs[1..], q - 1);
    }
  }

  lemma {:induction false} StampedInTwice(bs: seq<seq<Cookie>>, i: nat, j: nat, t: nat)
    requires i < j < |bs| && Stamped(bs[i], t) >= 1 && Stamped(bs[j], t) >= 1
    ensures StampedIn(bs, t) >= 2
  {
    if i > 0 {
      StampedInTwice(bs[1..], i - 1, j - 1, t);
    } else {
      StampedBound(bs[1..], j - 1, t);
    }
  }
}
