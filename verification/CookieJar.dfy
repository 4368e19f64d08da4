/** The cookie jar (lib/cookie.c): 63 lists, a counter, and a bound on the next expiry. */
module CookieJar {
  import opened Basics
  import opened CookieText
  import opened CookieLists
  import opened CookieOrder

  /** The first segment of a path: up to, and without, its second slash. */
  function FirstSegment(path: string): (r: string)
    ensures r <= path
  {
    if path == "" then "" else path[..1] + UpToSlash(path[1..])
  }

  function UpToSlash(s: string): (r: string)
    ensures r <= s
  {
    if s == "" || s[0] == '/' then "" else [s[0]] + UpToSlash(s[1..])
  }

  /** Whether either domain lies below the other, or neither cookie has one. */
  predicate RelatedDomains(a: Cookie, b: Cookie) {
    if a.domain.Some? && b.domain.Some? then
      TailMatch(a.domain.value, b.domain.value) || TailMatch(b.domain.value, a.domain.value)
    else a.domain.None? && b.domain.None?
  }

  /** A secure cookie that a new one, neither secure nor from a secure origin, must not overlay. */
  predicate Shields(prior: Cookie, co: Cookie, secureOrigin: bool) {
    && prior.name == co.name && RelatedDomains(prior, co)
    && prior.path.Some? && co.path.Some?
    && prior.secure && !co.secure && !secureOrigin
    && FirstSegment(prior.path.value) <= co.path.value
  }

  /** Reasons to turn a new cookie down; a cookie from a file does not replace a live one. */
  predicate Refuses(prior: Cookie, co: Cookie, secureOrigin: bool) {
    Shields(prior, co, secureOrigin) || (SameKey(prior, co) && !co.live && prior.live)
  }

  ghost predicate RefusedBy(cs: seq<Cookie>, co: Cookie, secureOrigin: bool) {
    exists k :: 0 <= k < |cs| && Refuses(cs[k], co, secureOrigin)
  }

  /** How a new cookie changes the buckets: it goes into bucket `b` unless it is refused there. */
  ghost predicate Settled(found: seq<seq<Cookie>>, after: seq<seq<Cookie>>, b: nat, co: Cookie,
    secureOrigin: bool, stamp: nat, stored: Option<Cookie>)
  {
    && b < |found|
    && (if RefusedBy(found[b], co, secureOrigin) then stored == None && after == found
        else
          && stored == Some(co.(creation := StampFor(found[b], co, stamp)))
          && after == found[b := Received(found[b], co, stamp)])
  }

  class Jar {
    var buckets: seq<seq<Cookie>>
    var nextExpiration: int
    var numCookies: nat
    var lastCt: nat
    var running: bool
    var newSession: bool
    const ip: string -> bool    // recognises numeric addresses

    /** Every cookie is in its domain's bucket, named as it may be, and no stamp is from the future. */
    ghost predicate Placed()
      reads this`buckets, this`lastCt
    {
      |buckets| == BUCKETS && AllHomed(buckets, ip, lastCt)
    }

    /** No cookie of the first `n` buckets expires before `nextExpiration`. */
    ghost predicate Bounded(n: nat)
      requires n <= |buckets|
      reads this`buckets, this`nextExpiration
    {
      forall i :: 0 <= i < n ==> Later(buckets[i], nextExpiration)
    }

    ghost predicate Valid()
      reads this
    {
      CaseBlind(ip) && Placed() && Counted(buckets, numCookies) && Bounded(BUCKETS) && nextExpiration <= MAX_TIME
    }

    constructor (ip: string -> bool)
      requires CaseBlind(ip)
      ensures Valid() && numCookies == 0 && lastCt == 0 && this.ip == ip && !running && !newSession
      ensures forall i :: 0 <= i < BUCKETS ==> buckets[i] == []
    {
      this.ip := ip;
      buckets := seq(BUCKETS, _ => []);
      nextExpiration, numCookies, lastCt := MAX_TIME, 0, 0;
      running, newSession := false, false;
      new;
      EmptyCounted(buckets);
    }

    /** Replaces one bucket by a part of itself. */
    method Thin(i: nat, part: seq<Cookie>)
      requires |buckets| == BUCKETS && Counted(buckets, numCookies) && i < BUCKETS && Sublist(part, buckets[i])
      modifies this`buckets, this`numCookies
      ensures buckets == old(buckets)[i := part] && Counted(buckets, numCookies)
    {
      ThinCounted(buckets, numCookies, i, part);
      numCookies := numCookies - (|buckets[i]| - |part|);
      buckets := buckets[i := part];
    }

    /** Keeps the cookies of a list that have not expired, and notes when the next one will. */
    static method SweepList(cs: seq<Cookie>, now: int, next: int) returns (kept: seq<Cookie>, next': int)
      ensures kept == Sweep(cs, now) && next' <= next && Later(kept, next')
    {
      kept, next' := [], next;
      for i := 0 to |cs|
        invariant kept + Sweep(cs[i..], now) == Sweep(cs, now) && next' <= next && Later(kept, next')
      {
        SweepOn(kept, cs, i, now);
        if !Expired(cs[i], now) {
          ghost var before, noted := kept, next';
          kept := kept + [cs[i]];
          if cs[i].expires != 0 && cs[i].expires < next' {
            next' := cs[i].expires;
          }
          LaterOn(before, cs[i], noted, next');
        }
      }
    }

    /** Sweeps one bucket; those before it have been swept. */
    method SweepBucket(i: nat, now: int)
      requires i < |buckets| && Placed() && Counted(buckets, numCookies) && Bounded(i) && nextExpiration <= MAX_TIME
      modifies this`buckets, this`numCookies, this`nextExpiration
      ensures Placed() && Counted(buckets, numCookies) && Bounded(i + 1) && nextExpiration <= MAX_TIME
      ensures buckets == old(buckets)[i := Sweep(old(buckets)[i], now)]
    {
      var kept, next := SweepList(buckets[i], now, nextExpiration);
      SweepIsSublist(buckets[i], now);
      PartKeeps(kept, buckets[i], i, ip, lastCt, 0);
      forall k | 0 <= k < i ensures Later(buckets[k], next) {
        LaterLower(buckets[k], nextExpiration, next);
      }
      Thin(i, kept);
      nextExpiration := next;
    }

    /**
     * Removes expired cookies. Although the whole jar is skipped while the noted time has not
     * come, the result is always that of a full sweep.
     */
    method RemoveExpired(now: int)
      requires Valid()
      modifies this`buckets, this`numCookies, this`nextExpiration
      ensures Valid() && buckets == SweepAll(old(buckets), now)
    {
      if now < nextExpiration && nextExpiration != MAX_TIME {
        forall i | 0 <= i < BUCKETS ensures buckets[i] == Sweep(buckets[i], now) {
          LaterAll(buckets[i], nextExpiration);
          SweepNothing(buckets[i], now);
        }
        return;
      }
      nextExpiration := MAX_TIME;
      for i := 0 to BUCKETS
        invariant Placed() && Counted(buckets, numCookies) && Bounded(i) && nextExpiration <= MAX_TIME
        invariant forall k :: 0 <= k < i ==> buckets[k] == Sweep(old(buckets)[k], now)
        invariant forall k :: i <= k < BUCKETS ==> buckets[k] == old(buckets)[k]
      {
        SweepBucket(i, now);
      }
    }

    /**
     * Looks for the cookie that a new one replaces. The new one is refused exactly if some cookie
     * of the list gives reason to, wherever in the list that one is.
     */
    static method FindReplaced(cs: seq<Cookie>, co: Cookie, secureOrigin: bool)
      returns (refused: bool, at: int)
      requires DistinctKeys(cs)
      ensures refused <==> RefusedBy(cs, co, secureOrigin)
      ensures !refused ==> At(cs, co, at)
    {
      refused, at := false, -1;
      for i := 0 to |cs|
        invariant -1 <= at < i
        invariant forall k :: 0 <= k < i ==> !Refuses(cs[k], co, secureOrigin)
        invariant at >= 0 ==> SameKey(cs[at], co)
        invariant at < 0 ==> forall k :: 0 <= k < i ==> !SameKey(cs[k], co)
      {
        if Shields(cs[i], co, secureOrigin) {
          return true, at;
        }
        if at < 0 && SameKey(cs[i], co) {
          if !co.live && cs[i].live {
            return true, at;
          }
          at := i;
        } else if at >= 0 {
          assert !SameKey(cs[at], cs[i]);
        }
      }
    }

    /** Unlinks the cookie at `at`, if there is one, whose stamp the new cookie takes over. */
    static method Relink(cs: seq<Cookie>, co: Cookie, at: int, stamp: nat) returns (cs': seq<Cookie>, stored: Cookie)
      requires DistinctKeys(cs) && At(cs, co, at)
      ensures cs' == Received(cs, co, stamp) && stored == co.(creation := StampFor(cs, co, stamp))
    {
      ReceivedParts(cs, co, at, stamp);
      StampForAt(cs, co, stamp, at);
      if at >= 0 {
        stored := co.(creation := cs[at].creation);
        cs' := cs[..at] + cs[at + 1..] + [stored];
      } else {
        stored := co.(creation := stamp);
        cs' := cs + [stored];
      }
    }

    /** No cookie expires before the jar's noted time once that is lowered to the new cookie's. */
    lemma {:induction false} StillBounded(b: nat, co: Cookie, next: int)
      requires |buckets| == BUCKETS && b < BUCKETS && Bounded(BUCKETS)
      requires next <= nextExpiration && (co.expires != 0 ==> next <= co.expires)
      ensures var after := buckets[b := Received(buckets[b], co, lastCt)];
        forall i :: 0 <= i < BUCKETS ==> Later(after[i], next)
    {
      var after := buckets[b := Received(buckets[b], co, lastCt)];
      forall i | 0 <= i < BUCKETS ensures Later(after[i], next) {
        if i == b {
          ReceivedLater(buckets[b], co, lastCt, nextExpiration, next);
        } else {
          LaterLower(buckets[i], nextExpiration, next);
        }
      }
    }

    /** Puts a cookie in its bucket, in the place of the one at `at` if there is one. */
    method Put(co: Cookie, at: int) returns (stored: Cookie)
      requires Valid() && PrefixOk(co) && lastCt > 0 && StampedIn(buckets, lastCt) == 0
      requires At(buckets[Bucket(co.domain, ip)], co, at)
      modifies this`buckets, this`numCookies, this`nextExpiration
      ensures Valid()
      ensures var b := Bucket(co.domain, ip);
        && buckets == old(buckets)[b := Received(old(buckets)[b], co, lastCt)]
        && stored == co.(creation := StampFor(old(buckets)[b], co, lastCt))
    {
      var b := Bucket(co.domain, ip);
      AllDistinctAt(buckets, b);
      ReceivedCounted(buckets, numCookies, b, co, at, lastCt);
      ReceivedHomed(buckets[b], co, at, lastCt, b, ip);
      var next := if co.expires != 0 && co.expires < nextExpiration then co.expires else nextExpiration;
      StillBounded(b, co, next);
      var cs;
      cs, stored := Relink(buckets[b], co, at, lastCt);
      buckets := buckets[b := cs];
      if at < 0 {
        numCookies := numCookies + 1;
      }
      nextExpiration := next;
    }

    /** Gives out the next stamp. */
    method NextStamp()
      requires Valid()
      modifies this`lastCt
      ensures Valid() && lastCt == old(lastCt) + 1 && StampedIn(buckets, lastCt) == 0
    {
      ghost var bs, last, numeric := buckets, lastCt, ip;
      lastCt := lastCt + 1;
      StampAhead(bs, numeric, last);
    }

    /** Whether a new cookie is looked at: session cookies of a file are not, in a new session. */
    predicate Admits(co: Cookie)
      reads this
    {
      PrefixOk(co) && (running || !newSession || co.expires != 0)
    }

    /** The buckets a new cookie finds. */
    ghost function Found(noExpire: bool, now: int): seq<seq<Cookie>>
      reads this
    {
      if noExpire then buckets else SweepAll(buckets, now)
    }

    /** Gives out a stamp and removes expired cookies, unless told not to. */
    method Prepare(noExpire: bool, now: int)
      requires Valid()
      modifies this`buckets, this`numCookies, this`nextExpiration, this`lastCt
      ensures Valid() && buckets == old(Found(noExpire, now))
      ensures lastCt == old(lastCt) + 1 && StampedIn(buckets, lastCt) == 0
    {
      NextStamp();
      SweptUnstamped(buckets, now, lastCt);
      if !noExpire {
        RemoveExpired(now);
      }
    }

    /** Adds the cookie, for which a stamp has been given out, unless another one is in the way. */
    method Settle(co: Cookie, secureOrigin: bool) returns (stored: Option<Cookie>)
      requires Valid() && PrefixOk(co) && lastCt > 0 && StampedIn(buckets, lastCt) == 0
      modifies this`buckets, this`numCookies, this`nextExpiration
      ensures Valid()
      ensures Settled(old(buckets), buckets, Bucket(co.domain, ip), co, secureOrigin, lastCt, stored)
    {
      var b := Bucket(co.domain, ip);
      AllDistinctAt(buckets, b);
      var refused, at := FindReplaced(buckets[b], co, secureOrigin);
      if refused {
        return None;
      }
      var c := Put(co, at);
      return Some(c);
    }

    /**
     * Adds a parsed cookie. Unless it is refused, it is the one cookie of its key afterwards, with
     * the stamp of the cookie it replaces, and all others stay as they were.
     */
    method Add(co: Cookie, noExpire: bool, secureOrigin: bool, now: int) returns (stored: Option<Cookie>)
      requires Valid()
      modifies this`buckets, this`numCookies, this`nextExpiration, this`lastCt
      ensures Valid()
      ensures !Admits(co) ==> stored == None && buckets == old(buckets) && lastCt == old(lastCt)
      ensures Admits(co) ==>
        && lastCt == old(lastCt) + 1
        && Settled(old(Found(noExpire, now)), buckets, Bucket(co.domain, ip), co.(live := running),
                   secureOrigin, lastCt, stored)
    {
      if !Admits(co) {
        return None;
      }
      Prepare(noExpire, now);
      stored := Settle(co.(live := running), secureOrigin);
    }

    /** No two cookies of the jar have the same key. */
    lemma {:induction false} OnePerKey(i: nat, p: nat, j: nat, q: nat)
      requires Valid() && i < BUCKETS && j < BUCKETS && p < |buckets[i]| && q < |buckets[j]|
      ensures SameKey(buckets[i][p], buckets[j][q]) ==> i == j && p == q
    {
      var c, d := buckets[i][p], buckets[j][q];
      HomedAll(buckets[i], i, ip, lastCt);
      HomedAll(buckets[j], j, ip, lastCt);
      assert Home(c, i, ip, lastCt) && Home(d, j, ip, lastCt);
      if SameKey(c, d) && c.domain.Some? {
        BucketFolds(c.domain.value, d.domain.value, ip);
      }
      AllDistinctAt(buckets, i);
    }

    /** No two cookies of the jar have the same stamp. */
    lemma {:induction false} OnePerStamp(i: nat, p: nat, j: nat, q: nat)
      requires Valid() && i < BUCKETS && j < BUCKETS && p < |buckets[i]| && q < |buckets[j]|
      ensures buckets[i][p].creation == buckets[j][q].creation ==> i == j && p == q
    {
      var t := buckets[i][p].creation;
      StampedAt(buckets[i], p);
      StampedAt(buckets[j], q);
      if t != buckets[j][q].creation {
        return;
      }
      if i != j {
        StampedInTwice(buckets, if i < j then i else j, if i < j then j else i, t);
      } else if p != q {
        StampedTwice(buckets[i], if p < q then p else q, if p < q then q else p);
        StampedBound(buckets, i, t);
      }
    }

    /** Every cookie of the jar has a domain, with a dot in it if it is tail matched. */
    ghost predicate AllIndexed()
      reads this
    {
      forall i, c :: 0 <= i < |buckets| && c in buckets[i] ==> Indexed(c, ip)
    }

    /** Of what is not expired, the host's bucket alone gives what all buckets would. */
    lemma {:induction false} OneBucketSwept(host: string, path: string, secure: bool, now: int)
      requires Valid() && AllIndexed()
      ensures Pick(Sweep(buckets[Bucket(Some(host), ip)], now), host, path, secure, ip)
        == PickAll(SweepAll(buckets, now), host, path, secure, ip)
    {
      var bs := SweepAll(buckets, now);
      forall i, c: Cookie | 0 <= i < BUCKETS && c in bs[i] ensures Bucket(c.domain, ip) == i && Indexed(c, ip) {
        SweepLeaves(buckets[i], now, c);
        HomedAll(buckets[i], i, ip, lastCt);
        assert Home(c, i, ip, lastCt);
      }
      OneBucket(bs, host, path, secure, ip);
    }

    /**
     * The cookies to send to a host. Expired ones are removed first, unless the host's bucket is
     * empty anyway.
     */
    method GetList(host: string, path: string, secure: bool, now: int) returns (okay: bool, list: seq<Cookie>)
      requires Valid()
      modifies this`buckets, this`numCookies, this`nextExpiration
      ensures Valid()
      ensures okay <==> old(buckets[Bucket(Some(host), ip)]) != []
      ensures buckets == if okay then SweepAll(old(buckets), now) else old(buckets)
      ensures list == Request(Sweep(old(buckets[Bucket(Some(host), ip)]), now), host, path, secure, ip)
      ensures old(AllIndexed()) ==>
        list == Sort(First(PickAll(SweepAll(old(buckets), now), host, path, secure, ip)), SentBefore)
      ensures InOrder(list, SentBefore) && |list| <= MAX_SEND
      ensures forall c :: c in list ==> !Expired(c, now) && Wanted(c, host, path, secure, ip)
    {
      var b := Bucket(Some(host), ip);
      if AllIndexed() {
        OneBucketSwept(host, path, secure, now);
      }
      if buckets[b] == [] {
        return false, [];
      }
      RemoveExpired(now);
      var picked := Collect(buckets[b], host, path, secure, ip);
      list := Sort(picked, SentBefore);
      okay := true;
      forall t: nat ensures Stamped(buckets[b], t) <= 1 {
        StampedBound(buckets, b, t);
      }
      RequestSends(buckets[b], host, path, secure, ip);
      forall c | c in list ensures !Expired(c, now) {
        SweepLeaves(old(buckets)[b], now, c);
      }
    }

    /** Drops all cookies. */
    method ClearAll()
      requires Valid()
      modifies this`buckets, this`numCookies
      ensures Valid() && numCookies == 0 && forall i :: 0 <= i < BUCKETS ==> buckets[i] == []
    {
      buckets := seq(BUCKETS, _ => []);
      numCookies := 0;
      EmptyCounted(buckets);
    }

    /** Drops all session cookies, and no others. */
    method ClearSession()
      requires Valid()
      modifies this`buckets, this`numCookies
      ensures Valid() && forall i :: 0 <= i < BUCKETS ==> buckets[i] == Lasting(old(buckets)[i])
    {
      for i := 0 to BUCKETS
        invariant Valid()
        invariant forall k :: 0 <= k < i ==> buckets[k] == Lasting(old(buckets)[k])
        invariant forall k :: i <= k < BUCKETS ==> buckets[k] == old(buckets)[k]
      {
        LastingIsSublist(buckets[i]);
        PartKeeps(Lasting(buckets[i]), buckets[i], i, ip, lastCt, nextExpiration);
        var kept := KeepLasting(buckets[i]);
        Thin(i, kept);
      }
    }

    static method KeepLasting(cs: seq<Cookie>) returns (kept: seq<Cookie>)
      ensures kept == Lasting(cs)
    {
      kept := [];
      for i := 0 to |cs|
        invariant kept + Lasting(cs[i..]) == Lasting(cs)
      {
        assert cs[i..][1..] == cs[i + 1..];
        if cs[i].expires != 0 {
          kept := kept + [cs[i]];
        }
      }
    }
  }
}
