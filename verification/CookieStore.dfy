/** Saving a jar to a file and loading it again (lib/cookie.c). */
module CookieStore {
  import opened Basics
  import opened CookieText
  import opened CookieLists
  import opened CookieOrder
  import opened CookieFile
  import opened CookieJar

  // ---------- What is saved ----------

  /** The cookies that have a domain. */
  function WithDomain(cs: seq<Cookie>): seq<Cookie> {
    if cs == [] then [] else (if cs[0].domain.Some? then [cs[0]] else []) + WithDomain(cs[1..])
  }

  /** Those of all buckets. */
  function Savable(bs: seq<seq<Cookie>>): seq<Cookie> {
    if bs == [] then [] else WithDomain(bs[0]) + Savable(bs[1..])
  }

  lemma {:induction false} WithDomainLeaves(cs: seq<Cookie>, c: Cookie)
    ensures c in WithDomain(cs) <==> c in cs && c.domain.Some?
  {
    if cs == [] {
    } else {
      WithDomainLeaves(cs[1..], c);
      assert cs == [cs[0]] + cs[1..];
    }
  }

  lemma {:induction false} WithDomainIsSublist(cs: seq<Cookie>)
    ensures Sublist(WithDomain(cs), cs)
  {
    if cs == [] {
    } else {
      WithDomainIsSublist(cs[1..]);
      if cs[0].domain.Some? {
        assert WithDomain(cs)[1..] == WithDomain(cs[1..]);
      } else {
        assert WithDomain(cs) == WithDomain(cs[1..]);
      }
    }
  }

  lemma {:induction false} SavableLeaves(bs: seq<seq<Cookie>>, c: Cookie)
    ensures c in Savable(bs) <==> c.domain.Some? && exists i :: 0 <= i < |bs| && c in bs[i]
  {
    if bs == [] {
    } else {
      SavableLeaves(bs[1..], c);
      WithDomainLeaves(bs[0], c);
      assert forall i :: 0 < i < |bs| ==> bs[1..][i - 1] == bs[i];
    }
  }

  lemma {:induction false} SavableStamped(bs: seq<seq<Cookie>>, t: nat)
    ensures Stamped(Savable(bs), t) <= StampedIn(bs, t)
  {
    if bs == [] {
    } else {
      SavableStamped(bs[1..], t);
      WithDomainIsSublist(bs[0]);
      SublistKeeps(WithDomain(bs[0]), bs[0]);
      StampedConcat(WithDomain(bs[0]), Savable(bs[1..]), t);
    }
  }

  /** The cookies of a jar as they are saved: those with a domain, the newest first. */
  ghost function Saved(bs: seq<seq<Cookie>>): seq<Cookie> {
    Sort(Savable(bs), SavedBefore)
  }

  lemma {:induction false} SavedIs(bs: seq<seq<Cookie>>, num: nat)
    requires Counted(bs, num)
    ensures DistinctStamps(Saved(bs)) && InOrder(Saved(bs), SavedBefore)
    ensures forall c :: c in Saved(bs) <==> c.domain.Some? && exists i :: 0 <= i < |bs| && c in bs[i]
  {
    var cs := Savable(bs);
    forall t: nat ensures Stamped(Saved(bs), t) <= 1 && Stamped(cs, t) <= 1 {
      SavableStamped(bs, t);
      SortCount(cs, SavedBefore, t);
    }
    StampsDistinct(cs);
    StampsDistinct(Saved(bs));
    OrdersAreTotal();
    SortInOrder(cs, SavedBefore);
    SameElements(cs, Saved(bs));
    forall c ensures c in cs <==> c.domain.Some? && exists i :: 0 <= i < |bs| && c in bs[i] {
      SavableLeaves(bs, c);
    }
  }

  // ---------- Saving ----------

  function Lines(cs: seq<Cookie>): (r: seq<string>)
    ensures |r| == |cs| && forall i :: 0 <= i < |cs| ==> r[i] == Print(cs[i])
  {
    seq(|cs|, i requires 0 <= i < |cs| => Print(cs[i]))
  }

  /** Copies the cookies of one bucket that have a domain to the array, from index `n`. */
  method FillList(a: array<Cookie>, n: nat, cs: seq<Cookie>) returns (n': nat)
    requires n + |cs| <= a.Length
    modifies a
    ensures n <= n' <= n + |cs| && a[..n'] == old(a[..n]) + WithDomain(cs)
  {
    n' := n;
    for j := 0 to |cs|
      invariant n <= n' <= n + j
      invariant a[..n'] + WithDomain(cs[j..]) == old(a[..n]) + WithDomain(cs)
    {
      assert cs[j..][1..] == cs[j + 1..];
      if cs[j].domain.Some? {
        ghost var before := a[..n'];
        a[n'] := cs[j];
        n' := n' + 1;
        assert a[..n'] == before + [cs[j]];
      }
    }
  }

  /** Gathers the cookies to save. The array, as large as the jar's counter says, is never overrun. */
  method Gather(bs: seq<seq<Cookie>>, num: nat) returns (a: array<Cookie>, n: nat)
    requires num == Total(bs)
    ensures fresh(a) && n <= a.Length == num && a[..n] == Savable(bs)
  {
    a := new Cookie[num];
    n := 0;
    for i := 0 to |bs|
      invariant n + Total(bs[i..]) <= a.Length
      invariant a[..n] + Savable(bs[i..]) == Savable(bs)
    {
      assert bs[i..][1..] == bs[i + 1..];
      n := FillList(a, n, bs[i]);
    }
  }

  lemma {:induction false} SavableFewer(bs: seq<seq<Cookie>>)
    ensures |Savable(bs)| <= Total(bs)
  {
    if bs == [] {
    } else {
      SavableFewer(bs[1..]);
      WithDomainIsSublist(bs[0]);
      SublistKeeps(WithDomain(bs[0]), bs[0]);
    }
  }

  /** The lines of the file a jar is saved to. */
  method Save(jar: Jar, now: int) returns (lines: seq<string>)
    requires jar.Valid()
    modifies jar`buckets, jar`numCookies, jar`nextExpiration
    ensures jar.Valid() && jar.buckets == SweepAll(old(jar.buckets), now)
    ensures lines == Lines(Saved(jar.buckets))
  {
    jar.RemoveExpired(now);
    SavableFewer(jar.buckets);
    lines := [];
    if jar.numCookies > 0 {
      var a, n := Gather(jar.buckets, jar.numCookies);
      lines := Lines(Sort(a[..n], SavedBefore));
    }
  }

  // ---------- Loading ----------

  /** The cookie as it is loaded from line `k`. */
  function Restamp(c: Cookie, k: nat): Cookie {
    c.(creation := k, live := false)
  }

  /** What bucket `i` holds once the cookies have been loaded into an empty jar. */
  ghost function Routed(cs: seq<Cookie>, i: nat, ip: string -> bool): seq<Cookie> {
    if cs == [] then []
    else
      var n := |cs| - 1;
      Routed(cs[..n], i, ip) + (if Bucket(cs[n].domain, ip) == i then [Restamp(cs[n], n + 1)] else [])
  }

  /** What a cookie in bucket `i` comes from. */
  ghost predicate From(c: Cookie, cs: seq<Cookie>, k: nat, i: nat, ip: string -> bool) {
    k < |cs| && c == Restamp(cs[k], k + 1) && Bucket(cs[k].domain, ip) == i
  }

  lemma {:induction false} RoutedFrom(cs: seq<Cookie>, i: nat, ip: string -> bool, c: Cookie) returns (k: nat)
    requires c in Routed(cs, i, ip)
    ensures From(c, cs, k, i, ip)
  {
    var n := |cs| - 1;
    if c in Routed(cs[..n], i, ip) {
      k := RoutedFrom(cs[..n], i, ip, c);
    } else {
      k := n;
    }
  }

  lemma {:induction false} RoutedHas(cs: seq<Cookie>, i: nat, ip: string -> bool, c: Cookie, k: nat)
    requires From(c, cs, k, i, ip)
    ensures c in Routed(cs, i, ip)
  {
    var n := |cs| - 1;
    if k < n {
      RoutedHas(cs[..n], i, ip, c, k);
    }
  }

  /** Cookies whose lines load as they are. */
  ghost predicate Loadable(cs: seq<Cookie>) {
    DistinctKeys(cs) && forall c :: c in cs ==> Writable(c, true) && PrefixOk(c)
  }

  /** The first `k` lines have been loaded. */
  ghost predicate Loaded(jar: Jar, cs: seq<Cookie>, k: nat)
    requires k <= |cs|
    reads jar
  {
    && |jar.buckets| == BUCKETS && jar.lastCt == k && !jar.running && !jar.newSession
    && forall i :: 0 <= i < BUCKETS ==> jar.buckets[i] == Routed(cs[..k], i, jar.ip)
  }

  /** Nothing loaded before stands in the way of the next cookie, which so comes last. */
  lemma {:induction false} NextRouted(cs: seq<Cookie>, k: nat, i: nat, ip: string -> bool)
    requires k < |cs| && DistinctKeys(cs)
    ensures !RefusedBy(Routed(cs[..k], i, ip), Bared(cs[k]), true)
    ensures Received(Routed(cs[..k], i, ip), Bared(cs[k]), k + 1) == Routed(cs[..k], i, ip) + [Restamp(cs[k], k + 1)]
  {
    var before, co := Routed(cs[..k], i, ip), Bared(cs[k]);
    forall c | c in before ensures !SameKey(c, co) && !c.live {
      var m := RoutedFrom(cs[..k], i, ip, c);
      assert !SameKey(cs[m], cs[k]);
    }
    OthersAll(before, co);
    StampForNone(before, co, k + 1);
  }

  lemma {:induction false} StampForNone(cs: seq<Cookie>, co: Cookie, t: nat)
    requires forall c :: c in cs ==> !SameKey(c, co)
    ensures StampFor(cs, co, t) == t
  {
    if cs == [] {
    } else {
      StampForNone(cs[1..], co, t);
    }
  }

  /** The next cookie goes where it should. */
  lemma {:induction false} SettledRouted(cs: seq<Cookie>, k: nat, ip: string -> bool, found: seq<seq<Cookie>>,
    after: seq<seq<Cookie>>, stored: Option<Cookie>)
    requires k < |cs| && DistinctKeys(cs) && |found| == BUCKETS
    requires forall i :: 0 <= i < BUCKETS ==> found[i] == Routed(cs[..k], i, ip)
    ensures Settled(found, after, Bucket(cs[k].domain, ip), Bared(cs[k]), true, k + 1, stored) ==>
      |after| == BUCKETS && forall i :: 0 <= i < BUCKETS ==> after[i] == Routed(cs[..k + 1], i, ip)
  {
    if !Settled(found, after, Bucket(cs[k].domain, ip), Bared(cs[k]), true, k + 1, stored) {
      return;
    }
    var b := Bucket(cs[k].domain, ip);
    NextRouted(cs, k, b, ip);
    assert cs[..k + 1][..k] == cs[..k];
    forall i | 0 <= i < BUCKETS ensures after[i] == Routed(cs[..k + 1], i, ip) {
      RoutedNext(cs, k, i, ip);
    }
  }

  lemma {:induction false} RoutedNext(cs: seq<Cookie>, k: nat, i: nat, ip: string -> bool)
    requires k < |cs|
    ensures Routed(cs[..k + 1], i, ip) ==
      Routed(cs[..k], i, ip) + if Bucket(cs[k].domain, ip) == i then [Restamp(cs[k], k + 1)] else []
  {
    assert cs[..k + 1][..k] == cs[..k];
  }

  /** Adds a cookie from a file. */
  method LoadCookie(jar: Jar, co: Cookie, now: int, ghost cs: seq<Cookie>, ghost k: nat)
    requires jar.Valid()
    modifies jar`buckets, jar`numCookies, jar`nextExpiration, jar`lastCt
    ensures jar.Valid()
    ensures k < |cs| && DistinctKeys(cs) && co == Bared(cs[k]) && PrefixOk(co) && old(Loaded(jar, cs, k)) ==>
      Loaded(jar, cs, k + 1)
  {
    ghost var found := jar.buckets;
    ghost var next := k < |cs| && DistinctKeys(cs) && co == Bared(cs[k]) && PrefixOk(co) && Loaded(jar, cs, k);
    assert next ==> jar.Admits(co);
    var stored := jar.Add(co, true, true, now);
    if next {
      SettledRouted(cs, k, jar.ip, found, jar.buckets, stored);
    }
  }

  /** Loads one line. */
  method LoadLine(jar: Jar, line: string, now: int, ghost cs: seq<Cookie>, ghost k: nat)
    requires jar.Valid()
    modifies jar`buckets, jar`numCookies, jar`nextExpiration, jar`lastCt
    ensures jar.Valid()
    ensures k < |cs| && Loadable(cs) && line == Print(cs[k]) && old(Loaded(jar, cs, k)) ==> Loaded(jar, cs, k + 1)
  {
    var co := ParseLine(line, true);
    if k < |cs| && Loadable(cs) && line == Print(cs[k]) {
      assert cs[k] in cs;
      WritableReturns(cs[k], true);
    }
    if co.Some? {
      LoadCookie(jar, co.value, now, cs, k);
    }
  }

  ghost predicate Fresh(jar: Jar)
    reads jar
  {
    |jar.buckets| == BUCKETS && jar.lastCt == 0 && forall i :: 0 <= i < BUCKETS ==> jar.buckets[i] == []
  }

  /** Loads the lines of a file, which may have been printed for the cookies `cs`. */
  method Load(jar: Jar, lines: seq<string>, newSession: bool, now: int, ghost cs: seq<Cookie>)
    requires jar.Valid()
    modifies jar
    ensures jar.Valid() && jar.running
    ensures Loadable(cs) && lines == Lines(cs) && !newSession && old(Fresh(jar)) ==>
      forall i :: 0 <= i < BUCKETS ==> jar.buckets[i] == Sweep(Routed(cs, i, jar.ip), now)
  {
    ghost var printed := Loadable(cs) && lines == Lines(cs) && !newSession && Fresh(jar);
    jar.newSession := newSession;
    jar.running := false;
    for k := 0 to |lines|
      invariant jar.Valid()
      invariant printed ==> k <= |cs| && Loaded(jar, cs, k)
    {
      LoadLine(jar, lines[k], now, cs, k);
    }
    assert cs[..|cs|] == cs;
    jar.RemoveExpired(now);
    jar.running := true;
  }

  // ---------- A saved jar, loaded again ----------

  ghost predicate AllWritable(bs: seq<seq<Cookie>>) {
    forall i, c :: 0 <= i < |bs| && c in bs[i] && c.domain.Some? ==> Writable(c, true)
  }

  /** The two have the same cookies in the same buckets, stamps aside. */
  ghost predicate Copies(a: seq<seq<Cookie>>, b: seq<seq<Cookie>>) {
    && |a| == |b|
    && (forall i, c :: 0 <= i < |a| && c in a[i] && c.domain.Some? ==> exists d :: d in b[i] && Bared(d) == Bared(c))
    && (forall i, d :: 0 <= i < |a| && d in b[i] ==> exists c :: c in a[i] && c.domain.Some? && Bared(d) == Bared(c))
  }

  lemma {:induction false} SavedLoadable(jar: Jar)
    requires jar.Valid() && AllWritable(jar.buckets)
    ensures Loadable(Saved(jar.buckets))
  {
    var cs := Saved(jar.buckets);
    SavedIs(jar.buckets, jar.numCookies);
    forall c | c in cs ensures Writable(c, true) && PrefixOk(c) {
      var i :| 0 <= i < BUCKETS && c in jar.buckets[i];
      HomedAll(jar.buckets[i], i, jar.ip, jar.lastCt);
      assert Home(c, i, jar.ip, jar.lastCt);
    }
    forall j, k | 0 <= j < k < |cs| ensures !SameKey(cs[j], cs[k]) {
      assert cs[j] in cs && cs[k] in cs;
      if SameKey(cs[j], cs[k]) {
        OneCookie(jar, cs[j], cs[k]);
        assert false;
      }
    }
  }

  /** Cookies of a jar that have the same key are one. */
  lemma {:induction false} OneCookie(jar: Jar, c: Cookie, d: Cookie)
    requires jar.Valid() && SameKey(c, d)
    requires exists i :: 0 <= i < BUCKETS && c in jar.buckets[i]
    requires exists i :: 0 <= i < BUCKETS && d in jar.buckets[i]
    ensures c == d
  {
    var i :| 0 <= i < BUCKETS && c in jar.buckets[i];
    var j :| 0 <= j < BUCKETS && d in jar.buckets[j];
    var p :| 0 <= p < |jar.buckets[i]| && jar.buckets[i][p] == c;
    var q :| 0 <= q < |jar.buckets[j]| && jar.buckets[j][q] == d;
    jar.OnePerKey(i, p, j, q);
  }

  /** The copy of a cookie. */
  lemma {:induction false} CopyOf(cs: seq<Cookie>, i: nat, ip: string -> bool, c: Cookie) returns (d: Cookie)
    requires c in cs && Bucket(c.domain, ip) == i
    ensures d in Routed(cs, i, ip) && Bared(d) == Bared(c)
  {
    var k :| 0 <= k < |cs| && cs[k] == c;
    d := Restamp(c, k + 1);
    RoutedHas(cs, i, ip, d, k);
  }

  /** What a cookie was copied from. */
  lemma {:induction false} OriginOf(cs: seq<Cookie>, i: nat, ip: string -> bool, d: Cookie) returns (c: Cookie)
    requires d in Routed(cs, i, ip)
    ensures c in cs && Bared(d) == Bared(c) && Bucket(c.domain, ip) == i
  {
    var k := RoutedFrom(cs, i, ip, d);
    c := cs[k];
  }

  /** The bucket of a saved cookie. */
  lemma {:induction false} HomeOf(jar: Jar, c: Cookie) returns (i: nat)
    requires jar.Valid() && c in Saved(jar.buckets)
    ensures i == Bucket(c.domain, jar.ip) && c in jar.buckets[i] && c.domain.Some?
  {
    SavedIs(jar.buckets, jar.numCookies);
    i :| i < BUCKETS && c in jar.buckets[i];
    HomedAll(jar.buckets[i], i, jar.ip, jar.lastCt);
    assert Home(c, i, jar.ip, jar.lastCt);
  }

  lemma {:induction false} SavedHas(jar: Jar, i: nat, c: Cookie)
    requires jar.Valid() && i < BUCKETS && c in jar.buckets[i] && c.domain.Some?
    ensures c in Saved(jar.buckets) && Bucket(c.domain, jar.ip) == i
  {
    SavedIs(jar.buckets, jar.numCookies);
    HomedAll(jar.buckets[i], i, jar.ip, jar.lastCt);
    assert Home(c, i, jar.ip, jar.lastCt);
  }

  lemma {:induction false} BucketCopied(jar: Jar, i: nat, cs: seq<Cookie>)
    requires jar.Valid() && i < BUCKETS && cs == Saved(jar.buckets)
    ensures forall c :: c in jar.buckets[i] && c.domain.Some? ==>
      exists d :: d in Routed(cs, i, jar.ip) && Bared(d) == Bared(c)
    ensures forall d :: d in Routed(cs, i, jar.ip) ==>
      exists c :: c in jar.buckets[i] && c.domain.Some? && Bared(d) == Bared(c)
  {
    forall c | c in jar.buckets[i] && c.domain.Some?
      ensures exists d :: d in Routed(cs, i, jar.ip) && Bared(d) == Bared(c)
    {
      SavedHas(jar, i, c);
      var d := CopyOf(cs, i, jar.ip, c);
    }
    forall d | d in Routed(cs, i, jar.ip)
      ensures exists c :: c in jar.buckets[i] && c.domain.Some? && Bared(d) == Bared(c)
    {
      var c := OriginOf(cs, i, jar.ip, d);
      var j := HomeOf(jar, c);
    }
  }

  lemma {:induction false} SavedCopies(jar: Jar, copy: seq<seq<Cookie>>, cs: seq<Cookie>)
    requires jar.Valid() && |copy| == BUCKETS && cs == Saved(jar.buckets)
    requires forall i :: 0 <= i < BUCKETS ==> copy[i] == Routed(cs, i, jar.ip)
    ensures Copies(jar.buckets, copy)
  {
    forall i: nat | i < BUCKETS
      ensures forall c :: c in jar.buckets[i] && c.domain.Some? ==> exists d :: d in copy[i] && Bared(d) == Bared(c)
      ensures forall d :: d in copy[i] ==> exists c :: c in jar.buckets[i] && c.domain.Some? && Bared(d) == Bared(c)
    {
      BucketCopied(jar, i, cs);
    }
  }

  /** What is saved has not expired, and so is not swept when loaded. */
  lemma {:induction false} NoneExpired(cs: seq<Cookie>, i: nat, ip: string -> bool, now: int)
    requires forall c :: c in cs ==> !Expired(c, now)
    ensures Sweep(Routed(cs, i, ip), now) == Routed(cs, i, ip)
  {
    forall d | d in Routed(cs, i, ip) ensures !Expired(d, now) {
      var c := OriginOf(cs, i, ip, d);
      assert Bared(d).expires == Bared(c).expires;
    }
    SweepNothing(Routed(cs, i, ip), now);
  }

  lemma {:induction false} SavedUnexpired(jar: Jar, was: seq<seq<Cookie>>, now: int)
    requires jar.Valid() && jar.buckets == SweepAll(was, now)
    ensures forall c :: c in Saved(jar.buckets) ==> !Expired(c, now)
  {
    forall c | c in Saved(jar.buckets) ensures !Expired(c, now) {
      var i := HomeOf(jar, c);
      SweepLeaves(was[i], now, c);
    }
  }

  /** Bucket `i` has the cookie, and its copy. */
  ghost predicate Copied(a: seq<seq<Cookie>>, b: seq<seq<Cookie>>, i: nat, c: Cookie, copy: Cookie) {
    i < |a| && i < |b| && c in a[i] && copy in b[i] && Bared(copy) == Bared(c)
  }

  /** Of two copies, that of the newer cookie counts as older. */
  ghost predicate AgesTurned(a: seq<seq<Cookie>>, b: seq<seq<Cookie>>) {
    forall i: nat, j: nat, c, d, c', d' :: Copied(a, b, i, c, c') && Copied(a, b, j, d, d') ==>
      (c'.creation < d'.creation <==> c.creation > d.creation)
  }

  /** Saving and loading turns ages round: what comes first in the file is the newest, and gets the first stamp. */
  lemma {:induction false} AgesReversed(bs: seq<seq<Cookie>>, num: nat, j: nat, k: nat)
    requires Counted(bs, num) && j < |Saved(bs)| && k < |Saved(bs)|
    ensures var cs := Saved(bs);
      Restamp(cs[j], j + 1).creation < Restamp(cs[k], k + 1).creation <==> cs[j].creation > cs[k].creation
  {
    SavedIs(bs, num);
    var cs := Saved(bs);
    assert j < k ==> SavedBefore(cs[j], cs[k]) && cs[j].creation != cs[k].creation;
    assert k < j ==> SavedBefore(cs[k], cs[j]) && cs[j].creation != cs[k].creation;
  }

  /** The place of a copied cookie in the file: its copy's stamp says it. */
  lemma {:induction false} PlaceOf(jar: Jar, cs: seq<Cookie>, i: nat, c: Cookie, copy: Cookie) returns (k: nat)
    requires jar.Valid() && cs == Saved(jar.buckets) && i < BUCKETS
    requires c in jar.buckets[i] && copy in Routed(cs, i, jar.ip) && Bared(copy) == Bared(c)
    ensures k < |cs| && cs[k] == c && copy.creation == k + 1
  {
    k := RoutedFrom(cs, i, jar.ip, copy);
    assert cs[k] in cs;
    var j := HomeOf(jar, cs[k]);
    assert Bared(cs[k]) == Bared(copy) == Bared(c);
    BaredSameKey(cs[k], c);
    OneCookie(jar, cs[k], c);
  }

  lemma {:induction false} BaredSameKey(a: Cookie, b: Cookie)
    requires Bared(a) == Bared(b)
    ensures SameKey(a, b)
  {
    assert a.name == Bared(a).name && a.domain == Bared(a).domain && a.path == Bared(a).path;
    assert a.tailmatch == Bared(a).tailmatch;
  }

  lemma {:induction false} CopiesTurned(jar: Jar, copy: seq<seq<Cookie>>, cs: seq<Cookie>)
    requires jar.Valid() && |copy| == BUCKETS && cs == Saved(jar.buckets)
    requires forall i :: 0 <= i < BUCKETS ==> copy[i] == Routed(cs, i, jar.ip)
    ensures AgesTurned(jar.buckets, copy)
  {
    var bs := jar.buckets;
    forall i: nat, j: nat, c, d, c', d' | Copied(bs, copy, i, c, c') && Copied(bs, copy, j, d, d')
      ensures c'.creation < d'.creation <==> c.creation > d.creation
    {
      var k := PlaceOf(jar, cs, i, c, c');
      var m := PlaceOf(jar, cs, j, d, d');
      AgesReversed(bs, jar.numCookies, k, m);
    }
  }

  /**
   * Saves a jar and loads the file into a new one. If every cookie is writable, the new jar has
   * exactly the same cookies, in the same buckets, but with their ages turned round.
   */
  method Reload(jar: Jar, now: int) returns (copy: Jar)
    requires jar.Valid()
    modifies jar`buckets, jar`numCookies, jar`nextExpiration
    ensures jar.Valid() && fresh(copy) && copy.Valid() && copy.ip == jar.ip
    ensures jar.buckets == SweepAll(old(jar.buckets), now)
    ensures AllWritable(jar.buckets) ==>
      Copies(jar.buckets, copy.buckets) && AgesTurned(jar.buckets, copy.buckets) &&
      forall i :: 0 <= i < BUCKETS ==> copy.buckets[i] == Routed(Saved(jar.buckets), i, jar.ip)
  {
    var lines := Save(jar, now);
    copy := new Jar(jar.ip);
    ghost var cs := Saved(jar.buckets);
    if AllWritable(jar.buckets) {
      SavedLoadable(jar);
    }
    Load(copy, lines, false, now, cs);
    if AllWritable(jar.buckets) {
      SavedUnexpired(jar, old(jar.buckets), now);
      forall i: nat | i < BUCKETS ensures copy.buckets[i] == Routed(cs, i, jar.ip) {
        NoneExpired(cs, i, jar.ip, now);
      }
      SavedCopies(jar, copy.buckets, cs);
      CopiesTurned(jar, copy.buckets, cs);
    }
  }
}
