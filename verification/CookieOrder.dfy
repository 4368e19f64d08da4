/** Which cookies go into a request, and in what order (lib/cookie.c). */
module CookieOrder {
  import opened Basics
  import opened CookieText
  import opened CookieLists

  const MAX_SEND := 150

  // ---------- Order ----------

  function Length(s: Option<string>): nat {
    if s.Some? then |s.value| else 0
  }

  /** Whether `a` is sent before `b`: by lengths of path, domain and name, then the newer one. */
  predicate SentBefore(a: Cookie, b: Cookie) {
    if Length(a.path) != Length(b.path) then Length(a.path) > Length(b.path)
    else if Length(a.domain) != Length(b.domain) then Length(a.domain) > Length(b.domain)
    else if |a.name| != |b.name| then |a.name| > |b.name|
    else b.creation <= a.creation
  }

  /** Whether `a` is written to a file before `b`. */
  predicate SavedBefore(a: Cookie, b: Cookie) {
    b.creation <= a.creation
  }

  type Order = (Cookie, Cookie) -> bool

  /** On cookies with different stamps, the order is strict and total. */
  ghost predicate StrictTotal(less: Order) {
    && (forall a: Cookie, b: Cookie :: a.creation != b.creation ==> (less(a, b) <==> !less(b, a)))
    && (forall a, b, c :: less(a, b) && less(b, c) ==> less(a, c))
  }

  lemma {:induction false} OrdersAreTotal()
    ensures StrictTotal(SentBefore) && StrictTotal(SavedBefore)
  {
  }

  ghost predicate DistinctStamps(cs: seq<Cookie>) {
    forall j, k :: 0 <= j < k < |cs| ==> cs[j].creation != cs[k].creation
  }

  ghost predicate InOrder(cs: seq<Cookie>, less: Order) {
    forall j, k :: 0 <= j < k < |cs| ==> less(cs[j], cs[k])
  }

  /** The list in order. */
  function Sort(cs: seq<Cookie>, less: Order): (r: seq<Cookie>)
    ensures |r| == |cs| && multiset(r) == multiset(cs)
  {
    if cs == [] then []
    else
      assert cs == [cs[0]] + cs[1..];
      Insert(cs[0], Sort(cs[1..], less), less)
  }

  function Insert(c: Cookie, cs: seq<Cookie>, less: Order): (r: seq<Cookie>)
    ensures |r| == |cs| + 1 && multiset(r) == multiset{c} + multiset(cs)
  {
    if cs == [] then [c]
    else if less(c, cs[0]) then [c] + cs
    else
      assert cs == [cs[0]] + cs[1..];
      [cs[0]] + Insert(c, cs[1..], less)
  }

  lemma {:induction false} SameElements(a: seq<Cookie>, b: seq<Cookie>)
    requires multiset(a) == multiset(b)
    ensures forall c :: c in a <==> c in b
  {
    forall c ensures c in a <==> c in b {
      assert c in a <==> c in multiset(a);
      assert c in b <==> c in multiset(b);
    }
  }

  lemma {:induction false} InsertInOrder(c: Cookie, cs: seq<Cookie>, less: Order)
    requires StrictTotal(less) && InOrder(cs, less) && forall d :: d in cs ==> d.creation != c.creation
    ensures InOrder(Insert(c, cs, less), less)
  {
    if cs != [] && !less(c, cs[0]) {
      var rest := Insert(c, cs[1..], less);
      InsertInOrder(c, cs[1..], less);
      forall d | d in rest ensures less(cs[0], d) {
        assert d in multiset(rest);
        if d != c {
          assert d in multiset(cs[1..]) && d in cs[1..];
        }
      }
    }
  }

  lemma {:induction false} SortInOrder(cs: seq<Cookie>, less: Order)
    requires StrictTotal(less) && DistinctStamps(cs)
    ensures InOrder(Sort(cs, less), less)
  {
    if cs == [] {
    } else {
      SortInOrder(cs[1..], less);
      var rest := Sort(cs[1..], less);
      SameElements(rest, cs[1..]);
      forall d | d in rest ensures d.creation != cs[0].creation {
        var k :| 0 <= k < |cs[1..]| && cs[1..][k] == d;
        assert cs[k + 1] == d;
      }
      InsertInOrder(cs[0], rest, less);
    }
  }

  lemma {:induction false} SameFirst(a: seq<Cookie>, b: seq<Cookie>, less: Order)
    requires StrictTotal(less) && DistinctStamps(a) && a != [] && b != []
    requires InOrder(a, less) && InOrder(b, less) && a[0] in b && b[0] in a
    ensures a[0] == b[0]
  {
    var k :| 0 <= k < |a| && a[k] == b[0];
    var m :| 0 <= m < |b| && b[m] == a[0];
  }

  /** No other arrangement is in order: any correct sort gives the same list. */
  lemma {:induction false} OrderIsUnique(a: seq<Cookie>, b: seq<Cookie>, less: Order)
    requires StrictTotal(less) && DistinctStamps(a) && multiset(a) == multiset(b)
    requires InOrder(a, less) && InOrder(b, less)
    ensures a == b
  {
    assert |a| == |multiset(a)| == |multiset(b)| == |b|;
    if a != [] {
      SameElements(a, b);
      SameFirst(a, b, less);
      assert a == [a[0]] + a[1..] && b == [b[0]] + b[1..];
      assert multiset(a[1..]) == multiset(a) - multiset{a[0]};
      assert multiset(b[1..]) == multiset(b) - multiset{b[0]};
      OrderIsUnique(a[1..], b[1..], less);
    }
  }

  // ---------- Choice ----------

  /** Whether the host is one the cookie is for. */
  predicate ForHost(c: Cookie, host: string, ip: string -> bool) {
    || c.domain.None?
    || (c.tailmatch && !ip(host) && TailMatch(c.domain.value, host))
    || ((!c.tailmatch || ip(host)) && Fold(host) == Fold(c.domain.value))
  }

  /** For a tail matched cookie that is domain matching of section 5.1.3, and for others equality. */
  lemma {:induction false} ForHostIsDomainMatch(c: Cookie, host: string, ip: string -> bool)
    requires c.domain.Some?
    ensures c.tailmatch ==> (ForHost(c, host, ip) <==> DomainMatch(c.domain.value, host, ip))
    ensures !c.tailmatch ==> (ForHost(c, host, ip) <==> Fold(c.domain.value) == Fold(host))
  {
    if !ip(host) {
      TailMatchIsDomainMatch(c.domain.value, host, ip);
    }
  }

  /** Whether the cookie goes into a request. */
  predicate Wanted(c: Cookie, host: string, path: string, secure: bool, ip: string -> bool) {
    && (c.secure ==> secure)
    && ForHost(c, host, ip)
    && (c.path.Some? ==> PathMatch(c.path.value, path))
  }

  /** The cookies of a list that go into a request. */
  function Pick(cs: seq<Cookie>, host: string, path: string, secure: bool, ip: string -> bool): seq<Cookie> {
    if cs == [] then []
    else (if Wanted(cs[0], host, path, secure, ip) then [cs[0]] else []) + Pick(cs[1..], host, path, secure, ip)
  }

  lemma {:induction false} PickLeaves(cs: seq<Cookie>, host: string, path: string, secure: bool,
    ip: string -> bool, c: Cookie)
    ensures c in Pick(cs, host, path, secure, ip) <==> c in cs && Wanted(c, host, path, secure, ip)
  {
    if cs == [] {
    } else {
      PickLeaves(cs[1..], host, path, secure, ip, c);
      assert cs == [cs[0]] + cs[1..];
    }
  }

  lemma {:induction false} PickIsSublist(cs: seq<Cookie>, host: string, path: string, secure: bool, ip: string -> bool)
    ensures Sublist(Pick(cs, host, path, secure, ip), cs)
  {
    if cs == [] {
    } else {
      PickIsSublist(cs[1..], host, path, secure, ip);
      if Wanted(cs[0], host, path, secure, ip) {
        assert Pick(cs, host, path, secure, ip)[1..] == Pick(cs[1..], host, path, secure, ip);
      } else {
        assert Pick(cs, host, path, secure, ip) == Pick(cs[1..], host, path, secure, ip);
      }
    }
  }

  /** As many as may be sent. */
  function First(cs: seq<Cookie>): (r: seq<Cookie>)
    ensures r <= cs && |r| <= MAX_SEND
  {
    if |cs| <= MAX_SEND then cs else cs[..MAX_SEND]
  }

  lemma {:induction false} PickStep(list: seq<Cookie>, cs: seq<Cookie>, i: nat, host: string, path: string,
    secure: bool,
    ip: string -> bool)
    requires i < |cs|
    ensures list + Pick(cs[i..], host, path, secure, ip) ==
      (if Wanted(cs[i], host, path, secure, ip) then list + [cs[i]] else list) +
      Pick(cs[i + 1..], host, path, secure, ip)
  {
    assert cs[i..][1..] == cs[i + 1..];
  }

  /** The cookies of a list to send, as a loop that ends at the limit. */
  method Collect(cs: seq<Cookie>, host: string, path: string, secure: bool, ip: string -> bool)
    returns (list: seq<Cookie>)
    ensures list == First(Pick(cs, host, path, secure, ip))
  {
    list := [];
    for i := 0 to |cs|
      invariant |list| < MAX_SEND && list + Pick(cs[i..], host, path, secure, ip) == Pick(cs, host, path, secure, ip)
    {
      PickStep(list, cs, i, host, path, secure, ip);
      if Wanted(cs[i], host, path, secure, ip) {
        list := list + [cs[i]];
        if |list| >= MAX_SEND {
          return;
        }
      }
    }
  }

  /** The cookies of all buckets that go into a request. */
  ghost function PickAll(bs: seq<seq<Cookie>>, host: string, path: string, secure: bool,
    ip: string -> bool): seq<Cookie>
  {
    if bs == [] then [] else Pick(bs[0], host, path, secure, ip) + PickAll(bs[1..], host, path, secure, ip)
  }

  lemma {:induction false} PickNone(cs: seq<Cookie>, host: string, path: string, secure: bool, ip: string -> bool)
    requires forall c :: c in cs ==> !Wanted(c, host, path, secure, ip)
    ensures Pick(cs, host, path, secure, ip) == []
  {
    if cs == [] {
    } else {
      PickNone(cs[1..], host, path, secure, ip);
    }
  }

  /** If only one bucket holds cookies for a request, they are all there are. */
  lemma {:induction false} PickOne(bs: seq<seq<Cookie>>, b: nat, host: string, path: string, secure: bool,
    ip: string -> bool)
    requires b < |bs| && forall i :: 0 <= i < |bs| && i != b ==> Pick(bs[i], host, path, secure, ip) == []
    ensures PickAll(bs, host, path, secure, ip) == Pick(bs[b], host, path, secure, ip)
    decreases |bs|
  {
    if b > 0 {
      assert Pick(bs[0], host, path, secure, ip) == [];
      assert forall i :: 0 <= i < |bs[1..]| ==> bs[1..][i] == bs[i + 1];
      PickOne(bs[1..], b - 1, host, path, secure, ip);
    } else {
      PickNothing(bs[1..], host, path, secure, ip);
    }
  }

  lemma {:induction false} PickNothing(bs: seq<seq<Cookie>>, host: string, path: string, secure: bool,
    ip: string -> bool)
    requires forall i :: 0 <= i < |bs| ==> Pick(bs[i], host, path, secure, ip) == []
    ensures PickAll(bs, host, path, secure, ip) == []
  {
    if bs == [] {
    } else {
      assert forall i :: 0 <= i < |bs[1..]| ==> bs[1..][i] == bs[i + 1];
      PickNothing(bs[1..], host, path, secure, ip);
    }
  }

  /** A cookie the host's bucket is sure to hold: one with a domain, and a dot in it if that is tail matched. */
  predicate Indexed(c: Cookie, ip: string -> bool) {
    && c.domain.Some?
    && (c.tailmatch ==> LastDot(c.domain.value) >= 0 && !ip(c.domain.value))
  }

  /** A cookie for the host is in the host's bucket. */
  lemma {:induction false} InHostBucket(c: Cookie, host: string, ip: string -> bool)
    requires CaseBlind(ip) && Indexed(c, ip) && ForHost(c, host, ip)
    ensures Bucket(c.domain, ip) == Bucket(Some(host), ip)
  {
    if c.tailmatch && !ip(host) {
      BucketBelow(c.domain.value, host, ip);
    } else {
      BucketFolds(c.domain.value, host, ip);
    }
  }

  /** The host's bucket alone gives what all buckets would. */
  lemma {:induction false} OneBucket(bs: seq<seq<Cookie>>, host: string, path: string, secure: bool, ip: string -> bool)
    requires CaseBlind(ip) && |bs| == BUCKETS
    requires forall i, c :: 0 <= i < BUCKETS && c in bs[i] ==> Bucket(c.domain, ip) == i && Indexed(c, ip)
    ensures Pick(bs[Bucket(Some(host), ip)], host, path, secure, ip) == PickAll(bs, host, path, secure, ip)
  {
    var b := Bucket(Some(host), ip);
    forall i | 0 <= i < BUCKETS && i != b ensures Pick(bs[i], host, path, secure, ip) == [] {
      forall c | c in bs[i] ensures !Wanted(c, host, path, secure, ip) {
        if ForHost(c, host, ip) {
          InHostBucket(c, host, ip);
        }
      }
      PickNone(bs[i], host, path, secure, ip);
    }
    PickOne(bs, b, host, path, secure, ip);
  }

  lemma {:induction false} StampsDistinct(cs: seq<Cookie>)
    requires forall t: nat :: Stamped(cs, t) <= 1
    ensures DistinctStamps(cs)
  {
    forall j, k | 0 <= j < k < |cs| ensures cs[j].creation != cs[k].creation {
      if cs[j].creation == cs[k].creation {
        StampedTwice(cs, j, k);
      }
    }
  }

  /** The cookies of a bucket chosen for a request, in the order they are sent. */
  ghost function Request(cs: seq<Cookie>, host: string, path: string, secure: bool, ip: string -> bool): seq<Cookie> {
    Sort(First(Pick(cs, host, path, secure, ip)), SentBefore)
  }

  /** Only wanted cookies are sent, in order, and all of them unless they are too many. */
  lemma {:induction false} RequestSends(cs: seq<Cookie>, host: string, path: string, secure: bool, ip: string -> bool)
    requires forall t: nat :: Stamped(cs, t) <= 1
    ensures InOrder(Request(cs, host, path, secure, ip), SentBefore)
    ensures |Request(cs, host, path, secure, ip)| <= MAX_SEND
    ensures forall c :: c in Request(cs, host, path, secure, ip) ==> c in cs && Wanted(c, host, path, secure, ip)
    ensures |Pick(cs, host, path, secure, ip)| <= MAX_SEND ==>
      forall c :: c in cs && Wanted(c, host, path, secure, ip) ==> c in Request(cs, host, path, secure, ip)
  {
    RequestInOrder(cs, host, path, secure, ip);
    forall c ensures c in Request(cs, host, path, secure, ip) <==> c in First(Pick(cs, host, path, secure, ip)) {
      RequestHas(cs, host, path, secure, ip, c);
    }
    forall c ensures c in Pick(cs, host, path, secure, ip) <==> c in cs && Wanted(c, host, path, secure, ip) {
      PickLeaves(cs, host, path, secure, ip, c);
    }
    FirstHas(Pick(cs, host, path, secure, ip));
  }

  lemma {:induction false} RequestInOrder(cs: seq<Cookie>, host: string, path: string, secure: bool,
    ip: string -> bool)
    requires forall t: nat :: Stamped(cs, t) <= 1
    ensures InOrder(Request(cs, host, path, secure, ip), SentBefore)
    ensures |Request(cs, host, path, secure, ip)| <= MAX_SEND
  {
    var picked := Pick(cs, host, path, secure, ip);
    PickIsSublist(cs, host, path, secure, ip);
    SublistKeeps(picked, cs);
    StampsDistinct(picked);
    OrdersAreTotal();
    SortInOrder(First(picked), SentBefore);
  }

  /** Sorting keeps the cookies of a request. */
  lemma {:induction false} RequestHas(cs: seq<Cookie>, host: string, path: string, secure: bool, ip: string -> bool,
    c: Cookie)
    ensures c in Request(cs, host, path, secure, ip) <==> c in First(Pick(cs, host, path, secure, ip))
  {
    var picked := First(Pick(cs, host, path, secure, ip));
    SameElements(picked, Sort(picked, SentBefore));
  }

  lemma {:induction false} FirstHas(cs: seq<Cookie>)
    ensures forall c :: c in First(cs) ==> c in cs
    ensures |cs| <= MAX_SEND ==> First(cs) == cs
  {
  }

  // ---------- The order that section 5.4 of RFC 6265 asks for ----------

  /** Longer paths first, and among those of one length the cookie that was created earlier. */
  predicate RfcBefore(a: Cookie, b: Cookie) {
    if Length(a.path) != Length(b.path) then Length(a.path) > Length(b.path) else a.creation < b.creation
  }

  /** Whether `a` goes first for its domain or its name, whatever its age. */
  predicate Outranks(a: Cookie, b: Cookie) {
    || Length(a.domain) > Length(b.domain)
    || (Length(a.domain) == Length(b.domain) && |a.name| > |b.name|)
  }

  /** Of cookies whose paths are equally long, the older one always outranks the newer. */
  ghost predicate OlderOutrank(cs: seq<Cookie>) {
    forall a, b :: a in cs && b in cs && Length(a.path) == Length(b.path) && a.creation < b.creation ==> Outranks(a, b)
  }

  lemma {:induction false} OutrankedSorted(sorted: seq<Cookie>)
    requires InOrder(sorted, SentBefore) && DistinctStamps(sorted) && OlderOutrank(sorted)
    ensures InOrder(sorted, RfcBefore)
  {
    forall j, k | 0 <= j < k < |sorted| ensures RfcBefore(sorted[j], sorted[k]) {
      var a, b := sorted[j], sorted[k];
      assert SentBefore(a, b) && a.creation != b.creation && a in sorted && b in sorted;
      assert Length(a.path) == Length(b.path) && b.creation < a.creation ==> Outranks(b, a);
    }
  }

  lemma {:induction false} SortedOutranked(sorted: seq<Cookie>)
    requires InOrder(sorted, SentBefore) && InOrder(sorted, RfcBefore)
    ensures OlderOutrank(sorted)
  {
    forall a, b | a in sorted && b in sorted && Length(a.path) == Length(b.path) && a.creation < b.creation
      ensures Outranks(a, b)
    {
      var j :| 0 <= j < |sorted| && sorted[j] == a;
      var k :| 0 <= k < |sorted| && sorted[k] == b;
      assert k < j ==> RfcBefore(sorted[k], sorted[j]);
      assert j < k ==> SentBefore(sorted[j], sorted[k]);
    }
  }

  /** What is sent is in the order of section 5.4 exactly if, where paths are equally long, older cookies outrank. */
  lemma {:induction false} RfcOrderIff(cs: seq<Cookie>)
    requires DistinctStamps(cs)
    ensures InOrder(Sort(cs, SentBefore), RfcBefore) <==> OlderOutrank(cs)
  {
    var sorted := Sort(cs, SentBefore);
    OrdersAreTotal();
    SortInOrder(cs, SentBefore);
    SameElements(cs, sorted);
    assert OlderOutrank(cs) <==> OlderOutrank(sorted);
    if OlderOutrank(cs) {
      SortedStamps(cs, SentBefore);
      OutrankedSorted(sorted);
    }
    if InOrder(sorted, RfcBefore) {
      SortedOutranked(sorted);
    }
  }

  lemma {:induction false} InsertCount(c: Cookie, cs: seq<Cookie>, less: Order, t: nat)
    ensures Stamped(Insert(c, cs, less), t) == One(c.creation == t) + Stamped(cs, t)
  {
    if cs == [] {
      StampedOne(c, t);
    } else if less(c, cs[0]) {
      assert ([c] + cs)[1..] == cs;
    } else {
      InsertCount(c, cs[1..], less, t);
      assert Insert(c, cs, less)[1..] == Insert(c, cs[1..], less);
    }
  }

  /** Sorting keeps the stamps. */
  lemma {:induction false} SortCount(cs: seq<Cookie>, less: Order, t: nat)
    ensures Stamped(Sort(cs, less), t) == Stamped(cs, t)
  {
    if cs == [] {
    } else {
      SortCount(cs[1..], less, t);
      InsertCount(cs[0], Sort(cs[1..], less), less, t);
    }
  }

  lemma {:induction false} DistinctCount(cs: seq<Cookie>, t: nat)
    requires DistinctStamps(cs)
    ensures Stamped(cs, t) <= 1
  {
    if cs == [] {
    } else {
      assert forall k :: 0 < k < |cs| ==> cs[1..][k - 1] == cs[k];
      DistinctCount(cs[1..], t);
      if cs[0].creation == t {
        NoneStamped(cs[1..], t);
      }
    }
  }

  lemma {:induction false} NoneStamped(cs: seq<Cookie>, t: nat)
    requires forall k :: 0 <= k < |cs| ==> cs[k].creation != t
    ensures Stamped(cs, t) == 0
  {
    if cs == [] {
    } else {
      NoneStamped(cs[1..], t);
    }
  }

  lemma {:induction false} SortedStamps(cs: seq<Cookie>, less: Order)
    requires DistinctStamps(cs)
    ensures DistinctStamps(Sort(cs, less))
  {
    forall t: nat ensures Stamped(Sort(cs, less), t) <= 1 {
      SortCount(cs, less, t);
      DistinctCount(cs, t);
    }
    StampsDistinct(Sort(cs, less));
  }

  /** Two cookies that differ in age only are sent with the newer first. */
  lemma {:induction false} NewerFirst(a: Cookie, b: Cookie, host: string, path: string, secure: bool,
    ip: string -> bool)
    requires Wanted(a, host, path, secure, ip) && Wanted(b, host, path, secure, ip) && a.creation < b.creation
    requires Length(a.path) == Length(b.path) && Length(a.domain) == Length(b.domain) && |a.name| == |b.name|
    ensures Request([a, b], host, path, secure, ip) == [b, a] && !InOrder([b, a], RfcBefore)
  {
    assert [a, b][1..] == [b] && [b][1..] == [];
    assert Pick([b], host, path, secure, ip) == [b] && Pick([a, b], host, path, secure, ip) == [a, b];
    assert Sort([b], SentBefore) == [b];
    assert !SentBefore(a, b);
    assert Insert(a, [b], SentBefore) == [b, a];
    assert !RfcBefore([b, a][0], [b, a][1]);
  }

  /** There are such cookies. */
  lemma {:induction false} TwoOfAKind(a: Cookie, b: Cookie, host: string, path: string, secure: bool,
    ip: string -> bool)
    requires a == Cookie(['x'], "", Some(['/']), Some(host), 0, 1, false, false, true, false, false, false)
    requires b == Cookie(['y'], "", Some(['/']), Some(host), 0, 2, false, false, true, false, false, false)
    ensures Request([a, b], host, path, secure, ip) == [b, a] && !InOrder([b, a], RfcBefore)
  {
    NewerFirst(a, b, host, path, secure, ip);
  }
}
