/** Cookies set by responses, and whole lives of a cookie jar (lib/cookie.c). */
module CookieRuns {
  import opened Basics
  import opened CookieText
  import opened CookieLists
  import opened CookieOrder
  import opened CookieHeader
  import opened CookieFile
  import opened CookieJar
  import opened CookieStore

  // ---------- Secure cookies are not overlaid ----------

  /** A secure cookie with a path is not replaced by one that is neither secure nor from a secure origin. */
  lemma {:induction false} SameKeyShields(c: Cookie, co: Cookie)
    requires SameKey(c, co) && c.secure && !co.secure && co.path.Some?
    ensures Shields(c, co, false)
  {
    if c.domain.Some? {
      var d, e := c.domain.value, co.domain.value;
      assert |d| == |Fold(d)| == |Fold(e)| == |e|;
      assert e[0..] == e;
    }
  }

  lemma {:induction false} SecureStays(found: seq<seq<Cookie>>, after: seq<seq<Cookie>>, b: nat, co: Cookie,
    stamp: nat, stored: Option<Cookie>, i: nat, c: Cookie)
    requires Settled(found, after, b, co, false, stamp, stored) && co.path.Some? && !co.secure
    requires i < |found| && c in found[i] && c.secure
    ensures |after| == |found| && c in after[i]
  {
    if i == b && !RefusedBy(found[b], co, false) {
      var k :| 0 <= k < |found[b]| && found[b][k] == c;
      if SameKey(c, co) {
        SameKeyShields(c, co);
      }
      OthersLeaves(found[b], co, c);
    }
  }

  /** The new cookie lies at or below the path of the old one, whose name and domain relate to its own. */
  predicate Overlays(co: Cookie, c: Cookie) {
    && c.name == co.name && RelatedDomains(c, co)
    && c.path.Some? && co.path.Some? && c.path.value <= co.path.value
  }

  lemma {:induction false} NoneOverlaid(found: seq<seq<Cookie>>, after: seq<seq<Cookie>>, b: nat, co: Cookie,
    stamp: nat, stored: Option<Cookie>, c: Cookie)
    requires Settled(found, after, b, co, false, stamp, stored) && stored.Some? && !co.secure
    requires c in after[b] && c.secure
    ensures !Overlays(co, c)
  {
    OthersLeaves(found[b], co, c);
    var k :| 0 <= k < |found[b]| && found[b][k] == c;
    assert !Refuses(found[b][k], co, false);
    if c.path.Some? && co.path.Some? {
      assert FirstSegment(c.path.value) <= c.path.value;
    }
  }

  /** A new cookie that, but for its path, a secure one keeps from being set. */
  predicate Rivals(c: Cookie, co: Cookie) {
    && c.name == co.name && RelatedDomains(c, co) && c.secure && !co.secure
    && c.path.Some? && c.path.value != "" && c.path.value[0] == '/'
    && co.path.Some? && co.path.value != "" && co.path.value[0] == '/'
  }

  /** What follows the first segment of a path, if anything, is a slash. */
  lemma {:induction false} SegmentEnds(s: string)
    ensures |UpToSlash(s)| < |s| ==> s[|UpToSlash(s)|] == '/'
  {
    if s == "" || s[0] == '/' {
    } else {
      SegmentEnds(s[1..]);
    }
  }

  /** Only "/" has nothing but itself and what is below it in its first segment. */
  lemma {:induction false} SegmentExact(p: string, path: string)
    requires p != "" && p[0] == '/'
    requires if |p| == 1 then path != "" && path[0] == '/' else path == FirstSegment(p) + ['x']
    ensures path != "" && path[0] == '/' && FirstSegment(p) <= path
    ensures PathMatch(p, path) <==> |p| == 1
  {
    if |p| == 1 {
      assert p[1..] == "" && FirstSegment(p) == p;
    } else {
      var n := |FirstSegment(p)|;
      SegmentEnds(p[1..]);
      assert n < |p| ==> p[n] == p[1..][n - 1] == '/';
      assert path[n] == 'x';
    }
  }

  /** What lies at or below the path of a secure cookie is always refused, so none is overlaid. */
  lemma {:induction false} OverlayRefused(c: Cookie, co: Cookie)
    requires Rivals(c, co)
    ensures PathMatch(c.path.value, co.path.value) ==> Shields(c, co, false)
  {
    var p := c.path.value;
    assert FirstSegment(p) <= p;
    if |p| == 1 {
      SegmentExact(p, co.path.value);
    }
  }

  /** The cookies a secure one keeps away are just those at or below its path. */
  ghost predicate ShieldsOnly(c: Cookie) {
    forall co :: Rivals(c, co) ==> (Shields(c, co, false) <==> PathMatch(c.path.value, co.path.value))
  }

  /** That is so exactly if its path is "/"; any longer path keeps others away as well. */
  lemma {:induction false} OverlayExact(c: Cookie)
    requires c.secure && c.path.Some? && c.path.value != "" && c.path.value[0] == '/'
    ensures ShieldsOnly(c) <==> |c.path.value| == 1
  {
    var p := c.path.value;
    if |p| == 1 {
      forall co | Rivals(c, co) ensures Shields(c, co, false) <==> PathMatch(p, co.path.value) {
        SegmentExact(p, co.path.value);
      }
    } else {
      var path := FirstSegment(p) + ['x'];
      var co := c.(path := Some(path), secure := false);
      SegmentExact(p, path);
      OwnDomainRelated(c, co);
      assert Rivals(c, co) && Shields(c, co, false) && !PathMatch(p, co.path.value);
    }
  }

  lemma {:induction false} OwnDomainRelated(c: Cookie, co: Cookie)
    requires c.domain == co.domain
    ensures RelatedDomains(c, co)
  {
    if c.domain.Some? {
      var d := c.domain.value;
      assert d[0..] == d;
    }
  }

  /** "/loginhelper" is refused beside a secure cookie at "/login", although it is not below that. */
  lemma {:induction false} LoginHelper(c: Cookie, co: Cookie, s: string)
    requires Rivals(c, co) && s == "/login" && c.path == Some(s) && co.path == Some(s + "helper")
    ensures Shields(c, co, false) && !PathMatch(c.path.value, co.path.value)
  {
    UpToSlashAll(s[1..]);
    assert s == s[..1] + s[1..];
    assert co.path.value[6] == 'h';
  }

  /** So is "/a/c" beside "/a/b": only the first segment counts. */
  lemma {:induction false} SecondSegment(c: Cookie, co: Cookie)
    requires Rivals(c, co) && c.path == Some("/a/b") && co.path == Some("/a/c")
    ensures Shields(c, co, false) && !PathMatch(c.path.value, co.path.value)
  {
    var p := c.path.value;
    assert p[1..][0] == 'a' && p[1..][1..][0] == '/';
    assert UpToSlash(p[1..]) == ['a'];
    assert FirstSegment(p) == ['/', 'a'];
    assert co.path.value[..2] == ['/', 'a'] && co.path.value[3] != p[3];
  }

  lemma {:induction false} UpToSlashAll(s: string)
    requires '/' !in s
    ensures UpToSlash(s) == s
  {
    if s == "" {
    } else {
      UpToSlashAll(s[1..]);
    }
  }

  /**
   * A cookie that is in no new one's way: it has another name; or the new one was set by a header, and
   * it is not secure, the new one is or may be, or their domains do not match either way.
   */
  ghost predicate Harmless(c: Cookie, co: Cookie, secureOrigin: bool) {
    || c.name != co.name
    || (co.live && (secureOrigin || co.secure || !c.secure))
    || (co.live && c.domain.Some? && co.domain.Some?
        && !DomainMatch(c.domain.value, co.domain.value, _ => false)
        && !DomainMatch(co.domain.value, c.domain.value, _ => false))
  }

  /** If all are harmless, the new cookie is stored, and of the others only one with its key goes. */
  lemma {:induction false} MustStore(found: seq<seq<Cookie>>, after: seq<seq<Cookie>>, b: nat, co: Cookie,
    secureOrigin: bool, stamp: nat, stored: Option<Cookie>, c: Cookie)
    requires Settled(found, after, b, co, secureOrigin, stamp, stored)
    requires forall k :: 0 <= k < |found[b]| ==> Harmless(found[b][k], co, secureOrigin)
    ensures stored.Some? && stored.value == co.(creation := stored.value.creation)
    ensures c in found[b] && !(c.name == co.name && c.path == co.path && SameDomain(c, co)) ==> c in after[b]
    ensures c in after[b] && c.name == co.name && c.path == co.path && SameDomain(c, co) ==> c == stored.value
  {
    forall k | 0 <= k < |found[b]| ensures !Refuses(found[b][k], co, secureOrigin) {
      HarmlessPasses(found[b][k], co, secureOrigin);
    }
    OthersLeaves(found[b], co, c);
  }

  /** Both have the same domain, case aside, and are matched the same way, or neither has one. */
  ghost predicate SameDomain(a: Cookie, b: Cookie) {
    if a.domain.Some? && b.domain.Some? then Fold(a.domain.value) == Fold(b.domain.value) && a.tailmatch == b.tailmatch
    else a.domain == b.domain
  }

  lemma {:induction false} HarmlessPasses(c: Cookie, co: Cookie, secureOrigin: bool)
    requires Harmless(c, co, secureOrigin)
    ensures !Refuses(c, co, secureOrigin)
  {
    if c.domain.Some? && co.domain.Some? {
      TailMatchIsDomainMatch(c.domain.value, co.domain.value, _ => false);
      TailMatchIsDomainMatch(co.domain.value, c.domain.value, _ => false);
    }
  }

  /** What a cookie that is not secure, from an insecure origin, leaves alone. */
  ghost predicate Respects(was: seq<seq<Cookie>>, after: seq<seq<Cookie>>, now: int) {
    && |was| == |after|
    && forall i, c :: 0 <= i < |was| && c in was[i] && c.secure && !Expired(c, now) ==> c in after[i]
  }

  ghost predicate OverlaysNone(cs: seq<Cookie>, co: Cookie) {
    forall c :: c in cs && c.secure ==> !Overlays(co, c)
  }

  lemma {:induction false} SettledRespects(was: seq<seq<Cookie>>, after: seq<seq<Cookie>>, b: nat, co: Cookie, now: int,
    stamp: nat, stored: Option<Cookie>)
    requires Settled(SweepAll(was, now), after, b, co, false, stamp, stored) && !co.secure && co.path.Some?
    ensures Respects(was, after, now)
    ensures stored.Some? ==> OverlaysNone(after[b], stored.value)
  {
    var found := SweepAll(was, now);
    forall i, c | 0 <= i < |was| && c in was[i] && c.secure && !Expired(c, now) ensures c in after[i] {
      SweepLeaves(was[i], now, c);
      SecureStays(found, after, b, co, stamp, stored, i, c);
    }
    if stored.Some? {
      forall c | c in after[b] && c.secure ensures !Overlays(stored.value, c) {
        NoneOverlaid(found, after, b, co, stamp, stored, c);
      }
    }
  }

  // ---------- A Set-Cookie header ----------

  /** Adds the cookie of a response. */
  method AddFromResponse(jar: Jar, co: Cookie, secureOrigin: bool, now: int) returns (stored: Option<Cookie>)
    requires jar.Valid() && co.path.Some? && (jar.running && !secureOrigin ==> !co.secure)
    modifies jar`buckets, jar`numCookies, jar`nextExpiration, jar`lastCt
    ensures jar.Valid()
    ensures jar.running && !secureOrigin ==> Respects(old(jar.buckets), jar.buckets, now)
    ensures stored.Some? ==> PrefixOk(stored.value)
    ensures stored.Some? ==>
      && stored.value == co.(live := jar.running, creation := stored.value.creation)
      && stored.value in jar.buckets[Bucket(co.domain, jar.ip)]
      && (jar.running && !secureOrigin ==> OverlaysNone(jar.buckets[Bucket(co.domain, jar.ip)], stored.value))
  {
    ghost var was := jar.buckets;
    stored := jar.Add(co, false, secureOrigin, now);
    if jar.Admits(co) && jar.running && !secureOrigin {
      SettledRespects(was, jar.buckets, Bucket(co.domain, jar.ip), co.(live := true), now, jar.lastCt, stored);
    }
  }

  /** What its name promises of a cookie: secure, and if of one host only, for that host and all paths. */
  predicate KeepsPrefix(name: string, c: Cookie) {
    && ("__Secure-" <= name ==> c.secure)
    && ("__Host-" <= name ==> c.secure && !c.tailmatch && c.path == Some("/"))
  }

  lemma {:induction false} PrefixSays(name: string, c: Cookie)
    requires PrefixOk(c) && c.prefixSecure == SecureName(name)
    requires c.prefixHost == (!SecureName(name) && HostName(name))
    ensures KeepsPrefix(name, c)
  {
    if HostName(name) {
      assert name[2] == "__Host-"[2] && "__Secure-"[2] == 'S';
      assert c.path.value == "/";
    }
  }

  /** Sets a cookie for a response from the host. */
  method SetCookie(jar: Jar, name: string, value: string, attrs: seq<Attribute>, host: string, path: string,
    secureOrigin: bool, now: Time) returns (stored: Option<Cookie>)
    requires jar.Valid() && !jar.ip([':']) && now >= 0
    modifies jar`buckets, jar`numCookies, jar`nextExpiration, jar`lastCt
    ensures jar.Valid()
    ensures jar.running && !secureOrigin ==> Respects(old(jar.buckets), jar.buckets, now)
    ensures stored.Some? ==>
      var c, b := stored.value, Bucket(stored.value.domain, jar.ip);
      && Says(c, name, value, attrs, path, host, now) && OwnDomain(c, host, jar.ip)
      && c in jar.buckets[b]
      && (jar.running && !secureOrigin ==> !c.secure && OverlaysNone(jar.buckets[b], c))
    ensures stored.Some? ==> KeepsPrefix(name, stored.value)
  {
    var co := Parse(name, value, attrs, host, path, jar.running && !secureOrigin, now, jar.ip);
    if co.None? {
      return None;
    }
    stored := AddFromResponse(jar, co.value, secureOrigin, now);
    if stored.Some? {
      PrefixSays(name, stored.value);
    }
  }

  /** The cookie is found from the host if it is for it: it is indexed, or the host is its domain itself. */
  predicate Findable(c: Cookie, host: string, ip: string -> bool) {
    Indexed(c, ip) || (c.domain.Some? && Fold(c.domain.value) == Fold(host))
  }

  /** The host that sets a cookie is one the cookie is for, and looks in the right bucket if it is findable. */
  lemma {:induction false} SetterSees(c: Cookie, host: string, ip: string -> bool)
    requires CaseBlind(ip) && OwnDomain(c, host, ip)
    ensures c.domain != Some([':']) ==> ForHost(c, host, ip)
    ensures Findable(c, host, ip) && ForHost(c, host, ip) ==> Bucket(c.domain, ip) == Bucket(Some(host), ip)
  {
    if Indexed(c, ip) && ForHost(c, host, ip) {
      InHostBucket(c, host, ip);
    } else if Findable(c, host, ip) {
      BucketFolds(c.domain.value, host, ip);
    }
  }

  /**
   * Of cookies set by headers, the index can lose only those that are tail matched for localhost or a
   * numeric address, and those only for hosts strictly below that domain.
   */
  lemma {:induction false} HeaderFindable(c: Cookie, host: string, ip: string -> bool)
    requires OwnDomain(c, host, ip) && c.domain != Some([':'])
    ensures Findable(c, host, ip) <==>
      (c.tailmatch && Fold(c.domain.value) != Fold(host) ==> !IsLocalhost(c.domain.value) && !ip(c.domain.value))
  {
    var d := c.domain.value;
    if IsLocalhost(d) {
      assert forall i :: 0 <= i < |d| ==> Fold(d)[i] == Upper(d[i]) != '.';
    } else if c.tailmatch {
      assert d[FirstDot(d)] == '.';
    }
  }

  /** A cookie for the domain ":" is for no host but that and what lies below it, neither of them a host name. */
  lemma {:induction false} ColonForNone(c: Cookie, host: string, ip: string -> bool)
    requires c.domain == Some([':'])
    ensures ForHost(c, host, ip) <==>
      || host == [':']
      || (c.tailmatch && !ip(host) && |host| > 1 && host[|host| - 2] == '.' && host[|host| - 1] == ':')
  {
    assert Fold([':']) == [':'];
    if |host| == 1 {
      assert Fold(host)[0] == Upper(host[0]);
    }
    if |host| >= 1 {
      var n := |host| - 1;
      assert host[n..] == [host[n]] && Fold(host[n..])[0] == Upper(host[n]);
    }
  }

  /** In a jar that can send all it has, every wanted cookie of the host's bucket is sent. */
  lemma {:induction false} AllSent(jar: Jar, b: nat, host: string, path: string, secure: bool, c: Cookie)
    requires jar.Valid() && b < BUCKETS && jar.numCookies <= MAX_SEND
    requires c in jar.buckets[b] && Wanted(c, host, path, secure, jar.ip)
    ensures c in Request(jar.buckets[b], host, path, secure, jar.ip)
  {
    var cs := jar.buckets[b];
    forall t: nat ensures Stamped(cs, t) <= 1 {
      StampedBound(jar.buckets, b, t);
    }
    StampedBound(jar.buckets, b, 0);
    PickIsSublist(cs, host, path, secure, jar.ip);
    SublistKeeps(Pick(cs, host, path, secure, jar.ip), cs);
    RequestSends(cs, host, path, secure, jar.ip);
  }

  /**
   * A cookie that a host sets is sent back to it exactly if it is for the host, not expired, allowed
   * and below its path. The index may only lose one that is for the host but not findable from it.
   */
  method SetThenSend(jar: Jar, name: string, value: string, attrs: seq<Attribute>, host: string, path: string,
    secureOrigin: bool, now: Time, request: string, secure: bool) returns (stored: Option<Cookie>, list: seq<Cookie>)
    requires jar.Valid() && !jar.ip([':']) && now >= 0
    modifies jar`buckets, jar`numCookies, jar`nextExpiration, jar`lastCt
    ensures jar.Valid() && (stored.Some? ==> stored.value.domain.Some? && stored.value.path.Some?)
    ensures stored.Some? && jar.numCookies <= MAX_SEND ==>
      var c := stored.value;
      (ForHost(c, host, jar.ip) ==> Findable(c, host, jar.ip)) ==>
        (c in list <==>
          ForHost(c, host, jar.ip) && !Expired(c, now) && (c.secure ==> secure) && PathMatch(c.path.value, request))
    ensures stored.Some? && stored.value.domain != Some([':']) ==> ForHost(stored.value, host, jar.ip)
  {
    stored := SetCookie(jar, name, value, attrs, host, path, secureOrigin, now);
    ghost var was := jar.buckets;
    var okay;
    okay, list := jar.GetList(host, request, secure, now);
    if stored.Some? {
      SetterSees(stored.value, host, jar.ip);
      var c := stored.value;
      if okay && jar.numCookies <= MAX_SEND && (ForHost(c, host, jar.ip) ==> Findable(c, host, jar.ip)) {
        SentBack(jar, was, c, host, request, secure, now);
      }
    }
  }

  lemma {:induction false} SentBack(jar: Jar, was: seq<seq<Cookie>>, c: Cookie, host: string, path: string,
    secure: bool,
    now: int)
    requires jar.Valid() && |was| == BUCKETS && c in was[Bucket(c.domain, jar.ip)]
    requires Wanted(c, host, path, secure, jar.ip) ==> Bucket(c.domain, jar.ip) == Bucket(Some(host), jar.ip)
    requires jar.buckets == SweepAll(was, now) && jar.numCookies <= MAX_SEND
    ensures Wanted(c, host, path, secure, jar.ip) && !Expired(c, now) ==>
      c in Request(Sweep(was[Bucket(Some(host), jar.ip)], now), host, path, secure, jar.ip)
  {
    var b := Bucket(Some(host), jar.ip);
    if Wanted(c, host, path, secure, jar.ip) && !Expired(c, now) {
      SweepLeaves(was[b], now, c);
      AllSent(jar, b, host, path, secure, c);
    }
  }

  lemma {:induction false} RequestFrom(cs: seq<Cookie>, host: string, path: string, secure: bool, ip: string -> bool,
    c: Cookie)
    requires c in Request(cs, host, path, secure, ip)
    ensures c in cs
  {
    var picked := First(Pick(cs, host, path, secure, ip));
    SameElements(picked, Sort(picked, SentBefore));
    PickLeaves(cs, host, path, secure, ip, c);
  }

  /** What goes into a request was placed in the host's bucket. */
  lemma {:induction false} SentIsHome(jar: Jar, c: Cookie, b: nat, host: string, path: string, secure: bool, now: int)
    requires jar.Valid() && b < BUCKETS
    requires c in Request(Sweep(jar.buckets[b], now), host, path, secure, jar.ip)
    ensures Bucket(c.domain, jar.ip) == b
  {
    RequestFrom(Sweep(jar.buckets[b], now), host, path, secure, jar.ip, c);
    SweepLeaves(jar.buckets[b], now, c);
    HomedAll(jar.buckets[b], b, jar.ip, jar.lastCt);
  }

  /** A cookie the host sets for a domain other than itself that is in another bucket is never sent back to it. */
  method SetElsewhere(jar: Jar, name: string, value: string, domain: string, host: string, path: string,
    secureOrigin: bool, now: Time, request: string, secure: bool) returns (stored: Option<Cookie>, list: seq<Cookie>)
    requires jar.Valid() && !jar.ip([':']) && now >= 0 && Bare(domain) != "" && Bare(domain) != host
    requires Bucket(Some(Bare(domain)), jar.ip) != Bucket(Some(host), jar.ip)
    modifies jar`buckets, jar`numCookies, jar`nextExpiration, jar`lastCt
    ensures stored.Some? ==> stored.value.domain == Some(Bare(domain)) && stored.value !in list
    ensures stored.Some? && Bare(domain) != [':'] ==> ForHost(stored.value, host, jar.ip)
  {
    var attrs := [DomainIs(domain)];
    assert LastDomain(attrs) == Bare(domain);
    stored := SetCookie(jar, name, value, attrs, host, path, secureOrigin, now);
    if stored.Some? {
      SetterSees(stored.value, host, jar.ip);
      NotHome(jar, stored.value, Bucket(Some(host), jar.ip), host, request, secure, now);
    }
    var okay;
    okay, list := jar.GetList(host, request, secure, now);
  }

  lemma {:induction false} NotHome(jar: Jar, c: Cookie, b: nat, host: string, path: string, secure: bool, now: int)
    requires jar.Valid() && b < BUCKETS && Bucket(c.domain, jar.ip) != b
    ensures c !in Request(Sweep(jar.buckets[b], now), host, path, secure, jar.ip)
  {
    if c in Request(Sweep(jar.buckets[b], now), host, path, secure, jar.ip) {
      SentIsHome(jar, c, b, host, path, secure, now);
    }
  }

  lemma {:induction false} NotRejected(domain: string, host: string, insecure: bool, ip: string -> bool)
    requires Fits(Bare(domain), host, ip)
    ensures !Rejected([DomainIs(domain)], host, insecure, ip)
  {
    var attrs := [DomainIs(domain)];
    assert attrs[..0] == [];
  }

  lemma {:induction false} FoldOfLocalhost(s: string)
    requires s == "localhost"
    ensures IsLocalhost(s) && s[0] != '.'
  {
  }

  /** Such a host is "a.localhost", and it may set a cookie for "localhost". */
  lemma {:induction false} LocalhostLost(domain: string, host: string, insecure: bool, ip: string -> bool)
    requires domain == "localhost" && host == "a.localhost" && !ip(domain) && !ip(host)
    ensures Bare(domain) == domain && !Rejected([DomainIs(domain)], host, insecure, ip)
    ensures Bucket(Some(domain), ip) != Bucket(Some(host), ip)
  {
    FoldOfLocalhost(domain);
    NoDotNoBucket(domain, host, ip);
    NotRejected(domain, host, insecure, ip);
  }

  // ---------- Whole lives ----------

  datatype Op =
    | Set(name: string, value: string, attrs: seq<Attribute>, host: string, path: string, secureOrigin: bool)
    | Send(host: string, path: string, secure: bool)
    | AddLine(line: string)
    | LoadFile(lines: seq<string>, newSession: bool)
    | SaveFile
    | ClearAll
    | ClearSession
    | Start

  /** One operation; the clock may show anything. */
  method Apply(jar: Jar, op: Op, now: Time)
    requires jar.Valid() && !jar.ip([':']) && now >= 0
    modifies jar
    ensures jar.Valid()
  {
    match op {
      case Set(name, value, attrs, host, path, secureOrigin) =>
        var _ := SetCookie(jar, name, value, attrs, host, path, secureOrigin, now);
      case Send(host, path, secure) =>
        var _, _ := jar.GetList(host, path, secure, now);
      case AddLine(line) =>
        var co := ParseLine(line, true);
        if co.Some? {
          var _ := jar.Add(co.value, false, true, now);
        }
      case LoadFile(lines, newSession) =>
        Load(jar, lines, newSession, now, []);
      case SaveFile =>
        var _ := Save(jar, now);
      case ClearAll =>
        jar.ClearAll();
      case ClearSession =>
        jar.ClearSession();
      case Start =>
        jar.running := true;
    }
  }

  /** In every jar that operations lead to, books, places, stamps, keys and the noted time are right. */
  method Live(ip: string -> bool, ops: seq<(Op, Time)>) returns (jar: Jar)
    requires CaseBlind(ip) && !ip([':']) && forall k :: 0 <= k < |ops| ==> ops[k].1 >= 0
    ensures fresh(jar) && jar.Valid() && jar.ip == ip
  {
    jar := new Jar(ip);
    for k := 0 to |ops|
      invariant fresh(jar) && jar.Valid() && jar.ip == ip
    {
      Apply(jar, ops[k].0, ops[k].1);
    }
  }
}
