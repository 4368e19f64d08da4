/** Domains, paths and buckets of cookies (lib/cookie.c), after sections 5.1.3 and 5.1.4 of RFC 6265. */
module CookieText {
  import opened Basics

  // ---------- Letter case ----------

  function Upper(c: char): char {
    if 'a' <= c <= 'z' then (c as int - 32) as char else c
  }

  /** The string in upper case; strings are equal without regard to case if their folds are. */
  function Fold(s: string): (r: string)
    ensures |r| == |s| && forall i :: 0 <= i < |s| ==> r[i] == Upper(s[i])
  {
    seq(|s|, i requires 0 <= i < |s| => Upper(s[i]))
  }

  lemma {:induction false} FoldConcat(a: string, b: string)
    ensures Fold(a + b) == Fold(a) + Fold(b)
  {
  }

  lemma {:induction false} FoldParts(s: string, k: nat)
    requires k <= |s|
    ensures Fold(s[..k]) == Fold(s)[..k] && Fold(s[k..]) == Fold(s)[k..]
  {
  }

  // ---------- Domains ----------

  /** Whether the host is the domain or lies below it. */
  predicate TailMatch(domain: string, host: string) {
    && |host| >= |domain|
    && Fold(host[|host| - |domain|..]) == Fold(domain)
    && (|host| == |domain| || host[|host| - |domain| - 1] == '.')
  }

  /** Domain matching of section 5.1.3: identical, or a host name that ends in a dot and the domain. */
  ghost predicate DomainMatch(domain: string, host: string, ip: string -> bool) {
    || Fold(host) == Fold(domain)
    || (!ip(host) && exists p: string :: Fold(host) == p + "." + Fold(domain))
  }

  /** The suffix test is domain matching of host names. The caller must see to numeric addresses. */
  lemma {:induction false} TailMatchIsDomainMatch(domain: string, host: string, ip: string -> bool)
    requires !ip(host)
    ensures TailMatch(domain, host) <==> DomainMatch(domain, host, ip)
  {
    var d := |host| - |domain|;
    if TailMatch(domain, host) {
      assert host == host[..d] + host[d..];
      FoldConcat(host[..d], host[d..]);
      if d > 0 {
        assert Fold(host[..d]) == Fold(host[..d])[..d - 1] + ".";
        assert Fold(host) == Fold(host[..d])[..d - 1] + "." + Fold(domain);
      } else {
        assert host[d..] == host;
      }
    }
    if DomainMatch(domain, host, ip) {
      if Fold(host) == Fold(domain) {
        assert host[d..] == host;
      } else {
        var p: string :| Fold(host) == p + "." + Fold(domain);
        assert Fold(host)[d - 1] == '.' && Fold(host[d..]) == Fold(host)[d..] == Fold(domain);
      }
    }
  }

  // ---------- Paths ----------

  /** The request path; an empty or relative one counts as "/". */
  function RequestPath(uri: string): string {
    if uri == "" || uri[0] != '/' then "/" else uri
  }

  /** Whether the request path is at or below the cookie's path, as the code tests it. */
  predicate PathMatch(cookie: string, uri: string) {
    if |cookie| == 1 then true
    else
      var path := RequestPath(uri);
      cookie <= path && (|cookie| == |path| || path[|cookie|] == '/')
  }

  /** Path matching of section 5.1.4. */
  predicate PathMatchRfc(cookie: string, uri: string) {
    var path := RequestPath(uri);
    || cookie == path
    || (cookie <= path && cookie != "" && cookie[|cookie| - 1] == '/')
    || (cookie <= path && |cookie| < |path| && path[|cookie|] == '/')
  }

  /** A cookie path for which the code and section 5.1.4 agree. */
  predicate PlainPath(cookie: string) {
    if |cookie| == 1 then cookie == "/" else cookie == "" || cookie[|cookie| - 1] != '/'
  }

  /**
   * The code agrees with section 5.1.4 on every request path exactly when the cookie path is "/"
   * or does not end in a slash. "/a/", for one, does not match "/a/b".
   */
  lemma {:induction false} PathMatchAgrees(cookie: string)
    requires cookie != "" ==> cookie[0] == '/'
    ensures PlainPath(cookie) <==>
      forall uri :: PathMatch(cookie, uri) <==> PathMatchRfc(cookie, uri)
    ensures !PathMatch("/a/", "/a/b") && PathMatchRfc("/a/", "/a/b")
  {
    if !PlainPath(cookie) {
      var uri := cookie + "b";
      assert RequestPath(uri) == uri && cookie <= uri;
      assert PathMatchRfc(cookie, uri) && !PathMatch(cookie, uri);
    }
    assert RequestPath("/a/b") == "/a/b" && "/a/" <= "/a/b" && "/a/b"[3] == 'b';
  }

  /** The path as it is stored: without quotes and, if longer than "/", without one last slash. */
  function Sanitize(raw: string): (r: string)
    ensures r != "" && r[0] == '/'
  {
    var open := if raw != "" && raw[0] == '"' then raw[1..] else raw;
    var path :=
      if raw != "" && raw[0] == '"' && open != "" && open[|open| - 1] == '"' then open[..|open| - 1]
      else open;
    if path == "" || path[0] != '/' then "/"
    else if |path| > 1 && path[|path| - 1] == '/' then path[..|path| - 1]
    else path
  }

  /** A path that is stored unchanged. */
  predicate Canonical(path: string) {
    path != "" && path[0] == '/' && (|path| > 1 ==> path[|path| - 1] != '/')
  }

  /** Only one slash is removed: a stored path may still be changed when it is stored again. */
  lemma {:induction false} SanitizeKeeps(path: string)
    ensures Sanitize(path) == path <==> Canonical(path)
    ensures Sanitize("/a//") == "/a/" && Sanitize("/a/") == "/a"
  {
    assert "/a//"[..3] == "/a/" && "/a/"[..2] == "/a";
    if path != "" && path[0] == '"' {
      assert Sanitize(path)[0] != path[0];
    }
  }

  /** Quotes around a path are taken off, a closing one only with an opening one; what is no path counts as "/". */
  lemma {:induction false} SanitizeQuotes(path: string)
    requires Canonical(path) && path[|path| - 1] != '"'
    ensures Sanitize(['"'] + path + ['"']) == path && Sanitize(['"'] + path) == path
  {
    assert (['"'] + path)[1..] == path;
    var open := path + ['"'];
    assert (['"'] + path + ['"'])[1..] == open && open[..|open| - 1] == path;
  }

  lemma {:induction false} SanitizeOther(path: string)
    requires path == "" || (path[0] != '/' && path[0] != '"')
    ensures Sanitize(path) == "/"
  {
  }

  // ---------- Buckets ----------

  const BUCKETS := 63

  /** The last dot of the string, -1 if there is none. */
  function LastDot(s: string): (i: int)
    ensures -1 <= i < |s| && (i >= 0 ==> s[i] == '.')
    ensures forall j :: i < j < |s| ==> s[j] != '.'
  {
    if s == "" then -1
    else if s[|s| - 1] == '.' then |s| - 1
    else LastDot(s[..|s| - 1])
  }

  /** Where the last two labels of a domain begin. */
  function TopStart(domain: string): (k: nat)
    ensures k <= |domain|
  {
    var last := LastDot(domain);
    if last < 0 then 0 else LastDot(domain[..last]) + 1
  }

  /** The last two labels of a domain. */
  function TopDomain(domain: string): string {
    domain[TopStart(domain)..]
  }

  function Code(c: char): bv64 {
    Upper(c) as bv64
  }

  /** One round of the hash, on 64 bits. */
  function Mix(h: bv64, code: bv64): bv64 {
    (h * 33) ^ code
  }

  function Hash(s: string): bv64 {
    if s == "" then 5381 else Mix(Hash(s[..|s| - 1]), Code(s[|s| - 1]))
  }

  /** The hash as a loop. */
  method HashDomain(domain: string) returns (r: nat)
    ensures r == Hash(domain) as nat % BUCKETS
  {
    var h: bv64 := 5381;
    for i := 0 to |domain|
      invariant h == Hash(domain[..i])
    {
      assert domain[..i + 1][..i] == domain[..i];
      h := Mix(h, Code(domain[i]));
    }
    assert domain[..|domain|] == domain;
    r := h as nat % BUCKETS;
  }

  lemma {:induction false} HashFolds(s: string, t: string)
    requires Fold(s) == Fold(t)
    ensures Hash(s) == Hash(t)
    decreases |s|
  {
    assert |s| == |Fold(s)| == |Fold(t)| == |t|;
    if s != "" {
      var n := |s| - 1;
      FoldParts(s, n);
      FoldParts(t, n);
      assert Fold(s)[n] == Upper(s[n]) && Fold(t)[n] == Upper(t[n]);
      HashFolds(s[..n], t[..n]);
    }
  }

  lemma {:induction false} LastDotConcat(a: string, b: string)
    ensures LastDot(a + b) == if LastDot(b) >= 0 then |a| + LastDot(b) else LastDot(a)
  {
    var y := LastDot(b);
    if y >= 0 {
      assert (a + b)[|a| + y] == '.';
      assert forall j :: |a| + y < j < |a + b| ==> (a + b)[j] != '.';
    } else {
      assert forall j :: |a| <= j < |a + b| ==> (a + b)[j] != '.';
      assert LastDot(a) >= 0 ==> (a + b)[LastDot(a)] == '.';
      assert forall j :: LastDot(a) < j < |a| ==> (a + b)[j] != '.';
    }
  }

  lemma {:induction false} LastDotFolds(s: string, t: string)
    requires Fold(s) == Fold(t)
    ensures LastDot(s) == LastDot(t)
  {
    assert |s| == |Fold(s)| == |Fold(t)| == |t|;
    assert forall i :: 0 <= i < |s| ==> (Fold(s)[i] == '.' <==> s[i] == '.');
    assert forall i :: 0 <= i < |t| ==> (Fold(t)[i] == '.' <==> t[i] == '.');
    var x, y := LastDot(s), LastDot(t);
    assert x >= 0 ==> t[x] == '.';
    assert y >= 0 ==> s[y] == '.';
  }

  lemma {:induction false} TopStartFolds(s: string, t: string)
    requires Fold(s) == Fold(t)
    ensures TopStart(s) == TopStart(t)
  {
    assert |s| == |Fold(s)| == |Fold(t)| == |t|;
    LastDotFolds(s, t);
    var last := LastDot(s);
    if last >= 0 {
      FoldParts(s, last);
      FoldParts(t, last);
      LastDotFolds(s[..last], t[..last]);
    }
  }

  lemma {:induction false} TopFolds(s: string, t: string)
    requires Fold(s) == Fold(t)
    ensures Fold(TopDomain(s)) == Fold(TopDomain(t))
  {
    TopStartFolds(s, t);
    FoldParts(s, TopStart(s));
    FoldParts(t, TopStart(t));
  }

  /** Everything below a domain that has a dot has the same last two labels as the domain. */
  lemma {:induction false} TopBelow(above: string, d: string)
    requires LastDot(d) >= 0 && above != "" && above[|above| - 1] == '.'
    ensures TopDomain(above + d) == TopDomain(d)
  {
    var host, last := above + d, LastDot(d);
    LastDotConcat(above, d);
    assert host[..|above| + last] == above + d[..last];
    LastDotConcat(above, d[..last]);
    assert LastDot(above) == |above| - 1;
  }

  /** The bucket of a cookie or a host. Cookies without a domain and numeric addresses share one. */
  function Bucket(domain: Option<string>, ip: string -> bool): (b: nat)
    ensures b < BUCKETS
  {
    if domain.None? || ip(domain.value) then 0 else Hash(TopDomain(domain.value)) as nat % BUCKETS
  }

  /** Recognition of numeric addresses does not depend on letter case. */
  ghost predicate CaseBlind(ip: string -> bool) {
    forall s, t :: Fold(s) == Fold(t) ==> ip(s) == ip(t)
  }

  /** Domains that differ in case only share a bucket. */
  lemma {:induction false} BucketFolds(s: string, t: string, ip: string -> bool)
    requires CaseBlind(ip) && Fold(s) == Fold(t)
    ensures Bucket(Some(s), ip) == Bucket(Some(t), ip)
  {
    TopFolds(s, t);
    HashFolds(TopDomain(s), TopDomain(t));
  }

  lemma {:induction false} TopOfSuffix(domain: string, d: string)
    requires Fold(d) == Fold(domain) && LastDot(domain) >= 0
    ensures LastDot(d) >= 0 && Fold(TopDomain(d)) == Fold(TopDomain(domain))
  {
    LastDotFolds(domain, d);
    TopFolds(domain, d);
  }

  lemma {:induction false} TopFrom(host: string, k: nat)
    requires k <= |host| && LastDot(host[k..]) >= 0 && (k > 0 ==> host[k - 1] == '.')
    ensures TopDomain(host) == TopDomain(host[k..])
  {
    if k > 0 {
      assert host == host[..k] + host[k..];
      TopBelow(host[..k], host[k..]);
    } else {
      assert host[k..] == host;
    }
  }

  /** A host name below a domain that has a dot ends in the same two labels. */
  lemma {:induction false} TopOfHost(domain: string, host: string)
    requires TailMatch(domain, host) && LastDot(domain) >= 0
    ensures Fold(TopDomain(domain)) == Fold(TopDomain(host))
  {
    TopOfTail(domain, host, |host| - |domain|, host[|host| - |domain|..]);
  }

  lemma {:induction false} TopOfTail(domain: string, host: string, k: nat, d: string)
    requires k <= |host| && d == host[k..] && (k > 0 ==> host[k - 1] == '.')
    requires Fold(d) == Fold(domain) && LastDot(domain) >= 0
    ensures Fold(TopDomain(domain)) == Fold(TopDomain(host))
  {
    TopOfSuffix(domain, d);
    TopFrom(host, k);
  }

  /** A host name below a domain that has a dot is in the domain's bucket. */
  lemma {:induction false} BucketBelow(domain: string, host: string, ip: string -> bool)
    requires CaseBlind(ip) && TailMatch(domain, host)
    requires LastDot(domain) >= 0 && !ip(domain) && !ip(host)
    ensures Bucket(Some(domain), ip) == Bucket(Some(host), ip)
  {
    TopOfHost(domain, host);
    HashFolds(TopDomain(domain), TopDomain(host));
  }

  lemma {:induction false} Hashed(s: string, n: nat, h: bv64, code: bv64)
    requires n < |s| && Hash(s[..n]) == h && Code(s[n]) == code
    ensures Hash(s[..n + 1]) == Mix(h, code)
  {
    assert s[..n + 1][..n] == s[..n];
  }

  lemma {:induction false} CodeL()
    ensures Code('l') == 76
  {
  }

  lemma {:induction false} CodeO()
    ensures Code('o') == 79
  {
  }

  lemma {:induction false} CodeC()
    ensures Code('c') == 67
  {
  }

  lemma {:induction false} CodeA()
    ensures Code('a') == 65
  {
  }

  lemma {:induction false} CodeH()
    ensures Code('h') == 72
  {
  }

  lemma {:induction false} CodeS()
    ensures Code('s') == 83
  {
  }

  lemma {:induction false} CodeT()
    ensures Code('t') == 84
  {
  }

  lemma {:induction false} CodeDot()
    ensures Code('.') == 46
  {
  }

  /** What "local" makes of a hash, and then "host". */
  function MixLocal(h: bv64): bv64 {
    Mix(Mix(Mix(Mix(Mix(h, 76), 79), 67), 65), 76)
  }

  function MixHost(h: bv64): bv64 {
    Mix(Mix(Mix(Mix(h, 72), 79), 83), 84)
  }

  predicate LocalAt(s: string, k: nat) {
    k + 5 <= |s| && s[k] == 'l' && s[k + 1] == 'o' && s[k + 2] == 'c' && s[k + 3] == 'a' && s[k + 4] == 'l'
  }

  predicate HostAt(s: string, k: nat) {
    k + 4 <= |s| && s[k] == 'h' && s[k + 1] == 'o' && s[k + 2] == 's' && s[k + 3] == 't'
  }

  lemma {:induction false} HashLocal(s: string, k: nat, h: bv64)
    requires LocalAt(s, k) && Hash(s[..k]) == h
    ensures Hash(s[..k + 5]) == MixLocal(h)
  {
    CodeL();
    CodeO();
    CodeC();
    CodeA();
    Hashed(s, k, h, 76);
    Hashed(s, k + 1, Mix(h, 76), 79);
    Hashed(s, k + 2, Mix(Mix(h, 76), 79), 67);
    Hashed(s, k + 3, Mix(Mix(Mix(h, 76), 79), 67), 65);
    Hashed(s, k + 4, Mix(Mix(Mix(Mix(h, 76), 79), 67), 65), 76);
  }

  lemma {:induction false} HashHost(s: string, k: nat, h: bv64)
    requires HostAt(s, k) && Hash(s[..k]) == h
    ensures Hash(s[..k + 4]) == MixHost(h)
  {
    CodeH();
    CodeO();
    CodeS();
    CodeT();
    Hashed(s, k, h, 72);
    Hashed(s, k + 1, Mix(h, 72), 79);
    Hashed(s, k + 2, Mix(Mix(h, 72), 79), 83);
    Hashed(s, k + 3, Mix(Mix(Mix(h, 72), 79), 83), 84);
  }

  lemma {:induction false} HashLocalhost(s: string, k: nat, h: bv64)
    requires |s| == k + 9 && LocalAt(s, k) && HostAt(s, k + 5) && Hash(s[..k]) == h
    ensures Hash(s) == MixHost(MixLocal(h))
  {
    HashLocal(s, k, h);
    HashHost(s, k + 5, MixLocal(h));
    assert s[..k + 9] == s;
  }

  lemma {:induction false} HashBelow(s: string, h: bv64)
    requires |s| >= 2 && s[0] == 'a' && s[1] == '.' && Hash(s[..0]) == h
    ensures Hash(s[..2]) == Mix(Mix(h, 65), 46)
  {
    CodeA();
    CodeDot();
    Hashed(s, 0, h, 65);
    Hashed(s, 1, Mix(h, 65), 46);
  }

  lemma {:induction false} HashBelowLocalhost(s: string, h: bv64)
    requires |s| == 11 && s[0] == 'a' && s[1] == '.' && LocalAt(s, 2) && HostAt(s, 7) && Hash(s[..0]) == h
    ensures Hash(s) == MixHost(MixLocal(Mix(Mix(h, 65), 46)))
  {
    HashBelow(s, h);
    HashLocalhost(s, 2, Mix(Mix(h, 65), 46));
  }

  lemma {:induction false} LocalhostHashes()
    ensures MixHost(MixLocal(5381)) == 249838511974792136
    ensures MixHost(MixLocal(Mix(Mix(5381, 65), 46))) == 13808028052105910759
  {
  }

  lemma {:induction false} HashOfDomain(domain: string)
    requires domain == "localhost"
    ensures Hash(domain) == 249838511974792136
  {
    HashLocalhost(domain, 0, 5381);
    LocalhostHashes();
  }

  lemma {:induction false} HashOfHost(host: string)
    requires host == "a.localhost"
    ensures Hash(host) == 13808028052105910759
  {
    HashBelowLocalhost(host, 5381);
    LocalhostHashes();
  }

  /** A domain without a dot can have hosts below it in another bucket. */
  lemma {:induction false} NoDotNoBucket(domain: string, host: string, ip: string -> bool)
    requires domain == "localhost" && host == "a.localhost" && !ip(domain) && !ip(host)
    ensures TailMatch(domain, host)
    ensures Bucket(Some(domain), ip) == 53 && Bucket(Some(host), ip) == 38
  {
    assert host[2..] == domain && host[1] == '.';
    OneLabel(domain);
    assert LastDot(host) == 1 && LastDot(host[..1]) == -1;
    assert host[0..] == host;
    HashOfDomain(domain);
    HashOfHost(host);
  }

  lemma {:induction false} OneLabel(s: string)
    requires '.' !in s
    ensures LastDot(s) == -1 && TopDomain(s) == s
  {
  }
}
