/** Cookies set by a response header (lib/cookie.c), once the header is split into its attributes. */
module CookieHeader {
  import opened Basics
  import opened CookieText
  import opened CookieLists

  const MAX_NAME := 4096
  const MAX_AGE := 400 * 24 * 3600

  /** What the text of a number comes to. */
  datatype Number = NoNumber | TooBig | Number(value: Time)

  datatype Attribute =
    | Secure
    | HttpOnly
    | PathIs(path: string)
    | DomainIs(domain: string)
    | MaxAge(age: Number)
    | ExpiresAt(date: Option<Time>)    // none if the date does not parse
    | Unknown

  // ---------- Expiry ----------

  /** An expiry at most 400 days, rounded to a minute, from now. */
  function Capped(expires: Time, now: Time): (r: Time)
    requires now >= 0
    ensures r == 0 <==> expires == 0
    ensures now < MAX_TIME - MAX_AGE - 30 ==> r <= now + MAX_AGE + 30
    ensures expires <= now + MAX_AGE ==> r == expires
  {
    if expires != 0 && MAX_TIME - MAX_AGE - 30 > now && expires > now + MAX_AGE
    then (now + MAX_AGE + 30) / 60 * 60 else expires
  }

  function FromAge(age: Number, now: Time): (r: Time)
    requires now >= 0
    ensures r != 0
  {
    Capped(match age
           case NoNumber => 1
           case TooBig => MAX_TIME
           case Number(n) =>
             if n <= 0 then 1 else if MAX_TIME - now < n then MAX_TIME else n + now,
           now)
  }

  function FromDate(date: Option<Time>, now: Time): Time
    requires now >= 0
  {
    Capped(match date
           case None => 0
           case Some(t) => if t == 0 then 1 else t,
           now)
  }

  /** The expiry after all attributes: the last age, or else the first date that gives one. */
  function Expiry(attrs: seq<Attribute>, now: Time): Time
    requires now >= 0
  {
    if attrs == [] then 0
    else
      var before := Expiry(attrs[..|attrs| - 1], now);
      match attrs[|attrs| - 1]
      case MaxAge(age) => FromAge(age, now)
      case ExpiresAt(date) => if before != 0 then before else FromDate(date, now)
      case _ => before
  }

  lemma {:induction false} NoAgeNoExpiry(attrs: seq<Attribute>, now: Time)
    requires now >= 0 && forall a :: a in attrs ==> !a.MaxAge?
    ensures Expiry(attrs, now) != 0 <==>
      exists a :: a in attrs && a.ExpiresAt? && a.date.Some?
  {
    if attrs == [] {
    } else {
      var n := |attrs| - 1;
      assert attrs == attrs[..n] + [attrs[n]];
      NoAgeNoExpiry(attrs[..n], now);
    }
  }

  /** The expiry is 400 days from now, to the minute. */
  ghost predicate InFourHundredDays(expires: int, now: int) {
    expires % 60 == 0 && now + 400 * 86400 - 30 < expires <= now + 400 * 86400 + 30
  }

  /** What an expiry asked for comes to: it is kept, unless it is more than 400 days away. */
  ghost predicate KeptOrCut(expires: int, asked: int, now: int) {
    if asked <= now + 400 * 86400 then expires == asked
    else if now < MAX_TIME - 400 * 86400 - 30 then InFourHundredDays(expires, now)
    else expires == asked
  }

  /** A positive age lasts that many seconds; any other one has expired long ago. */
  ghost predicate AgeGives(age: Number, now: int, expires: int) {
    match age
    case NoNumber => expires == 1
    case TooBig => KeptOrCut(expires, MAX_TIME, now)
    case Number(n) =>
      if n <= 0 then expires == 1 else KeptOrCut(expires, if now + n <= MAX_TIME then now + n else MAX_TIME, now)
  }

  ghost predicate DateGives(date: int, now: int, expires: int) {
    KeptOrCut(expires, if date == 0 then 1 else date, now)
  }

  predicate IsLastAge(attrs: seq<Attribute>, i: nat) {
    i < |attrs| && attrs[i].MaxAge? && forall j :: i < j < |attrs| ==> !attrs[j].MaxAge?
  }

  predicate GivesDate(a: Attribute) {
    a.ExpiresAt? && a.date.Some?
  }

  /** The first date that parses, if there is no age. */
  predicate IsOnlyDate(attrs: seq<Attribute>, i: nat) {
    && i < |attrs| && GivesDate(attrs[i]) && (forall j :: 0 <= j < |attrs| ==> !attrs[j].MaxAge?)
    && forall j :: 0 <= j < i ==> !GivesDate(attrs[j])
  }

  /** When a cookie with these attributes expires, 0 for a session cookie. */
  ghost predicate Lives(attrs: seq<Attribute>, now: int, expires: int) {
    && (forall i: nat :: IsLastAge(attrs, i) ==> AgeGives(attrs[i].age, now, expires))
    && (forall i: nat :: IsOnlyDate(attrs, i) ==> DateGives(attrs[i].date.value, now, expires))
    && ((forall j :: 0 <= j < |attrs| ==> !attrs[j].MaxAge? && !GivesDate(attrs[j])) ==> expires == 0)
  }

  lemma {:induction false} FromAgeGives(age: Number, now: Time)
    requires now >= 0
    ensures AgeGives(age, now, FromAge(age, now))
  {
  }

  lemma {:induction false} FromDateGives(date: Time, now: Time)
    requires now >= 0
    ensures DateGives(date, now, FromDate(Some(date), now)) && FromDate(Some(date), now) != 0
  {
  }

  /** Some attribute gives an expiry. */
  ghost predicate SomeExpiry(attrs: seq<Attribute>) {
    exists j :: 0 <= j < |attrs| && (attrs[j].MaxAge? || GivesDate(attrs[j]))
  }

  lemma {:induction false} LivesOnAge(attrs: seq<Attribute>, now: Time)
    requires now >= 0 && attrs != [] && attrs[|attrs| - 1].MaxAge?
    ensures Lives(attrs, now, FromAge(attrs[|attrs| - 1].age, now))
  {
    FromAgeGives(attrs[|attrs| - 1].age, now);
    forall i: nat | IsLastAge(attrs, i) ensures i == |attrs| - 1 {
    }
  }

  lemma {:induction false} LivesOnDate(attrs: seq<Attribute>, now: Time)
    requires now >= 0 && attrs != [] && GivesDate(attrs[|attrs| - 1]) && !SomeExpiry(attrs[..|attrs| - 1])
    ensures Lives(attrs, now, FromDate(attrs[|attrs| - 1].date, now))
  {
    var n := |attrs| - 1;
    FromDateGives(attrs[n].date.value, now);
    forall j | 0 <= j < n ensures !attrs[j].MaxAge? && !GivesDate(attrs[j]) {
      assert attrs[..n][j] == attrs[j];
    }
    forall i: nat | IsOnlyDate(attrs, i) ensures i == n {
    }
  }

  lemma {:induction false} SomeExpiryOn(attrs: seq<Attribute>)
    requires attrs != []
    ensures SomeExpiry(attrs) <==>
      SomeExpiry(attrs[..|attrs| - 1]) || attrs[|attrs| - 1].MaxAge? || GivesDate(attrs[|attrs| - 1])
  {
    var n := |attrs| - 1;
    if SomeExpiry(attrs[..n]) {
      var j :| 0 <= j < n && (attrs[..n][j].MaxAge? || GivesDate(attrs[..n][j]));
      assert attrs[j] == attrs[..n][j];
    }
    if SomeExpiry(attrs) {
      var j :| 0 <= j < |attrs| && (attrs[j].MaxAge? || GivesDate(attrs[j]));
      assert j < n ==> attrs[..n][j] == attrs[j];
    }
  }

  lemma {:induction false} LastAgeBefore(attrs: seq<Attribute>, i: nat)
    requires IsLastAge(attrs, i) && !attrs[|attrs| - 1].MaxAge?
    ensures IsLastAge(attrs[..|attrs| - 1], i) && attrs[..|attrs| - 1][i] == attrs[i]
  {
  }

  lemma {:induction false} OnlyDateBefore(attrs: seq<Attribute>, i: nat)
    requires IsOnlyDate(attrs, i) && (GivesDate(attrs[|attrs| - 1]) ==> SomeExpiry(attrs[..|attrs| - 1]))
    ensures IsOnlyDate(attrs[..|attrs| - 1], i) && attrs[..|attrs| - 1][i] == attrs[i]
  {
    assert forall j :: 0 <= j < |attrs| - 1 ==> attrs[..|attrs| - 1][j] == attrs[j];
  }

  /** Any other attribute, or a date after one that gave an expiry, changes nothing. */
  lemma {:induction false} LivesOn(attrs: seq<Attribute>, now: Time, expires: Time)
    requires attrs != [] && Lives(attrs[..|attrs| - 1], now, expires) && !attrs[|attrs| - 1].MaxAge?
    requires GivesDate(attrs[|attrs| - 1]) ==> SomeExpiry(attrs[..|attrs| - 1])
    ensures Lives(attrs, now, expires)
  {
    SomeExpiryOn(attrs);
    forall i: nat | IsLastAge(attrs, i) ensures AgeGives(attrs[i].age, now, expires) {
      LastAgeBefore(attrs, i);
    }
    forall i: nat | IsOnlyDate(attrs, i) ensures DateGives(attrs[i].date.value, now, expires) {
      OnlyDateBefore(attrs, i);
    }
  }

  /** The expiry that the attributes amount to is the one they should give. */
  lemma {:induction false} ExpiryLives(attrs: seq<Attribute>, now: Time)
    requires now >= 0
    ensures Lives(attrs, now, Expiry(attrs, now))
    ensures Expiry(attrs, now) != 0 <==> SomeExpiry(attrs)
  {
    if attrs == [] {
    } else {
      var n := |attrs| - 1;
      ExpiryLives(attrs[..n], now);
      SomeExpiryOn(attrs);
      if attrs[n].MaxAge? {
        LivesOnAge(attrs, now);
      } else if GivesDate(attrs[n]) && Expiry(attrs[..n], now) == 0 {
        LivesOnDate(attrs, now);
        FromDateGives(attrs[n].date.value, now);
      } else {
        LivesOn(attrs, now, Expiry(attrs[..n], now));
      }
    }
  }

  /** An age beats every date, before or after it. */
  lemma {:induction false} AgeWins(before: seq<Attribute>, age: Number, after: seq<Attribute>, now: Time)
    requires now >= 0 && forall a :: a in after ==> !a.MaxAge?
    ensures AgeGives(age, now, Expiry(before + [MaxAge(age)] + after, now))
  {
    var attrs := before + [MaxAge(age)] + after;
    ExpiryLives(attrs, now);
    assert forall j :: |before| < j < |attrs| ==> attrs[j] == after[j - |before| - 1];
    assert attrs[|before|] == MaxAge(age) && IsLastAge(attrs, |before|);
  }

  // ---------- Path ----------

  /** The value of the last path attribute. */
  function LastPath(attrs: seq<Attribute>): string {
    if attrs == [] then ""
    else
      var a := attrs[|attrs| - 1];
      if a.PathIs? then a.path else LastPath(attrs[..|attrs| - 1])
  }

  /** The request path up to and with its last slash. */
  function Directory(path: string): (r: string)
    ensures r <= path
    ensures '/' in path ==> r != "" && r[|r| - 1] == '/' && '/' !in path[|r|..]
    ensures '/' !in path ==> r == path
  {
    if LastSlash(path) < 0 then path else path[..LastSlash(path) + 1]
  }

  function LastSlash(s: string): (i: int)
    ensures -1 <= i < |s| && (i >= 0 ==> s[i] == '/')
    ensures forall j :: i < j < |s| ==> s[j] != '/'
  {
    if s == "" then -1
    else if s[|s| - 1] == '/' then |s| - 1
    else LastSlash(s[..|s| - 1])
  }

  // ---------- Domain ----------

  /** The domain without a leading dot. */
  function Bare(domain: string): string {
    if domain != "" && domain[0] == '.' then domain[1..] else domain
  }

  /** Where the first dot is, or the length if there is none. */
  function FirstDot(s: string): (i: nat)
    ensures i <= |s| && (i < |s| ==> s[i] == '.')
    ensures forall j :: 0 <= j < i ==> s[j] != '.'
  {
    if s == "" || s[0] == '.' then 0 else 1 + FirstDot(s[1..])
  }

  predicate IsLocalhost(s: string) {
    |s| == 9 && Fold(s) == "LOCALHOST"
  }

  /** A domain no cookie may be set for: no dot in it, or its first dot is its last character. */
  predicate BadDomain(s: string) {
    !IsLocalhost(s) && FirstDot(s) >= |s| - 1
  }

  /** The host a domain is compared with; none matches a bad domain's, save ":" itself. */
  function Compared(v: string, host: string): string {
    if BadDomain(v) then [':'] else host
  }

  /** Whether the host may set a cookie for the domain. */
  predicate Fits(v: string, host: string, ip: string -> bool) {
    var h := Compared(v, host);
    if ip(h) then v == h else TailMatch(v, h)
  }

  /** The host as the attributes before leave it. */
  function HostAfter(attrs: seq<Attribute>, host: string): string {
    if attrs == [] then host
    else
      var h, a := HostAfter(attrs[..|attrs| - 1], host), attrs[|attrs| - 1];
      if a.DomainIs? && a.domain != "" then Compared(Bare(a.domain), h) else h
  }

  /** Whether attribute `i` makes the header unacceptable. */
  predicate Rejects(attrs: seq<Attribute>, i: nat, host: string, insecure: bool, ip: string -> bool)
    requires i < |attrs|
  {
    || (attrs[i].Secure? && insecure)
    || (attrs[i].DomainIs? && attrs[i].domain != "" && !Fits(Bare(attrs[i].domain), HostAfter(attrs[..i], host), ip))
  }

  /** What the domain attributes amount to: the domain they set, if any, and tail matching. */
  ghost predicate DomainSet(domain: string, tailmatch: bool, h: string, host: string, ip: string -> bool) {
    if h != host then domain == [':'] && h == [':'] && tailmatch
    else if tailmatch then !ip(host) && TailMatch(domain, host) && (domain != [':'] ==> !BadDomain(domain))
    else domain == "" || (ip(host) && domain == host)
  }

  /** Whether some attribute so far rejects the header. */
  ghost predicate Rejected(attrs: seq<Attribute>, host: string, insecure: bool, ip: string -> bool) {
    exists i :: 0 <= i < |attrs| && Rejects(attrs, i, host, insecure, ip)
  }

  /** Nothing but ":" itself matches the stand-in for a bad domain. */
  lemma {:induction false} OnlyColon(v: string)
    requires TailMatch(v, [':'])
    ensures v == [':']
  {
    if |v| == 1 {
      assert [':'][0..] == [':'];
      assert Fold([':'])[0] == ':' == Fold(v)[0];
    }
  }

  /** Any host may set a cookie for the domain ":", which no host lies in. */
  lemma {:induction false} ColonFits(host: string, ip: string -> bool)
    requires !ip([':'])
    ensures Bare([':']) == [':'] && BadDomain([':']) && Fits([':'], host, ip)
  {
    assert [':'][0..] == [':'] && Fold([':']) == [':'];
    assert FirstDot([':']) == 1;
  }

  /** A domain a host may set cookies for is its own or one it lies in, exactly if it is not ":". */
  lemma {:induction false} FitsIff(v: string, host: string, ip: string -> bool)
    requires !ip([':']) && Fits(v, host, ip) && !DomainMatch([':'], host, ip)
    ensures DomainMatch(v, host, ip) <==> v != [':']
  {
    if BadDomain(v) {
      OnlyColon(v);
    } else if !ip(host) {
      TailMatchIsDomainMatch(v, host, ip);
    }
  }

  /** There is a dot in the domain before its last character. */
  predicate HasInnerDot(v: string) {
    exists i :: 0 <= i < |v| - 1 && v[i] == '.'
  }

  /**
   * Exactly which domains a host may set cookies for: besides ":", those it matches that have a dot before
   * their last character or are "localhost"; for a numeric address only itself.
   */
  lemma {:induction false} FitsExactly(v: string, host: string, ip: string -> bool)
    requires !ip([':'])
    ensures Fits(v, host, ip) <==>
      || v == [':']
      || ((HasInnerDot(v) || Fold(v) == "LOCALHOST") && if ip(host) then v == host else DomainMatch(v, host, ip))
  {
    InnerDot(v);
    assert |Fold(v)| == |v|;
    if BadDomain(v) {
      if TailMatch(v, [':']) {
        OnlyColon(v);
      }
      ColonFits(host, ip);
    } else if !ip(host) {
      TailMatchIsDomainMatch(v, host, ip);
    }
  }

  lemma {:induction false} InnerDot(v: string)
    ensures HasInnerDot(v) <==> FirstDot(v) < |v| - 1
  {
    if FirstDot(v) < |v| - 1 {
      assert v[FirstDot(v)] == '.';
    }
  }

  /** A domain that fits keeps what the domain attributes amount to. */
  lemma {:induction false} FitsKeeps(v: string, h: string, host: string, domain: string, tailmatch: bool,
    ip: string -> bool)
    requires !ip([':']) && DomainSet(domain, tailmatch, h, host, ip) && Fits(v, h, ip)
    ensures DomainSet(v, tailmatch || !ip(Compared(v, h)), Compared(v, h), host, ip)
  {
    var h' := Compared(v, h);
    if h' == [':'] {
      OnlyColon(v);
    }
  }

  /** One domain attribute. */
  method SetDomain(v: string, h: string, ghost host: string, ghost domain: string, tailmatch: bool, ip: string -> bool)
    returns (ok: bool, h': string, tail: bool)
    requires !ip([':']) && DomainSet(domain, tailmatch, h, host, ip)
    ensures ok <==> Fits(v, h, ip)
    ensures ok ==> h' == Compared(v, h) && DomainSet(v, tail, h', host, ip)
  {
    h' := Compared(v, h);
    var isIp := ip(h');
    ok := if isIp then v == h' else TailMatch(v, h');
    tail := tailmatch || !isIp;
    if ok {
      FitsKeeps(v, h, host, domain, tailmatch, ip);
    }
  }

  /** The last domain an attribute gives, without a leading dot. */
  function LastDomain(attrs: seq<Attribute>): string {
    if attrs == [] then ""
    else
      var a := attrs[|attrs| - 1];
      if a.DomainIs? && a.domain != "" then Bare(a.domain) else LastDomain(attrs[..|attrs| - 1])
  }

  // ---------- The whole header ----------

  /** What has been read of a header so far. */
  datatype Draft = Draft(
    host: string,
    domain: string,
    path: string,
    expires: Time,
    tailmatch: bool,
    secure: bool,
    httpOnly: bool)

  /** The draft says what the attributes say. */
  ghost predicate Drafted(d: Draft, attrs: seq<Attribute>, host: string, now: Time, ip: string -> bool)
    requires now >= 0
  {
    && d.host == HostAfter(attrs, host)
    && d.domain == LastDomain(attrs)
    && d.path == LastPath(attrs)
    && d.expires == Expiry(attrs, now)
    && d.secure == (Secure in attrs)
    && d.httpOnly == (HttpOnly in attrs)
    && DomainSet(d.domain, d.tailmatch, d.host, host, ip)
  }

  /** What one more attribute does to the parts of a header. */
  lemma {:induction false} OneMore(before: seq<Attribute>, a: Attribute, host: string, now: Time)
    requires now >= 0
    ensures var attrs := before + [a];
      && LastPath(attrs) == (if a.PathIs? then a.path else LastPath(before))
      && (Secure in attrs <==> Secure in before || a.Secure?)
      && (HttpOnly in attrs <==> HttpOnly in before || a.HttpOnly?)
  {
    assert (before + [a])[..|before|] == before;
  }

  lemma {:induction false} OneMoreDomain(before: seq<Attribute>, a: Attribute, host: string)
    ensures var attrs, named := before + [a], a.DomainIs? && a.domain != "";
      && HostAfter(attrs, host) ==
           (if named then Compared(Bare(a.domain), HostAfter(before, host)) else HostAfter(before, host))
      && LastDomain(attrs) == (if named then Bare(a.domain) else LastDomain(before))
  {
    assert (before + [a])[..|before|] == before;
  }

  lemma {:induction false} OneMoreExpiry(before: seq<Attribute>, a: Attribute, now: Time)
    requires now >= 0
    ensures Expiry(before + [a], now) ==
      match a
      case MaxAge(age) => FromAge(age, now)
      case ExpiresAt(date) => if Expiry(before, now) != 0 then Expiry(before, now) else FromDate(date, now)
      case _ => Expiry(before, now)
  {
    assert (before + [a])[..|before|] == before;
  }

  /** The draft after an attribute other than a domain. */
  function Noted(d: Draft, a: Attribute, now: Time): Draft
    requires now >= 0
  {
    match a
    case Secure => d.(secure := true)
    case HttpOnly => d.(httpOnly := true)
    case PathIs(path) => d.(path := path)
    case MaxAge(age) => d.(expires := FromAge(age, now))
    case ExpiresAt(date) => if d.expires == 0 then d.(expires := FromDate(date, now)) else d
    case _ => d
  }

  lemma {:induction false} NotedDrafts(d: Draft, before: seq<Attribute>, a: Attribute, host: string, now: Time,
    ip: string -> bool)
    requires now >= 0 && Drafted(d, before, host, now, ip) && (a.DomainIs? ==> a.domain == "")
    ensures Drafted(Noted(d, a, now), before + [a], host, now, ip)
  {
    OneMore(before, a, host, now);
    OneMoreDomain(before, a, host);
    OneMoreExpiry(before, a, now);
  }

  lemma {:induction false} DomainDrafts(d: Draft, before: seq<Attribute>, a: Attribute, host: string, now: Time,
    ip: string -> bool, tail: bool)
    requires now >= 0 && Drafted(d, before, host, now, ip) && a.DomainIs? && a.domain != ""
    requires DomainSet(Bare(a.domain), tail, Compared(Bare(a.domain), d.host), host, ip)
    ensures Drafted(d.(host := Compared(Bare(a.domain), d.host), domain := Bare(a.domain), tailmatch := tail),
                    before + [a], host, now, ip)
  {
    OneMore(before, a, host, now);
    OneMoreDomain(before, a, host);
    OneMoreExpiry(before, a, now);
  }

  /** Reads one more attribute. */
  method Read(d: Draft, ghost before: seq<Attribute>, a: Attribute, ghost host: string, insecure: bool, now: Time,
    ip: string -> bool) returns (ok: bool, d': Draft)
    requires !ip([':']) && now >= 0 && Drafted(d, before, host, now, ip)
    ensures ok <==> !Rejects(before + [a], |before|, host, insecure, ip)
    ensures ok ==> Drafted(d', before + [a], host, now, ip)
  {
    assert (before + [a])[..|before|] == before && (before + [a])[|before|] == a;
    if a.DomainIs? && a.domain != "" {
      var h, tail;
      ok, h, tail := SetDomain(Bare(a.domain), d.host, host, d.domain, d.tailmatch, ip);
      d' := d.(host := h, domain := Bare(a.domain), tailmatch := tail);
      if ok {
        DomainDrafts(d, before, a, host, now, ip, tail);
      }
    } else {
      NotedDrafts(d, before, a, host, now, ip);
      ok, d' := !(a.Secure? && insecure), Noted(d, a, now);
    }
  }

  /** The domain of a cookie that the host sets: its own, or one it lies in. */
  predicate OwnDomain(c: Cookie, host: string, ip: string -> bool) {
    && c.domain.Some?
    && var d := c.domain.value;
      if c.tailmatch then d == [':'] || (!ip(host) && TailMatch(d, host) && !BadDomain(d))
      else d == host
  }

  /** The cookie of a header that has been read; request path and host stand in for what is not given. */
  function Finished(name: string, value: string, d: Draft, path: string): Cookie {
    var stored := if d.path != "" then d.path else Directory(path);
    var domain := if d.domain != "" then d.domain else d.host;
    Cookie(name, value, Some(Sanitize(stored)), Some(domain), d.expires, 0, d.tailmatch,
           d.secure, false, d.httpOnly, SecureName(name), !SecureName(name) && HostName(name))
  }

  /** What a cookie from a header is. */
  ghost predicate Says(c: Cookie, name: string, value: string, attrs: seq<Attribute>, path: string,
    host: string, now: Time)
    requires now >= 0
  {
    && c.name == name && c.value == value
    && c.expires == Expiry(attrs, now) && Lives(attrs, now, c.expires)
    && c.secure == (Secure in attrs) && c.httpOnly == (HttpOnly in attrs)
    && c.path == Some(Sanitize(if LastPath(attrs) != "" then LastPath(attrs) else Directory(path)))
    && c.domain == Some(if LastDomain(attrs) != "" then LastDomain(attrs) else host)
    && c.prefixSecure == SecureName(name) && c.prefixHost == (!SecureName(name) && HostName(name))
  }

  lemma {:induction false} FinishedSays(name: string, value: string, d: Draft, path: string, attrs: seq<Attribute>,
    host: string, now: Time, ip: string -> bool)
    requires now >= 0 && Drafted(d, attrs, host, now, ip)
    ensures Says(Finished(name, value, d, path), name, value, attrs, path, host, now)
    ensures OwnDomain(Finished(name, value, d, path), host, ip)
  {
    ExpiryLives(attrs, now);
  }

  /** A cookie whose last age is a positive number of seconds expires when they have passed; others at once. */
  lemma {:induction false} AgeExpires(c: Cookie, name: string, value: string, attrs: seq<Attribute>, path: string,
    host: string, now: Time, i: nat, t: Time)
    requires now >= 0 && Says(c, name, value, attrs, path, host, now) && IsLastAge(attrs, i)
    ensures attrs[i].age.Number? && 0 < attrs[i].age.value <= 400 * 86400 && now + attrs[i].age.value <= MAX_TIME ==>
      (Expired(c, t) <==> t > now + attrs[i].age.value)
    ensures attrs[i].age.NoNumber? || (attrs[i].age.Number? && attrs[i].age.value <= 0) ==> (Expired(c, t) <==> t > 1)
    ensures attrs[i].age.TooBig? || (attrs[i].age.Number? && attrs[i].age.value > 400 * 86400) ==>
      (t <= now + 400 * 86400 - 30 ==> !Expired(c, t)) &&
      (t > now + 400 * 86400 + 30 && now < MAX_TIME - 400 * 86400 - 30 ==> Expired(c, t))
  {
    assert AgeGives(attrs[i].age, now, c.expires);
  }

  lemma {:induction false} NotSecure(attrs: seq<Attribute>, host: string, ip: string -> bool)
    requires !Rejected(attrs, host, true, ip)
    ensures Secure !in attrs
  {
    forall k | 0 <= k < |attrs| ensures attrs[k] != Secure {
      assert !Rejects(attrs, k, host, true, ip);
    }
  }

  /**
   * Reads a header. It is turned down exactly when the name is empty, name and value are too long
   * or some attribute rejects it, and otherwise says what its attributes say.
   */
  method Parse(name: string, value: string, attrs: seq<Attribute>, host: string, path: string,
    insecure: bool, now: Time, ip: string -> bool) returns (r: Option<Cookie>)
    requires !ip([':']) && now >= 0
    ensures r.None? <==> name == "" || |name| + |value| > MAX_NAME || Rejected(attrs, host, insecure, ip)
    ensures r.Some? ==> Says(r.value, name, value, attrs, path, host, now) && OwnDomain(r.value, host, ip)
    ensures r.Some? && insecure ==> !r.value.secure
  {
    if name == "" || |name| + |value| > MAX_NAME {
      return None;
    }
    var ok, d := ReadAll(attrs, host, insecure, now, ip);
    if !ok {
      return None;
    }
    if insecure {
      NotSecure(attrs, host, ip);
    }
    FinishedSays(name, value, d, path, attrs, host, now, ip);
    return Some(Finished(name, value, d, path));
  }

  lemma {:induction false} Blank(host: string, now: Time, ip: string -> bool)
    requires now >= 0
    ensures Drafted(Draft(host, "", "", 0, false, false, false), [], host, now, ip)
  {
  }

  /** Reads all attributes, up to one that rejects the header. */
  method ReadAll(attrs: seq<Attribute>, host: string, insecure: bool, now: Time, ip: string -> bool)
    returns (ok: bool, d: Draft)
    requires !ip([':']) && now >= 0
    ensures ok <==> !Rejected(attrs, host, insecure, ip)
    ensures ok ==> Drafted(d, attrs, host, now, ip)
  {
    d := Draft(host, "", "", 0, false, false, false);
    assert attrs[..0] == [];
    Blank(host, now, ip);
    for i := 0 to |attrs|
      invariant Drafted(d, attrs[..i], host, now, ip)
      invariant forall k :: 0 <= k < i ==> !Rejects(attrs, k, host, insecure, ip)
    {
      ok, d := Read(d, attrs[..i], attrs[i], host, insecure, now, ip);
      RejectsThere(attrs, i, host, insecure, ip);
      if !ok {
        return;
      }
    }
    assert attrs[..|attrs|] == attrs;
    ok := true;
  }

  /** Later attributes do not matter to whether one rejects the header. */
  lemma {:induction false} RejectsThere(attrs: seq<Attribute>, i: nat, host: string, insecure: bool, ip: string -> bool)
    requires i < |attrs|
    ensures attrs[..i + 1] == attrs[..i] + [attrs[i]]
    ensures Rejects(attrs[..i] + [attrs[i]], i, host, insecure, ip) <==> Rejects(attrs, i, host, insecure, ip)
  {
    assert attrs[..i + 1][..i] == attrs[..i];
  }
}
