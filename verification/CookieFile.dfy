/** The Netscape format of cookie files (lib/cookie.c, lib/curlx/strparse.c): printer and parser. */
module CookieFile {
  import opened Basics
  import opened CookieText
  import opened CookieLists
  import opened CookieHeader

  // ---------- Numbers ----------

  /** The digits a string begins with. */
  function Leading(s: string): (r: string)
    ensures r <= s
  {
    if s == "" || !IsDigit(s[0]) then "" else [s[0]] + Leading(s[1..])
  }

  function DigitOf(c: char): nat
    requires IsDigit(c)
  {
    c as int - '0' as int
  }

  /** The number that digits stand for. */
  function Value(ds: string): nat
    requires forall i :: 0 <= i < |ds| ==> IsDigit(ds[i])
  {
    if ds == "" then 0 else 10 * Value(ds[..|ds| - 1]) + DigitOf(ds[|ds| - 1])
  }

  lemma {:induction false} LeadingDigits(s: string)
    ensures forall i :: 0 <= i < |Leading(s)| ==> IsDigit(s[i])
    ensures |Leading(s)| < |s| ==> !IsDigit(s[|Leading(s)|])
  {
    if s != "" && IsDigit(s[0]) {
      LeadingDigits(s[1..]);
    }
  }

  /** The number a string begins with, if there is one and it fits. */
  function Numeral(s: string): Option<Time> {
    LeadingDigits(s);
    var ds := Leading(s);
    if ds == "" || Value(ds) > MAX_TIME then None else Some(Value(ds))
  }

  lemma {:induction false} ValueGrows(ds: string, k: nat)
    requires k <= |ds| && forall i :: 0 <= i < |ds| ==> IsDigit(ds[i])
    ensures Value(ds[..k]) <= Value(ds)
    decreases |ds|
  {
    if k == |ds| {
      assert ds[..k] == ds;
    } else {
      assert ds[..|ds| - 1][..k] == ds[..k];
      ValueGrows(ds[..|ds| - 1], k);
    }
  }

  lemma {:induction false} ValueNext(ds: string, i: nat)
    requires i < |ds| && forall k :: 0 <= k < |ds| ==> IsDigit(ds[k])
    ensures Value(ds[..i + 1]) == 10 * Value(ds[..i]) + DigitOf(ds[i])
  {
    assert ds[..i + 1][..i] == ds[..i] && ds[..i + 1][i] == ds[i];
  }

  lemma {:induction false} OverflowTest(num: nat, n: nat)
    requires n < 10
    ensures num > (MAX_TIME - n) / 10 <==> 10 * num + n > MAX_TIME
  {
  }

  /** Reads digits; the test for overflow is made before multiplying, and is exact. */
  method ReadNumber(s: string) returns (r: Option<Time>)
    ensures r == Numeral(s)
  {
    LeadingDigits(s);
    ghost var ds := Leading(s);
    if s == "" || !IsDigit(s[0]) {
      return None;
    }
    var i, num := 0, 0;
    while i < |s| && IsDigit(s[i])
      invariant 0 <= i <= |ds| && 0 <= num == Value(ds[..i]) <= MAX_TIME
    {
      ValueNext(ds, i);
      var n := DigitOf(s[i]);
      OverflowTest(num, n);
      if num > (MAX_TIME - n) / 10 {
        ValueGrows(ds, i + 1);
        return None;
      }
      num := 10 * num + n;
      i := i + 1;
    }
    assert ds[..i] == ds;
    return Some(num);
  }

  function Decimal(n: nat): (r: string)
    ensures r != "" && forall i :: 0 <= i < |r| ==> IsDigit(r[i])
  {
    if n < 10 then [(n + '0' as nat) as char] else Decimal(n / 10) + [(n % 10 + '0' as nat) as char]
  }

  function Signed(n: int): (r: string)
    ensures r != "" && forall i :: 0 <= i < |r| ==> IsDigit(r[i]) || r[i] == '-'
  {
    if n < 0 then ['-'] + Decimal(-n) else Decimal(n)
  }

  lemma {:induction false} DecimalValue(n: nat)
    ensures Value(Decimal(n)) == n
  {
    var ds := Decimal(n);
    if n < 10 {
      assert ds[..0] == "";
    } else {
      DecimalValue(n / 10);
      assert ds[..|ds| - 1] == Decimal(n / 10);
    }
  }

  lemma {:induction false} LeadingAll(s: string)
    requires forall i :: 0 <= i < |s| ==> IsDigit(s[i])
    ensures Leading(s) == s
  {
    if s == "" {
    } else {
      LeadingAll(s[1..]);
    }
  }

  /** A printed time is read back exactly if it is not negative. */
  lemma {:induction false} NumberRoundTrip(n: Time)
    ensures Numeral(Signed(n)) == (if n >= 0 then Some(n) else None)
  {
    if n >= 0 {
      DecimalValue(n);
      LeadingAll(Decimal(n));
    }
  }

  // ---------- Fields ----------

  predicate Stops(c: char) {
    c == '\t' || c == '\r' || c == '\n'
  }

  predicate Clean(s: string) {
    forall i :: 0 <= i < |s| ==> !Stops(s[i])
  }

  /** The length of the first field. */
  function Span(s: string): (n: nat)
    ensures n <= |s| && Clean(s[..n]) && (n < |s| ==> Stops(s[n]))
  {
    if s == "" || Stops(s[0]) then 0
    else
      var n := 1 + Span(s[1..]);
      assert s[..n] == [s[0]] + s[1..][..n - 1];
      n
  }

  /** The fields of a line: separated by tabs, and ended by a line end. */
  function Fields(s: string): (fs: seq<string>)
    ensures |fs| > 0
  {
    var n := Span(s);
    [s[..n]] + (if n < |s| && s[n] == '\t' then Fields(s[n + 1..]) else [])
  }

  function Join(fs: seq<string>): string
    requires |fs| > 0
  {
    if |fs| == 1 then fs[0] else fs[0] + ['\t'] + Join(fs[1..])
  }

  ghost predicate AllClean(fs: seq<string>) {
    forall i :: 0 <= i < |fs| ==> Clean(fs[i])
  }

  lemma {:induction false} FieldsClean(s: string)
    ensures AllClean(Fields(s))
  {
    var n := Span(s);
    if n < |s| && s[n] == '\t' {
      FieldsClean(s[n + 1..]);
    }
  }

  lemma {:induction false} SpanIs(f: string, rest: string)
    requires Clean(f) && (rest != "" ==> Stops(rest[0]))
    ensures Span(f + rest) == |f|
  {
    if f == "" {
    } else {
      assert (f + rest)[1..] == f[1..] + rest;
      SpanIs(f[1..], rest);
    }
  }

  /** A field, a tab and the rest come apart. */
  lemma {:induction false} TabSplits(f: string, rest: string)
    requires Clean(f)
    ensures Fields(f + ['\t'] + rest) == [f] + Fields(rest)
  {
    var s, tail := f + ['\t'] + rest, ['\t'] + rest;
    assert s == f + tail;
    SpanIs(f, tail);
    assert s[..|f|] == f && s[|f|] == '\t' && s[|f| + 1..] == rest;
  }

  /** Joined fields come apart again. */
  lemma {:induction false} FieldsJoin(fs: seq<string>)
    requires |fs| > 0 && AllClean(fs)
    ensures Fields(Join(fs)) == fs
  {
    if |fs| == 1 {
      SpanIs(fs[0], "");
      assert fs[0] + "" == fs[0];
    } else {
      FieldsJoin(fs[1..]);
      TabSplits(fs[0], Join(fs[1..]));
      assert [fs[0]] + fs[1..] == fs;
    }
  }

  // ---------- Lines ----------

  const PREAMBLE: string := "#HttpOnly_"
  const YES: string := "TRUE"
  const NO: string := "FALSE"

  function Flag(b: bool): string {
    if b then YES else NO
  }

  /** The printed domain: with a leading dot if it is tail matched. */
  function Dotted(d: string, tailmatch: bool): string {
    if tailmatch && (d == "" || d[0] != '.') then ['.'] + d else d
  }

  /** The seven fields of a printed cookie. */
  function Printed(c: Cookie): (fs: seq<string>)
    ensures |fs| == 7
  {
    [Dotted(if c.domain.Some? then c.domain.value else "unknown", c.tailmatch && c.domain.Some?),
     Flag(c.tailmatch),
     if c.path.Some? then c.path.value else "/",
     Flag(c.secure),
     Signed(c.expires),
     c.name,
     c.value]
  }

  /** The line of a cookie, without its end. */
  function Print(c: Cookie): string {
    (if c.httpOnly then PREAMBLE else "") + Join(Printed(c))
  }

  /** A control character. */
  predicate Control(c: char) {
    c < ' ' || c as int == 127
  }

  predicate Octets(s: string) {
    forall i :: 0 <= i < |s| ==> !Control(s[i])
  }

  /** A flag is set by any beginning of the word, even the empty one. */
  predicate IsYes(f: string) {
    Fold(f) <= YES
  }

  /** A field in the place of the path that is taken for a flag. */
  predicate LooksBoolean(f: string) {
    f <= YES || f <= NO
  }

  /** The fields with a path filled in where it is missing. */
  function Filled(fs: seq<string>): seq<string> {
    if |fs| > 2 && LooksBoolean(fs[2]) then fs[..2] + [['/']] + fs[2..] else fs
  }

  /** The cookie given by fields, if they are six or seven and say what they should. */
  function FromFields(g: seq<string>, httpOnly: bool, allowed: bool): Option<Cookie> {
    if |g| != 6 && |g| != 7 then None
    else if IsYes(g[3]) && !allowed then None
    else if Numeral(g[4]).None? then None
    else
      var value := if |g| == 7 then g[6] else "";
      if !Octets(g[5]) || !Octets(value) then None
      else Some(Cookie(g[5], value, Some(Sanitize(g[2])), Some(Bare(g[0])), Numeral(g[4]).value, 0,
                       IsYes(g[1]), IsYes(g[3]), false, httpOnly,
                       SecureName(g[5]), !SecureName(g[5]) && HostName(g[5])))
  }

  /** What a line says; secure cookies must be allowed. */
  function Parsed(line: string, allowed: bool): Option<Cookie> {
    var httpOnly := PREAMBLE <= line;
    ParsedBody(if httpOnly then line[|PREAMBLE|..] else line, httpOnly, allowed)
  }

  function ParsedBody(body: string, httpOnly: bool, allowed: bool): Option<Cookie> {
    if body != "" && body[0] == '#' then None else FromFields(Filled(Fields(body)), httpOnly, allowed)
  }

  /** The cookie holds what the first fields say. */
  ghost predicate Held(c: Cookie, g: seq<string>, allowed: bool) {
    && c.creation == 0 && !c.live
    && (|g| > 0 ==> c.domain == Some(Bare(g[0])))
    && (|g| > 1 ==> c.tailmatch == IsYes(g[1]))
    && (|g| > 2 ==> c.path == Some(Sanitize(g[2])))
    && (|g| > 3 ==> c.secure == IsYes(g[3]) && (c.secure ==> allowed))
    && (|g| > 4 ==> Numeral(g[4]) == Some(c.expires))
    && (|g| > 5 ==> c.name == g[5] && c.prefixSecure == SecureName(g[5]))
    && (|g| > 5 ==> c.prefixHost == (!SecureName(g[5]) && HostName(g[5])))
    && (|g| > 6 ==> c.value == g[6])
  }

  /** The fields so far rule a cookie out. */
  ghost predicate RuledOut(g: seq<string>, allowed: bool) {
    || (|g| > 3 && IsYes(g[3]) && !allowed)
    || (|g| > 4 && Numeral(g[4]).None?)
  }

  /** One more field, with a path before it if that is missing. */
  ghost function More(g: seq<string>, f: string): seq<string> {
    if |g| == 2 && LooksBoolean(f) then g + [['/'], f] else g + [f]
  }

  lemma {:induction false} FilledStep(fs: seq<string>, f: string)
    ensures Filled(fs + [f]) == More(Filled(fs), f)
  {
    if |fs| > 2 {
      assert (fs + [f])[2] == fs[2] && (fs + [f])[..2] == fs[..2] && (fs + [f])[2..] == fs[2..] + [f];
    } else if |fs| == 2 {
      assert (fs + [f])[..2] == fs && (fs + [f])[2..] == [f];
    }
  }

  /** A field ruled out early is ruled out still. */
  lemma {:induction false} RuledOutStays(fs: seq<string>, rest: seq<string>, httpOnly: bool, allowed: bool)
    requires RuledOut(Filled(fs), allowed)
    ensures FromFields(Filled(fs + rest), httpOnly, allowed) == None
    decreases |rest|
  {
    if rest == [] {
      assert fs + rest == fs;
    } else {
      FilledStep(fs, rest[0]);
      assert fs + rest == fs + [rest[0]] + rest[1..];
      RuledOutStays(fs + [rest[0]], rest[1..], httpOnly, allowed);
    }
  }

  lemma {:induction false} SanitizeRoot()
    ensures Sanitize(['/']) == ['/']
  {
  }

  /** Stores field number `n` of a line. A path may be left out; the field after it is then in its place. */
  method Store(c: Cookie, n: nat, f: string, ghost g: seq<string>, allowed: bool)
    returns (ok: bool, c': Cookie, n': nat)
    requires n == |g| && Held(c, g, allowed)
    ensures c'.httpOnly == c.httpOnly
    ensures if ok then n' == |More(g, f)| && Held(c', More(g, f), allowed) else RuledOut(More(g, f), allowed)
  {
    if n > 3 {
      ok, c' := StoreRest(c, n, f, g, allowed);
      return ok, c', n + 1;
    }
    ok, c', n' := true, c, n + 1;
    if n == 0 {
      c' := c.(domain := Some(Bare(f)));
    } else if n == 1 {
      c' := c.(tailmatch := IsYes(f));
    } else if n == 2 && !LooksBoolean(f) {
      c' := c.(path := Some(Sanitize(f)));
    } else {
      SanitizeRoot();
      if n == 2 {
        c' := c.(path := Some(['/']));
        n' := n + 2;
      }
      c' := c'.(secure := IsYes(f));
      ok := IsYes(f) ==> allowed;
    }
  }

  /** The fields after the flags. */
  method StoreRest(c: Cookie, n: nat, f: string, ghost g: seq<string>, allowed: bool) returns (ok: bool, c': Cookie)
    requires 3 < n == |g| && Held(c, g, allowed)
    ensures c'.httpOnly == c.httpOnly
    ensures if ok then Held(c', g + [f], allowed) else RuledOut(g + [f], allowed)
  {
    ok, c' := true, c;
    if n == 4 {
      var number := ReadNumber(f);
      ok := number.Some?;
      if ok {
        c' := c.(expires := number.value);
      }
    } else if n == 5 {
      c' := c.(name := f, prefixSecure := SecureName(f), prefixHost := !SecureName(f) && HostName(f));
    } else if n == 6 {
      c' := c.(value := f);
    }
  }

  lemma {:induction false} Regroup(a: seq<string>, b: seq<string>, c: seq<string>)
    ensures a + (b + c) == a + b + c
  {
  }

  /** The loop over the fields of a line; it ends early if they rule a cookie out. */
  method ReadFields(body: string, httpOnly: bool, allowed: bool) returns (ok: bool, c: Cookie, n: nat)
    ensures var g := Filled(Fields(body));
      if ok then n == |g| && Held(c, g, allowed) && c.httpOnly == httpOnly
      else FromFields(g, httpOnly, allowed) == None
  {
    var rest := body;
    ghost var all, done := Fields(rest), [];
    ok, c := true, Cookie("", "", None, None, 0, 0, false, false, false, httpOnly, false, false);
    n := 0;
    var more := true;
    while more
      invariant ok && all == done + (if more then Fields(rest) else [])
      invariant n == |Filled(done)| && Held(c, Filled(done), allowed) && c.httpOnly == httpOnly
      decreases more, |rest|
    {
      var len := Span(rest);
      var f := rest[..len];
      FilledStep(done, f);
      ok, c, n := Store(c, n, f, Filled(done), allowed);
      more := len < |rest| && rest[len] == '\t';
      ghost var after := if more then Fields(rest[len + 1..]) else [];
      Regroup(done, [f], after);
      if !ok {
        RuledOutStays(done + [f], after, httpOnly, allowed);
        return;
      }
      done := done + [f];
      if more {
        rest := rest[len + 1..];
      }
    }
    assert all == done;
  }

  /** Reads one line of a cookie file. */
  method ParseLine(line: string, allowed: bool) returns (r: Option<Cookie>)
    ensures r == Parsed(line, allowed)
  {
    var httpOnly := PREAMBLE <= line;
    var body := if httpOnly then line[|PREAMBLE|..] else line;
    if body != "" && body[0] == '#' {
      return None;
    }
    var ok, c, n := ReadFields(body, httpOnly, allowed);
    if !ok {
      return None;
    }
    if n == 6 {
      c := c.(value := "");
      n := n + 1;
    }
    if n != 7 || !Octets(c.name) || !Octets(c.value) {
      return None;
    }
    return Some(c);
  }

  /** A flag is set by any beginning of the word, in any case, even by nothing. */
  ghost predicate SetBy(flag: string) {
    exists n :: 0 <= n <= 4 && Fold(flag) == "TRUE"[..n]
  }

  lemma {:induction false} SetByIsYes(flag: string)
    ensures SetBy(flag) <==> IsYes(flag)
  {
    if IsYes(flag) {
      assert Fold(flag) == "TRUE"[..|flag|];
    }
  }

  /** What seven fields mean. */
  lemma {:induction false} FieldsSay(g: seq<string>)
    requires |g| == 7 && Octets(g[5]) && Octets(g[6]) && Canonical(g[2]) && Numeral(g[4]).Some?
    ensures FromFields(g, false, true) ==
      Some(Cookie(g[5], g[6], Some(g[2]), Some(Bare(g[0])), Numeral(g[4]).value, 0, SetBy(g[1]), SetBy(g[3]),
                  false, false, SecureName(g[5]), !SecureName(g[5]) && HostName(g[5])))
  {
    SetByIsYes(g[1]);
    SetByIsYes(g[3]);
    SanitizeKeeps(g[2]);
  }

  /** What a line of seven fields means, field by field. */
  lemma {:induction false} LineSays(domain: string, tail: string, path: string, secure: string, expires: string,
    name: string, value: string)
    requires AllClean([domain, tail, path, secure, expires, name, value]) && Octets(name) && Octets(value)
    requires domain != "" && domain[0] != '#' && Canonical(path) && Numeral(expires).Some?
    ensures Parsed(Join([domain, tail, path, secure, expires, name, value]), true) ==
      Some(Cookie(name, value, Some(path), Some(Bare(domain)), Numeral(expires).value, 0, SetBy(tail), SetBy(secure),
                  false, false, SecureName(name), !SecureName(name) && HostName(name)))
  {
    var fs := [domain, tail, path, secure, expires, name, value];
    LineFields(fs);
    PathNotBoolean(path);
    FieldsSay(fs);
  }

  /** Without the path there are six fields, and the path is "/". */
  lemma {:induction false} MissingPath(domain: string, tail: string, secure: string, expires: string,
    name: string, value: string)
    requires AllClean([domain, tail, secure, expires, name, value]) && Octets(name) && Octets(value)
    requires domain != "" && domain[0] != '#' && Numeral(expires).Some? && (secure == "TRUE" || secure == "FALSE")
    ensures Parsed(Join([domain, tail, secure, expires, name, value]), true) ==
      Some(Cookie(name, value, Some("/"), Some(Bare(domain)), Numeral(expires).value, 0, SetBy(tail), SetBy(secure),
                  false, false, SecureName(name), !SecureName(name) && HostName(name)))
  {
    LineFields([domain, tail, secure, expires, name, value]);
    PathPutIn([domain, tail, secure, expires, name, value]);
    FieldsSay([domain, tail, ['/'], secure, expires, name, value]);
  }

  lemma {:induction false} PathPutIn(fs: seq<string>)
    requires |fs| == 6 && (fs[2] == "TRUE" || fs[2] == "FALSE")
    ensures Filled(fs) == [fs[0], fs[1], ['/'], fs[2], fs[3], fs[4], fs[5]]
  {
    assert fs[..2] + [['/']] + fs[2..] == [fs[0], fs[1], ['/'], fs[2], fs[3], fs[4], fs[5]];
  }

  lemma {:induction false} LineFields(fs: seq<string>)
    requires |fs| > 1 && AllClean(fs) && fs[0] != "" && fs[0][0] != '#'
    ensures Parsed(Join(fs), true) == FromFields(Filled(fs), false, true)
  {
    FieldsJoin(fs);
    JoinFirst(fs);
    if PREAMBLE <= Join(fs) {
      PreambleFirst(Join(fs));
    }
  }

  /** How a line is laid out: seven fields with tabs between them, the flags as words. */
  lemma {:induction false} PrintIs(c: Cookie, domain: string, path: string)
    requires c.domain == Some(domain) && domain != "" && domain[0] != '.' && c.path == Some(path)
    ensures Print(c) == (if c.httpOnly then "#HttpOnly_" else "") + (
      (if c.tailmatch then ['.'] + domain else domain) + "\t" + (if c.tailmatch then "TRUE" else "FALSE") + "\t"
      + path + "\t" + (
        (if c.secure then "TRUE" else "FALSE") + "\t" + Signed(c.expires) + "\t" + c.name + "\t" + c.value))
  {
    var fs := Printed(c);
    JoinLast(fs[3], fs[4], fs[5], fs[6]);
    JoinThree(fs[0], fs[1], fs[2], [fs[3], fs[4], fs[5], fs[6]]);
    assert fs == [fs[0], fs[1], fs[2]] + [fs[3], fs[4], fs[5], fs[6]];
  }

  lemma {:induction false} JoinLast(a: string, b: string, c: string, d: string)
    ensures Join([a, b, c, d]) == a + "\t" + b + "\t" + c + "\t" + d
  {
    assert [a, b, c, d][1..] == [b, c, d] && [b, c, d][1..] == [c, d] && [c, d][1..] == [d];
    assert Join([c, d]) == c + "\t" + d;
    assert Join([b, c, d]) == b + "\t" + c + "\t" + d;
  }

  lemma {:induction false} JoinThree(a: string, b: string, c: string, rest: seq<string>)
    requires rest != []
    ensures Join([a, b, c] + rest) == a + "\t" + b + "\t" + c + "\t" + Join(rest)
  {
    assert ([a, b, c] + rest)[1..] == [b, c] + rest && ([b, c] + rest)[1..] == [c] + rest && ([c] + rest)[1..] == rest;
    assert Join([c] + rest) == c + "\t" + Join(rest);
    assert Join([b, c] + rest) == b + "\t" + c + "\t" + Join(rest);
  }

  // ---------- Round trip ----------

  /** The name says which prefixes it has. */
  predicate Marked(c: Cookie) {
    c.prefixSecure == SecureName(c.name) && c.prefixHost == (!SecureName(c.name) && HostName(c.name))
  }

  predicate DomainSurvives(d: string, tailmatch: bool) {
    Clean(d) && (d != "" ==> d[0] != '.' && (d[0] == '#' ==> tailmatch))
  }

  /** A cookie that is read back as it was written. */
  predicate Writable(c: Cookie, allowed: bool) {
    && c.domain.Some? && DomainSurvives(c.domain.value, c.tailmatch)
    && c.path.Some? && Clean(c.path.value) && Canonical(c.path.value)
    && (c.secure ==> allowed)
    && c.expires >= 0
    && Octets(c.name) && Octets(c.value) && Marked(c)
  }

  /** The cookie without what is not written: its stamp, and whether it came from a header. */
  function Bared(c: Cookie): Cookie {
    c.(creation := 0, live := false)
  }

  lemma {:induction false} FlagIsYes(b: bool)
    ensures IsYes(Flag(b)) == b && Clean(Flag(b))
  {
    if b {
      assert Fold(YES) == YES;
    } else {
      assert Fold(NO)[0] == 'F';
    }
  }

  lemma {:induction false} OctetsClean(s: string)
    requires Octets(s)
    ensures Clean(s)
  {
    assert forall i :: 0 <= i < |s| ==> !Control(s[i]);
  }

  lemma {:induction false} SignedClean(n: int)
    ensures Clean(Signed(n))
  {
    assert forall i :: 0 <= i < |Signed(n)| ==> IsDigit(Signed(n)[i]) || Signed(n)[i] == '-';
  }

  lemma {:induction false} SanitizeClean(s: string)
    requires Clean(s)
    ensures Clean(Sanitize(s))
  {
  }

  /** The printed domain loses its dot again exactly if it had none. */
  lemma {:induction false} BareDotted(d: string, tailmatch: bool)
    ensures Bare(Dotted(d, tailmatch)) == d <==> (d != "" ==> d[0] != '.')
  {
    if d != "" && d[0] == '.' {
      assert |Bare(Dotted(d, tailmatch))| == |d| - 1;
    }
  }

  lemma {:induction false} JoinFirst(fs: seq<string>)
    requires |fs| > 1
    ensures Join(fs) != "" && Join(fs)[0] == if fs[0] != "" then fs[0][0] else '\t'
  {
  }

  /** The text fields of the cookie, and so all fields of its line, have no separators in them. */
  ghost predicate CleanText(c: Cookie) {
    && c.domain.Some? && Clean(c.domain.value)
    && c.path.Some? && Clean(c.path.value)
    && Clean(c.name) && Clean(c.value)
  }

  lemma {:induction false} PrintedClean(c: Cookie)
    requires CleanText(c)
    ensures AllClean(Printed(c))
  {
    FlagIsYes(c.tailmatch);
    FlagIsYes(c.secure);
    SignedClean(c.expires);
  }

  lemma {:induction false} PreambleFirst(s: string)
    requires PREAMBLE <= s
    ensures s[0] == '#'
  {
    assert PREAMBLE[0] == '#';
  }

  lemma {:induction false} BodyOf(c: Cookie, allowed: bool)
    requires (PREAMBLE <= Print(c)) == c.httpOnly
    ensures Parsed(Print(c), allowed) == ParsedBody(Join(Printed(c)), c.httpOnly, allowed)
  {
    var fs, line := Join(Printed(c)), Print(c);
    if c.httpOnly {
      assert line == PREAMBLE + fs;
      assert line[|PREAMBLE|..] == fs;
    } else {
      assert line == fs;
    }
  }

  /** How a printed line is parsed, if it is recognised as what it is. */
  lemma {:induction false} ParsedPrint(c: Cookie, allowed: bool)
    requires CleanText(c) && (PREAMBLE <= Print(c)) == c.httpOnly
    ensures Join(Printed(c)) != ""
    ensures Parsed(Print(c), allowed) ==
      if Join(Printed(c))[0] == '#' then None else FromFields(Filled(Printed(c)), c.httpOnly, allowed)
  {
    PrintedClean(c);
    FieldsJoin(Printed(c));
    JoinFirst(Printed(c));
    BodyOf(c, allowed);
  }

  /** How the fields of a printed cookie are read. */
  lemma {:induction false} FromPrinted(c: Cookie, allowed: bool)
    requires CleanText(c) && !LooksBoolean(c.path.value)
    ensures FromFields(Filled(Printed(c)), c.httpOnly, allowed) ==
      if (c.secure && !allowed) || c.expires < 0 || !Octets(c.name) || !Octets(c.value) then None
      else Some(Bared(c).(
        domain := Some(Bare(Dotted(c.domain.value, c.tailmatch))), path := Some(Sanitize(c.path.value)),
        prefixSecure := SecureName(c.name), prefixHost := !SecureName(c.name) && HostName(c.name)))
  {
    FlagIsYes(c.tailmatch);
    FlagIsYes(c.secure);
    NumberRoundTrip(c.expires);
    assert Filled(Printed(c)) == Printed(c);
  }

  lemma {:induction false} PathNotBoolean(p: string)
    requires Canonical(p)
    ensures !LooksBoolean(p)
  {
    assert YES[0] == 'T' && NO[0] == 'F';
  }

  lemma {:induction false} WritableReturns(c: Cookie, allowed: bool)
    requires Writable(c, allowed)
    ensures Parsed(Print(c), allowed) == Some(Bared(c))
  {
    OctetsClean(c.name);
    OctetsClean(c.value);
    var fs := Printed(c);
    JoinFirst(fs);
    assert Join(fs)[0] != '#' && (!c.httpOnly ==> Print(c) == Join(fs));
    if PREAMBLE <= Print(c) {
      PreambleFirst(Print(c));
    }
    ParsedPrint(c, allowed);
    PathNotBoolean(c.path.value);
    FromPrinted(c, allowed);
    BareDotted(c.domain.value, c.tailmatch);
    SanitizeKeeps(c.path.value);
  }

  lemma {:induction false} FromFieldsClean(g: seq<string>, httpOnly: bool, allowed: bool)
    requires AllClean(g) && FromFields(g, httpOnly, allowed).Some?
    ensures CleanText(FromFields(g, httpOnly, allowed).value)
    ensures FromFields(g, httpOnly, allowed).value.httpOnly == httpOnly
  {
    var c := FromFields(g, httpOnly, allowed).value;
    assert Clean(g[0]) && Clean(g[2]);
    SanitizeClean(g[2]);
    OctetsClean(c.name);
    OctetsClean(c.value);
  }

  lemma {:induction false} FilledClean(fs: seq<string>)
    requires AllClean(fs)
    ensures AllClean(Filled(fs))
  {
    assert Clean(['/']);
  }

  /** The texts of a parsed cookie have no separators in them. */
  lemma {:induction false} ParsedClean(line: string, allowed: bool)
    requires Parsed(line, allowed).Some?
    ensures CleanText(Parsed(line, allowed).value)
    ensures Parsed(line, allowed).value.httpOnly == (PREAMBLE <= line)
  {
    var body := if PREAMBLE <= line then line[|PREAMBLE|..] else line;
    FieldsClean(body);
    FilledClean(Fields(body));
    FromFieldsClean(Filled(Fields(body)), PREAMBLE <= line, allowed);
  }

  /** A cookie written to a file is read back with all it had, exactly if it is writable. */
  lemma {:induction false} RoundTrip(c: Cookie, allowed: bool)
    ensures Parsed(Print(c), allowed) == Some(Bared(c)) <==> Writable(c, allowed)
  {
    if Writable(c, allowed) {
      WritableReturns(c, allowed);
    }
    if Parsed(Print(c), allowed) == Some(Bared(c)) {
      ParsedClean(Print(c), allowed);
      assert CleanText(c);
      ParsedPrint(c, allowed);
      JoinFirst(Printed(c));
      assert !LooksBoolean(c.path.value) by {
        assert LooksBoolean(c.path.value) ==> |Filled(Printed(c))| == 8;
      }
      FromPrinted(c, allowed);
      BareDotted(c.domain.value, c.tailmatch);
      SanitizeKeeps(c.path.value);
    }
  }
}
