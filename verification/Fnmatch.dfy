/** The wildcard matcher (lib/curl_fnmatch.c). */
module Fnmatch {
  import opened Basics
  import opened FnmatchSpec

  /** The marked entries of a table. */
  ghost predicate Shows(charset: array<bool>, marks: set<int>)
    reads charset
  {
    && charset.Length == SET_SIZE
    && (forall k :: 0 <= k < SET_SIZE ==> (charset[k] <==> k in marks))
    && (forall k :: k in marks ==> 0 <= k < SET_SIZE)
  }

  /** A keyword is spelt out in the pattern: a class name, then `:]`. */
  lemma {:induction false} KeywordSpelt(p: CString, i: nat, w: string)
    requires KeywordAt(p, i, w)
    ensures i + |w| + 2 <= |p| && |w| <= 6 && w == p[i..i + |w|]
    ensures forall k :: 0 <= k < |w| ==> p[i + k] == w[k] && IsLower(p[i + k])
    ensures p[i + |w|] == ':' && p[i + |w| + 1] == ']'
  {
    forall k | 0 <= k < |w| + 2 ensures p[i + k] == (w + ":]")[k] {
      assert p[i..][k] == (w + ":]")[k];
    }
  }

  lemma {:induction false} KeywordUnique(p: CString, i: nat, v: string, w: string)
    requires KeywordAt(p, i, v) && KeywordAt(p, i, w)
    ensures v == w
  {
    KeywordSpelt(p, i, v);
    KeywordSpelt(p, i, w);
  }

  /** Marks the class named at `i`, just after `[:`. */
  method ParseKeyword(p: CString, i: nat, charset: array<bool>, ghost marks: set<int>)
    returns (ok: bool, next: nat)
    requires i <= |p| && Shows(charset, marks)
    modifies charset
    ensures ok <==> Keyword(p, i).Some?
    ensures ok ==>
      && next == i + |Keyword(p, i).value| + 2
      && Shows(charset, marks + {ClassNamed(Keyword(p, i).value).value})
    ensures !ok ==> next == i && Shows(charset, marks)
  {
    next, ok := i, false;
    var word, colon, k := "", false, 0;
    while true
      invariant i + k <= |p| && k == |word| + (if colon then 1 else 0) <= 10
      invariant word == p[i..i + |word|] && (forall j :: 0 <= j < |word| ==> IsLower(word[j]))
      invariant colon ==> p[i + |word|] == ':'
      decreases 10 - k
    {
      var c := At(p, i + k);
      k := k + 1;
      if k > 10 {
        NoKeyword(p, i, word, colon);
        return;
      }
      if !colon {
        if IsLower(c) {
          word := word + [c];
        } else if c == ':' {
          colon := true;
        } else {
          NoKeyword(p, i, word, colon);
          return;
        }
      } else if c == ']' {
        break;
      } else {
        NoKeyword(p, i, word, colon);
        return;
      }
    }
    var mark := ClassNamed(word);
    if mark.Some? {
      assert KeywordAt(p, i, word);
      KeywordUnique(p, i, word, Keyword(p, i).value);
      charset[mark.value] := true;
      ok, next := true, i + k;
    } else {
      NoKeyword(p, i, word, colon);
    }
  }

  /** A run of lower-case letters that is no class name, or is not closed, hides no keyword. */
  lemma {:induction false} SpeltWord(p: CString, i: nat, w: string)
    requires i <= |p| && w + ":]" <= p[i..]
    ensures i + |w| + 2 <= |p| && w == p[i..i + |w|] && p[i + |w|] == ':'
  {
    forall k | 0 <= k < |w| + 2 ensures p[i + k] == (w + ":]")[k] {
      assert p[i..][k] == (w + ":]")[k];
    }
  }

  lemma {:induction false} NoKeyword(p: CString, i: nat, word: string, colon: bool)
    requires i + |word| <= |p| && word == p[i..i + |word|]
    requires forall j :: 0 <= j < |word| ==> IsLower(word[j])
    requires
      || |word| + (if colon then 1 else 0) == 10
      || (!colon && At(p, i + |word|) != ':' && !IsLower(At(p, i + |word|)))
      || (At(p, i + |word|) == ':' && (At(p, i + |word| + 1) != ']' || ClassNamed(word).None?))
    ensures Keyword(p, i).None?
  {
    if w :| KeywordAt(p, i, w) {
      KeywordIs(p, i, word, w);
    }
  }

  /** Where a run of letters and then something else is read, only that run can be the keyword. */
  lemma {:induction false} KeywordIs(p: CString, i: nat, word: string, w: string)
    requires KeywordAt(p, i, w) && i + |word| <= |p| && word == p[i..i + |word|]
    requires forall j :: 0 <= j < |word| ==> IsLower(word[j])
    ensures |word| <= |w| <= 6 && i + |w| + 2 <= |p|
    ensures i + |word| < |p| && !IsLower(p[i + |word|]) ==> w == word
    ensures p[i + |w|] == ':' && p[i + |w| + 1] == ']'
  {
    KeywordSpelt(p, i, w);
    var s := p[i..];
    assert forall j :: 0 <= j < |word| ==> word[j] == s[j];
    assert forall j :: 0 <= j < |w| ==> w[j] == s[j];
    NotWithin(word, s, |w|);
    if i + |word| < |p| && !IsLower(p[i + |word|]) {
      NotWithin(w, s, |word|);
    }
  }

  lemma {:induction false} NotWithin(word: string, s: string, n: nat)
    requires n < |s| && !IsLower(s[n]) && |word| <= |s|
    requires forall j :: 0 <= j < |word| ==> word[j] == s[j] && IsLower(s[j])
    ensures |word| <= n
  {
  }

  /** Marks the character at `i`, or the range that starts there. */
  method SetCharOrRange(p: CString, i: nat, charset: array<bool>, ghost marks: set<int>)
    returns (next: nat)
    requires i < |p| && Shows(charset, marks)
    modifies charset
    ensures match RangeEnd(p, i)
      case Some((end, after)) => next == after && Shows(charset, marks + Span(p[i], end))
      case None => next == i + 1 && Shows(charset, marks + {p[i] as int})
  {
    var c := p[i] as int;
    charset[c] := true;
    next := i + 1;
    if IsAlnum(p[i]) && At(p, i + 1) == '-' {
      var k := if At(p, i + 2) == '\\' then i + 3 else i + 2;
      var end := At(p, k);
      if end >= p[i] && ClassOf(end) == ClassOf(p[i]) {
        assert RangeEnd(p, i) == Some((end, k + 1));
        while c != end as int
          invariant p[i] as int <= c <= end as int
          invariant Shows(charset, marks + Span(p[i], c as char))
          decreases end as int - c
        {
          c := c + 1;
          if ClassOf(c as char) == ClassOf(p[i]) {
            charset[c] := true;
          }
          assert Span(p[i], c as char) == Span(p[i], (c - 1) as char) + {c};
        }
        next := k + 1;
      }
    }
  }

  /** The step at a `[`: a class, or the character itself. */
  method ClassStep(p: CString, i: nat, found: bool, charset: array<bool>, ghost marks: set<int>)
    returns (step: Progress, ghost after: set<int>)
    requires i < |p| && p[i] == '[' && Shows(charset, marks)
    modifies charset
    ensures (step, after) == SetStep(p, i, Default, found, marks) && Shows(charset, after)
  {
    if At(p, i + 1) == ':' {
      var word, next := ParseKeyword(p, i + 2, charset, marks);
      if word {
        after := marks + {ClassNamed(Keyword(p, i + 2).value).value};
        return Going(next, Default, true), after;
      }
    }
    charset[p[i] as int], after := true, marks + {p[i] as int};
    step := Going(i + 1, Default, true);
  }

  /** The step at a character, escaped or not, that is not special. */
  method CharStep(p: CString, i: nat, found: bool, charset: array<bool>, ghost marks: set<int>)
    returns (step: Progress, ghost after: set<int>)
    requires i < |p| && p[i] !in {']', '[', '^', '!'} && Shows(charset, marks)
    modifies charset
    ensures (step, after) == SetStep(p, i, Default, found, marks) && Shows(charset, after)
  {
    var k := if p[i] == '\\' then i + 1 else i;
    if k == |p| {
      return Malformed, marks;
    }
    var next := SetCharOrRange(p, k, charset, marks);
    after := marks +
      (if RangeEnd(p, k).Some? then Span(p[k], RangeEnd(p, k).value.0) else {p[k] as int});
    step := Going(next, Default, true);
  }

  /** The step in the parser's default state. */
  method DefaultStep(p: CString, i: nat, found: bool, charset: array<bool>, ghost marks: set<int>)
    returns (step: Progress, ghost after: set<int>)
    requires i < |p| && Shows(charset, marks)
    modifies charset
    ensures (step, after) == SetStep(p, i, Default, found, marks) && Shows(charset, after)
  {
    var c := p[i];
    after := marks;
    if c == ']' {
      if found {
        return Closed, after;
      }
      charset[c as int], after := true, after + {c as int};
      step := Going(i + 1, RightBr, true);
    } else if c == '[' {
      step, after := ClassStep(p, i, found, charset, marks);
    } else if c == '^' || c == '!' {
      if !found && !charset[NEGATE] {
        charset[NEGATE], after := true, after + {NEGATE};
        step := Going(i + 1, Default, false);
      } else {
        charset[c as int], after := true, after + {c as int};
        step := Going(i + 1, Default, true);
      }
    } else {
      step, after := CharStep(p, i, found, charset, marks);
    }
  }

  /** The step after a leading `]`, and the one after `][`. */
  method BracketStep(p: CString, i: nat, state: SetState, found: bool,
                     charset: array<bool>, ghost marks: set<int>)
    returns (step: Progress, ghost after: set<int>)
    requires i < |p| && state != Default && Shows(charset, marks)
    modifies charset
    ensures (step, after) == SetStep(p, i, state, found, marks) && Shows(charset, after)
  {
    var c := p[i];
    after := marks;
    if c == ']' {
      return Closed, after;
    }
    if state == RightBr && c != '[' && !IsPrint(c) {
      return Malformed, after;
    }
    charset[c as int], after := true, after + {c as int};
    step := Going(i + 1, if state == RightBr && c == '[' then RightBrLeftBr else Default, found);
  }

  /** Parses the set that starts at `i` and marks its members. */
  method SetCharset(p: CString, i: nat, charset: array<bool>) returns (ok: bool, close: nat)
    requires i <= |p| && charset.Length == SET_SIZE
    modifies charset
    ensures match ParseSet(p, i, Default, false, {})
      case Some((end, marks)) => ok && close == end && Shows(charset, marks)
      case None => !ok
  {
    forall k | 0 <= k < SET_SIZE {
      charset[k] := false;
    }
    var state, found := Default, false;
    ghost var marks := {};
    close := i;
    while true
      invariant i <= close <= |p| && Shows(charset, marks)
      invariant ParseSet(p, close, state, found, marks) == ParseSet(p, i, Default, false, {})
      decreases |p| - close
    {
      if At(p, close) == '\0' {
        return false, close;
      }
      var step;
      if state == Default {
        step, marks := DefaultStep(p, close, found, charset, marks);
      } else {
        step, marks := BracketStep(p, close, state, found, charset, marks);
      }
      match step
      case Closed => return true, close;
      case Malformed => return false, close;
      case Going(next, state', found') => close, state, found := next, state', found';
    }
  }

  /** Whether the marked table holds the character. */
  method Member(charset: array<bool>, c: char, ghost marks: set<int>) returns (found: bool)
    requires c as int < 256 && Shows(charset, marks)
    ensures found == InSet(marks, c)
  {
    found := false;
    if charset[c as int] { found := true; }
    else if charset[ALNUM] { found := IsAlnum(c); }
    else if charset[ALPHA] { found := IsAlpha(c); }
    else if charset[DIGIT] { found := IsDigit(c); }
    else if charset[XDIGIT] { found := IsXdigit(c); }
    else if charset[PRINT] { found := IsPrint(c); }
    else if charset[SPACE] { found := IsBlank(c); }
    else if charset[UPPER] { found := IsUpper(c); }
    else if charset[LOWER] { found := IsLower(c); }
    else if charset[BLANK] { found := IsBlank(c); }
    else if charset[GRAPH] { found := IsGraph(c); }
    if charset[NEGATE] { found := !found; }
  }

  /** Any token but a star takes exactly one character. */
  lemma {:induction false} OneToken(p: CString, i: nat, s: string, maxStars: nat, tok: Token, next: nat)
    requires i < |p| && TokenAt(p, i) == Some((tok, next)) && tok != Star
    ensures Accepts(p, i, s, maxStars) <==>
      s != [] && tok.Takes(s[0]) && Accepts(p, next, s[1..], maxStars)
  {
  }

  /** Acceptance from inside a group of stars and question marks. */
  ghost predicate AcceptsInGroup(p: CString, i: nat, s: string, maxStars: nat)
    requires i <= |p|
  {
    var toks := Tokens(p, i);
    && toks.Some? && StarGroups(toks.value, true) <= maxStars
    && Derives([Star] + toks.value, s)
  }

  lemma {:induction false} EnterGroup(p: CString, i: nat, s: string, maxStars: nat)
    requires i < |p| && p[i] == '*'
    ensures Accepts(p, i, s, maxStars) <==> maxStars > 0 && AcceptsInGroup(p, i + 1, s, maxStars - 1)
  {
  }

  /** A further star adds nothing. */
  lemma {:induction false} StarStar(rest: seq<Token>, s: string)
    ensures Derives([Star, Star] + rest, s) <==> Derives([Star] + rest, s)
  {
    var one, two := [Star] + rest, [Star, Star] + rest;
    assert one[1..] == rest && two[1..] == one;
    if Derives(two, s) {
      var k :| 0 <= k <= |s| && Derives(one, Drop(s, k));
      var j :| 0 <= j <= |Drop(s, k)| && Derives(rest, Drop(Drop(s, k), j));
      assert Drop(Drop(s, k), j) == Drop(s, k + j);
    }
    if Derives(one, s) {
      assert Drop(s, 0) == s;
    }
  }

  /** A question mark in a group can be taken at once. */
  lemma {:induction false} StarAny(rest: seq<Token>, s: string)
    ensures Derives([Star, Any] + rest, s) <==> s != [] && Derives([Star] + rest, s[1..])
  {
    var one, two := [Star] + rest, [Star, Any] + rest;
    assert one[1..] == rest && two[1..][1..] == rest;
    if Derives(two, s) {
      var k :| 0 <= k <= |s| && Derives(two[1..], Drop(s, k));
      assert Drop(s, k)[1..] == Drop(s[1..], k);
    }
    if s != [] && Derives(one, s[1..]) {
      var k :| 0 <= k <= |s[1..]| && Derives(rest, Drop(s[1..], k));
      assert Drop(s, k)[1..] == Drop(s[1..], k);
    }
  }

  lemma {:induction false} InGroup(p: CString, i: nat, s: string, maxStars: nat)
    requires i < |p| && (p[i] == '*' || p[i] == '?')
    ensures p[i] == '*' ==>
      (AcceptsInGroup(p, i, s, maxStars) <==> AcceptsInGroup(p, i + 1, s, maxStars))
    ensures p[i] == '?' ==>
      (AcceptsInGroup(p, i, s, maxStars) <==> s != [] && AcceptsInGroup(p, i + 1, s[1..], maxStars))
  {
    var rest := Tokens(p, i + 1);
    if rest.Some? {
      StarStar(rest.value, s);
      StarAny(rest.value, s);
      assert [Star, Star] + rest.value == [Star] + ([Star] + rest.value);
      assert [Star, Any] + rest.value == [Star] + ([Any] + rest.value);
    }
  }

  /** A group at the end of the pattern takes whatever is left. */
  lemma {:induction false} GroupAtEnd(p: CString, s: string, maxStars: nat)
    ensures AcceptsInGroup(p, |p|, s, maxStars)
  {
    assert Drop(s, |s|) == [];
    assert ([Star] + [])[1..] == [];
  }

  /** After the group, the rest must match a non-empty suffix: it needs at least one character. */
  lemma {:induction false} AfterGroup(p: CString, i: nat, s: string, maxStars: nat)
    requires i < |p| && p[i] != '*' && p[i] != '?'
    ensures AcceptsInGroup(p, i, s, maxStars) <==>
      exists k :: 0 <= k < |s| && Accepts(p, i, Drop(s, k), maxStars)
  {
    var toks := Tokens(p, i);
    if toks.Some? {
      assert ([Star] + toks.value)[1..] == toks.value;
      assert toks.value != [] && toks.value[0] != Star && toks.value[0] != Any;
      if k :| 0 <= k <= |s| && Derives(toks.value, Drop(s, k)) {
        assert k < |s|;
      }
    }
  }

  /** Matches one token that is not a star, and one character. */
  method Single(p: CString, s: CString, i: nat, j: nat, charset: array<bool>, ghost maxStars: nat)
    returns (ok: bool, next: nat)
    requires i < |p| && p[i] != '*' && j <= |s| && charset.Length == SET_SIZE
    modifies charset
    ensures !ok ==> !Accepts(p, i, s[j..], maxStars)
    ensures ok ==>
      && j < |s| && i < next <= |p|
      && (Accepts(p, i, s[j..], maxStars) <==> Accepts(p, next, s[j + 1..], maxStars))
  {
    next, ok := i + 1, At(s, j) != '\0';
    assert ok ==> s[j..][1..] == s[j + 1..];
    if p[i] == '?' {
      OneToken(p, i, s[j..], maxStars, Any, next);
    } else if p[i] == '[' {
      var good, close := SetCharset(p, i + 1, charset);
      if !good {
        return false, next;
      }
      ghost var marks := ParseSet(p, i + 1, Default, false, {}).value.1;
      next := close + 1;
      OneToken(p, i, s[j..], maxStars, Set(marks), next);
      if ok {
        ok := Member(charset, s[j], marks);
      }
    } else {
      var k := if p[i] == '\\' && At(p, i + 1) != '\0' then i + 1 else i;
      next := k + 1;
      OneToken(p, i, s[j..], maxStars, Lit(p[k]), next);
      ok := At(s, j) == p[k];
    }
  }

  /** Matches the pattern from `i` on against the string from `j` on. */
  method Loop(p: CString, s: CString, i: nat, j: nat, maxStars: nat) returns (r: bool)
    requires i <= |p| && j <= |s|
    ensures r <==> Accepts(p, i, s[j..], maxStars)
    decreases maxStars, 0
  {
    var pi: nat, sj: nat := i, j;
    var charset := new bool[SET_SIZE];
    while true
      invariant pi <= |p| && sj <= |s|
      invariant Accepts(p, pi, s[sj..], maxStars) <==> Accepts(p, i, s[j..], maxStars)
      decreases |p| - pi
    {
      var c := At(p, pi);
      if c == '\0' {
        return At(s, sj) == '\0';
      }
      if c == '*' {
        EnterGroup(p, pi, s[sj..], maxStars);
        if maxStars == 0 {
          return false;
        }
        r := Group(p, s, pi + 1, sj, maxStars - 1);
        return;
      }
      var ok, next := Single(p, s, pi, sj, charset, maxStars);
      if !ok {
        return false;
      }
      pi, sj := next, sj + 1;
    }
  }

  /** Goes on inside a group of stars and question marks, then tries every suffix. */
  method Group(p: CString, s: CString, i: nat, j: nat, maxStars: nat) returns (r: bool)
    requires i <= |p| && j <= |s|
    ensures r <==> AcceptsInGroup(p, i, s[j..], maxStars)
    decreases maxStars, 1
  {
    var pi: nat, sj: nat := i, j;
    while pi < |p| && (p[pi] == '?' || p[pi] == '*')
      invariant pi <= |p| && sj <= |s|
      invariant AcceptsInGroup(p, pi, s[sj..], maxStars) <==> AcceptsInGroup(p, i, s[j..], maxStars)
    {
      InGroup(p, pi, s[sj..], maxStars);
      if p[pi] == '?' {
        if At(s, sj) == '\0' {
          return false;
        }
        assert s[sj..][1..] == s[sj + 1..];
        sj := sj + 1;
      }
      pi := pi + 1;
    }
    if pi == |p| {
      GroupAtEnd(p, s[sj..], maxStars);
      return true;
    }
    AfterGroup(p, pi, s[sj..], maxStars);
    for k := sj to |s|
      invariant forall m :: 0 <= m < k - sj ==> !Accepts(p, pi, Drop(s[sj..], m), maxStars)
    {
      assert s[k..] == Drop(s[sj..], k - sj);
      var hit := Loop(p, s, pi, k, maxStars);
      if hit {
        return true;
      }
    }
    return false;
  }

  datatype Outcome = Match | NoMatch | Fail

  /**
   * The whole matcher. It reports a match exactly when every set of the pattern is well formed,
   * there are at most two groups of stars, and the string is in the pattern's language.
   */
  method FnMatch(pattern: Option<CString>, text: Option<CString>) returns (r: Outcome)
    ensures r == Fail <==> pattern.None? || text.None?
    ensures pattern.Some? && text.Some? ==>
      var toks := Tokens(pattern.value, 0);
      (r == Match <==>
        toks.Some? && StarGroups(toks.value, false) <= 2 && InLanguage(toks.value, text.value))
  {
    if pattern.None? || text.None? {
      return Fail;
    }
    var hit := Loop(pattern.value, text.value, 0, 0, 2);
    assert text.value[0..] == text.value;
    if Tokens(pattern.value, 0).Some? {
      DerivesIsLanguage(Tokens(pattern.value, 0).value, text.value);
    }
    r := if hit then Match else NoMatch;
  }

  /** A character that stands for itself in a set, wherever it is. */
  predicate Plain(c: char) {
    c != ']' && c != '[' && c != '^' && c != '!' && c != '\\' && c != '-'
  }

  predicate Lists(w: string, k: int) {
    0 <= k < NEGATE && k as char in w
  }

  ghost function Codes(w: string): set<int> {
    set k | 0 <= k < NEGATE && Lists(w, k)
  }

  lemma {:induction false} PlainOne(p: CString, i: nat, found: bool, marks: set<int>)
    requires i + 1 < |p| && Plain(p[i]) && p[i + 1] != '-'
    ensures ParseSet(p, i, Default, found, marks) == ParseSet(p, i + 1, Default, true, marks + {p[i] as int})
  {
    GoesOn(p, i, found, marks, i + 1, marks + {p[i] as int});
  }

  lemma {:induction false} PlainRun(p: CString, i: nat, n: nat, found: bool, marks: set<int>)
    requires i + n < |p| && p[i + n] == ']' && (n > 0 || found)
    requires forall k :: i <= k < i + n ==> Plain(p[k])
    ensures ParseSet(p, i, Default, found, marks) == Some((i + n, marks + Codes(p[i..i + n])))
    decreases n
  {
    if n > 0 {
      PlainOne(p, i, found, marks);
      PlainRun(p, i + 1, n - 1, true, marks + {p[i] as int});
      assert p[i..i + n] == [p[i]] + p[i + 1..i + n];
      assert marks + {p[i] as int} + Codes(p[i + 1..i + n]) == marks + Codes(p[i..i + n]);
    } else {
      assert marks + Codes(p[i..i + n]) == marks;
    }
  }

  /** `[abc]` stands for exactly the characters listed. */
  lemma {:induction false} Enumeration(w: CString, c: char)
    requires w != [] && (forall k :: 0 <= k < |w| ==> Plain(w[k])) && c as int < 256
    ensures TokenAt("[" + w + "]", 0) == Some((Set(Codes(w)), |w| + 2))
    ensures InSet(Codes(w), c) <==> c in w
  {
    var p: CString := "[" + w + "]";
    assert p[1..1 + |w|] == w;
    PlainRun(p, 1, |w|, false, {});
    assert {} + Codes(w) == Codes(w);
    assert c as int in Codes(w) <==> Lists(w, c as int);
  }

  /** `[!abc]` stands for exactly the characters not listed. */
  lemma {:induction false} Complement(w: CString, c: char)
    requires w != [] && (forall k :: 0 <= k < |w| ==> Plain(w[k])) && c as int < 256
    ensures TokenAt("[!" + w + "]", 0) == Some((Set({NEGATE} + Codes(w)), |w| + 3))
    ensures InSet({NEGATE} + Codes(w), c) <==> c !in w
  {
    var p: CString := "[!" + w + "]";
    assert p[2..2 + |w|] == w;
    ComplementAt(p, w);
    assert c as int in Codes(w) <==> Lists(w, c as int);
  }

  lemma {:induction false} ComplementAt(p: CString, w: CString)
    requires w != [] && (forall k :: 0 <= k < |w| ==> Plain(w[k]))
    requires |p| == |w| + 3 && p[0] == '[' && p[1] == '!' && p[2..2 + |w|] == w && p[|w| + 2] == ']'
    ensures TokenAt(p, 0) == Some((Set({NEGATE} + Codes(w)), |w| + 3))
  {
    forall k | 2 <= k < 2 + |w| ensures Plain(p[k]) {
      assert p[k] == p[2..2 + |w|][k - 2];
    }
    PlainRun(p, 2, |w|, false, {NEGATE});
    Negates(p, 1);
    IsSet(p, |w| + 2, {NEGATE} + Codes(w));
  }

  lemma {:induction false} Negates(p: CString, i: nat)
    requires i < |p| && p[i] == '!'
    ensures ParseSet(p, i, Default, false, {}) == ParseSet(p, i + 1, Default, false, {NEGATE})
  {
    assert {} + {NEGATE} == {NEGATE};
  }

  /** `[a-z]` stands for exactly the characters from one end to the other. */
  lemma {:induction false} Range(a: char, b: char, c: char)
    requires IsAlnum(a) && a <= b && ClassOf(a) == ClassOf(b) && c as int < 256
    ensures TokenAt(['[', a, '-', b, ']'], 0) == Some((Set(Span(a, b)), 5))
    ensures InSet(Span(a, b), c) <==> a <= c <= b
  {
    var p: CString := ['[', a, '-', b, ']'];
    assert RangeEnd(p, 1) == Some((b, 4));
    assert {} + Span(a, b) == Span(a, b);
    assert ParseSet(p, 4, Default, true, Span(a, b)) == Some((4, Span(a, b)));
    assert c as int in Span(a, b) <==> Between(a, c as int, b);
  }

  /** The end of a range may be written with a backslash. */
  lemma {:induction false} EscapedRange(a: char, b: char, c: char)
    requires IsAlnum(a) && a <= b && ClassOf(a) == ClassOf(b) && c as int < 256
    ensures TokenAt(['[', a, '-', '\\', b, ']'], 0) == Some((Set(Span(a, b)), 6))
    ensures InSet(Span(a, b), c) <==> a <= c <= b
  {
    var p: CString := ['[', a, '-', '\\', b, ']'];
    assert RangeEnd(p, 1) == Some((b, 5));
    assert {} + Span(a, b) == Span(a, b);
    assert ParseSet(p, 5, Default, true, Span(a, b)) == Some((5, Span(a, b)));
    assert c as int in Span(a, b) <==> Between(a, c as int, b);
  }

  /** A right bracket that comes first is a member. */
  lemma {:induction false} BracketFirst(x: char, c: char)
    requires IsPrint(x) && x != '[' && x != ']' && c as int < 256
    ensures TokenAt(['[', ']', x, ']'], 0) == Some((Set({']' as int, x as int}), 4))
    ensures InSet({']' as int, x as int}, c) <==> c == ']' || c == x
  {
    var p: CString := ['[', ']', x, ']'];
    var marks := {']' as int, x as int};
    assert {} + {']' as int} == {']' as int} && {']' as int} + {x as int} == marks;
    assert ParseSet(p, 3, Default, true, marks) == Some((3, marks));
    assert ParseSet(p, 2, RightBr, true, {']' as int}) == Some((3, marks));
    IsSet(p, 3, marks);
  }

  /** Membership if the classes of a set were united; `[:space:]` as the code tests it. */
  predicate InUnion(marks: set<int>, c: char) {
    || c as int in marks
    || (ALNUM in marks && IsAlnum(c)) || (ALPHA in marks && IsAlpha(c))
    || (DIGIT in marks && IsDigit(c)) || (XDIGIT in marks && IsXdigit(c))
    || (PRINT in marks && IsPrint(c)) || (SPACE in marks && IsBlank(c))
    || (UPPER in marks && IsUpper(c)) || (LOWER in marks && IsLower(c))
    || (BLANK in marks && IsBlank(c)) || (GRAPH in marks && IsGraph(c))
  }

  /** The first class present, in the order they are tested, contains all others present. */
  predicate Nested(marks: set<int>) {
    if ALNUM in marks then marks !! {PRINT, SPACE, BLANK, GRAPH}
    else if ALPHA in marks then marks <= {ALPHA, UPPER, LOWER}
    else if DIGIT in marks then marks <= {DIGIT}
    else if XDIGIT in marks then marks <= {XDIGIT}
    else if PRINT in marks then true
    else if SPACE in marks then marks <= {SPACE, BLANK}
    else |marks| <= 1
  }

  /** The classes among the marks. */
  function Classes(marks: set<int>): set<int> {
    marks * {ALNUM, DIGIT, XDIGIT, ALPHA, PRINT, BLANK, LOWER, GRAPH, SPACE, UPPER}
  }

  /** Membership if the classes were united, and all of it negated where the set is. */
  predicate InUnited(marks: set<int>, c: char) {
    InUnion(marks, c) != (NEGATE in marks)
  }

  /** Membership splits into that of the listed characters and that of the classes. */
  lemma {:induction false} Splits(marks: set<int>, c: char)
    requires c as int < 256
    ensures InSet(marks, c) <==> (c as int in marks || InSet(Classes(marks), c)) != (NEGATE in marks)
    ensures InUnion(marks, c) <==> c as int in marks || InUnion(Classes(marks), c)
  {
  }

  /** Nested classes are united, in every set: with listed characters or without, negated or not. */
  lemma {:induction false} NestedUnited(marks: set<int>, c: char)
    requires Nested(Classes(marks)) && c as int < 256
    ensures InSet(marks, c) <==> InUnited(marks, c)
  {
    ClassesUnited(Classes(marks));
    Splits(marks, c);
  }

  /**
   * The classes of one set are not united: `[[:digit:][:alpha:]]` misses digits. A set that lists
   * no characters means their union exactly when the first class tested contains the others.
   */
  lemma {:induction false} UnitedIffNested(marks: set<int>)
    requires forall k :: k in marks ==> k >= 256
    ensures Nested(Classes(marks)) <==> forall c :: c as int < 256 ==> (InSet(marks, c) <==> InUnited(marks, c))
  {
    var classes := Classes(marks);
    if Nested(classes) {
      forall c | c as int < 256 ensures InSet(marks, c) <==> InUnited(marks, c) {
        NestedUnited(marks, c);
      }
    } else {
      var c := Spot(classes);
      Splits(marks, c);
    }
  }

  lemma {:induction false} ClassesUnited(marks: set<int>)
    requires marks == Classes(marks) && Nested(marks)
    ensures forall c :: c as int < 256 ==> (InSet(marks, c) <==> InUnion(marks, c))
  {
    if marks !! {ALNUM, ALPHA, DIGIT, XDIGIT, PRINT, SPACE} && marks != {} {
      var k :| k in marks;
      assert marks == {k} by { assert |marks - {k}| == 0; }
    }
  }

  /** A character that tells classes that are not nested from their union. */
  lemma {:induction false} Spot(marks: set<int>) returns (spot: char)
    requires marks == Classes(marks) && !Nested(marks)
    ensures spot as int < 256 && InSet(marks, spot) != InUnion(marks, spot)
  {
    if !(ALNUM in marks || ALPHA in marks || DIGIT in marks || XDIGIT in marks || PRINT in marks) {
      spot := SpotAmongFew(marks);
    } else {
      spot :=
        if SPACE in marks || BLANK in marks || PRINT in marks then ' '
        else if GRAPH in marks then '!'
        else if ALPHA in marks then '5'
        else if LOWER in marks then 'z'
        else if UPPER in marks then 'Z'
        else 'a';
      assert spot == 'a' ==> DIGIT in marks && XDIGIT in marks;
    }
  }

  lemma {:induction false} SpotAmongFew(marks: set<int>) returns (spot: char)
    requires marks <= {SPACE, UPPER, LOWER, BLANK, GRAPH} && !Nested(marks)
    ensures spot as int < 256 && InSet(marks, spot) != InUnion(marks, spot)
  {
    spot :=
      if SPACE in marks then
        (if GRAPH in marks then '!' else if UPPER in marks then 'Z' else 'z')
      else if UPPER in marks then
        (if LOWER in marks then 'z' else if BLANK in marks then ' ' else '!')
      else if LOWER in marks then (if BLANK in marks then ' ' else '!')
      else '!';
    assert UPPER in marks && marks !! {SPACE, LOWER, BLANK, GRAPH} ==> marks == {UPPER};
    assert LOWER in marks && marks !! {SPACE, UPPER, BLANK, GRAPH} ==> marks == {LOWER};
    assert BLANK in marks && marks !! {SPACE, UPPER, LOWER, GRAPH} ==> marks == {BLANK};
    assert GRAPH in marks && marks !! {SPACE, UPPER, LOWER, BLANK} ==> marks == {GRAPH};
  }

  /** `[:w:]` is at `i`, where `w` names a class. */
  ghost predicate ClassText(p: CString, i: nat, w: string) {
    i + |w| + 4 <= |p| && p[i] == '[' && p[i + 1] == ':' && KeywordAt(p, i + 2, w)
  }

  lemma {:induction false} Peel(p: CString, i: nat, w: string, rest: string)
    requires ClassNamed(w).Some? && i <= |p| && p[i..] == "[:" + w + ":]" + rest
    ensures ClassText(p, i, w) && p[i + |w| + 4..] == rest
  {
    var s := p[i..];
    assert p[i] == s[0] && p[i + 1] == s[1];
    assert p[i + 2..] == s[2..] && s[2..] == w + ":]" + rest;
    assert p[i + |w| + 4..] == s[|w| + 4..];
  }

  lemma {:induction false} GoesOn(p: CString, i: nat, found: bool, marks: set<int>, next: nat, after: set<int>)
    requires i < |p| && SetStep(p, i, Default, found, marks) == (Going(next, Default, true), after)
    ensures ParseSet(p, i, Default, found, marks) == ParseSet(p, next, Default, true, after)
  {
  }

  lemma {:induction false} ClassAt(p: CString, i: nat, w: string, marks: set<int>, found: bool)
    requires ClassText(p, i, w)
    ensures ParseSet(p, i, Default, found, marks)
      == ParseSet(p, i + |w| + 4, Default, true, marks + {ClassNamed(w).value})
  {
    KeywordIsThis(p, i + 2, w);
    StepsOver(p, i, w, marks, found);
    GoesOn(p, i, found, marks, i + |w| + 4, marks + {ClassNamed(w).value});
  }

  lemma {:induction false} KeywordIsThis(p: CString, i: nat, w: string)
    requires KeywordAt(p, i, w)
    ensures Keyword(p, i) == Some(w)
  {
    KeywordUnique(p, i, w, Keyword(p, i).value);
  }

  lemma {:induction false} StepsOver(p: CString, i: nat, w: string, marks: set<int>, found: bool)
    requires i + |w| + 4 <= |p| && p[i] == '[' && p[i + 1] == ':' && Keyword(p, i + 2) == Some(w)
    ensures SetStep(p, i, Default, found, marks)
      == (Going(i + |w| + 4, Default, true), marks + {ClassNamed(w).value})
  {
  }

  /** A class and the closing bracket, from `i` on. */
  lemma {:induction false} LastClass(p: CString, i: nat, w: string, marks: set<int>, found: bool)
    requires ClassText(p, i, w) && i + |w| + 5 == |p| && p[|p| - 1] == ']'
    ensures ParseSet(p, i, Default, found, marks) == Some((|p| - 1, marks + {ClassNamed(w).value}))
  {
    Closes(p, i + |w| + 4, marks + {ClassNamed(w).value});
    ClassAt(p, i, w, marks, found);
  }

  lemma {:induction false} Closes(p: CString, i: nat, marks: set<int>)
    requires i < |p| && p[i] == ']'
    ensures ParseSet(p, i, Default, true, marks) == Some((i, marks))
  {
  }

  /** Where the two classes of a pattern are. */
  lemma {:induction false} PairText(p: CString, v: string, w: string)
    requires ClassNamed(v).Some? && ClassNamed(w).Some? && p == "[" + ("[:" + v + ":]" + ("[:" + w + ":]" + "]"))
    ensures ClassText(p, 1, v) && ClassText(p, |v| + 5, w) && |p| == |v| + |w| + 10 && p[|p| - 1] == ']' && p[0] == '['
  {
    var rest := "[:" + w + ":]" + "]";
    assert p[1..] == "[:" + v + ":]" + rest;
    Peel(p, 1, v, rest);
    Peel(p, |v| + 5, w, "]");
  }

  lemma {:induction false} PairSet(p: CString, v: string, w: string)
    requires ClassText(p, 1, v) && ClassText(p, |v| + 5, w) && |p| == |v| + |w| + 10 && p[|p| - 1] == ']'
    ensures ParseSet(p, 1, Default, false, {}) == Some((|p| - 1, {} + {ClassNamed(v).value} + {ClassNamed(w).value}))
  {
    LastClass(p, |v| + 5, w, {} + {ClassNamed(v).value}, true);
    ClassAt(p, 1, v, {}, false);
  }

  /** A pattern of two classes is a set with just these marks. */
  lemma {:induction false} ClassPair(p: CString, v: string, w: string)
    requires ClassText(p, 1, v) && ClassText(p, |v| + 5, w)
    requires |p| == |v| + |w| + 10 && p[|p| - 1] == ']' && p[0] == '['
    ensures TokenAt(p, 0) == Some((Set({} + {ClassNamed(v).value} + {ClassNamed(w).value}), |p|))
  {
    PairSet(p, v, w);
    IsSet(p, |p| - 1, {} + {ClassNamed(v).value} + {ClassNamed(w).value});
  }

  lemma {:induction false} IsSet(p: CString, close: nat, marks: set<int>)
    requires p != [] && p[0] == '[' && ParseSet(p, 1, Default, false, {}) == Some((close, marks))
    ensures TokenAt(p, 0) == Some((Set(marks), close + 1))
  {
  }

  /** `[[:alpha:][:digit:]]` does not match a digit, although one of its classes does. */
  lemma {:induction false} TwoClasses(p: CString, v: string, w: string)
    requires v == "alpha" && w == "digit" && p == "[" + ("[:" + v + ":]" + ("[:" + w + ":]" + "]"))
    ensures TokenAt(p, 0) == Some((Set({ALPHA, DIGIT}), |p|))
    ensures !InSet({ALPHA, DIGIT}, '5') && InUnion({ALPHA, DIGIT}, '5')
  {
    assert ClassNamed(v) == Some(ALPHA) && ClassNamed(w) == Some(DIGIT);
    PairText(p, v, w);
    ClassPair(p, v, w);
    assert {} + {ALPHA} + {DIGIT} == {ALPHA, DIGIT};
  }

  /** A third group of stars is refused although the string is in the pattern's language. */
  lemma {:induction false} ThirdGroupRefused()
    ensures var toks := [Star, Lit('a'), Star, Lit('b'), Star];
      Tokens("*a*b*", 0) == Some(toks) && StarGroups(toks, false) == 3 && InLanguage(toks, "ab")
  {
    var toks := [Star, Lit('a'), Star, Lit('b'), Star];
    ThreeTokens("*a*b*", toks);
    ThreeGroups(toks);
    assert Fits(toks, "ab", [0, 0, 1, 1, 2, 2]);
  }

  lemma {:induction false} ThreeTokens(p: CString, toks: seq<Token>)
    requires p == "*a*b*" && toks == [Star, Lit('a'), Star, Lit('b'), Star]
    ensures Tokens(p, 0) == Some(toks)
  {
    assert Tokens(p, 5) == Some([]);
    assert TokenAt(p, 4) == Some((Star, 5)) && TokenAt(p, 3) == Some((Lit('b'), 4));
    assert TokenAt(p, 2) == Some((Star, 3)) && TokenAt(p, 1) == Some((Lit('a'), 2));
    assert [Star] + [] == [Star] && [Lit('b')] + [Star] == toks[3..];
    assert [Star] + toks[3..] == toks[2..] && [Lit('a')] + toks[2..] == toks[1..];
    assert [Star] + toks[1..] == toks;
    assert Tokens(p, 4) == Some([Star]);
    assert Tokens(p, 3) == Some(toks[3..]);
    assert Tokens(p, 2) == Some(toks[2..]);
    assert Tokens(p, 1) == Some(toks[1..]);
  }

  lemma {:induction false} ThreeGroups(toks: seq<Token>)
    requires toks == [Star, Lit('a'), Star, Lit('b'), Star]
    ensures StarGroups(toks, false) == 3
  {
    assert StarGroups(toks[1..], true) == StarGroups(toks[2..], false) == 2 by {
      assert StarGroups(toks[3..], true) == StarGroups(toks[4..], false) == 1;
    }
  }

  // ---------- What each named class stands for ----------

  /** The pattern is one set, and the character is a member of it exactly if `member`. */
  ghost predicate IsMember(p: CString, c: char, member: bool)
    requires p != []
  {
    && TokenAt(p, 0).Some? && TokenAt(p, 0).value.0.Set? && TokenAt(p, 0).value.1 == |p|
    && (TokenAt(p, 0).value.0.Takes(c) <==> member)
  }

  lemma {:induction false} OneClass(p: CString, w: string)
    requires p == "[" + ("[:" + w + ":]" + "]") && ClassNamed(w).Some?
    ensures TokenAt(p, 0) == Some((Set({ClassNamed(w).value}), |p|))
  {
    assert p[1..] == "[:" + w + ":]" + "]";
    Peel(p, 1, w, "]");
    assert p[|w| + 5] == p[|w| + 5..][0];
    LastClass(p, 1, w, {}, false);
    assert {} + {ClassNamed(w).value} == {ClassNamed(w).value};
    IsSet(p, |p| - 1, {ClassNamed(w).value});
  }

  lemma {:induction false} DigitSet(p: CString, w: string, c: char)
    requires p == "[" + ("[:" + w + ":]" + "]") && w == "digit" && c as int < 256
    ensures IsMember(p, c, '0' <= c <= '9')
  {
    OneClass(p, w);
  }

  lemma {:induction false} AlnumSet(p: CString, w: string, c: char)
    requires p == "[" + ("[:" + w + ":]" + "]") && w == "alnum" && c as int < 256
    ensures IsMember(p, c, '0' <= c <= '9' || 'A' <= c <= 'Z' || 'a' <= c <= 'z')
  {
    OneClass(p, w);
  }

  lemma {:induction false} AlphaSet(p: CString, w: string, c: char)
    requires p == "[" + ("[:" + w + ":]" + "]") && w == "alpha" && c as int < 256
    ensures IsMember(p, c, 'A' <= c <= 'Z' || 'a' <= c <= 'z')
  {
    OneClass(p, w);
  }

  lemma {:induction false} XdigitSet(p: CString, w: string, c: char)
    requires p == "[" + ("[:" + w + ":]" + "]") && w == "xdigit" && c as int < 256
    ensures IsMember(p, c, '0' <= c <= '9' || 'A' <= c <= 'F' || 'a' <= c <= 'f')
  {
    OneClass(p, w);
  }

  lemma {:induction false} PrintSet(p: CString, w: string, c: char)
    requires p == "[" + ("[:" + w + ":]" + "]") && w == "print" && c as int < 256
    ensures IsMember(p, c, '\t' <= c <= '\r' || ' ' <= c <= '~')
  {
    OneClass(p, w);
  }

  lemma {:induction false} GraphSet(p: CString, w: string, c: char)
    requires p == "[" + ("[:" + w + ":]" + "]") && w == "graph" && c as int < 256
    ensures IsMember(p, c, '\t' <= c <= '\r' || '!' <= c <= '~')
  {
    OneClass(p, w);
  }

  lemma {:induction false} SpaceSet(p: CString, w: string, c: char)
    requires p == "[" + ("[:" + w + ":]" + "]") && w == "space" && c as int < 256
    ensures IsMember(p, c, c == ' ' || c == '\t')
  {
    OneClass(p, w);
  }

  lemma {:induction false} BlankSet(p: CString, w: string, c: char)
    requires p == "[" + ("[:" + w + ":]" + "]") && w == "blank" && c as int < 256
    ensures IsMember(p, c, c == ' ' || c == '\t')
  {
    OneClass(p, w);
  }

  lemma {:induction false} UpperSet(p: CString, w: string, c: char)
    requires p == "[" + ("[:" + w + ":]" + "]") && w == "upper" && c as int < 256
    ensures IsMember(p, c, 'A' <= c <= 'Z')
  {
    OneClass(p, w);
  }

  lemma {:induction false} LowerSet(p: CString, w: string, c: char)
    requires p == "[" + ("[:" + w + ":]" + "]") && w == "lower" && c as int < 256
    ensures IsMember(p, c, 'a' <= c <= 'z')
  {
    OneClass(p, w);
  }

  /** A word that a class is not named. */
  predicate OtherWord(w: string) {
    && w != "digit" && w != "alnum" && w != "alpha" && w != "xdigit" && w != "print"
    && w != "graph" && w != "space" && w != "blank" && w != "upper" && w != "lower"
    && forall k :: 0 <= k < |w| ==> 'a' <= w[k] <= 'z'
  }

  lemma {:induction false} WordIs(p: CString, i: nat, w: string)
    requires i <= |p| && w + ":]" <= p[i..]
    ensures i + |w| + 2 <= |p| && w == p[i..i + |w|] && p[i + |w|] == ':'
  {
    forall k | 0 <= k < |w| + 2 ensures p[i + k] == (w + ":]")[k] {
      assert p[i..][k] == (w + ":]")[k];
    }
  }

  lemma {:induction false} SameWord(p: CString, i: nat, v: string, w: string)
    requires KeywordAt(p, i, v) && w + ":]" <= p[i..] && forall k :: 0 <= k < |w| ==> 'a' <= w[k] <= 'z'
    ensures v == w
  {
    KeywordSpelt(p, i, v);
    WordIs(p, i, w);
  }

  lemma {:induction false} NoClass(p: CString, i: nat, w: string)
    requires i <= |p| && w + ":]" <= p[i..] && OtherWord(w)
    ensures Keyword(p, i).None?
  {
    if Keyword(p, i).Some? {
      SameWord(p, i, Keyword(p, i).value, w);
    }
  }

  lemma {:induction false} OtherRun(p: CString, w: string)
    requires p == "[" + ("[:" + w + ":]") && OtherWord(w)
    ensures ParseSet(p, 1, Default, false, {}) == Some((|p| - 1, {'[' as int} + Codes(":" + w + ":")))
  {
    assert p[3..] == w + ":]";
    NoClass(p, 3, w);
    var run := ":" + w + ":";
    assert p[2..2 + |run|] == run;
    assert {} + {'[' as int} == {'[' as int};
    PlainRun(p, 2, |run|, true, {'[' as int});
  }

  /** Any other word in a set stands for the characters it is written with, and so do the colons. */
  lemma {:induction false} OtherSet(p: CString, w: string, c: char)
    requires p == "[" + ("[:" + w + ":]") && OtherWord(w) && c as int < 256
    ensures IsMember(p, c, c == '[' || c == ':' || c in w)
  {
    var run := ":" + w + ":";
    OtherRun(p, w);
    IsSet(p, |p| - 1, {'[' as int} + Codes(run));
    assert c as int in Codes(run) <==> Lists(run, c as int);
  }

  /** After a backslash any character stands for itself alone, `*`, `?` and `[` too. */
  lemma {:induction false} Escaped(p: CString, x: char)
    requires |p| >= 2 && p[0] == '\\'
    ensures TokenAt(p, 0).Some? && TokenAt(p, 0).value.1 == 2
    ensures TokenAt(p, 0).value.0 != Star && (TokenAt(p, 0).value.0.Takes(x) <==> x == p[1])
  {
  }
}
