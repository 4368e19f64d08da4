/**
 * What a wildcard pattern means (lib/curl_fnmatch.c): its character sets, the tokens it is made
 * of and the strings in its language.
 */
module FnmatchSpec {
  import opened Basics

  /** A C string, without its terminating NUL. */
  type CString = s: string | forall i :: 0 <= i < |s| ==> 0 < s[i] as int < 256

  /** The byte at `i`, NUL at the end. */
  function At(p: CString, i: nat): (c: char)
    requires i <= |p|
    ensures c as int < 256 && (c == '\0' <==> i == |p|)
  {
    if i < |p| then p[i] else '\0'
  }

  predicate IsUpper(c: char) { 'A' <= c <= 'Z' }
  predicate IsLower(c: char) { 'a' <= c <= 'z' }
  predicate IsAlpha(c: char) { IsLower(c) || IsUpper(c) }
  predicate IsAlnum(c: char) { IsDigit(c) || IsAlpha(c) }
  predicate IsXdigit(c: char) { IsDigit(c) || 'a' <= c <= 'f' || 'A' <= c <= 'F' }
  predicate IsLowPrint(c: char) { 9 <= c as int <= 13 }
  predicate IsPrint(c: char) { IsLowPrint(c) || ' ' <= c <= '~' }
  predicate IsGraph(c: char) { IsLowPrint(c) || ' ' < c <= '~' }
  predicate IsBlank(c: char) { c == ' ' || c == '\t' }

  /** A set is kept as the marked entries of a table: 256 bytes, the negation, ten classes. */
  const SET_SIZE := 271
  const NEGATE := 256
  const ALNUM := 257
  const DIGIT := 258
  const XDIGIT := 259
  const ALPHA := 260
  const PRINT := 261
  const BLANK := 262
  const LOWER := 263
  const GRAPH := 264
  const SPACE := 265
  const UPPER := 266

  /** The class named `word`, if there is one. */
  function ClassNamed(word: string): (k: Option<int>)
    ensures k.Some? ==> NEGATE < k.value < SET_SIZE
  {
    if word == "digit" then Some(DIGIT)
    else if word == "alnum" then Some(ALNUM)
    else if word == "alpha" then Some(ALPHA)
    else if word == "xdigit" then Some(XDIGIT)
    else if word == "print" then Some(PRINT)
    else if word == "graph" then Some(GRAPH)
    else if word == "space" then Some(SPACE)
    else if word == "blank" then Some(BLANK)
    else if word == "upper" then Some(UPPER)
    else if word == "lower" then Some(LOWER)
    else None
  }

  /** `[:word:]` from just after `[:`, where `word` names a class. */
  ghost predicate KeywordAt(p: CString, i: nat, word: string) {
    i <= |p| && word + ":]" <= p[i..] && ClassNamed(word).Some?
  }

  ghost function Keyword(p: CString, i: nat): (r: Option<string>)
    ensures r.Some? ==> KeywordAt(p, i, r.value) && i + |r.value| + 2 <= |p|
  {
    if exists w :: KeywordAt(p, i, w) then var w :| KeywordAt(p, i, w); Some(w) else None
  }

  datatype CharClass = Other | Digit | Upper | Lower

  function ClassOf(c: char): CharClass {
    if IsUpper(c) then Upper else if IsLower(c) then Lower else if IsDigit(c) then Digit else Other
  }

  /** The end of a range that starts at `i`, and where parsing goes on. */
  function RangeEnd(p: CString, i: nat): (r: Option<(char, nat)>)
    requires i < |p|
    ensures r.Some? ==> i + 2 < r.value.1 <= |p| && r.value.0 as int < 256 && p[i] <= r.value.0
  {
    if !IsAlnum(p[i]) || At(p, i + 1) != '-' then None
    else
      var escaped := At(p, i + 2) == '\\';
      var k := if escaped then i + 3 else i + 2;
      var end := At(p, k);
      if end >= p[i] && ClassOf(end) == ClassOf(p[i]) then Some((end, k + 1)) else None
  }

  predicate Between(a: char, k: int, b: char) {
    a as int <= k <= b as int
  }

  ghost function Span(a: char, b: char): set<int> {
    set k | 0 <= k < NEGATE && Between(a, k, b)
  }

  datatype SetState = Default | RightBr | RightBrLeftBr

  /** How the parser of a set goes on. */
  datatype Progress = Closed | Malformed | Going(next: nat, state: SetState, found: bool)

  /** One step of the parser at `i`, and what is marked then. */
  ghost function SetStep(p: CString, i: nat, state: SetState, found: bool, marks: set<int>)
    : (r: (Progress, set<int>))
    requires i < |p|
    ensures r.0.Going? ==> i < r.0.next <= |p|
  {
    var c := p[i];
    match state
    case Default =>
      if c == ']' then
        if found then (Closed, marks) else (Going(i + 1, RightBr, true), marks + {c as int})
      else if c == '[' then
        if At(p, i + 1) == ':' && Keyword(p, i + 2).Some? then
          var w := Keyword(p, i + 2).value;
          (Going(i + 2 + |w| + 2, Default, true), marks + {ClassNamed(w).value})
        else
          (Going(i + 1, Default, true), marks + {c as int})
      else if c == '^' || c == '!' then
        if !found && NEGATE !in marks then (Going(i + 1, Default, false), marks + {NEGATE})
        else (Going(i + 1, Default, true), marks + {c as int})
      else
        var k := if c == '\\' then i + 1 else i;
        if k == |p| then (Malformed, marks)
        else
          var range := RangeEnd(p, k);
          if range.Some? then (Going(range.value.1, Default, true), marks + Span(p[k], range.value.0))
          else (Going(k + 1, Default, true), marks + {p[k] as int})
    case RightBr =>
      if c == '[' then (Going(i + 1, RightBrLeftBr, found), marks + {c as int})
      else if c == ']' then (Closed, marks)
      else if IsPrint(c) then (Going(i + 1, Default, found), marks + {c as int})
      else (Malformed, marks)
    case RightBrLeftBr =>
      if c == ']' then (Closed, marks) else (Going(i + 1, Default, found), marks + {c as int})
  }

  /** The table entries a set marks and the place of its closing bracket; None if malformed. */
  ghost function ParseSet(p: CString, i: nat, state: SetState, found: bool, marks: set<int>)
    : (r: Option<(nat, set<int>)>)
    requires i <= |p|
    ensures r.Some? ==> i <= r.value.0 < |p|
    decreases |p| - i
  {
    if i == |p| then None
    else
      match SetStep(p, i, state, found, marks)
      case (Closed, after) => Some((i, after))
      case (Malformed, _) => None
      case (Going(next, state', found'), after) => ParseSet(p, next, state', found', after)
  }

  /** Membership as the code computes it: only the first class present is looked at. */
  predicate InSet(marks: set<int>, c: char) {
    var found :=
      if c as int in marks then true
      else if ALNUM in marks then IsAlnum(c)
      else if ALPHA in marks then IsAlpha(c)
      else if DIGIT in marks then IsDigit(c)
      else if XDIGIT in marks then IsXdigit(c)
      else if PRINT in marks then IsPrint(c)
      else if SPACE in marks then IsBlank(c)
      else if UPPER in marks then IsUpper(c)
      else if LOWER in marks then IsLower(c)
      else if BLANK in marks then IsBlank(c)
      else if GRAPH in marks then IsGraph(c)
      else false;
    found != (NEGATE in marks)
  }

  datatype Token = Star | Any | Lit(c: char) | Set(marks: set<int>) {
    /** Whether the token, other than a star, stands for the character. */
    predicate Takes(x: char) {
      match this
      case Star => false
      case Any => true
      case Lit(c) => x == c
      case Set(marks) => InSet(marks, x)
    }
  }

  /** The token at `i` and where the next one starts; None for a malformed set. */
  ghost function TokenAt(p: CString, i: nat): (r: Option<(Token, nat)>)
    requires i < |p|
    ensures r.Some? ==> i < r.value.1 <= |p|
  {
    var c := p[i];
    if c == '*' then Some((Star, i + 1))
    else if c == '?' then Some((Any, i + 1))
    else if c == '\\' then
      if i + 1 < |p| then Some((Lit(p[i + 1]), i + 2)) else Some((Lit(c), i + 1))
    else if c == '[' then
      match ParseSet(p, i + 1, Default, false, {})
      case Some((close, marks)) => Some((Set(marks), close + 1))
      case None => None
    else Some((Lit(c), i + 1))
  }

  /** The tokens from `i` on; None if any set among them is malformed. */
  ghost function Tokens(p: CString, i: nat): Option<seq<Token>>
    requires i <= |p|
    decreases |p| - i
  {
    if i == |p| then Some([])
    else
      match TokenAt(p, i)
      case None => None
      case Some((tok, next)) =>
        match Tokens(p, next)
        case None => None
        case Some(rest) => Some([tok] + rest)
  }

  /** Runs of `*` and `?` opened by a `*`; `open` says that such a run is under way. */
  function StarGroups(toks: seq<Token>, open: bool): nat {
    if toks == [] then 0
    else match toks[0]
      case Star => (if open then 0 else 1) + StarGroups(toks[1..], true)
      case Any => StarGroups(toks[1..], open)
      case _ => StarGroups(toks[1..], false)
  }

  /** Whether the token can stand for `s[from..to]`. */
  predicate Takes(tok: Token, s: string, from: nat, to: nat) {
    && from <= to <= |s|
    && (tok != Star ==> to == from + 1 && tok.Takes(s[from]))
  }

  /** The places where one token's share of the string ends and the next one's begins. */
  ghost predicate Fits(toks: seq<Token>, s: string, cuts: seq<nat>) {
    && |cuts| == |toks| + 1 && cuts[0] == 0 && cuts[|toks|] == |s|
    && forall k :: 0 <= k < |toks| ==> Takes(toks[k], s, cuts[k], cuts[k + 1])
  }

  /** The language of a pattern: strings that can be cut up so that each token takes its share. */
  ghost predicate InLanguage(toks: seq<Token>, s: string) {
    exists cuts :: Fits(toks, s, cuts)
  }

  function Drop(s: string, k: nat): string
    requires k <= |s|
  {
    s[k..]
  }

  /** The same by recursion on the tokens. */
  ghost predicate Derives(toks: seq<Token>, s: string) {
    if toks == [] then s == []
    else if toks[0] == Star then exists k :: 0 <= k <= |s| && Derives(toks[1..], Drop(s, k))
    else s != [] && toks[0].Takes(s[0]) && Derives(toks[1..], s[1..])
  }

  /** What the matcher must report: well-formed sets, few enough stars, a string of the language. */
  ghost predicate Accepts(p: CString, i: nat, s: string, maxStars: nat)
    requires i <= |p|
  {
    var toks := Tokens(p, i);
    toks.Some? && StarGroups(toks.value, false) <= maxStars && Derives(toks.value, s)
  }

  /** Both definitions of the language agree. */
  lemma {:induction false} DerivesIsLanguage(toks: seq<Token>, s: string)
    ensures Derives(toks, s) <==> InLanguage(toks, s)
  {
    if Derives(toks, s) {
      var cuts := Cut(toks, s);
    }
    if InLanguage(toks, s) {
      var cuts :| Fits(toks, s, cuts);
      FitsDerives(toks, s, cuts);
    }
  }

  lemma {:induction false} Cut(toks: seq<Token>, s: string) returns (cuts: seq<nat>)
    requires Derives(toks, s)
    ensures Fits(toks, s, cuts)
  {
    if toks == [] {
      return [0];
    }
    var k := 1;
    if toks[0] == Star {
      k :| 0 <= k <= |s| && Derives(toks[1..], Drop(s, k));
    }
    var rest := Cut(toks[1..], Drop(s, k));
    cuts := [0] + seq(|rest|, i requires 0 <= i < |rest| => k + rest[i]);
    forall i | 0 <= i < |toks| ensures Takes(toks[i], s, cuts[i], cuts[i + 1]) {
      if i > 0 {
        assert Takes(toks[1..][i - 1], Drop(s, k), rest[i - 1], rest[i]);
      }
    }
  }

  lemma {:induction false} FitsDerives(toks: seq<Token>, s: string, cuts: seq<nat>)
    requires Fits(toks, s, cuts)
    ensures Derives(toks, s)
  {
    if toks == [] {
    } else {
      var k := cuts[1];
      assert Takes(toks[0], s, 0, k);
      forall j | 1 <= j <= |toks| ensures k <= cuts[j] <= |s| {
        Ordered(toks, s, cuts, j);
      }
      var rest: seq<nat> := seq(|toks|, i requires 0 <= i < |toks| => cuts[i + 1] - k);
      forall i | 0 <= i < |toks| - 1
        ensures Takes(toks[1..][i], Drop(s, k), rest[i], rest[i + 1])
      {
        assert Takes(toks[i + 1], s, cuts[i + 1], cuts[i + 2]);
      }
      FitsDerives(toks[1..], Drop(s, k), rest);
    }
  }

  lemma {:induction false} Ordered(toks: seq<Token>, s: string, cuts: seq<nat>, j: nat)
    requires Fits(toks, s, cuts) && 1 <= j <= |toks|
    ensures cuts[1] <= cuts[j] <= |s|
  {
    if j > 1 {
      Ordered(toks, s, cuts, j - 1);
      assert Takes(toks[j - 1], s, cuts[j - 1], cuts[j]);
    } else {
      assert Takes(toks[0], s, cuts[0], cuts[1]);
    }
  }

  /** What a pattern of one character stands for, unless it opens a set. */
  lemma {:induction false} OneCharacter(p: CString, s: string)
    requires |p| == 1 && p[0] != '['
    ensures Tokens(p, 0).Some?
    ensures InLanguage(Tokens(p, 0).value, s) <==> p[0] == '*' || (|s| == 1 && (p[0] == '?' || s[0] == p[0]))
  {
    assert Tokens(p, 1) == Some([]) && TokenAt(p, 0).value.1 == 1;
    var toks := Tokens(p, 0).value;
    assert |toks| == 1 && toks[1..] == [];
    DerivesIsLanguage(toks, s);
    if p[0] == '*' {
      assert Derives(toks[1..], Drop(s, |s|));
    }
  }
}
