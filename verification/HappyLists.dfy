/** Connect attempts and the lists that hold them (lib/cf-ip-happy.c). */
module HappyLists {
  import opened Basics

  datatype Family = V4 | V6 {
    function Other(): Family {
      if this == V4 then V6 else V4
    }
  }

  /** A result code: `weird` is the one that leaves it open whether the server can be reached. */
  datatype Result = Ok | Err(weird: bool)

  /** What a socket says when it is polled. */
  datatype Report = Report(result: Result, connected: bool)

  /** A connect attempt to the address of its family with the given index. */
  datatype Attempt = Attempt(id: nat, family: Family, index: nat, result: Result,
                             connected: bool, inconclusive: bool)
  {
    predicate Ongoing() {
      result == Ok && !connected
    }

    predicate Up() {
      result == Ok && connected
    }

    /** The attempt after it was polled: only one that is ongoing changes. */
    function After(r: Report): Attempt {
      if !Ongoing() then this
      else
        match r.result
        case Ok => this.(connected := r.connected)
        case Err(weird) => this.(result := r.result, inconclusive := inconclusive || weird)
    }

    /** The attempt as it starts over. */
    function Afresh(): Attempt {
      this.(result := Ok, connected := false, inconclusive := false)
    }

    /** The attempt after a restart; it is polled only if it could be set up again. */
    function Restarted(again: Report, ok: bool): Attempt {
      if ok then Afresh().After(again) else Afresh()
    }
  }

  /** The attempt after several polls. */
  ghost function AfterAll(a: Attempt, reports: seq<Report>): Attempt
    decreases |reports|
  {
    if reports == [] then a else AfterAll(a.After(reports[0]), reports[1..])
  }

  /** One that fails stays as it is when polled again, and only the weird result makes it inconclusive. */
  lemma {:induction false} FailsForGood(a: Attempt, r: Report, later: seq<Report>)
    requires a.Ongoing() && !a.inconclusive && r.result.Err?
    ensures var b := AfterAll(a.After(r), later);
      !b.Ongoing() && !b.Up() && b.result == r.result && (b.inconclusive <==> r.result.weird)
  {
    StaysFailed(a.After(r), later);
  }

  /** A restart forgets what came before: the attempt is what the new report alone makes of it. */
  lemma {:induction false} StartsOver(a: Attempt, again: Report)
    ensures var b := a.Restarted(again, true);
      && b.id == a.id && b.family == a.family && b.index == a.index
      && (b.Ongoing() <==> again.result == Ok && !again.connected)
      && (b.Up() <==> again.result == Ok && again.connected)
      && (b.inconclusive <==> again.result == Err(true))
  {
  }

  lemma {:induction false} StaysFailed(a: Attempt, reports: seq<Report>)
    requires !a.Ongoing()
    ensures AfterAll(a, reports) == a
  {
    if reports == [] {
    } else {
      StaysFailed(a, reports[1..]);
    }
  }

  /** The list after each attempt was polled, with the report for its number. */
  ghost function AllAfter(s: seq<Attempt>, report: nat -> Report): (r: seq<Attempt>)
    ensures |r| == |s| && forall i :: 0 <= i < |s| ==> r[i] == s[i].After(report(s[i].id))
  {
    seq(|s|, i requires 0 <= i < |s| => s[i].After(report(s[i].id)))
  }

  /** No attempt of the list is connected. */
  ghost predicate NoneUp(s: seq<Attempt>) {
    forall i :: 0 <= i < |s| ==> !s[i].Up()
  }

  ghost function CountOngoing(s: seq<Attempt>): nat {
    if s == [] then 0 else One(s[0].Ongoing()) + CountOngoing(s[1..])
  }

  ghost function CountInconclusive(s: seq<Attempt>): nat {
    if s == [] then 0 else One(s[0].result != Ok && s[0].inconclusive) + CountInconclusive(s[1..])
  }

  /** How often the attempt `id` is in the list. */
  ghost function Occurs(s: seq<Attempt>, id: nat): nat {
    if s == [] then 0 else One(s[0].id == id) + Occurs(s[1..], id)
  }

  lemma {:induction false} Concat(a: seq<Attempt>, b: seq<Attempt>, id: nat)
    ensures Occurs(a + b, id) == Occurs(a, id) + Occurs(b, id)
    ensures CountOngoing(a + b) == CountOngoing(a) + CountOngoing(b)
    ensures CountInconclusive(a + b) == CountInconclusive(a) + CountInconclusive(b)
  {
    if a == [] {
      assert a + b == b;
    } else {
      assert (a + b)[1..] == a[1..] + b;
      Concat(a[1..], b, id);
    }
  }

  /** The list seen around its element `i`. */
  lemma {:induction false} Around(s: seq<Attempt>, i: nat)
    requires i < |s|
    ensures forall id: nat ::
      Occurs(s, id) == Occurs(s[..i], id) + One(s[i].id == id) + Occurs(s[i + 1..], id)
    ensures CountOngoing(s)
      == CountOngoing(s[..i]) + One(s[i].Ongoing()) + CountOngoing(s[i + 1..])
    ensures CountInconclusive(s) == CountInconclusive(s[..i])
      + One(s[i].result != Ok && s[i].inconclusive) + CountInconclusive(s[i + 1..])
  {
    forall id: nat
      ensures Occurs(s, id) == Occurs(s[..i], id) + One(s[i].id == id) + Occurs(s[i + 1..], id)
    {
      assert s == s[..i] + s[i..] && s[i..][1..] == s[i + 1..];
      Concat(s[..i], s[i..], id);
    }
    assert s == s[..i] + s[i..] && s[i..][1..] == s[i + 1..];
    Concat(s[..i], s[i..], 0);
  }

  /** The list without its first `k` ongoing attempts. */
  ghost function DropOngoing(s: seq<Attempt>, k: nat): seq<Attempt> {
    if s == [] || k == 0 then s
    else if s[0].Ongoing() then DropOngoing(s[1..], k - 1)
    else [s[0]] + DropOngoing(s[1..], k)
  }

  /** The next attempt either goes or stays. */
  lemma {:induction false} DropStep(s: seq<Attempt>, i: nat, k: nat)
    requires i < |s| && k > 0
    ensures s[i].Ongoing() ==> s[..i] + DropOngoing(s[i..], k) == s[..i] + DropOngoing(s[i + 1..], k - 1)
    ensures !s[i].Ongoing() ==> s[..i] + DropOngoing(s[i..], k) == s[..i + 1] + DropOngoing(s[i + 1..], k)
  {
    assert s[i..][1..] == s[i + 1..] && s[..i + 1] == s[..i] + [s[i]];
  }

  lemma {:induction false} DropDone(s: seq<Attempt>, i: nat, k: nat)
    requires i <= |s| && (k == 0 || i == |s|)
    ensures s[..i] + DropOngoing(s[i..], k) == s
    ensures i == |s| ==> s[..i] == s
  {
  }

  /** An address that was taken from its family's list, and how many of each family were known then. */
  datatype Start = Start(family: Family, index: nat, known4: nat, known6: nat)

  ghost function CountFamily(log: seq<Start>, f: Family): nat {
    if log == [] then 0 else CountFamily(log[..|log| - 1], f) + One(log[|log| - 1].family == f)
  }

  ghost function LastFamily(log: seq<Start>): Family {
    if log == [] then V4 else log[|log| - 1].family
  }

  /**
   * Each family's addresses are tried in list order, without gaps or repetition; and while both
   * families have addresses left they take turns, IPv6 first.
   */
  ghost predicate InOrder(log: seq<Start>) {
    log != [] ==>
      var before, s := log[..|log| - 1], log[|log| - 1];
      && InOrder(before)
      && s.index == CountFamily(before, s.family) < (if s.family == V4 then s.known4 else s.known6)
      && (BothLeft(before, s) ==> s.family == LastFamily(before).Other())
  }

  /** When the address was taken, each family had one that had not been. */
  ghost predicate BothLeft(before: seq<Start>, s: Start) {
    CountFamily(before, V4) < s.known4 && CountFamily(before, V6) < s.known6
  }

  lemma {:induction false} LogGrows(log: seq<Start>, s: Start)
    requires InOrder(log)
    requires s.index == CountFamily(log, s.family) < (if s.family == V4 then s.known4 else s.known6)
    requires BothLeft(log, s) ==> s.family == LastFamily(log).Other()
    ensures InOrder(log + [s]) && LastFamily(log + [s]) == s.family
    ensures forall f :: CountFamily(log + [s], f) == CountFamily(log, f) + One(f == s.family)
  {
    assert (log + [s])[..|log + [s]| - 1] == log;
  }

  /** The same for any entry of the log. */
  lemma {:induction false} EveryStart(log: seq<Start>, k: nat)
    requires InOrder(log) && k < |log|
    ensures log[k].index == CountFamily(log[..k], log[k].family)
    ensures log[k].index < (if log[k].family == V4 then log[k].known4 else log[k].known6)
    ensures BothLeft(log[..k], log[k]) ==> log[k].family == LastFamily(log[..k]).Other()
    decreases |log|
  {
    if k < |log| - 1 {
      var before := log[..|log| - 1];
      EveryStart(before, k);
      assert before[..k] == log[..k];
    }
  }

  /** No address is started afresh twice. */
  lemma {:induction false} NeverTwice(log: seq<Start>, j: nat, k: nat)
    requires InOrder(log) && j < k < |log| && log[j].family == log[k].family
    ensures log[j].index < log[k].index
  {
    EveryStart(log, j);
    EveryStart(log, k);
    Counting(log, j + 1, k, log[j].family);
    assert log[..j + 1][..j] == log[..j];
  }

  lemma {:induction false} Counting(log: seq<Start>, j: nat, k: nat, f: Family)
    requires j <= k <= |log|
    ensures CountFamily(log[..j], f) <= CountFamily(log[..k], f)
    decreases k
  {
    if j < k {
      Counting(log, j, k - 1, f);
      assert log[..k][..k - 1] == log[..k - 1];
    }
  }

  /** No address is skipped: all indices below the number taken are in the log. */
  lemma {:induction false} NoneSkipped(log: seq<Start>, f: Family, i: nat) returns (k: nat)
    requires InOrder(log) && i < CountFamily(log, f)
    ensures k < |log| && log[k].family == f && log[k].index == i
    decreases |log|
  {
    var before, s := log[..|log| - 1], log[|log| - 1];
    if i < CountFamily(before, f) {
      k := NoneSkipped(before, f, i);
    } else {
      k := |log| - 1;
    }
  }

  /** The attempt was made for the address of its number in the log. */
  ghost predicate Made(a: Attempt, log: seq<Start>) {
    a.id < |log| && log[a.id].family == a.family && log[a.id].index == a.index
  }

  ghost predicate AllMade(s: seq<Attempt>, log: seq<Start>) {
    forall i :: 0 <= i < |s| ==> Made(s[i], log)
  }

  /** Two attempts for the same address are one. */
  lemma {:induction false} OneAttempt(a: Attempt, b: Attempt, log: seq<Start>)
    requires InOrder(log) && Made(a, log) && Made(b, log)
    ensures a.family == b.family && a.index == b.index ==> a.id == b.id
  {
    if a.family == b.family && a.id != b.id {
      NeverTwice(log, if a.id < b.id then a.id else b.id, if a.id < b.id then b.id else a.id);
    }
  }
}
