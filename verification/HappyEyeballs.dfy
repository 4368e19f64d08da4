/**
 * Racing connect attempts over the addresses of two families (lib/cf-ip-happy.c), along the lines
 * of sections 4 and 5 of RFC 8305. What sockets report when they are polled, and whether attempts
 * can be set up, comes from outside.
 */
module HappyEyeballs {
  import opened Basics
  import opened HappyLists

  /** How one evaluation ends: the state is evaluated again, or control goes back to the caller. */
  datatype Next =
    | Again
    | Connected
    | Pending      // call again later
    | GaveUp       // nothing left to try
    | SetupError   // an attempt could not be created
    | TimedOut

  /** Whether an attempt can be set up: it can, its address is no use, or it fails and is freed. */
  datatype Setup = Done | NoUse | Fails

  /** What one evaluation meets with: a report for each attempt, one for a restart, and a setup. */
  datatype Weather = Weather(report: nat -> Report, again: Report, setup: Setup)

  /** What a race has noted, besides its attempts. */
  datatype Books = Books(
    log: seq<Start>,
    made: nat,
    freed: seq<Attempt>,
    v4: nat,
    v6: nat,
    n4: nat,
    n6: nat,
    lastStarted: int,
    lastFamily: Family)
  {
    /** The family whose turn it is: the other one than last time, if it has an address left. */
    ghost function Turn(): Family {
      var other := lastFamily.Other();
      if (if other == V4 then n4 < v4 else n6 < v6) then other else lastFamily
    }
  }

  class Ballers {
    var running: seq<Attempt>      // oldest first
    var winner: Option<Attempt>
    var v4: nat                    // addresses known so far, by family
    var v6: nat
    var n4: nat                    // addresses taken so far
    var n6: nat
    var lastStarted: int           // in milliseconds
    var lastFamily: Family
    var made: nat                  // attempts created
    const delay: int
    const maxConcurrent: nat
    ghost var log: seq<Start>
    ghost var freed: seq<Attempt>
    ghost var broken: bool         // a creation failed; the transfer is over

    /** Every attempt made is in one place: running, the winner, freed, or `hand`. */
    ghost predicate Owned(hand: seq<Attempt>)
      reads this
    {
      forall id: nat :: Occurs(running, id) + One(winner.Some? && winner.value.id == id)
        + Occurs(freed, id) + Occurs(hand, id) == One(id < made)
    }

    /** What was tried, and in which order. */
    ghost predicate Ordered()
      reads this
    {
      && n4 <= v4 && n6 <= v6
      && InOrder(log)
      && CountFamily(log, V4) == n4 && CountFamily(log, V6) == n6
      && (!broken ==> lastFamily == LastFamily(log))
    }

    /** Every attempt is for the address that was taken when it was made. */
    ghost predicate Tied()
      reads this
    {
      && AllMade(running, log) && AllMade(freed, log) && (winner.Some? ==> Made(winner.value, log))
      && made <= |log| <= made + 1 && (!broken ==> made == |log|)
    }

    ghost predicate Valid()
      reads this
    {
      && Owned([]) && Ordered() && Tied()
      && (0 < maxConcurrent ==> CountOngoing(running) <= maxConcurrent)
      && (winner.Some? ==> running == [])
    }

    constructor (delay: int, maxConcurrent: nat)
      ensures Valid() && running == [] && winner == None && log == [] && !broken && made == 0
      ensures v4 == v6 == n4 == n6 == lastStarted == 0 && lastFamily == V4
      ensures this.delay == delay && this.maxConcurrent == maxConcurrent
    {
      running, winner, made, freed, log, broken := [], None, 0, [], [], false;
      v4, v6, n4, n6, lastStarted, lastFamily := 0, 0, 0, 0, 0, V4;
      this.delay, this.maxConcurrent := delay, maxConcurrent;
    }

    predicate HasMore(f: Family)
      reads this
    {
      if f == V4 then n4 < v4 else n6 < v6
    }

    /** Frees all running attempts. */
    method FreeRunning()
      requires Owned([]) && Tied()
      modifies this`running, this`freed
      ensures Owned([]) && Tied() && running == []
    {
      while running != []
        invariant Owned([]) && Tied()
        decreases |running|
      {
        var a := running[0];
        assert running == [a] + running[1..];
        Push(a);
        freed := freed + [a];
        running := running[1..];
      }
    }

    lemma {:induction false} Push(a: Attempt)
      ensures forall id: nat :: Occurs(freed + [a], id) == Occurs(freed, id) + One(a.id == id)
    {
      forall id: nat ensures Occurs(freed + [a], id) == Occurs(freed, id) + One(a.id == id) {
        Concat(freed, [a], id);
      }
    }

    /** Frees everything that is left, the winner too. */
    method Clear()
      requires Valid()
      modifies this`running, this`winner, this`freed
      ensures Valid() && running == [] && winner == None
      ensures forall id: nat :: id < made ==> Occurs(freed, id) == 1
    {
      FreeRunning();
      if winner.Some? {
        Push(winner.value);
        freed := freed + [winner.value];
        winner := None;
      }
    }

    /** Polls the attempt at `i`. */
    method PollAt(i: nat, r: Report)
      requires Valid() && i < |running|
      modifies this`running
      ensures Valid() && running == old(running)[i := old(running)[i].After(r)]
    {
      var next := running[i := running[i].After(r)];
      Around(running, i);
      Around(next, i);
      assert next[..i] == running[..i] && next[i + 1..] == running[i + 1..];
      running := next;
    }

    /** The attempt at `i` wins; all others are freed. */
    method Win(i: nat)
      requires Valid() && winner.None? && i < |running|
      modifies this`running, this`winner, this`freed
      ensures Valid() && winner == Some(old(running)[i])
    {
      Around(running, i);
      Rejoin(running[..i], running[i + 1..]);
      winner := Some(running[i]);
      running := running[..i] + running[i + 1..];
      FreeRunning();
    }

    lemma {:induction false} Rejoin(a: seq<Attempt>, b: seq<Attempt>)
      ensures forall id: nat :: Occurs(a + b, id) == Occurs(a, id) + Occurs(b, id)
    {
      forall id: nat ensures Occurs(a + b, id) == Occurs(a, id) + Occurs(b, id) {
        Concat(a, b, id);
      }
    }

    /**
     * Polls all running attempts in order. The first to be connected, number `at`, wins and the
     * others are freed.
     */
    method CheckRunning(report: nat -> Report) returns (ongoing: nat, inconclusive: nat, ghost at: nat)
      requires Valid() && winner.None?
      modifies this`running, this`winner, this`freed
      ensures Valid() && (winner.None? <==> NoneUp(AllAfter(old(running), report)))
      ensures winner.None? ==>
        && running == AllAfter(old(running), report) && freed == old(freed)
        && ongoing == CountOngoing(running) && inconclusive == CountInconclusive(running)
      ensures winner.Some? ==>
        && at < |old(running)| && winner == Some(AllAfter(old(running), report)[at]) && winner.value.Up()
        && NoneUp(AllAfter(old(running), report)[..at])
    {
      ongoing, inconclusive, at := 0, 0, 0;
      ghost var goal := AllAfter(running, report);
      var i := 0;
      while i < |running|
        invariant i <= |running| == |goal| && Valid() && winner.None? && freed == old(freed)
        invariant forall j :: 0 <= j < i ==> running[j] == goal[j] && !goal[j].Up()
        invariant forall j :: i <= j < |goal| ==> running[j] == old(running)[j]
        invariant ongoing == CountOngoing(running[..i])
        invariant inconclusive == CountInconclusive(running[..i])
        decreases |running| - i
      {
        var a := PollNext(i, report(running[i].id));
        if a.Up() {
          at := i;
          Win(i);
          return;
        }
        if a.result == Ok {
          ongoing := ongoing + 1;
        } else if a.inconclusive {
          inconclusive := inconclusive + 1;
        }
        i := i + 1;
      }
      assert running[..i] == running && running == goal;
    }

    /** Polls the attempt at `i`, and what it adds to the counts. */
    method PollNext(i: nat, r: Report) returns (a: Attempt)
      requires Valid() && i < |running|
      modifies this`running
      ensures Valid() && a == old(running)[i].After(r) && running == old(running)[i := a]
      ensures CountOngoing(running[..i + 1]) == CountOngoing(old(running)[..i]) + One(a.Ongoing())
      ensures CountInconclusive(running[..i + 1])
        == CountInconclusive(old(running)[..i]) + One(a.result != Ok && a.inconclusive)
    {
      PollAt(i, r);
      a := running[i];
      Step(running, i);
      assert running[..i] == old(running)[..i];
    }

    lemma {:induction false} Step(s: seq<Attempt>, i: nat)
      requires i < |s|
      ensures CountOngoing(s[..i + 1]) == CountOngoing(s[..i]) + One(s[i].Ongoing())
      ensures CountInconclusive(s[..i + 1])
           == CountInconclusive(s[..i]) + One(s[i].result != Ok && s[i].inconclusive)
    {
      assert s[..i + 1] == s[..i] + [s[i]];
      Concat(s[..i], [s[i]], 0);
    }

    /** Discards the oldest ongoing attempts until at most `limit` are left. */
    method Prune(limit: nat)
      requires Valid()
      modifies this`running, this`freed
      ensures Valid() && CountOngoing(running) <= limit
      ensures running == DropOngoing(old(running), Excess(CountOngoing(old(running)), limit))
    {
      var ongoing: nat := CountRunning();
      ghost var goal := DropOngoing(running, Excess(ongoing, limit));
      var i: nat := 0;
      assert running[i..] == running;
      while i < |running| && ongoing > limit
        invariant Pruning(i, ongoing, limit, goal)
        decreases |running| - i
      {
        i, ongoing := PruneOne(i, ongoing, limit, goal);
      }
      DropDone(running, i, Excess(ongoing, limit));
    }

    static function Excess(n: nat, limit: nat): nat {
      if n > limit then n - limit else 0
    }

    /** The first `i` attempts stay, and the rest of the excess is still to be discarded. */
    ghost predicate Pruning(i: nat, ongoing: nat, limit: nat, goal: seq<Attempt>)
      reads this
    {
      && i <= |running| && Valid() && ongoing == CountOngoing(running) && CountOngoing(running[..i]) == 0
      && running[..i] + DropOngoing(running[i..], Excess(ongoing, limit)) == goal
    }

    /** Discards the attempt at `i` if it is ongoing. */
    method PruneOne(i: nat, ongoing: nat, limit: nat, ghost goal: seq<Attempt>) returns (i': nat, ongoing': nat)
      requires Pruning(i, ongoing, limit, goal) && i < |running| && ongoing > limit
      modifies this`running, this`freed
      ensures Pruning(i', ongoing', limit, goal) && |running| - i' < old(|running|) - i
    {
      DropStep(running, i, Excess(ongoing, limit));
      if running[i].Ongoing() {
        Discard(i);
        return i, ongoing - 1;
      }
      Step(running, i);
      return i + 1, ongoing;
    }

    /** Frees the attempt at `i`. */
    method Discard(i: nat)
      requires Valid() && i < |running| && running[i].Ongoing()
      modifies this`running, this`freed
      ensures Valid() && running == old(running)[..i] + old(running)[i + 1..]
      ensures CountOngoing(running) == CountOngoing(old(running)) - 1
      ensures running[..i] == old(running)[..i] && running[i..] == old(running)[i + 1..]
    {
      Around(running, i);
      Push(running[i]);
      Rejoin(running[..i], running[i + 1..]);
      Concat(running[..i], running[i + 1..], 0);
      freed := freed + [running[i]];
      running := running[..i] + running[i + 1..];
    }

    /** The number of ongoing attempts. */
    method CountRunning() returns (n: nat)
      ensures n == CountOngoing(running)
    {
      n := 0;
      for i := 0 to |running|
        invariant n == CountOngoing(running[..i])
      {
        Step(running, i);
        if running[i].Ongoing() {
          n := n + 1;
        }
      }
      assert running[..|running|] == running;
    }

    /** The family whose next address is due: they take turns as long as both have addresses. */
    function NextFamily(): (f: Option<Family>)
      reads this
      ensures f.None? <==> !HasMore(V4) && !HasMore(V6)
      ensures f.Some? ==> HasMore(f.value)
      ensures HasMore(V4) && HasMore(V6) ==> f == Some(lastFamily.Other())
    {
      if (lastFamily == V4 || !HasMore(V4)) && HasMore(V6) then Some(V6)
      else if HasMore(V4) then Some(V4)
      else None
    }

    /** The next address of the family whose turn it is keeps the log in order. */
    lemma {:induction false} Due(f: Family, s: Start)
      requires Ordered() && !broken && NextFamily() == Some(f)
      requires s == Start(f, if f == V4 then n4 else n6, v4, v6)
      ensures InOrder(log + [s]) && CountFamily(log + [s], V4) == n4 + One(f == V4)
      ensures CountFamily(log + [s], V6) == n6 + One(f == V6) && (log + [s])[|log|] == s
    {
      LogGrows(log, s);
    }

    /** Attempts stay tied to their addresses when the log grows. */
    lemma {:induction false} StillTied(s: Start)
      requires Tied() && !broken
      ensures AllMade(running, log + [s]) && AllMade(freed, log + [s])
      ensures winner.Some? ==> Made(winner.value, log + [s])
    {
      forall i | 0 <= i < |running| ensures Made(running[i], log + [s]) {
        assert Made(running[i], log);
      }
      forall i | 0 <= i < |freed| ensures Made(freed[i], log + [s]) {
        assert Made(freed[i], log);
      }
    }

    /** Notes that an address of the family was taken; no attempt has been created for it yet. */
    method Note(f: Family, ghost s: Start, ghost after: seq<Start>)
      requires Valid() && !broken && NextFamily() == Some(f) && InOrder(after)
      requires |after| == |log| + 1 && after[|log|] == s && s.family == f
      requires CountFamily(after, V4) == n4 + One(f == V4) && CountFamily(after, V6) == n6 + One(f == V6)
      requires AllMade(running, after) && AllMade(freed, after) && (winner.Some? ==> Made(winner.value, after))
      modifies this`n4, this`n6, this`log, this`broken
      ensures Valid() && broken && log == after && Taken(f, s.index)
      ensures n4 == old(n4) + One(f == V4) && n6 == old(n6) + One(f == V6)
    {
      log := after;
      if f == V4 {
        n4 := n4 + 1;
      } else {
        n6 := n6 + 1;
      }
      broken := true;
    }

    /** Takes the next address of a family from its list. */
    method TakeAddress(f: Family) returns (index: nat)
      requires Valid() && !broken && NextFamily() == Some(f)
      modifies this`n4, this`n6, this`log, this`broken
      ensures Valid() && broken && Taken(f, index) && log == old(log) + [Start(f, index, v4, v6)]
      ensures f == V4 ==> index == old(n4) && n4 == old(n4) + 1 && n6 == old(n6)
      ensures f == V6 ==> index == old(n6) && n6 == old(n6) + 1 && n4 == old(n4)
    {
      index := if f == V4 then n4 else n6;
      ghost var s := Start(f, index, v4, v6);
      Due(f, s);
      StillTied(s);
      Note(f, s, log + [s]);
    }

    /** The list without the oldest ongoing attempts, so that there is room for one more. */
    ghost function Roomy(s: seq<Attempt>): seq<Attempt> {
      if maxConcurrent == 0 then s else DropOngoing(s, Excess(CountOngoing(s), maxConcurrent - 1))
    }

    method MakeRoom()
      requires Valid()
      modifies this`running, this`freed
      ensures Valid() && (0 < maxConcurrent ==> CountOngoing(running) < maxConcurrent)
      ensures running == old(Roomy(running))
    {
      if maxConcurrent > 0 {
        Prune(maxConcurrent - 1);
      }
    }

    /** The address was taken from its list last, and no attempt has been made for it yet. */
    ghost predicate Taken(f: Family, index: nat)
      reads this
    {
      |log| == made + 1 && log[made].family == f && log[made].index == index
    }

    /** An attempt that could not be created, and is freed at once. */
    method Lose(f: Family, index: nat)
      requires Valid() && Taken(f, index)
      modifies this`freed, this`made
      ensures Valid() && made == |log|
    {
      var a := Attempt(made, f, index, Ok, false, false);
      Push(a);
      made := made + 1;
      freed := freed + [a];
    }

    /** A new attempt at the end of the list is owned, and counts as ongoing. */
    lemma {:induction false} Joined(a: Attempt)
      requires Owned([]) && a.id == made
      ensures forall id: nat ::
        Occurs(running + [a], id) + One(winner.Some? && winner.value.id == id) + Occurs(freed, id) == One(id < made + 1)
      ensures CountOngoing(running + [a]) == CountOngoing(running) + One(a.Ongoing())
    {
      Rejoin(running, [a]);
      Concat(running, [a], 0);
    }

    /** An attempt that joins the others. */
    method Join(f: Family, index: nat, now: int)
      requires Valid() && winner.None? && Taken(f, index)
      requires 0 < maxConcurrent ==> CountOngoing(running) < maxConcurrent
      modifies this`running, this`made, this`lastStarted, this`lastFamily, this`broken
      ensures Valid() && !broken && lastStarted == now && lastFamily == f
      ensures running == old(running) + [Attempt(old(made), f, index, Ok, false, false)]
    {
      var a := Attempt(made, f, index, Ok, false, false);
      Joined(a);
      made := made + 1;
      running := running + [a];
      lastStarted, lastFamily, broken := now, f, false;
    }

    /** Creates an attempt, after making room for it; false if that fails. */
    method Create(f: Family, index: nat, now: int, setup: Setup) returns (ok: bool)
      requires Valid() && winner.None? && Taken(f, index)
      modifies this`running, this`freed, this`made, this`lastStarted, this`lastFamily, this`broken
      ensures Valid() && (ok <==> setup == Done)
      ensures ok ==> !broken && lastStarted == now && lastFamily == f
      ensures ok ==> running == old(Roomy(running)) + [Attempt(old(made), f, index, Ok, false, false)]
      ensures !ok ==> broken == old(broken)
    {
      MakeRoom();
      ok := setup == Done;
      if ok {
        Join(f, index, now);
      } else if setup == Fails {
        Lose(f, index);
      }
    }

    /** Restarts the oldest inconclusive attempt, number `at`; false if it cannot be set up again. */
    method Restart(now: int, again: Report, setup: Setup) returns (ok: bool, ghost at: nat)
      requires Valid() && !broken && CountOngoing(running) == 0 && 0 < CountInconclusive(running)
      modifies this`running, this`lastStarted, this`broken
      ensures Valid() && (ok ==> !broken && lastStarted == now) && (!ok ==> broken)
      ensures FirstAt(old(running), at) && (ok <==> setup == Done)
      ensures running == old(running)[at := old(running)[at].Restarted(again, ok)]
    {
      var i := FirstInconclusive();
      at := i;
      StartOver(i);
      ok := setup == Done;
      if !ok {
        broken := true;
        return;
      }
      PollAt(i, again);
      lastStarted := now;
    }

    method StartOver(i: nat)
      requires Valid() && i < |running| && CountOngoing(running) == 0
      modifies this`running
      ensures Valid() && running == old(running)[i := old(running)[i].Afresh()]
    {
      Around(running, i);
      ghost var before := running;
      running := running[i := running[i].Afresh()];
      Around(running, i);
      assert running[..i] == before[..i] && running[i + 1..] == before[i + 1..];
    }

    /** Number `i` is the first inconclusive attempt of the list. */
    static ghost predicate FirstAt(s: seq<Attempt>, i: nat) {
      i < |s| && s[i].inconclusive && forall j :: 0 <= j < i ==> !s[j].inconclusive
    }

    method FirstInconclusive() returns (i: nat)
      requires 0 < CountInconclusive(running)
      ensures FirstAt(running, i)
    {
      i := 0;
      assert running[0..] == running;
      while !running[i].inconclusive
        invariant i < |running| && 0 < CountInconclusive(running[i..])
        invariant forall j :: 0 <= j < i ==> !running[j].inconclusive
        decreases |running| - i
      {
        assert running[i..][1..] == running[i + 1..];
        i := i + 1;
      }
    }

    /** What is left to be done before the evaluation has to end, while the clock stands still. */
    ghost function AddressesLeft(): int
      reads this
    {
      (v4 - n4) + (v6 - n6)
    }

    ghost predicate Progress(addresses: int, started: int, now: int)
      reads this
    {
      || AddressesLeft() < addresses
      || (AddressesLeft() == addresses && now - lastStarted < delay <= now - started)
    }

    /** What there is to go by. */
    ghost function Noted(): Books
      reads this
    {
      Books(log, made, freed, v4, v6, n4, n6, lastStarted, lastFamily)
    }

    /** The log is as it was, or has one more address, taken with the addresses now known. */
    ghost predicate Grew(was: seq<Start>)
      reads this
    {
      log == was || exists f, index :: log == was + [Start(f, index, v4, v6)]
    }

    /** Nothing has happened to the race, except that the clock was noted. */
    ghost predicate Same(was: Books, s: seq<Attempt>)
      reads this
    {
      running == s && Noted() == was.(lastStarted := lastStarted)
    }

    /** The next thing to do changes nothing. */
    ghost predicate Stuck(was: Books, s: seq<Attempt>, now: int, timeLeft: int, w: Weather) {
      Idles(was, s, now, w) || (Waits(was, s, now) && timeLeft == 0)
    }

    /** The same, and as the clock stands still, so it is after that. */
    ghost predicate Spins(was: Books, s: seq<Attempt>, now: int, timeLeft: int, w: Weather) {
      (Idles(was, s, now, w) && delay <= 0) || (Waits(was, s, now) && timeLeft == 0)
    }

    /** A restart is due, and leaves the attempt it is for as it was. */
    ghost predicate Idles(was: Books, s: seq<Attempt>, now: int, w: Weather) {
      && RestartDue(was, s, now) && w.setup == Done
      && forall at: nat :: FirstAt(s, at) ==> s[at].Restarted(w.again, true) == s[at]
    }

    /** An attempt is ongoing, and it is not yet time for the next address. */
    ghost predicate Waits(was: Books, s: seq<Attempt>, now: int) {
      (was.n4 < was.v4 || was.n6 < was.v6) && 0 < CountOngoing(s) && now - was.lastStarted < delay
    }

    /** Polling changes no attempt, and none is connected. */
    static ghost predicate Silent(s: seq<Attempt>, w: Weather) {
      AllAfter(s, w.report) == s && NoneUp(s)
    }

    /** An attempt is to be started: there is an address left, and nothing is ongoing or the delay is over. */
    ghost predicate AddressDue(was: Books, s: seq<Attempt>, now: int) {
      (was.n4 < was.v4 || was.n6 < was.v6) && (CountOngoing(s) == 0 || now - was.lastStarted >= delay)
    }

    /** An attempt is to be restarted: only inconclusive ones are left, and the delay is over. */
    ghost predicate RestartDue(was: Books, s: seq<Attempt>, now: int) {
      && was.n4 >= was.v4 && was.n6 >= was.v6
      && CountOngoing(s) == 0 && 0 < CountInconclusive(s) && now - was.lastStarted >= delay
    }

    /** There is nothing left to try, and no more addresses will come. */
    ghost predicate Hopeless(was: Books, s: seq<Attempt>, dnsResolved: bool) {
      was.n4 >= was.v4 && was.n6 >= was.v6 && CountOngoing(s) == 0 && CountInconclusive(s) == 0 && dnsResolved
    }

    /** The next address was taken, and its attempt joined those of the list that there was room for. */
    ghost predicate Began(was: Books, s: seq<Attempt>, now: int)
      reads this
    {
      var f := was.Turn();
      var index := if f == V4 then was.n4 else was.n6;
      && log == was.log + [Start(f, index, was.v4, was.v6)] && made == was.made + 1
      && running == Roomy(s) + [Attempt(was.made, f, index, Ok, false, false)]
      && lastStarted == now && lastFamily == f
    }

    /** The first inconclusive attempt of the list has started over. */
    ghost predicate Restarted(was: Books, s: seq<Attempt>, now: int, again: Report)
      reads this
    {
      && log == was.log && made == was.made && freed == was.freed && lastStarted == now
      && exists at: nat :: FirstAt(s, at) && running == s[at := s[at].Restarted(again, true)]
    }

    /**
     * What an evaluation does and answers when polling has left the attempts `s`: the next address or a
     * restart that is due is started, and only if none is does it rest, give up or time out.
     */
    ghost predicate Acted(was: Books, s: seq<Attempt>, now: int, timeLeft: int, dnsResolved: bool, w: Weather,
      next: Next)
      reads this
    {
      if AddressDue(was, s, now) then
        && |log| == |was.log| + 1 && (next == Again || next == SetupError)
        && (next == Again <==> w.setup == Done) && (next == Again ==> Began(was, s, now))
      else if RestartDue(was, s, now) then
        && (next == Again || next == SetupError)
        && (next == Again <==> w.setup == Done) && (next == Again ==> Restarted(was, s, now, w.again))
      else
        && running == s && Noted() == was
        && (next == GaveUp <==> Hopeless(was, s, dnsResolved))
        && (next == TimedOut <==> !Hopeless(was, s, dnsResolved) && timeLeft < 0)
        && (next == Again <==> (was.n4 < was.v4 || was.n6 < was.v6) && timeLeft == 0)
        && next != SetupError && next != Connected
    }

    /** Starts the next attempt, or a restart that is due. */
    method DoMore(now: int, inconclusive: nat, w: Weather) returns (next: Next)
      requires Valid() && !broken && winner.None? && inconclusive == CountInconclusive(running)
      requires CountOngoing(running) == 0 || HasMore(V4) || HasMore(V6)
      modifies this`running, this`freed, this`made, this`lastStarted, this`lastFamily
      modifies this`n4, this`n6, this`log, this`broken
      ensures Valid() && next in {Again, Pending, SetupError}
      ensures next == SetupError <==> broken
      ensures Grew(old(log)) && (old(HasMore(V4) || HasMore(V6)) ==> AddressesLeft() < old(AddressesLeft()))
      ensures next == Again && 0 < delay ==> Progress(old(AddressesLeft()), old(lastStarted), now)
      ensures next == Pending ==>
        && running == old(running) && n4 == old(n4) == v4 && n6 == old(n6) == v6
        && CountOngoing(running) == 0 && (inconclusive > 0 ==> now - lastStarted < delay)
      ensures next == Again && Same(old(Noted()), old(running)) <==> Idles(old(Noted()), old(running), now, w)
      ensures Idles(old(Noted()), old(running), now, w) ==> lastStarted == now
      ensures old(HasMore(V4) || HasMore(V6)) ==>
        && |log| == old(|log|) + 1 && next == (if w.setup == Done then Again else SetupError)
        && (next == Again ==> Began(old(Noted()), old(running), now))
      ensures RestartDue(old(Noted()), old(running), now) ==>
        && next == (if w.setup == Done then Again else SetupError)
        && (next == Again ==> Restarted(old(Noted()), old(running), now, w.again))
      ensures old(!HasMore(V4) && !HasMore(V6)) && !RestartDue(old(Noted()), old(running), now) ==>
        next == Pending && running == old(running) && Noted() == old(Noted())
    {
      var f := NextFamily();
      if f.Some? {
        next := StartNext(f.value, now, w.setup);
        return;
      }
      if inconclusive > 0 && delay - (now - lastStarted) <= 0 {
        var ok, at := Restart(now, w.again, w.setup);
        return if ok then Again else SetupError;
      }
      next := Pending;
    }

    /** Starts an attempt for the next address of the family. */
    method StartNext(f: Family, now: int, setup: Setup) returns (next: Next)
      requires Valid() && !broken && winner.None? && NextFamily() == Some(f)
      modifies this`running, this`freed, this`made, this`lastStarted, this`lastFamily
      modifies this`n4, this`n6, this`log, this`broken
      ensures Valid() && next == (if setup == Done then Again else SetupError)
      ensures (next == SetupError <==> broken) && Grew(old(log)) && AddressesLeft() == old(AddressesLeft()) - 1
      ensures |log| == old(|log|) + 1 && (next == Again ==> Began(old(Noted()), old(running), now))
    {
      var index := TakeAddress(f);
      var ok := Create(f, index, now, setup);
      next := if ok then Again else SetupError;
    }

    /**
     * One evaluation of the race. It gives up only when every address of both families has been
     * tried, name resolution is over, and no attempt is ongoing or inconclusive.
     */
    method Evaluate(now: int, timeLeft: int, dnsResolved: bool, w: Weather) returns (next: Next)
      requires Valid() && !broken && winner.None?
      modifies this
      ensures Valid() && v4 == old(v4) && v6 == old(v6) && Grew(old(log))
      ensures 0 < maxConcurrent ==> CountOngoing(running) <= maxConcurrent
      ensures next == SetupError <==> broken
      ensures next == Connected <==> winner.Some?
      ensures next == GaveUp ==>
        && n4 == v4 && n6 == v6 && dnsResolved
        && CountOngoing(running) == 0 && CountInconclusive(running) == 0
      ensures next == TimedOut ==> timeLeft < 0
      ensures next == Again && 0 < delay && timeLeft != 0 ==>
        Progress(old(AddressesLeft()), old(lastStarted), now)
      ensures Silent(old(running), w) && Spins(old(Noted()), old(running), now, timeLeft, w) ==>
        next == Again && Same(old(Noted()), old(running)) && Spins(Noted(), running, now, timeLeft, w)
      ensures next == Connected <==> !NoneUp(AllAfter(old(running), w.report))
      ensures next != Connected ==>
        Acted(old(Noted()), AllAfter(old(running), w.report), now, timeLeft, dnsResolved, w, next)
    {
      ghost var polled := AllAfter(running, w.report);
      var ongoing, inconclusive, at := CheckRunning(w.report);
      if winner.Some? {
        next := Connected;
        return;
      }
      assert running == polled && Noted() == old(Noted());
      next := Decide(now, timeLeft, dnsResolved, w, ongoing, inconclusive);
    }

    /** What to do after the attempts have been polled and none is connected. */
    method Decide(now: int, timeLeft: int, dnsResolved: bool, w: Weather, ongoing: nat, inconclusive: nat)
      returns (next: Next)
      requires Valid() && !broken && winner.None?
      requires ongoing == CountOngoing(running) && inconclusive == CountInconclusive(running)
      modifies this`running, this`freed, this`made, this`lastStarted, this`lastFamily
      modifies this`n4, this`n6, this`log, this`broken
      ensures Valid() && Grew(old(log)) && next != Connected && (next == SetupError <==> broken)
      ensures next == GaveUp ==>
        && n4 == v4 && n6 == v6 && dnsResolved
        && CountOngoing(running) == 0 && CountInconclusive(running) == 0
      ensures next == TimedOut ==> timeLeft < 0
      ensures next == Again && 0 < delay && timeLeft != 0 ==>
        Progress(old(AddressesLeft()), old(lastStarted), now)
      ensures Acted(old(Noted()), old(running), now, timeLeft, dnsResolved, w, next)
      ensures next == Again && Same(old(Noted()), old(running)) <==>
        Stuck(old(Noted()), old(running), now, timeLeft, w)
      ensures Spins(old(Noted()), old(running), now, timeLeft, w) ==> Spins(Noted(), running, now, timeLeft, w)
    {
      var more := HasMore(V4) || HasMore(V6);
      next := Pending;
      if ongoing == 0 || (more && now - lastStarted >= delay) {
        next := DoMore(now, inconclusive, w);
        if next != Pending {
          return;
        }
        if inconclusive == 0 && ongoing == 0 && dnsResolved {
          return GaveUp;
        }
      }
      if timeLeft < 0 {
        return TimedOut;
      }
      if HasMore(V4) || HasMore(V6) {
        var wait := if delay - (now - lastStarted) > 0 then delay - (now - lastStarted) else 0;
        if timeLeft <= 0 || wait <= 0 {
          return Again;
        }
      }
    }

    /**
     * Runs the race for as long as something can be done right now; each evaluation meets with its own
     * weather. With a clock that stands still, a positive delay, and a time left other than 0, it ends.
     */
    method Run(now: int, timeLeft: int, dnsResolved: bool, weather: nat -> Weather) returns (next: Next)
      requires Valid() && !broken && 0 < delay && timeLeft != 0
      modifies this
      ensures Valid() && next != Again
      ensures next == SetupError <==> broken
      ensures next == Connected <==> winner.Some?
      ensures next == Pending || next == GaveUp || next == TimedOut ==>
        && !AddressDue(Noted(), running, now) && !RestartDue(Noted(), running, now)
        && (next == GaveUp <==> Hopeless(Noted(), running, dnsResolved)) && (next == TimedOut ==> timeLeft < 0)
    {
      if winner.Some? {
        return Connected;
      }
      next := Again;
      var k := 0;
      while next == Again
        invariant Valid() && v4 == old(v4) && v6 == old(v6) && k >= 0
        invariant (next == SetupError <==> broken) && (next == Connected <==> winner.Some?)
        invariant next == Pending || next == GaveUp || next == TimedOut ==>
          && !AddressDue(Noted(), running, now) && !RestartDue(Noted(), running, now)
          && (next == GaveUp <==> Hopeless(Noted(), running, dnsResolved)) && (next == TimedOut ==> timeLeft < 0)
        decreases if next == Again then 1 else 0, AddressesLeft(),
                  if now - lastStarted >= delay then 1 else 0
      {
        next := Evaluate(now, timeLeft, dnsResolved, weather(k));
        k := k + 1;
      }
    }

    /** Further addresses came in; those known before keep their places. */
    method Resolved(more4: nat, more6: nat)
      requires Valid()
      modifies this`v4, this`v6
      ensures Valid() && v4 == old(v4) + more4 && v6 == old(v6) + more6
    {
      v4, v6 := v4 + more4, v6 + more6;
    }
  }

  /** What happens to the race: addresses come in, or it is evaluated at some time. */
  datatype Event =
    | Addresses(more4: nat, more6: nat)
    | Evaluation(now: int, timeLeft: int, dnsResolved: bool, weather: Weather)

  /** How many addresses of a family the events have brought. */
  ghost function Known(events: seq<Event>, f: Family): nat {
    if events == [] then 0
    else
      var n := |events| - 1;
      Known(events[..n], f) +
      if events[n].Evaluation? then 0 else if f == V4 then events[n].more4 else events[n].more6
  }

  /**
   * Address number `k` of the log was taken by event number `when[k]`, an evaluation, and what it says
   * was known are the addresses of the events before that. No event took two.
   */
  ghost predicate Dated(log: seq<Start>, when: seq<nat>, events: seq<Event>) {
    && |when| == |log|
    && (forall k :: 0 <= k < |log| ==>
          && when[k] < |events| && events[when[k]].Evaluation?
          && log[k].known4 == Known(events[..when[k]], V4) && log[k].known6 == Known(events[..when[k]], V6))
    && (forall j, k :: 0 <= j < k < |log| ==> when[j] < when[k])
  }

  /** What was dated stays dated, and an address taken by the next event is dated with it. */
  lemma {:induction false} DatedOn(log: seq<Start>, when: seq<nat>, events: seq<Event>, i: nat, s: Start)
    requires i < |events| && Dated(log, when, events[..i])
    ensures Dated(log, when, events[..i + 1])
    ensures events[i].Evaluation? && s.known4 == Known(events[..i], V4) && s.known6 == Known(events[..i], V6) ==>
      Dated(log + [s], when + [i], events[..i + 1])
  {
    assert forall k: nat :: k < i ==> events[..i + 1][k] == events[..i][k];
    assert forall k: nat :: k <= i ==> events[..i + 1][..k] == events[..k];
    assert forall k: nat :: k <= i ==> events[..i][..k] == events[..k];
  }

  lemma {:induction false} KnownOn(events: seq<Event>, i: nat, f: Family)
    requires i < |events|
    ensures Known(events[..i + 1], f) == Known(events[..i], f) +
      if events[i].Evaluation? then 0 else if f == V4 then events[i].more4 else events[i].more6
  {
    assert events[..i + 1][..i] == events[..i];
  }

  /** One event; once the race is over it is not evaluated any more. */
  method Happen(b: Ballers, event: Event, over: bool) returns (outcome: Option<Next>)
    requires b.Valid() && (!over ==> !b.broken && b.winner.None?)
    modifies b
    ensures b.Valid() && (0 < b.maxConcurrent ==> CountOngoing(b.running) <= b.maxConcurrent)
    ensures b.v4 == old(b.v4) + (if event.Addresses? then event.more4 else 0)
    ensures b.v6 == old(b.v6) + (if event.Addresses? then event.more6 else 0)
    ensures outcome.Some? <==> event.Evaluation? && !over
    ensures outcome.Some? ==>
      && (outcome.value == Connected <==> b.winner.Some?)
      && (outcome.value == SetupError <==> b.broken)
      && (outcome.value == GaveUp ==>
            && b.n4 == b.v4 && b.n6 == b.v6 && event.dnsResolved
            && CountOngoing(b.running) == 0 && CountInconclusive(b.running) == 0)
    ensures outcome.None? ==> b.winner == old(b.winner) && b.broken == old(b.broken) && b.log == old(b.log)
    ensures b.Grew(old(b.log))
    ensures outcome.Some? ==>
      var polled, w := AllAfter(old(b.running), event.weather.report), event.weather;
      && (outcome.value == Connected <==> !NoneUp(polled))
      && (outcome.value != Connected ==>
            b.Acted(old(b.Noted()), polled, event.now, event.timeLeft, event.dnsResolved, w, outcome.value))
  {
    outcome := None;
    match event
    case Addresses(more4, more6) => b.Resolved(more4, more6);
    case Evaluation(now, timeLeft, dnsResolved, weather) =>
      if !over {
        var next := b.Evaluate(now, timeLeft, dnsResolved, weather);
        outcome := Some(next);
      }
  }

  /** Event number `i` of a run, and which addresses it took. */
  method HappenAt(b: Ballers, events: seq<Event>, i: nat, over: bool, ghost when: seq<nat>)
    returns (outcome: Option<Next>, ghost when': seq<nat>)
    requires b.Valid() && (!over ==> !b.broken && b.winner.None?) && i < |events|
    requires b.v4 == Known(events[..i], V4) && b.v6 == Known(events[..i], V6) && Dated(b.log, when, events[..i])
    modifies b
    ensures b.Valid() && (0 < b.maxConcurrent ==> CountOngoing(b.running) <= b.maxConcurrent)
    ensures b.v4 == Known(events[..i + 1], V4) && b.v6 == Known(events[..i + 1], V6)
    ensures Dated(b.log, when', events[..i + 1]) && old(b.log) <= b.log
    ensures outcome.Some? ==>
      !over && (outcome.value == Connected <==> b.winner.Some?) && (outcome.value == SetupError <==> b.broken)
    ensures outcome.None? ==> b.winner == old(b.winner) && b.broken == old(b.broken) && b.log == old(b.log)
    ensures over ==> outcome.None?
    ensures outcome == Some(GaveUp) ==> b.n4 == Known(events[..i], V4) && b.n6 == Known(events[..i], V6)
  {
    ghost var log := b.log;
    outcome := Happen(b, events[i], over);
    KnownOn(events, i, V4);
    KnownOn(events, i, V6);
    DatedOn(log, when, events, i, if b.log == log then Start(V4, 0, 0, 0) else b.log[|log|]);
    when' := if b.log == log then when else when + [i];
  }

  /** When the race was given up, every address that had come in by then had been tried. */
  ghost predicate AllTried(log: seq<Start>, events: seq<Event>, outcomes: seq<Option<Next>>)
    requires |outcomes| <= |events|
  {
    forall i :: 0 <= i < |outcomes| && outcomes[i] == Some(GaveUp) ==>
      CountFamily(log, V4) == Known(events[..i], V4) && CountFamily(log, V6) == Known(events[..i], V6)
  }

  lemma {:induction false} AllTriedOn(log: seq<Start>, longer: seq<Start>, events: seq<Event>,
    outcomes: seq<Option<Next>>, outcome: Option<Next>)
    requires |outcomes| < |events| && AllTried(log, events, outcomes) && (Some(GaveUp) in outcomes ==> longer == log)
    requires outcome == Some(GaveUp) ==>
      && CountFamily(longer, V4) == Known(events[..|outcomes|], V4)
      && CountFamily(longer, V6) == Known(events[..|outcomes|], V6)
    ensures AllTried(longer, events, outcomes + [outcome])
    ensures forall o :: o in outcomes + [outcome] <==> o in outcomes || o == outcome
  {
    forall i | 0 <= i < |outcomes| && outcomes[i] == Some(GaveUp)
      ensures CountFamily(longer, V4) == Known(events[..i], V4) && CountFamily(longer, V6) == Known(events[..i], V6)
    {
      assert outcomes[i] in outcomes;
    }
  }

  /** At no time of the history were more attempts ongoing than the limit, and all were for logged addresses. */
  ghost predicate Within(history: seq<seq<Attempt>>, log: seq<Start>, limit: nat) {
    history == [] ||
    var n := |history| - 1;
    && Within(history[..n], log, limit)
    && AllMade(history[n], log) && (0 < limit ==> CountOngoing(history[n]) <= limit)
  }

  lemma {:induction false} WithinOn(history: seq<seq<Attempt>>, log: seq<Start>, longer: seq<Start>, limit: nat,
    now: seq<Attempt>)
    requires Within(history, log, limit) && log <= longer
    requires AllMade(now, longer) && (0 < limit ==> CountOngoing(now) <= limit)
    ensures Within(history + [now], longer, limit)
  {
    WithinGrows(history, log, longer, limit);
    assert (history + [now])[..|history|] == history;
  }

  lemma {:induction false} WithinGrows(history: seq<seq<Attempt>>, log: seq<Start>, longer: seq<Start>, limit: nat)
    requires Within(history, log, limit) && log <= longer
    ensures Within(history, longer, limit)
  {
    if history == [] {
    } else {
      WithinGrows(history[..|history| - 1], log, longer, limit);
    }
  }

  /**
   * Any run, with any clock and weather. Every attempt made was for the address its number has in the
   * log, and the log has the addresses of each family in list order, without gap or repetition. While
   * both families had addresses left, by what the events had brought, they took turns. At no time is
   * the limit on concurrent attempts exceeded, there is a winner exactly if some evaluation said so,
   * it is given up only when every address that had come in was tried, and after the final clearing
   * every attempt has been freed exactly once.
   */
  method Race(delay: int, maxConcurrent: nat, events: seq<Event>)
    returns (b: Ballers, outcomes: seq<Option<Next>>, won: bool, ghost when: seq<nat>, ghost history: seq<seq<Attempt>>)
    ensures fresh(b) && b.Valid() && b.maxConcurrent == maxConcurrent
    ensures InOrder(b.log) && Dated(b.log, when, events) && b.made <= |b.log| <= b.made + 1
    ensures b.v4 == Known(events, V4) && b.v6 == Known(events, V6)
    ensures CountFamily(b.log, V4) == b.n4 <= b.v4 && CountFamily(b.log, V6) == b.n6 <= b.v6
    ensures b.running == [] && b.winner == None
    ensures forall id: nat :: id < b.made ==> Occurs(b.freed, id) == 1
    ensures forall i :: 0 <= i < |b.freed| ==> Made(b.freed[i], b.log)
    ensures |outcomes| == |history| == |events| && (won <==> Some(Connected) in outcomes)
    ensures Within(history, b.log, maxConcurrent) && AllTried(b.log, events, outcomes)
  {
    b := new Ballers(delay, maxConcurrent);
    var over := false;
    outcomes, when, history := [], [], [];
    for i := 0 to |events|
      invariant fresh(b) && b.maxConcurrent == maxConcurrent && Raced(b, events, i, over, outcomes, when, history)
    {
      over, outcomes, when, history := RaceOn(b, events, i, over, outcomes, when, history);
    }
    assert events[..|events|] == events;
    won := b.winner.Some?;
    b.Clear();
  }

  /** Where a run is after `i` events. */
  ghost predicate Raced(b: Ballers, events: seq<Event>, i: nat, over: bool, outcomes: seq<Option<Next>>, when: seq<nat>,
    history: seq<seq<Attempt>>)
    reads b
  {
    && b.Valid() && i <= |events| && |outcomes| == |history| == i && Dated(b.log, when, events[..i])
    && b.v4 == Known(events[..i], V4) && b.v6 == Known(events[..i], V6)
    && (!over ==> !b.broken && b.winner.None?) && (b.winner.Some? <==> Some(Connected) in outcomes)
    && Within(history, b.log, b.maxConcurrent)
    && AllTried(b.log, events, outcomes) && (Some(GaveUp) in outcomes ==> over)
  }

  /** One more event. */
  method RaceOn(b: Ballers, events: seq<Event>, i: nat, over: bool, outcomes: seq<Option<Next>>, ghost when: seq<nat>,
    ghost history: seq<seq<Attempt>>)
    returns (over': bool, outcomes': seq<Option<Next>>, ghost when': seq<nat>, ghost history': seq<seq<Attempt>>)
    requires Raced(b, events, i, over, outcomes, when, history) && i < |events|
    modifies b
    ensures Raced(b, events, i + 1, over', outcomes', when', history')
  {
    var outcome;
    ghost var log := b.log;
    outcome, when' := HappenAt(b, events, i, over, when);
    WithinOn(history, log, b.log, b.maxConcurrent, b.running);
    AllTriedOn(log, b.log, events, outcomes, outcome);
    over' := over || (outcome.Some? && outcome.value != Again && outcome.value != Pending);
    outcomes', history' := outcomes + [outcome], history + [b.running];
  }

  // ---------- Evaluations that never end ----------

  /** A race with one attempt, to the first of `known` IPv4 addresses, started at time 0. */
  method OneAttempt(delay: int, known: nat) returns (b: Ballers)
    requires 0 < known
    ensures fresh(b) && b.Valid() && !b.broken && b.winner.None? && b.delay == delay && b.lastStarted == 0
    ensures b.v4 == known && b.n4 == 1 && b.v6 == b.n6 == 0
    ensures b.running == [Attempt(0, V4, 0, Ok, false, false)]
  {
    b := new Ballers(delay, 0);
    b.Resolved(known, 0);
    var index := b.TakeAddress(V4);
    b.Join(V4, index, 0);
  }

  /** With a time left of 0, which means no limit, an address left, and no answer to the attempt. */
  method SpinUnlimited() returns (b: Ballers, w: Weather)
    ensures fresh(b) && b.Valid() && !b.broken && b.winner.None? && 0 < b.delay
    ensures Ballers.Silent(b.running, w) && b.Spins(b.Noted(), b.running, 0, 0, w)
  {
    b := OneAttempt(200, 2);
    w := Weather(_ => Report(Ok, false), Report(Ok, false), Done);
    assert [Attempt(0, V4, 0, Ok, false, false)][1..] == [];
    assert AllAfter(b.running, w.report) == b.running;
  }

  /** Without a delay, if the attempt gets the same inconclusive answer each time it is restarted. */
  method SpinRestarts() returns (b: Ballers, w: Weather)
    ensures fresh(b) && b.Valid() && !b.broken && b.winner.None? && b.delay == 0
    ensures Ballers.Silent(b.running, w) && b.Spins(b.Noted(), b.running, 0, 1000, w)
  {
    b := OneAttempt(0, 1);
    var weird := Report(Err(true), false);
    b.PollAt(0, weird);
    ghost var stuck := Attempt(0, V4, 0, Err(true), false, true);
    assert b.running == [stuck] && [stuck][1..] == [];
    w := Weather(_ => weird, weird, Done);
    assert stuck.Restarted(w.again, true) == stuck;
    assert AllAfter(b.running, w.report) == b.running;
    assert CountOngoing([stuck]) == 0 && CountInconclusive([stuck]) == 1;
  }
}
