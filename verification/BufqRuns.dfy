/** Whole runs: any sequence of calls, on one queue or on several that share a pool. */
module BufqRuns {
  import opened BufqChunk
  import opened Bufq

  datatype Op =
    | Write(buf: seq<Byte>)
    | WritePass(buf: seq<Byte>)
    | Sip(max: nat, src: seq<Byte>)
    | Slurp(max: nat, src: seq<Byte>)
    | Read(len: nat)
    | Skip(amount: nat)
    | Pass
    | Peek
    | PeekAt(offset: nat)
    | Reset
  {
    /** Calls that take bytes out and put none in. */
    predicate Takes() {
      Read? || Skip? || Pass? || Reset?
    }
  }

  /** What the caller sees of a call: its result, the count it reports, and bytes read, shown or passed on. */
  datatype Seen = Seen(res: Code, n: nat, out: seq<Byte>)

  /**
   * What a call does to the content `before`, with room for `room` bytes more, and what it lets the
   * caller see. `added` goes in at the end and `removed` leaves at the front.
   */
  ghost predicate Does(op: Op, mem: bool, soft: bool, before: seq<Byte>, room: int, seen: Seen, added: seq<Byte>,
    removed: seq<Byte>)
  {
    match op
    case Write(buf) =>
      && removed == [] && seen.n <= |buf| && added == buf[..seen.n]
      && (mem ==> seen.n == if soft || |buf| <= room then |buf| else room)
      && (mem ==> seen.res == if added == [] && buf != [] then Again else Ok)
    case WritePass(buf) =>
      && removed == seen.out && seen.n <= |added| && added <= buf
      && (seen.res != OutOfMemory || mem ==> seen.n == |added|)
    case Sip(max, src) => removed == [] && FromSource(max, src, seen.n, added)
    case Slurp(max, src) => removed == [] && FromSource(max, src, seen.n, added)
    case Read(len) => added == [] && removed == seen.out && |removed| == Min(len, |before|)
    case Skip(amount) => added == [] && |removed| == Min(amount, |before|)
    case Pass => added == [] && removed == seen.out && seen.n == |removed|
    case Peek => added == removed == [] && seen.out <= before && (seen.out == [] <==> before == [])
    case PeekAt(offset) =>
      && added == removed == []
      && (if offset < |before| then seen.out != [] && seen.out <= before[offset..] else seen.out == [])
    case Reset => added == [] && removed == before
  }

  /** What was read from a source, within a limit that 0 lifts. */
  ghost predicate FromSource(max: nat, src: seq<Byte>, n: nat, added: seq<Byte>) {
    n <= |src| && added == src[..n] && (0 < max ==> n <= max)
  }

  /** The calls that may add bytes, and those that only look. */
  method Give(q: Queue, op: Op, mem: bool)
    returns (seen: Seen, ghost added: seq<Byte>, ghost removed: seq<Byte>)
    requires q.Valid() && !op.Takes()
    modifies q, q.pool, q.AllChunks()
    ensures q.Valid() && q.Framed()
    ensures old(q.Contents()) + added == removed + q.Contents()
    ensures Does(op, mem, q.soft, old(q.Contents()), old(q.Room()), seen, added, removed)
  {
    var res, n: nat, ok, out := Ok, 0, false, [];
    added, removed := [], [];
    match op {
      case Write(buf) =>
        res, n := q.Write(buf, mem);
        added := buf[..n];
      case WritePass(buf) =>
        ghost var k;
        res, n, out, k := q.WritePass(buf, mem);
        added, removed := buf[..k], out;
      case Sip(max, src) =>
        res, n := q.Sip(max, src, mem);
        added := src[..n];
      case Slurp(max, src) =>
        ghost var said, last;
        res, n, said, last := q.Slurp(max, src, mem);
        added := src[..n];
      case Peek =>
        ok, out := q.Peek();
      case PeekAt(offset) =>
        ok, out := q.PeekAt(offset);
    }
    seen := Seen(res, n, out);
  }

  /** The calls that take bytes out. */
  method Take(q: Queue, op: Op, ghost mem: bool) returns (seen: Seen, ghost removed: seq<Byte>)
    requires q.Valid() && op.Takes()
    modifies q, q.pool, q.AllChunks()
    ensures q.Valid() && q.Framed()
    ensures old(q.Contents()) == removed + q.Contents()
    ensures Does(op, mem, q.soft, old(q.Contents()), old(q.Room()), seen, [], removed)
  {
    var res, n: nat, out := Ok, 0, [];
    match op {
      case Read(len) =>
        res, out := q.Read(len);
        removed := out;
      case Pass =>
        ghost var said, last;
        res, n, out, said, last := q.Pass();
        removed := out;
      case Skip(amount) =>
        removed := q.Contents()[..Min(amount, |q.Contents()|)];
        q.Skip(amount);
      case Reset =>
        removed := q.Contents();
        q.Reset();
    }
    seen := Seen(res, n, out);
  }

  /** Performs one call on `q`. */
  method Apply(q: Queue, op: Op, mem: bool)
    returns (seen: Seen, ghost added: seq<Byte>, ghost removed: seq<Byte>)
    requires q.Valid()
    modifies q, q.pool, q.AllChunks()
    ensures q.Valid() && q.Framed()
    ensures old(q.Contents()) + added == removed + q.Contents()
    ensures Does(op, mem, q.soft, old(q.Contents()), old(q.Room()), seen, added, removed)
  {
    if op.Takes() {
      seen, removed := Take(q, op, mem);
      added := [];
    } else {
      seen, added, removed := Give(q, op, mem);
    }
  }

  lemma {:induction false} Compose(c0: seq<Byte>, a: seq<Byte>, r: seq<Byte>, c1: seq<Byte>,
                a': seq<Byte>, r': seq<Byte>, c2: seq<Byte>)
    requires c0 + a == r + c1 && c1 + a' == r' + c2
    ensures c0 + (a + a') == (r + r') + c2
  {
    assert c0 + (a + a') == (c0 + a) + a';
    assert (r + c1) + a' == r + (c1 + a');
    assert r + (r' + c2) == (r + r') + c2;
  }

  // ---------- Queues that share a pool ----------

  /** Queues over one pool: all intact, and no chunk belongs to two of them. */
  ghost predicate Intact(pool: Pool, qs: seq<Queue>)
    reads *
  {
    && (forall k :: 0 <= k < |qs| ==> qs[k].pool == pool && qs[k].Valid())
    && (forall j, k :: 0 <= j < k < |qs| ==> qs[j] != qs[k] && qs[j].chunks !! qs[k].chunks)
  }

  ghost predicate HeldBy(qs: seq<Queue>, c: Chunk)
    reads qs
  {
    exists k :: 0 <= k < |qs| && c in qs[k].chunks
  }

  /** Every chunk ever made is owned by a queue, in the pool, or freed. */
  ghost predicate Accounted(pool: Pool, qs: seq<Queue>)
    reads pool, qs
  {
    forall c :: c in pool.made ==> c in pool.chunks || c in pool.freed || HeldBy(qs, c)
  }

  ghost predicate Sharing(pool: Pool, qs: seq<Queue>)
    reads *
  {
    Intact(pool, qs) && Accounted(pool, qs)
  }

  /** What `Sharing` says of one chunk: it is in one of these places, and in no other. */
  lemma {:induction false} OnePlace(pool: Pool, qs: seq<Queue>, c: Chunk)
    requires Sharing(pool, qs) && qs != [] && c in pool.made
    ensures c in pool.spare || c in pool.freed || exists k :: 0 <= k < |qs| && (c in qs[k].head || c in qs[k].spare)
    ensures !(c in pool.spare && c in pool.freed)
    ensures forall k :: 0 <= k < |qs| && (c in qs[k].head || c in qs[k].spare) ==>
      && c !in pool.spare && c !in pool.freed && !(c in qs[k].head && c in qs[k].spare)
      && forall j :: 0 <= j < |qs| && j != k ==> c !in qs[j].head && c !in qs[j].spare
  {
    assert qs[0].Valid();
    HasIn(pool.spare, c);
    forall k | 0 <= k < |qs|
      ensures c in qs[k].chunks <==> c in qs[k].head || c in qs[k].spare
      ensures c in qs[k].chunks ==> c !in pool.chunks && c !in pool.freed
    {
      assert qs[k].Valid();
      HasIn(qs[k].head, c);
      HasIn(qs[k].spare, c);
    }
  }

  /** One more empty queue over the pool. */
  method OpenOne(pool: Pool, qs: seq<Queue>, spec: (nat, bool, bool)) returns (q: Queue)
    requires Intact(pool, qs) && pool.Valid() && 0 < spec.0
    ensures fresh(q) && Intact(pool, qs + [q]) && q.head == []
  {
    q := new Queue(pool.chunkSize, spec.0, spec.1, spec.2, pool);
  }

  /** A pool and queues over it, one for each limit and choice of options. */
  method Open(chunkSize: nat, spareMax: nat, specs: seq<(nat, bool, bool)>) returns (pool: Pool, qs: seq<Queue>)
    requires 0 < chunkSize && 0 < spareMax && forall s :: s in specs ==> 0 < s.0
    ensures fresh(pool) && fresh(qs) && |qs| == |specs| && Sharing(pool, qs)
    ensures pool.made == {} && forall k :: 0 <= k < |qs| ==> qs[k].Contents() == []
  {
    pool := new Pool(chunkSize, spareMax);
    qs := [];
    for k := 0 to |specs|
      invariant fresh(pool) && fresh(qs) && |qs| == k && pool.Valid() && pool.made == {} && Intact(pool, qs)
      invariant forall j :: 0 <= j < k ==> qs[j].head == []
    {
      assert specs[k] in specs;
      var q := OpenOne(pool, qs, specs[k]);
      qs := qs + [q];
    }
  }

  /** A call on one queue leaves every other queue over the pool as it was. */
  method ApplyAmong(pool: Pool, qs: seq<Queue>, i: nat, op: Op, mem: bool)
    returns (seen: Seen, ghost added: seq<Byte>, ghost removed: seq<Byte>)
    requires Intact(pool, qs) && i < |qs|
    modifies pool, qs[i], qs[i].AllChunks()
    ensures Intact(pool, qs) && qs[i].Framed()
    ensures old(qs[i].Contents()) + added == removed + qs[i].Contents()
    ensures Does(op, mem, qs[i].soft, old(qs[i].Contents()), old(qs[i].Room()), seen, added, removed)
    ensures forall k :: 0 <= k < |qs| && k != i ==> qs[k].Contents() == old(qs[k].Contents())
    ensures fresh(pool.made - old(pool.made))
  {
    seen, added, removed := Apply(qs[i], op, mem);
    forall k | 0 <= k < |qs| && k != i
      ensures qs[k].Valid() && qs[k].Contents() == old(qs[k].Contents()) && qs[k].chunks !! qs[i].chunks
    {
      qs[k].Stays(qs[i]);
    }
  }

  /** Nor does it lose a chunk: each is still in exactly one place. */
  method ApplyShared(pool: Pool, qs: seq<Queue>, i: nat, op: Op, mem: bool)
    returns (seen: Seen, ghost added: seq<Byte>, ghost removed: seq<Byte>)
    requires Sharing(pool, qs) && i < |qs|
    modifies pool, qs[i], qs[i].AllChunks()
    ensures Sharing(pool, qs)
    ensures old(qs[i].Contents()) + added == removed + qs[i].Contents()
    ensures Does(op, mem, qs[i].soft, old(qs[i].Contents()), old(qs[i].Room()), seen, added, removed)
    ensures forall k :: 0 <= k < |qs| && k != i ==> qs[k].Contents() == old(qs[k].Contents())
    ensures old(pool.made) <= pool.made && old(pool.freed) <= pool.freed
    ensures fresh(pool.made - old(pool.made))
  {
    seen, added, removed := ApplyAmong(pool, qs, i, op, mem);
    forall c | c in pool.made ensures c in pool.chunks || c in pool.freed || HeldBy(qs, c) {
      if c in qs[i].Elsewhere() {
        assert c in old(qs[i].Elsewhere());
        assert old(HeldBy(qs, c));
      }
    }
  }

  // ---------- Whole runs ----------

  /** One call of a run: on which queue, its content and room before, what was seen and what it did. */
  datatype Event = Event(queue: nat, before: seq<Byte>, room: int, seen: Seen, added: seq<Byte>, removed: seq<Byte>)

  /** All that was added to queue `k`, in order. */
  ghost function Added(trace: seq<Event>, k: nat): seq<Byte> {
    if trace == [] then []
    else
      var n := |trace| - 1;
      Added(trace[..n], k) + if trace[n].queue == k then trace[n].added else []
  }

  /** All that left queue `k`, in order. */
  ghost function Removed(trace: seq<Event>, k: nat): seq<Byte> {
    if trace == [] then []
    else
      var n := |trace| - 1;
      Removed(trace[..n], k) + if trace[n].queue == k then trace[n].removed else []
  }

  /** Queue `k` had the content `start`, and has `now` after the trace. */
  ghost predicate Leads(start: seq<Byte>, trace: seq<Event>, k: nat, now: seq<Byte>) {
    start + Added(trace, k) == Removed(trace, k) + now
  }

  /** The last event is what its call does to the content that the events before it lead to. */
  ghost predicate Explained(e: Event, call: (nat, Op), before: seq<Event>, mem: bool, soft: seq<bool>,
    starts: seq<seq<Byte>>)
    requires |soft| == |starts|
  {
    && e.queue == call.0 < |starts|
    && Does(call.1, mem, soft[e.queue], e.before, e.room, e.seen, e.added, e.removed)
    && Leads(starts[e.queue], before, e.queue, e.before)
  }

  /** So is every event. */
  ghost predicate Explains(trace: seq<Event>, script: seq<(nat, Op)>, mem: bool, soft: seq<bool>,
    starts: seq<seq<Byte>>)
    requires |trace| <= |script| && |soft| == |starts|
  {
    trace == [] ||
    var n := |trace| - 1;
    Explains(trace[..n], script, mem, soft, starts) && Explained(trace[n], script[n], trace[..n], mem, soft, starts)
  }

  lemma {:induction false} ExplainsAt(trace: seq<Event>, script: seq<(nat, Op)>, mem: bool, soft: seq<bool>,
    starts: seq<seq<Byte>>, s: nat)
    requires s < |trace| <= |script| && |soft| == |starts| && Explains(trace, script, mem, soft, starts)
    ensures Explained(trace[s], script[s], trace[..s], mem, soft, starts)
  {
    var n := |trace| - 1;
    if s < n {
      ExplainsAt(trace[..n], script, mem, soft, starts, s);
      assert trace[..n][..s] == trace[..s];
    }
  }

  /** One more event. */
  lemma {:induction false} LeadsOn(start: seq<Byte>, trace: seq<Event>, e: Event, k: nat, now: seq<Byte>,
    next: seq<Byte>)
    requires Leads(start, trace, k, now)
    requires if e.queue == k then now + e.added == e.removed + next else next == now
    ensures Leads(start, trace + [e], k, next)
  {
    assert (trace + [e])[..|trace|] == trace;
    if e.queue == k {
      Compose(start, Added(trace, k), Removed(trace, k), now, e.added, e.removed, next);
    } else {
      assert Added(trace, k) + [] == Added(trace, k) && Removed(trace, k) + [] == Removed(trace, k);
    }
  }

  lemma {:induction false} ExplainsOn(trace: seq<Event>, e: Event, script: seq<(nat, Op)>, mem: bool, soft: seq<bool>,
    starts: seq<seq<Byte>>)
    requires |trace| < |script| && |soft| == |starts| && Explains(trace, script, mem, soft, starts)
    requires Explained(e, script[|trace|], trace, mem, soft, starts)
    ensures Explains(trace + [e], script, mem, soft, starts)
  {
    assert (trace + [e])[..|trace|] == trace;
  }

  ghost function Softs(qs: seq<Queue>): (r: seq<bool>)
    ensures |r| == |qs| && forall k :: 0 <= k < |qs| ==> r[k] == qs[k].soft
  {
    seq(|qs|, k requires 0 <= k < |qs| => qs[k].soft)
  }

  ghost function AllContents(qs: seq<Queue>): (r: seq<seq<Byte>>)
    requires forall k :: 0 <= k < |qs| ==> AllTidy(qs[k].head)
    reads *
    ensures |r| == |qs| && forall k :: 0 <= k < |qs| ==> r[k] == qs[k].Contents()
  {
    seq(|qs|, k requires 0 <= k < |qs| && AllTidy(qs[k].head) reads * => qs[k].Contents())
  }

  /** Every queue has the content that the trace leads to. */
  ghost predicate AllLead(starts: seq<seq<Byte>>, trace: seq<Event>, now: seq<seq<Byte>>) {
    |now| == |starts| && forall k :: 0 <= k < |starts| ==> Leads(starts[k], trace, k, now[k])
  }

  lemma {:induction false} AllLeadFrom(starts: seq<seq<Byte>>)
    ensures AllLead(starts, [], starts)
  {
    forall k | 0 <= k < |starts| ensures Leads(starts[k], [], k, starts[k]) {
      assert starts[k] + [] == [] + starts[k];
    }
  }

  lemma {:induction false} AllLeadOn(starts: seq<seq<Byte>>, trace: seq<Event>, e: Event, now: seq<seq<Byte>>,
    next: seq<seq<Byte>>)
    requires AllLead(starts, trace, now) && |next| == |now| && e.queue < |now|
    requires now[e.queue] + e.added == e.removed + next[e.queue]
    requires forall k :: 0 <= k < |now| && k != e.queue ==> next[k] == now[k]
    ensures AllLead(starts, trace + [e], next)
  {
    forall k | 0 <= k < |starts| ensures Leads(starts[k], trace + [e], k, next[k]) {
      LeadsOn(starts[k], trace, e, k, now[k], next[k]);
    }
  }

  /** A call as an event. */
  method Perform(pool: Pool, qs: seq<Queue>, i: nat, op: Op, mem: bool) returns (seen: Seen, ghost e: Event)
    requires Sharing(pool, qs) && i < |qs|
    modifies pool, qs[i], qs[i].AllChunks()
    ensures Sharing(pool, qs) && old(pool.made) <= pool.made && old(pool.freed) <= pool.freed
    ensures fresh(pool.made - old(pool.made))
    ensures e.queue == i && e.seen == seen && e.before == old(AllContents(qs))[i]
    ensures Does(op, mem, Softs(qs)[i], e.before, e.room, e.seen, e.added, e.removed) && e.room == old(qs[i].Room())
    ensures e.before + e.added == e.removed + AllContents(qs)[i]
    ensures forall k :: 0 <= k < |qs| && k != i ==> AllContents(qs)[k] == old(AllContents(qs))[k]
  {
    ghost var before, room, a, r := qs[i].Contents(), qs[i].Room(), [], [];
    seen, a, r := ApplyShared(pool, qs, i, op, mem);
    e := Event(i, before, room, seen, a, r);
  }

  /** The queues are intact, and where the trace of the script leads from the content they started with. */
  ghost predicate Told(pool: Pool, qs: seq<Queue>, script: seq<(nat, Op)>, mem: bool, trace: seq<Event>,
    starts: seq<seq<Byte>>)
    reads *
  {
    && Sharing(pool, qs) && |trace| <= |script| && |qs| == |starts|
    && Explains(trace, script, mem, Softs(qs), starts) && AllLead(starts, trace, AllContents(qs))
  }

  /** Call number `s` of a script. */
  method Next(pool: Pool, qs: seq<Queue>, script: seq<(nat, Op)>, mem: bool, ghost trace: seq<Event>,
    ghost starts: seq<seq<Byte>>, s: nat) returns (seen: Seen, ghost e: Event)
    requires Told(pool, qs, script, mem, trace, starts) && s == |trace| < |script| && script[s].0 < |qs|
    modifies pool, qs, pool.made
    ensures Told(pool, qs, script, mem, trace + [e], starts) && e.seen == seen
    ensures old(pool.made) <= pool.made && old(pool.freed) <= pool.freed && fresh(pool.made - old(pool.made))
  {
    ghost var now := AllContents(qs);
    seen, e := Perform(pool, qs, script[s].0, script[s].1, mem);
    AllLeadOn(starts, trace, e, now, AllContents(qs));
    ExplainsOn(trace, e, script, mem, Softs(qs), starts);
  }

  /** What the caller saw, call by call. */
  ghost function Shown(trace: seq<Event>): (r: seq<Seen>)
    ensures |r| == |trace| && forall s :: 0 <= s < |trace| ==> r[s] == trace[s].seen
  {
    seq(|trace|, s requires 0 <= s < |trace| => trace[s].seen)
  }

  lemma {:induction false} ShownOn(trace: seq<Event>, e: Event)
    ensures Shown(trace + [e]) == Shown(trace) + [e.seen]
  {
  }

  /** The calls of a script from number `s` on. */
  method Finish(pool: Pool, qs: seq<Queue>, script: seq<(nat, Op)>, mem: bool, s: nat, before: seq<Seen>,
    ghost done: seq<Event>, ghost starts: seq<seq<Byte>>) returns (seen: seq<Seen>, ghost trace: seq<Event>)
    requires Told(pool, qs, script, mem, done, starts) && s == |done| && before == Shown(done)
    requires forall t :: 0 <= t < |script| ==> script[t].0 < |qs|
    modifies pool, qs, pool.made
    ensures Told(pool, qs, script, mem, trace, starts) && |trace| == |script| && seen == Shown(trace)
    ensures old(pool.made) <= pool.made && old(pool.freed) <= pool.freed
    decreases |script| - s
  {
    if s == |script| {
      return before, done;
    }
    var next;
    ghost var e;
    next, e := Next(pool, qs, script, mem, done, starts, s);
    ShownOn(done, e);
    seen, trace := Finish(pool, qs, script, mem, s + 1, before + [next], done + [e], starts);
  }

  /**
   * Any run over queues that share a pool. Each queue is a byte FIFO of its own: every call sees
   * and does what it should to the content that the calls before it lead to, and the final content
   * is what all of them lead to. Each chunk is in exactly one place throughout.
   */
  method Run(pool: Pool, qs: seq<Queue>, script: seq<(nat, Op)>, mem: bool)
    returns (seen: seq<Seen>, ghost trace: seq<Event>)
    requires Sharing(pool, qs) && forall s :: 0 <= s < |script| ==> script[s].0 < |qs|
    modifies pool, qs, pool.made
    ensures Sharing(pool, qs) && old(pool.made) <= pool.made && old(pool.freed) <= pool.freed
    ensures |trace| == |script| && seen == Shown(trace)
    ensures Explains(trace, script, mem, Softs(qs), old(AllContents(qs)))
    ensures AllLead(old(AllContents(qs)), trace, AllContents(qs))
  {
    ghost var starts := AllContents(qs);
    AllLeadFrom(starts);
    seen, trace := Finish(pool, qs, script, mem, 0, [], [], starts);
  }

  // ---------- A queue of its own ----------

  /** The calls of a script on the one queue there is. */
  function Calls(script: seq<Op>): (r: seq<(nat, Op)>)
    ensures |r| == |script| && forall s :: 0 <= s < |script| ==> r[s] == (0, script[s])
  {
    seq(|script|, s requires 0 <= s < |script| => (0, script[s]))
  }

  /** Every chunk the queue ever made is in exactly one of its lists, or freed. */
  ghost predicate OwnsAll(q: Queue)
    reads q
  {
    forall c :: c in q.made ==>
      && (c in q.head || c in q.spare || c in q.freed)
      && !(c in q.head && c in q.spare) && !(c in q.head && c in q.freed) && !(c in q.spare && c in q.freed)
  }

  lemma {:induction false} OwnPlace(q: Queue)
    requires q.Valid() && q.pool == null
    ensures OwnsAll(q)
  {
    forall c | c in q.chunks ensures c in q.head || c in q.spare {
      HasIn(q.head, c);
      HasIn(q.spare, c);
    }
  }

  /** What a trace of calls on the queue leads to. */
  ghost predicate ToldAlone(q: Queue, script: seq<Op>, mem: bool, trace: seq<Event>, start: seq<Byte>)
    reads *
  {
    && q.Valid() && q.pool == null && |trace| <= |script|
    && Explains(trace, Calls(script), mem, [q.soft], [start]) && Leads(start, trace, 0, q.Contents())
  }

  /** Call number `s` of the script. */
  method NextAlone(q: Queue, script: seq<Op>, mem: bool, ghost trace: seq<Event>, ghost start: seq<Byte>, s: nat)
    returns (seen: Seen, ghost e: Event)
    requires ToldAlone(q, script, mem, trace, start) && s == |trace| < |script|
    modifies q, q.chunks
    ensures ToldAlone(q, script, mem, trace + [e], start) && e.seen == seen
    ensures old(q.made) <= q.made && old(q.freed) <= q.freed && fresh(q.chunks - old(q.chunks))
  {
    ghost var before, room, a, r := q.Contents(), q.Room(), [], [];
    seen, a, r := Apply(q, script[s], mem);
    e := Event(0, before, room, seen, a, r);
    LeadsOn(start, trace, e, 0, before, q.Contents());
    ExplainsOn(trace, e, Calls(script), mem, [q.soft], [start]);
  }

  /** The calls from number `s` on. */
  method FinishAlone(q: Queue, script: seq<Op>, mem: bool, s: nat, before: seq<Seen>, ghost done: seq<Event>,
    ghost start: seq<Byte>) returns (seen: seq<Seen>, ghost trace: seq<Event>)
    requires ToldAlone(q, script, mem, done, start) && s == |done| && before == Shown(done)
    modifies q, q.chunks
    ensures ToldAlone(q, script, mem, trace, start) && |trace| == |script| && seen == Shown(trace)
    ensures old(q.made) <= q.made && old(q.freed) <= q.freed
    decreases |script| - s
  {
    if s == |script| {
      return before, done;
    }
    var next;
    ghost var e;
    next, e := NextAlone(q, script, mem, done, start, s);
    ShownOn(done, e);
    seen, trace := FinishAlone(q, script, mem, s + 1, before + [next], done + [e], start);
  }

  /** Any run on a queue without a pool: it is a byte FIFO, and each of its chunks is in exactly one place. */
  method RunAlone(q: Queue, script: seq<Op>, mem: bool) returns (seen: seq<Seen>, ghost trace: seq<Event>)
    requires q.Valid() && q.pool == null
    modifies q, q.chunks
    ensures q.Valid() && |trace| == |script| && seen == Shown(trace)
    ensures Explains(trace, Calls(script), mem, [q.soft], [old(q.Contents())])
    ensures Leads(old(q.Contents()), trace, 0, q.Contents())
    ensures OwnsAll(q) && old(q.made) <= q.made && old(q.freed) <= q.freed
  {
    ghost var start := q.Contents();
    assert start + [] == [] + start;
    seen, trace := FinishAlone(q, script, mem, 0, [], [], start);
    OwnPlace(q);
  }
}
