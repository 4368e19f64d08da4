/** The byte queue and the chunk pool several queues may share (lib/bufq.c, lib/bufq.h). */
module Bufq {
  import opened BufqChunk

  /**
   * Spare chunks shared by several queues. `spareCount` is the length of the list and never
   * exceeds `spareMax`.
   */
  class Pool {
    const chunkSize: nat
    const spareMax: nat
    var spare: seq<Chunk>
    var spareCount: nat
    ghost var chunks: set<Chunk>   // what the pool owns
    ghost var made: set<Chunk>     // every chunk ever allocated through the pool
    ghost var freed: set<Chunk>    // those of them that were freed

    ghost predicate Valid()
      reads this, spare
    {
      && 0 < chunkSize && 0 < spareMax
      && spareCount == |spare| <= spareMax
      && Linked([], spare, chunks) && Sized(spare, chunkSize)
      && (forall c :: c in chunks ==> Has(spare, c))
      && chunks !! freed && chunks <= made && freed <= made
    }

    constructor (chunkSize: nat, spareMax: nat)
      requires 0 < chunkSize && 0 < spareMax
      ensures Valid() && spare == [] && chunks == made == freed == {}
      ensures this.chunkSize == chunkSize && this.spareMax == spareMax
    {
      this.chunkSize, this.spareMax := chunkSize, spareMax;
      spare, spareCount, chunks, made, freed := [], 0, {}, {}, {};
    }

    /** A reset spare, or a new chunk; null only when memory is short. */
    method Take(mem: bool) returns (c: Chunk?)
      requires Valid()
      modifies this, spare
      ensures Valid()
      ensures c == null ==>
        !mem && spare == old(spare) && chunks == old(chunks) && made == old(made)
      ensures c != null ==>
        && c.Tidy() && c.r == c.w == 0 && c.dlen == chunkSize
        && (fresh(c) || c in old(chunks)) && c !in freed
        && chunks == old(chunks) - {c} && made == old(made) + {c}
      ensures freed == old(freed)
      ensures c != null && old(spare) != [] ==> c == old(spare)[0] && spare == old(spare)[1..]
      ensures c != null && old(spare) == [] ==> fresh(c) && spare == []
    {
      if spare != [] {
        c := spare[0];
        spare := spare[1..];
        spareCount := spareCount - 1;
        c.Reset();
      } else {
        var lucky: bool := *;
        if !mem && !lucky {
          return null;
        }
        c := new Chunk(chunkSize);
      }
      chunks, made := chunks - {c}, made + {c};
    }

    /** Keeps the chunk if there is room among the spares, frees it otherwise. */
    method Put(c: Chunk)
      requires Valid() && c in made && c !in chunks && c !in freed && |c.data| == c.dlen == chunkSize
      modifies this, c
      ensures Valid() && made == old(made)
      ensures |old(spare)| < spareMax ==>
        spare == [c] + old(spare) && chunks == old(chunks) + {c} && freed == old(freed)
      ensures |old(spare)| >= spareMax ==>
        spare == old(spare) && chunks == old(chunks) && freed == old(freed) + {c}
    {
      if spareCount >= spareMax {
        freed := freed + {c};
      } else {
        c.Reset();
        HasCons(c, spare);
        spare := [c] + spare;
        spareCount := spareCount + 1;
        chunks := chunks + {c};
      }
    }
  }

  /** A FIFO of bytes, kept in chunks: read from the first of `head`, written to `tail`. */
  class Queue {
    var head: seq<Chunk>
    var tail: Chunk?
    var spare: seq<Chunk>
    const pool: Pool?
    var chunkCount: nat
    const maxChunks: nat
    const chunkSize: nat
    const soft: bool       // BUFQ_OPT_SOFT_LIMIT
    const noSpares: bool   // BUFQ_OPT_NO_SPARES
    ghost var chunks: set<Chunk>   // what this queue owns
    ghost var made: set<Chunk>     // without a pool: every chunk ever allocated
    ghost var freed: set<Chunk>    // and those of them that were freed

    /** Every chunk ever allocated for the queue, or for any queue over its pool. */
    ghost function Made(): set<Chunk>
      reads this, pool
    {
      if pool == null then made else pool.made
    }

    ghost function Freed(): set<Chunk>
      reads this, pool
    {
      if pool == null then freed else pool.freed
    }

    ghost function AllChunks(): set<Chunk>
      reads this, pool
    {
      chunks + if pool == null then {} else pool.chunks
    }

    /** The chunks that other queues over the pool own. */
    ghost function Elsewhere(): set<Chunk>
      reads this, pool
    {
      Made() - AllChunks() - Freed()
    }

    /** The lists and the counter; `extra` chunks are in transit. */
    ghost predicate Local(extra: nat)
      reads this, head, spare
    {
      && 0 < chunkSize && 0 < maxChunks
      && tail == (if head == [] then null else head[|head| - 1])
      && Linked(head, spare, chunks) && Sized(head, chunkSize) && Sized(spare, chunkSize)
      && AllTidy(head)
      && chunkCount == |head| + |spare| + extra
      && (!soft ==> chunkCount <= maxChunks)
      && (extra == 0 ==> forall c :: c in chunks ==> Has(head, c) || Has(spare, c))
    }

    ghost predicate PoolOk()
      reads this, pool, if pool == null then [] else pool.spare
    {
      if pool == null then made == chunks + freed && chunks !! freed
      else
        && pool.Valid() && pool.chunkSize == chunkSize
        && chunks !! pool.chunks && chunks !! pool.freed && chunks <= pool.made
    }

    /** All of the invariant but the shape of the head list. */
    ghost predicate Base(extra: nat)
      reads this, head, spare, pool, if pool == null then [] else pool.spare
    {
      Local(extra) && PoolOk()
    }

    /** Every chunk but the tail is non-empty and written to its end. */
    ghost predicate Valid()
      reads this, head, spare, pool, if pool == null then [] else pool.spare
    {
      && Base(0)
      && forall i :: 0 <= i < |head| - 1 ==> head[i].Packed()
    }

    /** The same, but the first chunk may have just been emptied. */
    ghost predicate Drained()
      reads this, head, spare, pool, if pool == null then [] else pool.spare
    {
      && Base(0)
      && forall i :: 0 <= i < |head| - 1 ==> head[i].Packed() || (i == 0 && head[0].IsEmpty())
    }

    /** The bytes in the queue, first to be read first. */
    ghost function Contents(): seq<Byte>
      requires AllTidy(head)
      reads this, head
    {
      Bytes(head)
    }

    /** How many bytes a hard-limited queue can still take. */
    ghost function Room(): int
      reads this, tail
    {
      (if tail == null then 0 else tail.dlen - tail.w) + Times(chunkSize, maxChunks - |head|)
    }

    /** The room as a product: what the tail has left, and the chunks that may still be added. */
    lemma {:induction false} RoomIs()
      requires Valid() && !soft
      ensures Room() == (if tail == null then 0 else tail.dlen - tail.w) + chunkSize * (maxChunks - |head|)
    {
      TimesIsProduct(chunkSize, maxChunks - |head|);
    }

    /**
     * Chunks come from this queue, its pool, or are new. None is lost: every chunk ever made is
     * still accounted for, freed ones stay freed, and those of other queues are left alone.
     */
    twostate predicate Framed()
      reads this, pool
    {
      && old(Made()) <= Made() && old(Freed()) <= Freed() && Elsewhere() == old(Elsewhere())
      && fresh(AllChunks() - old(AllChunks())) && fresh(Made() - old(Made()))
    }

    /** The queue is left alone by a call on another one over the same pool. */
    twostate lemma {:induction false} Stays(other: Queue)
      requires pool == other.pool != null
      requires old(Valid()) && old(other.Valid()) && old(chunks !! other.chunks)
      requires unchanged(this) && forall c :: c in chunks ==> unchanged(c)
      requires other.Valid() && other.Framed()
      ensures Valid() && Contents() == old(Contents()) && chunks !! other.chunks
    {
      assert forall c :: c in chunks ==> c !in other.AllChunks();
      assert forall c :: c in chunks ==> c in old(other.Elsewhere());
    }

    constructor (chunkSize: nat, maxChunks: nat, soft: bool, noSpares: bool, pool: Pool?)
      requires 0 < chunkSize && 0 < maxChunks
      requires pool != null ==> pool.Valid() && pool.chunkSize == chunkSize
      ensures Valid() && Contents() == [] && chunks == made == freed == {}
      ensures this.chunkSize == chunkSize && this.maxChunks == maxChunks && this.pool == pool
      ensures this.soft == soft && this.noSpares == noSpares
    {
      head, tail, spare, chunkCount := [], null, [], 0;
      this.chunkSize, this.maxChunks, this.pool := chunkSize, maxChunks, pool;
      this.soft, this.noSpares := soft, noSpares;
      chunks, made, freed := {}, {}, {};
    }

    /** `c` is counted and owned by the queue, but in none of its lists. */
    ghost predicate InHand(c: Chunk)
      reads this, head, spare, pool, if pool == null then [] else pool.spare, c
    {
      && Base(1) && c !in head && c !in spare && c in chunks
      && |c.data| == c.dlen == chunkSize
      && (forall d :: d in chunks ==> Has(head, d) || Has(spare, d) || d == c)
    }

    /** Unlinks the first chunk. */
    method PopHead() returns (c: Chunk)
      requires Base(0) && head != []
      modifies this`head, this`tail
      ensures InHand(c) && c == old(head)[0] && head == old(head)[1..]
      ensures old(Contents()) == c.View() + Contents()
    {
      c := head[0];
      head := head[1..];
      if tail == c {
        tail := null;   // it was the last one
      }
    }

    /** Puts `c` among the spares. */
    method Keep(c: Chunk)
      requires InHand(c)
      modifies this`spare
      ensures Base(0) && spare == [c] + old(spare)
    {
      HasCons(c, spare);
      spare := [c] + spare;
    }

    /** Empties the queue; its chunks become spares, also when there is a pool. */
    method Reset()
      requires Valid()
      modifies this`head, this`tail, this`spare
      ensures Valid() && Contents() == [] && head == [] && |spare| == chunkCount
    {
      while head != []
        invariant Base(0)
        decreases |head|
      {
        var c := PopHead();
        Keep(c);
      }
      tail := null;
    }

    /** The number of bytes in the queue. */
    method Len() returns (len: nat)
      requires Valid()
      ensures len == |Contents()|
    {
      var i := 0;
      len := 0;
      while i < |head|
        invariant i <= |head|
        invariant AllTidy(head[i..])
        invariant len + |Bytes(head[i..])| == |Bytes(head)|
      {
        len := len + (head[i].w - head[i].r);
        assert head[i..][1..] == head[i + 1..];
        i := i + 1;
      }
      assert head[i..] == [];
    }

    lemma {:induction false} HeadFirst()
      requires Valid()
      ensures head != [] ==>
        head[0].View() <= Contents() && (head[0].IsEmpty() <==> Contents() == [])
    {
      if |head| == 1 {
        assert Bytes(head) == head[0].View();
      } else if head != [] {
        assert head[0].Packed();
      }
    }

    /** Looking at the first chunk alone is enough. */
    method IsEmpty() returns (b: bool)
      requires Valid()
      ensures b <==> Contents() == []
    {
      HeadFirst();
      b := head == [] || head[0].IsEmpty();
    }

    /** Under a hard limit, full means that not one more byte fits. */
    method IsFull() returns (b: bool)
      requires Valid()
      ensures !soft ==> (b <==> Room() == 0)
      ensures soft ==> (b <==>
        tail != null && spare == [] &&
        (chunkCount > maxChunks || (chunkCount == maxChunks && tail.IsFull())))
    {
      if tail == null || spare != [] {
        return false;
      }
      if chunkCount < maxChunks {
        return false;
      }
      if chunkCount > maxChunks {
        return true;
      }
      b := tail.IsFull();
      assert maxChunks - |head| == 0;
    }

    method TakeSpare() returns (c: Chunk)
      requires Base(0) && spare != []
      modifies this`spare, spare
      ensures InHand(c) && c.Tidy() && c.w == 0 && Contents() == old(Contents())
    {
      c := spare[0];
      spare := spare[1..];
      c.Reset();
    }

    method Adopt(c: Chunk)
      requires Base(0) && (chunkCount < maxChunks || soft)
      requires c !in AllChunks() && c !in Freed() && (pool != null ==> c in pool.made)
      requires c.Tidy() && c.w == 0 && c.dlen == chunkSize
      modifies this`chunkCount, this`chunks, this`made
      ensures InHand(c) && Contents() == old(Contents())
      ensures chunks == old(chunks) + {c} && chunkCount == old(chunkCount) + 1
      ensures pool == null ==> made == old(made) + {c}
    {
      chunkCount := chunkCount + 1;
      chunks := chunks + {c};
      if pool == null {
        made := made + {c};
      }
    }

    /** A chunk to write to: a spare, one from the pool or a new one, within the limit. */
    method GetSpare(mem: bool) returns (c: Chunk?)
      requires Valid()
      modifies this`spare, this`chunkCount, this`chunks, this`made, spare, pool
      modifies if pool == null then [] else pool.spare
      ensures Framed() && AllTidy(head) && Contents() == old(Contents())
      ensures forall i :: 0 <= i < |head| ==> unchanged(head[i])
      ensures c == null ==> Valid() && spare == [] && (mem ==> !soft && chunkCount == maxChunks)
      ensures c != null ==> InHand(c) && c.Tidy() && c.w == 0
    {
      if spare != [] {
        c := TakeSpare();
        return;
      }
      if chunkCount >= maxChunks && !soft {
        c := null;
      } else if pool != null {
        c := DrawPooled(mem);
      } else {
        c := DrawNew(mem);
      }
    }

    /** A new chunk, for a queue without a pool; null only when memory is short. */
    method DrawNew(mem: bool) returns (c: Chunk?)
      requires Valid() && pool == null && (chunkCount < maxChunks || soft)
      modifies this`chunkCount, this`chunks, this`made
      ensures Framed() && (c == null ==> Valid() && !mem)
      ensures c != null ==> InHand(c) && c.Tidy() && c.w == 0
    {
      var lucky: bool := *;
      if !mem && !lucky {
        return null;
      }
      c := new Chunk(chunkSize);
      Adopt(c);
    }

    /** A chunk from the pool, which may make a new one; null only when memory is short. */
    method DrawPooled(mem: bool) returns (c: Chunk?)
      requires Valid() && pool != null && (chunkCount < maxChunks || soft)
      modifies this`chunkCount, this`chunks, this`made, pool, pool.spare
      ensures Framed() && AllTidy(head) && Contents() == old(Contents())
      ensures forall i :: 0 <= i < |head| ==> unchanged(head[i])
      ensures c == null ==> Valid() && !mem
      ensures c != null ==> InHand(c) && c.Tidy() && c.w == 0
    {
      ghost var made0, pooled0 := pool.made, pool.chunks;
      c := TakePooled(mem);
      if c != null {
        Drawn(made0, chunks, pooled0, pool.freed, c);
        Adopt(c);
      }
    }

    /** Takes a chunk from the pool; it is then in none of its lists, nor in the queue's. */
    method TakePooled(mem: bool) returns (c: Chunk?)
      requires Valid() && pool != null
      modifies pool, pool.spare
      ensures Valid() && Contents() == old(Contents()) && pool.freed == old(pool.freed)
      ensures forall i :: 0 <= i < |head| ==> unchanged(head[i])
      ensures c == null ==> !mem && pool.chunks == old(pool.chunks) && pool.made == old(pool.made)
      ensures c != null ==>
        && c.Tidy() && c.w == 0 && c.dlen == chunkSize
        && c !in AllChunks() && c !in Freed() && (fresh(c) || c in old(pool.chunks))
        && pool.chunks == old(pool.chunks) - {c} && pool.made == old(pool.made) + {c}
    {
      c := pool.Take(mem);
    }

    method LinkTail(t: Chunk)
      requires InHand(t) && t.Tidy() && t.w == 0
      requires forall i :: 0 <= i < |head| ==> head[i].Packed()
      modifies this`head, this`tail
      ensures Valid() && head == old(head) + [t] && Contents() == old(Contents())
    {
      BytesSnoc(head, t);
      HasSnoc(head, t);
      head, tail := head + [t], t;
    }

    /** A chunk to link behind a full tail: every chunk before it is then packed. */
    method GetSpareBehind(mem: bool) returns (c: Chunk?)
      requires Valid() && (tail == null || tail.IsFull())
      modifies this`spare, this`chunkCount, this`chunks, this`made, spare, pool
      modifies if pool == null then [] else pool.spare
      ensures Framed() && AllTidy(head) && Contents() == old(Contents())
      ensures forall i :: 0 <= i < |head| ==> head[i].Packed()
      ensures c == null ==> Valid() && spare == [] && (mem ==> !soft && chunkCount == maxChunks)
      ensures c != null ==> InHand(c) && c.Tidy() && c.w == 0
    {
      assert forall i :: 0 <= i < |head| ==> head[i].Packed();
      c := GetSpare(mem);
    }

    /** Links a new tail behind a full one, if the limit and memory allow it. */
    method NewTail(mem: bool) returns (t: Chunk?)
      requires Valid() && (tail == null || tail.IsFull())
      modifies this`head, this`tail, this`spare, this`chunkCount, this`chunks, this`made, spare, pool
      modifies if pool == null then [] else pool.spare
      ensures Valid() && Framed() && Contents() == old(Contents())
      ensures t != null ==> t == tail && t.w == 0 && |head| == old(|head|) + 1
      ensures t == null ==> head == old(head) && (mem ==> !soft && |head| == maxChunks)
    {
      t := GetSpareBehind(mem);
      if t == null {
        return;
      }
      LinkTail(t);
    }

    /** The tail if it has room, a new tail otherwise. The bytes in the queue stay as they are. */
    method GetTail(mem: bool) returns (t: Chunk?)
      requires Valid()
      modifies this, spare, pool, if pool == null then [] else pool.spare
      ensures Valid() && Framed() && Contents() == old(Contents())
      ensures t != null ==> t == tail && !t.IsFull()
      ensures t == null ==> mem ==> !soft && |head| == maxChunks && tail != null && tail.IsFull()
      ensures !soft ==> Room() == old(Room())
    {
      if tail != null && !tail.IsFull() {
        return tail;
      }
      t := NewTail(mem);
    }

    /** What a change of the tail chunk alone does to the queue. */
    lemma {:induction false} TailChanged(before: seq<Byte>)
      requires Base(0) && head != [] && Bytes(head[..|head| - 1]) == before
      ensures Contents() == before + tail.View()
    {
      assert head == head[..|head| - 1] + [tail];
      BytesSnoc(head[..|head| - 1], tail);
    }

    method AppendTail(buf: seq<Byte>) returns (n: nat)
      requires Valid() && tail != null && !tail.IsFull()
      modifies tail`data, tail`w
      ensures Valid() && n <= |buf| && (buf != [] ==> n > 0)
      ensures Contents() == old(Contents()) + buf[..n]
      ensures Room() == old(Room()) - n
      ensures n < |buf| ==> tail.IsFull()
    {
      ghost var before, view := Bytes(head[..|head| - 1]), tail.View();
      TailChanged(before);
      n := tail.Append(buf);
      TailChanged(before);
      Regroup(before, view, buf[..n]);
    }

    /** One round of `Write`: false when no tail could be had. */
    method WriteSome(buf: seq<Byte>, mem: bool) returns (ok: bool, n: nat)
      requires Valid()
      modifies this, pool, AllChunks()
      ensures Valid() && Framed()
      ensures n <= |buf| && Contents() == old(Contents()) + buf[..n]
      ensures !soft ==> Room() == old(Room()) - n
      ensures ok && buf != [] ==> n > 0
      ensures !ok ==> n == 0 && (mem ==> !soft && Room() == 0 && chunkCount == maxChunks)
    {
      var t := GetTail(mem);
      if t == null {
        return false, 0;
      }
      n := AppendTail(buf);
      ok := true;
    }

    /** One round of `Write`, after `n` bytes of `buf`. */
    method WriteFrom(buf: seq<Byte>, n: nat, mem: bool, ghost was: seq<Byte>) returns (ok: bool, k: nat)
      requires Valid() && n <= |buf| && Contents() == was + buf[..n]
      modifies this, pool, AllChunks()
      ensures Valid() && Framed()
      ensures n + k <= |buf| && Contents() == was + buf[..n + k]
      ensures !soft ==> Room() == old(Room()) - k
      ensures ok && n < |buf| ==> k > 0
      ensures !ok ==> k == 0 && (mem ==> !soft && Room() == 0 && chunkCount == maxChunks)
    {
      ok, k := WriteSome(buf[n..], mem);
      JoinPrefix(was, buf, n, k);
    }

    /** Writes chunk by chunk, until all is written or there is no chunk to write to. */
    method WriteAll(buf: seq<Byte>, mem: bool) returns (ok: bool, n: nat)
      requires Valid()
      modifies this, pool, AllChunks()
      ensures Valid() && Framed()
      ensures n <= |buf| && Contents() == old(Contents()) + buf[..n] && (ok ==> n == |buf|)
      ensures !soft ==> Room() == old(Room()) - n
      ensures !ok && mem ==> !soft && Room() == 0 && chunkCount == maxChunks
    {
      ok, n := true, 0;
      while n < |buf| && ok
        invariant Valid() && Framed() && n <= |buf|
        invariant Contents() == old(Contents()) + buf[..n]
        invariant !soft ==> Room() == old(Room()) - n
        invariant !ok && mem ==> !soft && Room() == 0 && chunkCount == maxChunks
        decreases |buf| - n, ok
      {
        var k;
        ok, k := WriteFrom(buf, n, mem, old(Contents()));
        n := n + k;
      }
    }

    /**
     * Appends a prefix of `buf`. Under a hard limit it is as long as the room allows, under a
     * soft limit it is all of `buf`, unless memory runs out.
     */
    method Write(buf: seq<Byte>, mem: bool) returns (res: Code, n: nat)
      requires Valid()
      modifies this, pool, AllChunks()
      ensures Valid() && Framed()
      ensures n <= |buf| && Contents() == old(Contents()) + buf[..n]
      ensures mem && !soft ==> n == Min(|buf|, old(Room()))
      ensures mem && soft ==> n == |buf|
      ensures res != OutOfMemory ==> res == if n == 0 && buf != [] then Again else Ok
      ensures mem ==> res != OutOfMemory
    {
      var ok;
      ok, n := WriteAll(buf, mem);
      if !ok && (chunkCount < maxChunks || soft) {
        res := OutOfMemory;
      } else {
        res := if n == 0 && n < |buf| then Again else Ok;
      }
    }

    /** Gives `c` up: to the pool, or to be freed. */
    method Release(c: Chunk)
      requires InHand(c)
      modifies this`chunks, this`chunkCount, this`freed, pool, c
      ensures Base(0) && chunks == old(chunks) - {c} && Made() == old(Made())
      ensures pool != null ==>
        if |old(pool.spare)| < pool.spareMax then
          pool.spare == [c] + old(pool.spare) && pool.chunks == old(pool.chunks) + {c} && Freed() == old(Freed())
        else
          pool.spare == old(pool.spare) && pool.chunks == old(pool.chunks) && Freed() == old(Freed()) + {c}
      ensures pool == null ==> Freed() == old(Freed()) + {c}
      ensures chunkCount == old(chunkCount) - 1
    {
      chunks := chunks - {c};
      if pool != null {
        pool.Put(c);
      } else {
        freed := freed + {c};
      }
      chunkCount := chunkCount - 1;
    }

    /** Where a chunk that is taken off the head list goes, and that nothing else moves. */
    twostate predicate Goes(c: Chunk)
      reads this, pool
    {
      if pool != null then
        && spare == old(spare) && chunkCount == old(chunkCount) - 1
        && (if |old(pool.spare)| < pool.spareMax
            then pool.spare == [c] + old(pool.spare) && Freed() == old(Freed())
            else pool.spare == old(pool.spare) && Freed() == old(Freed()) + {c})
      else if old(chunkCount) > maxChunks || noSpares then
        spare == old(spare) && chunkCount == old(chunkCount) - 1 && Freed() == old(Freed()) + {c}
      else
        spare == [c] + old(spare) && chunkCount == old(chunkCount) && Freed() == old(Freed())
    }

    /** Unlinks the first chunk, which is empty: it goes to the pool, is freed or becomes a spare. */
    method DropHead()
      requires Drained() && head != [] && head[0].IsEmpty()
      modifies this, head[..1], pool
      ensures Valid() && head == old(head)[1..] && Contents() == old(Contents())
      ensures Framed()
      ensures Goes(old(head)[0])
    {
      var c := PopEmpty();
      PutAway(c);
    }

    /** Unlinks the first chunk, which is empty. */
    method PopEmpty() returns (c: Chunk)
      requires Drained() && head != [] && head[0].IsEmpty()
      modifies this`head, this`tail
      ensures InHand(c) && Behind() && c == old(head)[0] && head == old(head)[1..] && Contents() == old(Contents())
    {
      c := PopHead();
    }

    /** Every chunk but the last is packed. */
    ghost predicate Behind()
      reads this, head
    {
      forall i :: 0 <= i < |head| - 1 ==> head[i].Packed()
    }

    /** Gives a chunk up, or keeps it as a spare. */
    method PutAway(c: Chunk)
      requires InHand(c) && Behind()
      modifies this`spare, this`chunks, this`chunkCount, this`freed, pool, c
      ensures Valid() && Framed() && Goes(c) && Contents() == old(Contents())
    {
      if pool != null || chunkCount > maxChunks || noSpares {
        Release(c);
      } else {
        Keep(c);
      }
    }

    /** Drops empty chunks at the head; the bytes in the queue stay as they are. */
    method PruneHead()
      requires Drained()
      modifies this, pool, AllChunks()
      ensures Valid() && Contents() == old(Contents())
      ensures Framed()
      ensures head != [] ==> !head[0].IsEmpty()
      ensures |head| <= old(|head|)
      ensures old(head != [] && head[0].IsEmpty()) ==> |head| < old(|head|)
      ensures pool != null || noSpares ==> spare == old(spare)
      ensures pool == null && !noSpares && old(chunkCount) <= maxChunks ==>
        chunkCount == old(chunkCount) && Freed() == old(Freed())
    {
      while head != [] && head[0].IsEmpty()
        invariant Drained() && Contents() == old(Contents())
        invariant Framed()
        invariant |head| < old(|head|) || (head == old(head) &&
          (head != [] ==> head[0].IsEmpty() == old(head[0].IsEmpty())))
        invariant pool != null || noSpares ==> spare == old(spare)
        invariant pool == null && !noSpares && old(chunkCount) <= maxChunks ==>
          chunkCount == old(chunkCount) && Freed() == old(Freed())
        decreases |head|
      {
        DropHead();
      }
    }

    method TakeHead(len: nat) returns (out: seq<Byte>)
      requires Valid() && head != [] && 0 < len
      modifies head[..1]
      ensures Drained() && old(Contents()) == out + Contents() && |out| <= len
      ensures out == [] ==> head[0].IsEmpty()
    {
      ghost var rest := Bytes(head[1..]);
      assert Contents() == head[0].View() + rest;
      out := head[0].Read(len);
      assert Contents() == head[0].View() + rest;
      Regroup(out, head[0].View(), rest);
    }

    /** One round of `Read`: takes from the first chunk, then drops it if that emptied it. */
    method ReadSome(len: nat) returns (out: seq<Byte>)
      requires Valid() && head != [] && 0 < len
      modifies this, pool, AllChunks()
      ensures Valid() && Framed()
      ensures old(Contents()) == out + Contents() && |out| <= len
      ensures out == [] ==> |head| < old(|head|)
    {
      out := TakeHead(len);
      PruneHead();
    }

    /** Removes and returns the first `len` bytes, or all there are. */
    method Read(len: nat) returns (res: Code, out: seq<Byte>)
      requires Valid()
      modifies this, pool, AllChunks()
      ensures Valid() && Framed()
      ensures old(Contents()) == out + Contents() && |out| == Min(len, |old(Contents())|)
      ensures res == if out == [] then Again else Ok
    {
      out := [];
      while |out| < len && head != []
        invariant Valid() && Framed()
        invariant old(Contents()) == out + Contents() && |out| <= len
        decreases len - |out|, |head|
      {
        ghost var left := Contents();
        var more := ReadSome(len - |out|);
        Shift(old(Contents()), out, left, more, Contents());
        out := out + more;
      }
      res := if out == [] then Again else Ok;
    }

    method SkipHead(amount: nat) returns (n: nat)
      requires Valid() && head != [] && 0 < amount
      modifies head[..1]
      ensures n <= amount && n <= |old(Contents())|
      ensures Drained() && Contents() == old(Contents())[n..]
      ensures n == 0 ==> head[0].IsEmpty()
    {
      ghost var rest := Bytes(head[1..]);
      ghost var view := head[0].View();
      assert Contents() == view + rest;
      n := head[0].Skip(amount);
      assert Contents() == head[0].View() + rest;
      DropFront(view, rest, n);
    }

    method SkipSome(amount: nat) returns (n: nat)
      requires Valid() && head != [] && 0 < amount
      modifies this, pool, AllChunks()
      ensures Valid() && Framed()
      ensures n <= amount && n <= |old(Contents())| && Contents() == old(Contents())[n..]
      ensures n == 0 ==> |head| < old(|head|)
    {
      n := SkipHead(amount);
      PruneHead();
    }

    /** Drops the first `amount` bytes, or all there are. */
    method Skip(amount: nat)
      requires Valid()
      modifies this, pool, AllChunks()
      ensures Valid() && Framed()
      ensures Contents() == old(Contents())[Min(amount, |old(Contents())|)..]
    {
      var done := 0;
      while done < amount && head != []
        invariant Valid() && Framed()
        invariant done <= amount && done <= |old(Contents())|
        invariant Contents() == old(Contents())[done..]
        decreases amount - done, |head|
      {
        var n := SkipSome(amount - done);
        DropDrop(old(Contents()), done, n);
        done := done + n;
      }
      assert head == [] ==> |Contents()| == 0;
      assert done == Min(amount, |old(Contents())|);
    }

    /** Shows the unread part of the first chunk. */
    method Peek() returns (ok: bool, view: seq<Byte>)
      requires Valid()
      modifies this, pool, AllChunks()
      ensures Valid() && Framed() && Contents() == old(Contents())
      ensures ok <==> Contents() != []
      ensures ok ==> view != [] && view <= Contents()
      ensures !ok ==> view == []
    {
      if head != [] && head[0].IsEmpty() {
        PruneHead();
      }
      HeadFirst();
      if head != [] && !head[0].IsEmpty() {
        return true, head[0].data[head[0].r..head[0].w];
      }
      return false, [];
    }

    /** Shows what one chunk holds from `offset` on, although it gives up at an empty chunk. */
    method PeekAt(offset: nat) returns (ok: bool, view: seq<Byte>)
      requires Valid()
      ensures ok <==> offset < |Contents()|
      ensures ok ==> view != [] && view <= Contents()[offset..]
      ensures !ok ==> view == []
    {
      var i, off: nat := 0, offset;
      while i < |head|
        invariant i <= |head| && AllTidy(head[i..])
        invariant off <= offset && offset - off <= |Contents()|
        invariant Bytes(head[i..]) == Contents()[offset - off..]
      {
        var c := head[i];
        assert head[i..][1..] == head[i + 1..];
        Advance(Contents(), offset - off, c.View(), Bytes(head[i + 1..]), off);
        var clen := c.w - c.r;
        if clen == 0 {
          assert head[i + 1..] == [];
          break;
        }
        if off < clen {
          assert c.data[c.r + off..c.w] == c.View()[off..];
          return true, c.data[c.r + off..c.w];
        }
        off := off - clen;
        i := i + 1;
      }
      return false, [];
    }

    /** Drops what the writer took of the first chunk. */
    method SkipTaken(view: seq<Byte>, k: nat)
      requires Valid() && view <= Contents() && k <= |view|
      modifies this, pool, AllChunks()
      ensures Valid() && Framed() && old(Contents()) == view[..k] + Contents()
    {
      SplitPrefix(Contents(), view, k);
      Skip(k);
    }

    /** One round of `Pass`: offers the first chunk to the writer. */
    method PassSome() returns (more: bool, res: Code, taken: seq<Byte>)
      requires Valid()
      modifies this, pool, AllChunks()
      ensures Valid() && Framed() && old(Contents()) == taken + Contents()
      ensures more <==> old(Contents()) != []
      ensures !more ==> res == Ok
      ensures res != Ok ==> taken == []
    {
      var view;
      more, view := Peek();
      res, taken := Ok, [];
      if more {
        var k;
        res, k := CallWriter(view);
        if res == Ok {
          SkipTaken(view, k);
          taken := view[..k];
        }
      }
    }

    /**
     * Hands the content to a writer, chunk by chunk, until it is all taken or the writer blocks,
     * takes nothing or fails: `said` and `last` are what it said, and how much it took, when it was
     * last called. What was sent and what is left make up the old content.
     */
    method Pass() returns (res: Code, n: nat, sent: seq<Byte>, ghost said: Code, ghost last: nat)
      requires Valid()
      modifies this, pool, AllChunks()
      ensures Valid() && Framed()
      ensures n == |sent| && old(Contents()) == sent + Contents()
      ensures res == Again ==> n == 0
      ensures res == Ok ==> n > 0 || old(Contents()) == []
      ensures Contents() != [] ==> said != Ok || last == 0
    {
      var all;
      all, res, sent, last := PassAll();
      said, n := res, |sent|;
      if n > 0 && res == Again {
        res := Ok;
      } else if n == 0 && res == Ok && !all {
        res := Again;
      }
    }

    /** Rounds of `Pass` until nothing is left or the writer stops; then `res` is what it said. */
    method PassAll() returns (all: bool, res: Code, sent: seq<Byte>, ghost last: nat)
      requires Valid()
      modifies this, pool, AllChunks()
      ensures Valid() && Framed() && old(Contents()) == sent + Contents()
      ensures if all then res == Ok && Contents() == [] else res != Ok || last == 0
    {
      sent, res, all, last := [], Ok, false, 0;
      var more := true;
      while more
        invariant Valid() && Framed() && old(Contents()) == sent + Contents()
        invariant all ==> !more && res == Ok && Contents() == []
        invariant !more && !all ==> res != Ok || last == 0
        decreases |Contents()|, more
      {
        var k;
        all, res, k, sent := PassRound(sent, old(Contents()));
        last := k;
        more := !all && res == Ok && k > 0;
      }
    }

    /** One round of `Pass`, with what it adds to `sent`. */
    method PassRound(sent: seq<Byte>, ghost was: seq<Byte>) returns (all: bool, res: Code, k: nat, sent': seq<Byte>)
      requires Valid() && was == sent + Contents()
      modifies this, pool, AllChunks()
      ensures Valid() && Framed() && was == sent' + Contents() && |Contents()| == old(|Contents()|) - k
      ensures all ==> res == Ok && Contents() == []
    {
      ghost var left := Contents();
      var more, taken;
      more, res, taken := PassSome();
      Shift(was, sent, left, taken, Contents());
      all, k, sent' := !more, |taken|, sent + taken;
    }

    /** Passes content on to the writer if there is no room. */
    method PassIfFull() returns (passed: Code, sent: seq<Byte>)
      requires Valid()
      modifies this, pool, AllChunks()
      ensures Valid() && Framed() && old(Contents()) == sent + Contents()
    {
      var full := IsFull();
      passed, sent := Ok, [];
      if full {
        var n;
        ghost var said, last;
        passed, n, sent, said, last := Pass();
      }
    }

    /** One round of `WritePass`: makes room if the queue is full, then writes. */
    method WritePassSome(buf: seq<Byte>, mem: bool)
      returns (passed: Code, res: Code, n: nat, sent: seq<Byte>)
      requires Valid()
      modifies this, pool, AllChunks()
      ensures Valid() && Framed()
      ensures n <= |buf| && sent + Contents() == old(Contents()) + buf[..n]
      ensures passed != Ok ==> n == 0
      ensures passed == Ok && res == Ok && buf != [] ==> n > 0
      ensures res == Ok || (res == Again && n == 0) || (res == OutOfMemory && !mem)
    {
      passed, sent := PassIfFull();
      res, n := Ok, 0;
      if passed == Ok {
        ghost var left := Contents();
        res, n := Write(buf, mem);
        Regroup(sent, left, buf[..n]);
      }
    }

    /** One round of `WritePass` after `n` bytes of `buf`, with what it adds to `sent`. */
    method WritePassRound(buf: seq<Byte>, n: nat, mem: bool, sent: seq<Byte>, ghost was: seq<Byte>)
      returns (passed: Code, res: Code, k: nat, sent': seq<Byte>)
      requires Valid() && n <= |buf| && sent + Contents() == was + buf[..n]
      modifies this, pool, AllChunks()
      ensures Valid() && Framed() && n + k <= |buf| && sent' + Contents() == was + buf[..n + k]
      ensures passed != Ok ==> k == 0
      ensures passed == Ok && res == Ok && n < |buf| ==> k > 0
      ensures res == Ok || (res == Again && k == 0) || (res == OutOfMemory && !mem)
    {
      ghost var left := Contents();
      var more;
      passed, res, k, more := WritePassSome(buf[n..], mem);
      JoinBoth(sent, left, more, Contents(), was, buf, n, k);
      sent' := sent + more;
    }

    /** Rounds of `WritePass` until all is written, or the writer or the queue stops. */
    method WritePassAll(buf: seq<Byte>, mem: bool)
      returns (passed: Code, res: Code, n: nat, sent: seq<Byte>, ghost accepted: nat)
      requires Valid()
      modifies this, pool, AllChunks()
      ensures Valid() && Framed() && n <= accepted <= |buf|
      ensures sent + Contents() == old(Contents()) + buf[..accepted]
      ensures n < accepted ==> res == OutOfMemory && !mem && passed == Ok
      ensures n == |buf| || passed != Ok || res != Ok
    {
      n, sent, accepted, res, passed := 0, [], 0, Ok, Ok;
      while n < |buf| && passed == Ok && res == Ok
        invariant Valid() && Framed() && n <= accepted <= |buf|
        invariant sent + Contents() == old(Contents()) + buf[..accepted]
        invariant n < accepted ==> res == OutOfMemory && !mem && passed == Ok
        decreases |buf| - n, passed == Ok && res == Ok
      {
        var k;
        passed, res, k, sent := WritePassRound(buf, n, mem, sent, old(Contents()));
        accepted := n + k;
        if passed == Ok && res == Ok {
          n := n + k;
        }
      }
    }

    /**
     * Writes `buf`, passing content on to the writer whenever the queue is full. Nothing is lost
     * or reordered, and `n` says how much of `buf` went in, unless memory ran out on the way.
     */
    method WritePass(buf: seq<Byte>, mem: bool)
      returns (res: Code, n: nat, sent: seq<Byte>, ghost accepted: nat)
      requires Valid()
      modifies this, pool, AllChunks()
      ensures Valid() && Framed()
      ensures n <= accepted <= |buf| && sent + Contents() == old(Contents()) + buf[..accepted]
      ensures res != OutOfMemory || mem ==> n == accepted
      ensures res == Again ==> n == 0
    {
      var passed;
      passed, res, n, sent, accepted := WritePassAll(buf, mem);
      if passed != Ok && passed != Again {
        res := passed;   // the writer failed
      } else if res != OutOfMemory {
        res := if n == 0 && n < |buf| then Again else Ok;
      }
    }

    /** Reads once from the reader into the tail. */
    method Sip(maxLen: nat, src: seq<Byte>, mem: bool) returns (res: Code, n: nat)
      requires Valid()
      modifies this, pool, AllChunks()
      ensures Valid() && Framed()
      ensures n <= |src| && Contents() == old(Contents()) + src[..n]
      ensures (res != Ok ==> n == 0) && (0 < maxLen ==> n <= maxLen)
    {
      var t := GetTail(mem);
      if t == null {
        return if chunkCount < maxChunks then OutOfMemory else Again, 0;
      }
      res, n := SlurpTail(maxLen, src);
    }

    method SlurpTail(maxLen: nat, src: seq<Byte>) returns (res: Code, n: nat)
      requires Valid() && tail != null && !tail.IsFull()
      modifies tail`data, tail`w
      ensures Valid()
      ensures n <= |src| && Contents() == old(Contents()) + src[..n]
      ensures (res != Ok ==> n == 0) && (0 < maxLen ==> n <= maxLen)
    {
      ghost var before, view := Bytes(head[..|head| - 1]), tail.View();
      TailChanged(before);
      res, n := tail.Slurp(maxLen, src);
      TailChanged(before);
      Regroup(before, view, src[..n]);
    }

    /**
     * Reads until the reader blocks, stops short or fails, or the limit is reached: `said` and `last`
     * are what came of the last read, and how much that gave.
     */
    method Slurp(maxLen: nat, src: seq<Byte>, mem: bool) returns (res: Code, n: nat, ghost said: Code, ghost last: nat)
      requires Valid()
      modifies this, pool, AllChunks()
      ensures Valid() && Framed()
      ensures n <= |src| && Contents() == old(Contents()) + src[..n]
      ensures (0 < maxLen ==> n <= maxLen) && (res == Again ==> n == 0)
      ensures said != Ok || last == 0 || n == maxLen || (tail != null && !tail.IsFull())
    {
      res, n, last := SlurpAll(maxLen, src, mem);
      said := res;
      if res == Again && n > 0 {
        res := Ok;
      }
    }

    /** One read of `Slurp`, after `n` bytes of `src`. */
    method SipFrom(maxLen: nat, src: seq<Byte>, n: nat, mem: bool, ghost was: seq<Byte>) returns (res: Code, k: nat)
      requires Valid() && n <= |src| && Contents() == was + src[..n]
      modifies this, pool, AllChunks()
      ensures Valid() && Framed()
      ensures n + k <= |src| && Contents() == was + src[..n + k]
      ensures (res != Ok ==> k == 0) && (0 < maxLen ==> k <= maxLen)
    {
      res, k := Sip(maxLen, src[n..], mem);
      JoinPrefix(was, src, n, k);
    }

    /** The reads of `Slurp`, with the result of the last one. */
    method SlurpAll(maxLen: nat, src: seq<Byte>, mem: bool) returns (res: Code, n: nat, ghost last: nat)
      requires Valid()
      modifies this, pool, AllChunks()
      ensures Valid() && Framed()
      ensures n <= |src| && Contents() == old(Contents()) + src[..n]
      ensures 0 < maxLen ==> n <= maxLen
      ensures res != Ok || last == 0 || n == maxLen || (tail != null && !tail.IsFull())
    {
      res, n, last := Ok, 0, 0;
      var more := true;
      while more
        invariant Valid() && Framed() && n <= |src|
        invariant Contents() == old(Contents()) + src[..n]
        invariant 0 < maxLen ==> n <= maxLen && (more ==> n < maxLen)
        invariant !more ==> res != Ok || last == 0 || n == maxLen || (tail != null && !tail.IsFull())
        decreases |src| - n, more
      {
        var k;
        res, k := SipFrom(if 0 < maxLen then maxLen - n else 0, src, n, mem, old(Contents()));
        n, last := n + k, k;
        more := k > 0 && n != maxLen && (tail == null || tail.IsFull());
      }
    }
  }

  /** Any writer: it takes any prefix, blocks or fails. */
  method CallWriter(buf: seq<Byte>) returns (res: Code, n: nat)
    ensures n <= |buf|
  {
    res, n := *, *;
    n := Min(n, |buf|);
  }
}
