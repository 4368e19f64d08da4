/** Chunks: the fixed-size buffers a byte queue is made of (lib/bufq.c, lib/bufq.h). */
module BufqChunk {
  newtype Byte = x: int | 0 <= x < 256

  /** The result codes the byte queue distinguishes; Failed stands for any other error. */
  datatype Code = Ok | Again | OutOfMemory | Failed

  function Min(a: nat, b: nat): nat {
    if a < b then a else b
  }

  /** The product, by repeated addition, so that one chunk more or less is a linear step. */
  function Times(a: int, b: int): (r: int)
    ensures 0 <= a ==> 0 <= r
    decreases b
  {
    if b <= 0 then 0 else a + Times(a, b - 1)
  }

  lemma {:induction false} TimesIsProduct(a: nat, b: nat)
    ensures Times(a, b) == a * b
  {
    if b == 0 {
    } else {
      TimesIsProduct(a, b - 1);
    }
  }

  lemma {:induction false} JoinPrefix(a: seq<Byte>, s: seq<Byte>, n: nat, k: nat)
    requires n + k <= |s|
    ensures (a + s[..n]) + s[n..][..k] == a + s[..n + k]
  {
    assert s[..n + k] == s[..n] + s[n..][..k];
  }

  lemma {:induction false} DropDrop(s: seq<Byte>, n: nat, k: nat)
    requires n + k <= |s|
    ensures s[n..][k..] == s[n + k..]
  {
  }

  lemma {:induction false} Shift(s: seq<Byte>, out: seq<Byte>, left: seq<Byte>, more: seq<Byte>, rest: seq<Byte>)
    requires s == out + left && left == more + rest
    ensures s == (out + more) + rest
  {
  }

  lemma {:induction false} JoinBoth(sent: seq<Byte>, left: seq<Byte>, more: seq<Byte>, now: seq<Byte>,
                 was: seq<Byte>, buf: seq<Byte>, n: nat, k: nat)
    requires n + k <= |buf| && sent + left == was + buf[..n]
    requires more + now == left + buf[n..][..k]
    ensures (sent + more) + now == was + buf[..n + k]
  {
    JoinPrefix(was, buf, n, k);
    assert (sent + more) + now == sent + (left + buf[n..][..k]);
    assert sent + (left + buf[n..][..k]) == (sent + left) + buf[n..][..k];
  }

  lemma {:induction false} Regroup(a: seq<Byte>, b: seq<Byte>, c: seq<Byte>)
    ensures (a + b) + c == a + (b + c)
  {
  }

  lemma {:induction false} SplitPrefix(s: seq<Byte>, view: seq<Byte>, k: nat)
    requires view <= s && k <= |view|
    ensures k == Min(k, |s|) && s == view[..k] + s[k..]
  {
  }

  lemma {:induction false} DropFront(view: seq<Byte>, rest: seq<Byte>, n: nat)
    requires n <= |view|
    ensures view[n..] + rest == (view + rest)[n..]
  {
  }

  lemma {:induction false} Advance(s: seq<Byte>, n: nat, v: seq<Byte>, rest: seq<Byte>, off: nat)
    requires n <= |s| && s[n..] == v + rest
    ensures off < |v| ==> n + off < |s| && v[off..] <= s[n + off..]
    ensures n + |v| <= |s| && rest == s[n + |v|..]
  {
    assert rest == s[n..][|v|..];
  }

  /** A buffer with a read and a write offset; the buffer is part of the chunk and `dlen` long. */
  class Chunk {
    const dlen: nat
    var data: seq<Byte>
    var r: nat
    var w: nat

    ghost predicate Valid()
      reads this
    {
      r <= w <= dlen == |data|
    }

    /** The unread bytes. */
    ghost function View(): seq<Byte>
      requires Valid()
      reads this
    {
      data[r..w]
    }

    predicate IsEmpty()
      reads this
    {
      r >= w
    }

    predicate IsFull()
      reads this
    {
      w >= dlen
    }

    /** An emptied chunk has both offsets at 0. */
    ghost predicate Tidy()
      reads this
    {
      Valid() && (r == w ==> w == 0)
    }

    /** The shape every chunk before the tail has. */
    ghost predicate Packed()
      reads this
    {
      r < w == dlen == |data|
    }

    constructor (size: nat)
      ensures Tidy() && r == w == 0
      ensures dlen == size
    {
      dlen, data := size, seq(size, _ => 0);
      r, w := 0, 0;
    }

    method Reset()
      requires |data| == dlen
      modifies this`r, this`w
      ensures Tidy() && r == w == 0
    {
      r, w := 0, 0;
    }

    /** Copies as much of `buf` as there is room for. */
    method Append(buf: seq<Byte>) returns (n: nat)
      requires Tidy()
      modifies this`data, this`w
      ensures n == Min(|buf|, dlen - old(w))
      ensures Tidy() && w == old(w) + n && (n > 0 ==> r < w)
      ensures View() == old(View()) + buf[..n]
    {
      n := dlen - w;
      if n > 0 {
        n := Min(n, |buf|);
        data := data[..w] + buf[..n] + data[w + n..];
        w := w + n;
      }
    }

    /** Takes up to `len` bytes; a chunk that is read empty starts over at offset 0. */
    method Read(len: nat) returns (out: seq<Byte>)
      requires Tidy()
      modifies this`r, this`w
      ensures Tidy()
      ensures |out| == Min(|old(View())|, len)
      ensures old(View()) == out + View()
      ensures IsEmpty() || w == old(w)
    {
      var n := w - r;
      if n == 0 {
        out := [];
      } else if n <= len {
        out := data[r..w];
        r, w := 0, 0;
      } else {
        out := data[r..r + len];
        r := r + len;
      }
    }

    /** Drops up to `amount` bytes. */
    method Skip(amount: nat) returns (n: nat)
      requires Tidy()
      modifies this`r, this`w
      ensures Tidy()
      ensures n == Min(|old(View())|, amount)
      ensures View() == old(View())[n..]
      ensures IsEmpty() || w == old(w)
    {
      n := w - r;
      if n > 0 {
        n := Min(n, amount);
        r := r + n;
        if r == w {
          r, w := 0, 0;
        }
      }
    }

    /**
     * Lets a reader fill the free space, at most `maxLen` bytes when that is not 0. The reader
     * draws from `src` and may stop short, block or fail at will.
     */
    method Slurp(maxLen: nat, src: seq<Byte>) returns (res: Code, n: nat)
      requires Tidy()
      modifies this`data, this`w
      ensures n <= |src| && (res != Ok ==> n == 0) && (maxLen > 0 ==> n <= maxLen)
      ensures Tidy() && w == old(w) + n && (n > 0 ==> r < w)
      ensures View() == old(View()) + src[..n]
    {
      n := 0;
      var room := dlen - w;
      if room == 0 {
        return Again, 0;
      }
      if maxLen > 0 && room > maxLen {
        room := maxLen;
      }
      res := *;
      if res == Ok {
        n := *;
        n := Min(n, Min(room, |src|));
        data := data[..w] + src[..n] + data[w + n..];
        w := w + n;
      }
    }
  }

  /** No chunk is in a list twice, or in both, and all are in `chunks`. */
  ghost predicate Linked(head: seq<Chunk>, spare: seq<Chunk>, chunks: set<Chunk>) {
    && (forall i, j :: 0 <= i < j < |head| ==> head[i] != head[j])
    && (forall i, j :: 0 <= i < j < |spare| ==> spare[i] != spare[j])
    && (forall i, j :: 0 <= i < |head| && 0 <= j < |spare| ==> head[i] != spare[j])
    && (forall i :: 0 <= i < |head| ==> head[i] in chunks)
    && (forall i :: 0 <= i < |spare| ==> spare[i] in chunks)
  }

  /** Moving a chunk from the pool to a queue, or adding a new one, leaves the same chunks elsewhere. */
  lemma {:induction false} Drawn(made: set<Chunk>, own: set<Chunk>, pooled: set<Chunk>, freed: set<Chunk>, c: Chunk)
    requires c in pooled || c !in made
    ensures (made + {c}) - ((own + {c}) + (pooled - {c})) - freed == made - (own + pooled) - freed
  {
  }

  /** The chunk is in the list. */
  ghost predicate Has(cs: seq<Chunk>, c: Chunk) {
    cs != [] && (cs[0] == c || Has(cs[1..], c))
  }

  lemma {:induction false} HasIn(cs: seq<Chunk>, c: Chunk)
    ensures Has(cs, c) <==> c in cs
  {
    if cs == [] {
    } else {
      HasIn(cs[1..], c);
      assert cs == [cs[0]] + cs[1..];
    }
  }

  lemma {:induction false} HasSnoc(cs: seq<Chunk>, t: Chunk)
    ensures forall c :: Has(cs + [t], c) <==> Has(cs, c) || c == t
  {
    forall c ensures Has(cs + [t], c) <==> Has(cs, c) || c == t {
      HasIn(cs + [t], c);
      HasIn(cs, c);
    }
  }

  lemma {:induction false} HasCons(t: Chunk, cs: seq<Chunk>)
    ensures forall c :: Has([t] + cs, c) <==> c == t || Has(cs, c)
  {
    assert ([t] + cs)[1..] == cs;
  }

  /** All buffers have one size. */
  ghost predicate Sized(cs: seq<Chunk>, size: nat)
    reads cs
  {
    forall i :: 0 <= i < |cs| ==> |cs[i].data| == cs[i].dlen == size
  }

  ghost predicate AllTidy(cs: seq<Chunk>)
    reads cs
  {
    forall i :: 0 <= i < |cs| ==> cs[i].Tidy()
  }

  /** The bytes held by a list of chunks, head first. */
  ghost function Bytes(cs: seq<Chunk>): seq<Byte>
    requires AllTidy(cs)
    reads cs
  {
    if cs == [] then [] else cs[0].View() + Bytes(cs[1..])
  }

  lemma {:induction false} BytesSnoc(cs: seq<Chunk>, c: Chunk)
    requires AllTidy(cs) && c.Tidy()
    ensures Bytes(cs + [c]) == Bytes(cs) + c.View()
  {
    if cs == [] {
      assert cs + [c] == [c];
    } else {
      assert (cs + [c])[1..] == cs[1..] + [c];
      BytesSnoc(cs[1..], c);
    }
  }
}
