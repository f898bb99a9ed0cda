/** The buffered update that the block hashes of this repository share, and why splitting a message into
    updates does not matter. */
module Streams {
  import opened Bytes

  /** The state after the blocks taken in so far, and the bytes not yet taken in. */
  datatype Ctx<S> = Ctx(state: S, buf: seq<Byte>)

  type Step<!S> = (S, seq<Byte>) -> S

  /** Take in every block that `data` completes. */
  function Fed<S>(step: Step<S>, size: nat, c: Ctx<S>, data: seq<Byte>): (r: Ctx<S>)
    requires |c.buf| < size
    ensures |r.buf| < size
    decreases |data|
  {
    var room := size - |c.buf|;
    if |data| < room then Ctx(c.state, c.buf + data)
    else Fed(step, size, Ctx(step(c.state, c.buf + data[..room]), []), data[room..])
  }

  lemma SliceAcross(a: seq<Byte>, b: seq<Byte>, i: nat, j: nat)
    requires i <= |a| <= j <= |a| + |b|
    ensures (a + b)[i..j] == a[i..] + b[..j - |a|]
  {
  }

  lemma SliceOfSecond(a: seq<Byte>, b: seq<Byte>, i: nat, j: nat)
    requires |a| <= i <= j <= |a| + |b|
    ensures (a + b)[i..j] == b[i - |a|..j - |a|]
  {
  }

  lemma InFront(a: seq<Byte>, b: seq<Byte>, i: nat, j: nat)
    requires i <= j <= |a|
    ensures (a + b)[i..j] == a[i..j]
  {
  }

  lemma Behind(a: seq<Byte>, b: seq<Byte>)
    ensures (a + b)[|a|..|a| + |b|] == b
  {
  }

  lemma CutInFirst(a: seq<Byte>, b: seq<Byte>, k: nat)
    requires k <= |a|
    ensures (a + b)[..k] == a[..k] && (a + b)[k..] == a[k..] + b
  {
  }

  lemma CutInSecond(a: seq<Byte>, b: seq<Byte>, k: nat)
    requires |a| <= k <= |a| + |b|
    ensures (a + b)[..k] == a + b[..k - |a|] && (a + b)[k..] == b[k - |a|..]
  {
  }

  /** Two updates in a row are one update with the concatenated data. */
  lemma {:induction false} FedTwice<S>(step: Step<S>, size: nat, c: Ctx<S>, a: seq<Byte>, b: seq<Byte>)
    requires |c.buf| < size
    ensures Fed(step, size, Fed(step, size, c, a), b) == Fed(step, size, c, a + b)
    decreases |a|
  {
    var room := size - |c.buf|;
    if |a| >= room {
      FedTwice(step, size, Ctx(step(c.state, c.buf + a[..room]), []), a[room..], b);
      CutInFirst(a, b, room);
    } else if |a| + |b| < room {
      assert c.buf + a + b == c.buf + (a + b);
    } else {
      var d := Ctx(c.state, c.buf + a);
      var room' := size - |d.buf|;
      CutInSecond(a, b, room);
      assert c.buf + (a + b[..room']) == c.buf + a + b[..room'];
    }
  }

  /** A run of updates, empty ones included. */
  function FedAll<S>(step: Step<S>, size: nat, c: Ctx<S>, chunks: seq<seq<Byte>>): (r: Ctx<S>)
    requires |c.buf| < size
    ensures |r.buf| < size
  {
    if chunks == [] then c else Fed(step, size, FedAll(step, size, c, chunks[..|chunks| - 1]), chunks[|chunks| - 1])
  }

  function Joined(chunks: seq<seq<Byte>>): seq<Byte> {
    if chunks == [] then [] else Joined(chunks[..|chunks| - 1]) + chunks[|chunks| - 1]
  }

  /** However a message is split, the updates lead to the same state. */
  lemma {:induction false} SplittingIrrelevant<S>(step: Step<S>, size: nat, c: Ctx<S>, chunks: seq<seq<Byte>>)
    requires |c.buf| < size
    ensures FedAll(step, size, c, chunks) == Fed(step, size, c, Joined(chunks))
  {
    if chunks == [] {
      assert c.buf + [] == c.buf;
    } else {
      SplittingIrrelevant(step, size, c, chunks[..|chunks| - 1]);
      FedTwice(step, size, c, Joined(chunks[..|chunks| - 1]), chunks[|chunks| - 1]);
    }
  }

  /** Block `i` of a byte string. */
  function Block(bs: seq<Byte>, size: nat, i: nat): (r: seq<Byte>)
    requires (i + 1) * size <= |bs|
    ensures |r| == size
  {
    assert (i + 1) * size == i * size + size;
    bs[i * size..(i + 1) * size]
  }

  /** The plain definition: block after block. */
  function Blocks<S>(step: Step<S>, size: nat, s: S, bs: seq<Byte>, k: nat): S
    requires k * size <= |bs|
  {
    if k == 0 then s
    else
      assert (k - 1) * size <= k * size;
      step(Blocks(step, size, s, bs, k - 1), Block(bs, size, k - 1))
  }

  /** The states between the blocks: each comes from the one before it and the next `size` bytes. */
  lemma {:induction false} BlocksRun<S>(step: Step<S>, size: nat, s: S, bs: seq<Byte>, k: nat) returns (run: seq<S>)
    requires k * size <= |bs|
    ensures |run| == k + 1 && run[0] == s && run[k] == Blocks(step, size, s, bs, k)
    ensures forall i :: 0 <= i < k ==>
      0 <= i * size <= i * size + size <= |bs| && run[i + 1] == step(run[i], bs[i * size..i * size + size])
  {
    if k == 0 {
      run := [s];
    } else {
      assert k * size == (k - 1) * size + size;
      var before := BlocksRun(step, size, s, bs, k - 1);
      run := before + [Blocks(step, size, s, bs, k)];
    }
  }

  lemma {:induction false} BlocksPrefix<S>(step: Step<S>, size: nat, s: S, bs: seq<Byte>, more: seq<Byte>, k: nat)
    requires k * size <= |bs|
    ensures k * size <= |bs + more|
    ensures Blocks(step, size, s, bs + more, k) == Blocks(step, size, s, bs, k)
  {
    if k > 0 {
      assert (k - 1) * size <= k * size == (k - 1) * size + size;
      BlocksPrefix(step, size, s, bs, more, k - 1);
      assert Block(bs + more, size, k - 1) == Block(bs, size, k - 1);
    }
  }

  /** `c` is what the updates have made of `msg`: `k` full blocks are in the state, the rest is in the buffer. */
  ghost predicate Streamed<S>(step: Step<S>, size: nat, s: S, msg: seq<Byte>, c: Ctx<S>, k: nat) {
    && |c.buf| < size && |msg| == k * size + |c.buf|
    && c.buf == msg[k * size..]
    && c.state == Blocks(step, size, s, msg, k)
  }

  /** Filling up one block. */
  lemma StreamedBlock<S>(step: Step<S>, size: nat, s: S, msg: seq<Byte>, c: Ctx<S>, k: nat, data: seq<Byte>)
    requires Streamed(step, size, s, msg, c, k) && |data| == size - |c.buf|
    ensures Streamed(step, size, s, msg + data, Ctx(step(c.state, c.buf + data), []), k + 1)
  {
    var full := msg + data;
    assert (k + 1) * size == k * size + size == |full|;
    BlocksPrefix(step, size, s, msg, data, k);
    SliceAcross(msg, data, k * size, (k + 1) * size);
    assert data[..(k + 1) * size - |msg|] == data;
    assert Block(full, size, k) == c.buf + data;
    assert full[(k + 1) * size..] == [];
  }

  lemma StreamedFits<S>(step: Step<S>, size: nat, s: S, msg: seq<Byte>, c: Ctx<S>, k: nat)
    requires Streamed(step, size, s, msg, c, k)
    ensures |c.buf| < size && k * size <= |msg|
  {
  }

  /** Data that does not fill a block. */
  lemma StreamedRest<S>(step: Step<S>, size: nat, s: S, msg: seq<Byte>, c: Ctx<S>, k: nat, data: seq<Byte>)
    requires Streamed(step, size, s, msg, c, k) && |c.buf| + |data| < size
    ensures Streamed(step, size, s, msg + data, Ctx(c.state, c.buf + data), k)
  {
    BlocksPrefix(step, size, s, msg, data, k);
    assert (msg + data)[k * size..] == msg[k * size..] + data;
  }

  /** The buffered update computes the plain definition, and buffers what is left. */
  lemma {:induction false} FedIsBlocks<S>(step: Step<S>, size: nat, s: S, msg: seq<Byte>, c: Ctx<S>, k: nat,
      data: seq<Byte>)
    returns (k': nat)
    requires Streamed(step, size, s, msg, c, k)
    ensures Streamed(step, size, s, msg + data, Fed(step, size, c, data), k')
    decreases |data|
  {
    hide Blocks, Streamed;
    StreamedFits(step, size, s, msg, c, k);
    var room := size - |c.buf|;
    if |data| < room {
      k' := k;
      StreamedRest(step, size, s, msg, c, k, data);
    } else {
      StreamedBlock(step, size, s, msg, c, k, data[..room]);
      k' := FedIsBlocks(step, size, s, msg + data[..room], Ctx(step(c.state, c.buf + data[..room]), []), k + 1,
          data[room..]);
      assert msg + data[..room] + data[room..] == msg + data;
    }
  }

  /** Data that exactly fills the buffer. */
  lemma FedExactly<S>(step: Step<S>, size: nat, c: Ctx<S>, data: seq<Byte>)
    requires |c.buf| + |data| == size && |c.buf| < size
    ensures Fed(step, size, c, data) == Ctx(step(c.state, c.buf + data), [])
  {
    assert data[..|data|] == data && data[|data|..] == [];
    assert [] + data[|data|..] == [];
  }

  /** The context of a block hash, with its fixed buffer. */
  class Stream<S> {
    const size: nat
    const step: Step<S>
    var state: S
    const buf: array<Byte>
    var ptr: nat

    ghost predicate Valid()
      reads this
    {
      buf.Length == size && ptr < size
    }

    ghost function View(): (c: Ctx<S>)
      reads this, buf
      requires Valid()
      ensures |c.buf| < size
    {
      Ctx(state, buf[..ptr])
    }

    constructor (step: Step<S>, size: nat, state: S)
      requires size > 0
      ensures Valid() && fresh(buf) && View() == Ctx(state, [])
      ensures this.step == step && this.size == size
    {
      this.step, this.size, this.state := step, size, state;
      buf := new Byte[size];
      ptr := 0;
    }

    /** `memcpy(buf + ptr, data + from, clen)`. */
    method CopyIn(data: seq<Byte>, from: nat, clen: nat)
      requires from + clen <= |data| && ptr + clen <= buf.Length
      modifies buf
      ensures buf[..ptr] == old(buf[..ptr])
      ensures buf[ptr..ptr + clen] == data[from..from + clen]
    {
      forall i | 0 <= i < clen { buf[ptr + i] := data[from + i]; }
    }

    /** One pass of the update loop. */
    method CorePiece(data: seq<Byte>, from: nat) returns (at: nat)
      requires Valid() && from < |data|
      modifies this, buf
      ensures Valid() && from < at <= |data|
      ensures Fed(step, size, View(), data[at..]) == Fed(step, size, old(View()), data[from..])
    {
      hide Fed;
      var clen := buf.Length - ptr;
      if clen > |data| - from {
        clen := |data| - from;
      }
      ghost var c := View();
      CopyIn(data, from, clen);
      assert buf[..ptr + clen] == c.buf + data[from..from + clen];
      FedPiece(step, size, c, data, from, clen);
      ptr := ptr + clen;
      at := from + clen;
      if ptr == buf.Length {
        assert buf[..] == buf[..ptr];
        state := step(state, buf[..]);
        ptr := 0;
      }
    }

    /** The update loop: `blake64`, `blake32`, `cubehash_core`, `jh_core`, `groestl_big_core`,
        `groestl_small_core`, `echo_big_core` and `echo_small_core` differ only in what they do with a full block. */
    method Core(data: seq<Byte>)
      requires Valid()
      modifies this, buf
      ensures Valid() && View() == Fed(step, size, old(View()), data)
    {
      var len := |data|;
      if len < buf.Length - ptr {
        CopyIn(data, 0, len);
        ptr := ptr + len;
        assert buf[..ptr] == old(buf[..ptr]) + data;
        return;
      }
      ghost var target := Fed(step, size, View(), data);
      var at := 0;
      assert data[0..] == data;
      while at < |data|
        invariant Valid() && at <= |data|
        invariant Fed(step, size, View(), data[at..]) == target
      {
        at := CorePiece(data, at);
      }
      assert data[at..] == [];
      FedNothing(step, size, View());
    }
  }

  lemma FedNothing<S>(step: Step<S>, size: nat, c: Ctx<S>)
    requires |c.buf| < size
    ensures Fed(step, size, c, []) == c
  {
    assert c.buf + [] == c.buf;
  }

  /** One pass of the update loop. */
  lemma FedPiece<S>(step: Step<S>, size: nat, c: Ctx<S>, data: seq<Byte>, at: nat, clen: nat)
    requires |c.buf| < size && at + clen <= |data| && |c.buf| + clen <= size
    requires clen == |data| - at || |c.buf| + clen == size
    ensures |c.buf| + clen < size ==>
      Fed(step, size, c, data[at..]) == Fed(step, size, Ctx(c.state, c.buf + data[at..at + clen]), data[at + clen..])
    ensures |c.buf| + clen == size ==>
      Fed(step, size, c, data[at..]) == Fed(step, size, Ctx(step(c.state, c.buf + data[at..at + clen]), []),
          data[at + clen..])
  {
    assert data[at..][..clen] == data[at..at + clen] && data[at..][clen..] == data[at + clen..];
    if |c.buf| + clen < size {
      assert data[at..at + clen] == data[at..] && data[at + clen..] == [];
      FedNothing(step, size, Ctx(c.state, c.buf + data[at..]));
    }
  }
}
