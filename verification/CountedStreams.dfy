/** Block hashes that count their blocks, Groestl and JH: the context and its update. */
module CountedStreams {
  import opened Bytes
  import opened Division
  import opened Streams

  /** Chaining value and number of blocks so far, a 64-bit number. */
  datatype State<H> = State(h: H, count: nat)

  type Compress<!H> = (H, seq<Byte>) -> H

  function Counting<H>(f: Compress<H>): Step<State<H>> {
    (s: State<H>, b: seq<Byte>) => State(f(s.h, b), (s.count + 1) % COUNT_LIMIT)
  }

  /** The state after some blocks: the plain chaining value and the count of the blocks. */
  lemma {:induction false} CountedBlocks<H>(f: Compress<H>, size: nat, iv: H, bs: seq<Byte>, k: nat)
    requires k * size <= |bs|
    ensures Blocks(Counting(f), size, State(iv, 0), bs, k) == State(Blocks(f, size, iv, bs, k), k % COUNT_LIMIT)
  {
    if k > 0 {
      assert (k - 1) * size <= k * size;
      CountedBlocks(f, size, iv, bs, k - 1);
      NextCount(k - 1);
    }
  }

  lemma NextCount(k: nat)
    ensures (k % COUNT_LIMIT + 1) % COUNT_LIMIT == (k + 1) % COUNT_LIMIT
  {
    Carry(COUNT_LIMIT, k);
  }

  class Context<H> {
    const size: nat
    const f: Compress<H>
    const iv: H
    const sc: Stream<State<H>>
    /** Everything fed so far. */
    ghost var msg: seq<Byte>

    ghost predicate Valid()
      reads this, sc, sc.buf
    {
      && size > 0 && sc.Valid() && sc.size == size && sc.step == Counting(f)
      && Streamed(Counting(f), size, State(iv, 0), msg, sc.View(), |msg| / size)
    }

    /** `groestl_small_init`, `groestl_big_init` and `jh_init`. */
    constructor (size: nat, f: Compress<H>, iv: H)
      requires size > 0
      ensures Valid() && fresh(sc) && fresh(sc.buf) && msg == []
      ensures this.size == size && this.f == f && this.iv == iv
    {
      this.size, this.f, this.iv, msg := size, f, iv, [];
      sc := new Stream(Counting(f), size, State(iv, 0));
      new;
      Divided(size, 0, 0, 0);
    }

    /** `groestl_small_core`, `groestl_big_core` and `jh_core`. */
    method Update(data: seq<Byte>)
      requires Valid()
      modifies this, sc, sc.buf
      ensures Valid() && msg == old(msg) + data
    {
      hide Counting, Blocks, Fed;
      ghost var k := FedIsBlocks(Counting(f), size, State(iv, 0), msg, sc.View(), |msg| / size, data);
      sc.Core(data);
      msg := msg + data;
      Divided(size, |msg|, k, |sc.View().buf|);
    }

    /** The number of blocks counted, the bytes waiting, and the message they make up. */
    lemma Counted()
      requires Valid()
      ensures sc.state.count == |msg| / size % COUNT_LIMIT
      ensures sc.ptr == |msg| % size && |msg| == |msg| / size * size + sc.ptr
    {
      hide Blocks;
      CountedBlocks(f, size, iv, msg, |msg| / size);
      Divided(size, |msg|, |msg| / size, sc.ptr);
    }

    /** The padding goes through the update; it completes the last block. */
    method FeedPadding(pad: seq<Byte>, ghost blocks: nat)
      requires Valid() && |msg| + |pad| == blocks * size
      modifies sc, sc.buf
      ensures sc.Valid() && sc.state.h == Blocks(f, size, iv, msg + pad, blocks)
    {
      hide Counting, Blocks, Fed;
      ghost var k := FedIsBlocks(Counting(f), size, State(iv, 0), msg, sc.View(), |msg| / size, pad);
      sc.Core(pad);
      Divided(size, |msg + pad|, k, |sc.View().buf|);
      Divided(size, |msg + pad|, blocks, 0);
      CountedBlocks(f, size, iv, msg + pad, blocks);
    }

    /** The closing functions end with the initialisation. */
    method Restart()
      requires size > 0 && sc.Valid() && sc.size == size && sc.step == Counting(f)
      modifies this, sc`state, sc`ptr
      ensures Valid() && msg == []
    {
      sc.state, sc.ptr := State(iv, 0), 0;
      msg := [];
      Divided(size, 0, 0, 0);
    }
  }
}
