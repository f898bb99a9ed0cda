/** Whole messages, hashed piece by piece: the digest depends on the joined pieces only. */
module HashRuns {
  import opened Bytes
  import opened Streams
  import Blake
  import Bmw
  import CountedStreams
  import CubeHash
  import Echo
  import Fugue
  import FugueRounds
  import Groestl
  import JH

  /** BLAKE-224, 256, 384 and 512. */
  method BlakeOf(w: Blake.Width, f: Blake.Compress, iv: Blake.Chain,
      chunks: seq<seq<Byte>>, ub: Byte, n: nat, words: nat)
    returns (dst: seq<Byte>)
    requires n < 8 && words <= 8
    ensures dst == Blake.Digest(w, f, iv, Joined(chunks), ub, n, words)
  {
    hide Blake.Digest;
    var sc := new Blake.Context(w, f, iv);
    for i := 0 to |chunks|
      invariant sc.Valid() && sc.msg == Joined(chunks[..i]) && fresh(sc) && fresh(sc.sc) && fresh(sc.sc.buf)
      invariant sc.w == w && sc.f == f && sc.iv == iv
    {
      assert chunks[..i + 1][..i] == chunks[..i];
      sc.Update(chunks[i]);
    }
    assert chunks[..|chunks|] == chunks;
    dst := sc.Close(ub, n, words);
  }

  /** CubeHash-224, 256, 384 and 512. */
  method CubeHashOf(unroll: nat, iv: CubeHash.State,
      chunks: seq<seq<Byte>>, ub: Byte, n: nat, words: nat)
    returns (dst: seq<Byte>)
    requires n < 8 && words <= 32
    ensures dst == CubeHash.Digest(iv, Joined(chunks), ub, n, words)
  {
    hide CubeHash.Digest;
    var sc := new CubeHash.Context(unroll, iv);
    for i := 0 to |chunks|
      invariant sc.Valid() && sc.msg == Joined(chunks[..i]) && fresh(sc) && fresh(sc.sc) && fresh(sc.sc.buf)
      invariant sc.iv == iv
    {
      assert chunks[..i + 1][..i] == chunks[..i];
      sc.Update(chunks[i]);
    }
    assert chunks[..|chunks|] == chunks;
    dst := sc.Close(ub, n, words);
  }

  /** ECHO-224, 256, 384 and 512. */
  method EchoOf<V>(w: Echo.Width, f: Echo.Compress<V>, out: V -> seq<Byte>, iv: V,
      chunks: seq<seq<Byte>>, ub: Byte, n: nat, words: nat)
    returns (dst: seq<Byte>)
    requires n < 8
    ensures dst == Echo.Digest(w, f, out, iv, Joined(chunks), ub, n, words)
  {
    hide Echo.Digest;
    var sc := new Echo.Context(w, f, iv);
    for i := 0 to |chunks|
      invariant sc.Valid() && sc.msg == Joined(chunks[..i]) && fresh(sc) && fresh(sc.sc) && fresh(sc.sc.buf)
      invariant sc.w == w && sc.f == f && sc.iv == iv
    {
      assert chunks[..i + 1][..i] == chunks[..i];
      sc.Update(chunks[i]);
    }
    assert chunks[..|chunks|] == chunks;
    dst := sc.Close(out, ub, n, words);
  }

  /** BMW-224, 256, 384 and 512. */
  method BmwOf(w: Bmw.Width, f: Bmw.Compress, fin: Bmw.Words, iv: Bmw.Words,
      chunks: seq<seq<Byte>>, ub: Byte, n: nat, words: nat)
    returns (dst: seq<Byte>)
    requires n < 8 && words <= 16
    ensures dst == Bmw.Digest(w, f, fin, iv, Joined(chunks), ub, n, words)
  {
    hide Bmw.Digest;
    var sc := new Bmw.Context(w, f, iv);
    for i := 0 to |chunks|
      invariant sc.Valid() && sc.msg == Joined(chunks[..i]) && fresh(sc) && fresh(sc.buf) && fresh(sc.H)
      invariant sc.w == w && sc.f == f && sc.iv == iv
    {
      assert chunks[..i + 1][..i] == chunks[..i];
      sc.Update(chunks[i]);
    }
    assert chunks[..|chunks|] == chunks;
    dst := sc.Close(fin, ub, n, words);
  }

  /** Groestl-224, 256, 384 and 512. */
  method GroestlOf<H>(w: Groestl.Width, f: CountedStreams.Compress<H>, fin: Groestl.Final<H>, iv: H,
      chunks: seq<seq<Byte>>, ub: Byte, n: nat, len: nat)
    returns (dst: seq<Byte>)
    requires n < 8
    ensures dst == Groestl.Digest(w, f, fin, iv, Joined(chunks), ub, n, len)
  {
    hide Groestl.Digest;
    var sc := new CountedStreams.Context(w.Size(), f, iv);
    for i := 0 to |chunks|
      invariant sc.Valid() && sc.msg == Joined(chunks[..i]) && fresh(sc) && fresh(sc.sc) && fresh(sc.sc.buf)
      invariant sc.size == w.Size() && sc.f == f && sc.iv == iv
    {
      assert chunks[..i + 1][..i] == chunks[..i];
      sc.Update(chunks[i]);
    }
    assert chunks[..|chunks|] == chunks;
    dst := Groestl.Close(w, sc, fin, ub, n, len);
  }

  /** JH-224, 256, 384 and 512. */
  method JHOf<H>(f: CountedStreams.Compress<H>, out: H -> JH.Half, iv: H,
      chunks: seq<seq<Byte>>, ub: Byte, n: nat, words: nat)
    returns (dst: seq<Byte>)
    requires n < 8 && words <= 16
    ensures dst == JH.WrittenDigest(f, out, iv, Joined(chunks), ub, n, words)
    ensures JH.Bits(|Joined(chunks)|, n) < JH.LENGTH_LIMIT ==>
      dst == JH.Digest(f, out, iv, Joined(chunks), ub, n, words)
  {
    hide JH.Digest, JH.WrittenDigest;
    var sc := new CountedStreams.Context(JH.SIZE, f, iv);
    for i := 0 to |chunks|
      invariant sc.Valid() && sc.msg == Joined(chunks[..i]) && fresh(sc) && fresh(sc.sc) && fresh(sc.sc.buf)
      invariant sc.size == JH.SIZE && sc.f == f && sc.iv == iv
    {
      assert chunks[..i + 1][..i] == chunks[..i];
      sc.Update(chunks[i]);
    }
    assert chunks[..|chunks|] == chunks;
    dst := JH.Close(sc, out, ub, n, words);
  }

  /** Fugue-224, 256, 384 and 512; `junk` is what the closing buffer holds at first. */
  method FugueOf(v: FugueRounds.Variant, mix: FugueRounds.Mixer, iv: seq<FugueRounds.Word>,
      chunks: seq<seq<Byte>>, ub: Byte, n: nat, words: nat, junk: seq<Byte>)
    returns (dst: seq<FugueRounds.Word>)
    requires |iv| <= FugueRounds.Size(v) && n < 8 && |junk| == 16
    ensures dst == Fugue.Digest(v, mix, iv, Joined(chunks), ub, n, words)
  {
    hide Fugue.Digest;
    var sc := new Fugue.Context(v, mix, iv);
    for i := 0 to |chunks|
      invariant sc.Valid() && sc.msg == Joined(chunks[..i]) && fresh(sc) && fresh(sc.S)
      invariant sc.v == v && sc.mix == mix && sc.iv == iv
    {
      assert chunks[..i + 1][..i] == chunks[..i];
      sc.Core(chunks[i]);
    }
    assert chunks[..|chunks|] == chunks;
    dst := sc.Close(ub, n, words, junk);
  }
}
