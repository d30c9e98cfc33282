/** Sending a chain of buffers through a FIFO that takes whole 32-bit words. */
module Gather {

  type byte = bv8

  /** A word of the FIFO, as its bytes in memory order. */
  type Word = w: seq<byte> | |w| == 4 witness [0, 0, 0, 0]

  function Flat(words: seq<Word>): (r: seq<byte>)
    ensures |r| == 4 * |words|
  {
    if words == [] then [] else Flat(words[..|words| - 1]) + words[|words| - 1]
  }

  function Concat(chain: seq<seq<byte>>): seq<byte> {
    if chain == [] then [] else Concat(chain[..|chain| - 1]) + chain[|chain| - 1]
  }

  function Zeros(n: nat): (r: seq<byte>)
    ensures |r| == n && forall i :: 0 <= i < n ==> r[i] == 0
  {
    seq(n, i => 0)
  }

  lemma {:induction false} FlatMore(words: seq<Word>, w: Word)
    ensures Flat(words + [w]) == Flat(words) + w
  {
    assert (words + [w])[..|words|] == words;
  }

  lemma {:induction false} ConcatMore(chain: seq<seq<byte>>, j: nat)
    requires j < |chain|
    ensures Concat(chain[..j + 1]) == Concat(chain[..j]) + chain[j]
  {
    assert chain[..j + 1][..j] == chain[..j];
  }

  /** The length of the frame, without the 16 bytes in front of it, as two bytes. */
  function Stamped(chain: seq<seq<byte>>): (r: seq<seq<byte>>)
    requires chain != [] && |chain[0]| >= 2
    ensures |r| == |chain|
  {
    var n := (|Concat(chain)| - 16) % 65536;
    chain[0 := [(n % 256) as byte, (n / 256) as byte] + chain[0][2..]]
  }

  class Transmitter {
    var fifo: seq<Word>
    const gather: array<byte>
    var iGather: nat

    constructor ()
      ensures fifo == [] && fresh(gather) && gather.Length == 4
    {
      fifo, iGather := [], 0;
      gather := new byte[4](_ => 0);
    }

    /** All bytes so far are in the FIFO or in the gather register, and the
        rest of the register is zero. */
    ghost predicate Sent(bytes: seq<byte>)
      reads this, gather
    {
      gather.Length == 4 && iGather < 4 && Flat(fifo) + gather[..iGather] == bytes && gather[iGather..] == Zeros(4 - iGather)
    }

    /** ulGather = 0 */
    method ClearGather()
      requires gather.Length == 4
      modifies gather
      ensures gather[..] == Zeros(4)
    {
      gather[0], gather[1], gather[2], gather[3] := 0, 0, 0, 0;
    }

    method PutWord(w: Word)
      modifies this`fifo
      ensures fifo == old(fifo) + [w] && Flat(fifo) == Flat(old(fifo)) + w
    {
      FlatMore(fifo, w);
      fifo := fifo + [w];
    }

    /** The register is full when `iGather` has come round. */
    ghost predicate Full(bytes: seq<byte>)
      reads this, gather
    {
      gather.Length == 4 && iGather == 0 && Flat(fifo) + gather[..] == bytes
    }

    /** One byte into the register. */
    method GatherByte(b: byte, ghost bytes: seq<byte>)
      requires Sent(bytes)
      modifies gather, this`iGather
      ensures iGather == (old(iGather) + 1) % 4
      ensures if iGather == 0 then Full(bytes + [b]) else Sent(bytes + [b])
    {
      ghost var was := gather[..iGather];
      gather[iGather] := b;
      assert gather[..iGather + 1] == was + [b];
      assert Flat(fifo) + (was + [b]) == (Flat(fifo) + was) + [b];
      assert gather[iGather + 1..] == Zeros(3 - iGather);
      if iGather == 3 { assert gather[..4] == gather[..]; }
      iGather := (iGather + 1) % 4;
    }

    /** The bytes that fill up a register with something left over in it. */
    method FillUp(q: seq<byte>, ghost done: seq<byte>) returns (iBuf: nat)
      requires Sent(done)
      modifies this, gather
      ensures iBuf <= |q| && Sent(done + q[..iBuf]) && (iBuf < |q| ==> iGather == 0)
    {
      iBuf := 0;
      assert done + q[..0] == done;
      while iBuf < |q| && iGather != 0
        invariant iBuf <= |q|
        invariant if iGather == 0 && iBuf != 0 then Full(done + q[..iBuf]) else Sent(done + q[..iBuf])
      {
        assert done + q[..iBuf] + [q[iBuf]] == done + q[..iBuf + 1];
        GatherByte(q[iBuf], done + q[..iBuf]);
        iBuf := iBuf + 1;
      }
      if iGather == 0 && iBuf != 0 {
        PutWord(gather[..]);
        ClearGather();
        assert Flat(fifo) + gather[..0] == Flat(fifo) && gather[0..] == Zeros(4);
      }
    }

    /** Whole words from `from` on, past the register. */
    method SendWords(q: seq<byte>, from: nat, ghost done: seq<byte>) returns (iBuf: nat)
      requires from <= |q| && Sent(done + q[..from]) && (from < |q| ==> iGather == 0)
      modifies this`fifo
      ensures from <= iBuf <= |q| && Sent(done + q[..iBuf]) && |q| - iBuf < 4 && (iBuf < |q| ==> iGather == 0)
    {
      iBuf := from;
      while iBuf + 4 <= |q|
        invariant iBuf <= |q| && Sent(done + q[..iBuf]) && (iBuf < |q| ==> iGather == 0)
      {
        PutWord(q[iBuf..iBuf + 4]);
        assert gather[..0] == [] && Flat(fifo) + [] == Flat(fifo);
        assert done + q[..iBuf] + q[iBuf..iBuf + 4] == done + q[..iBuf + 4];
        iBuf := iBuf + 4;
      }
    }

    /** One buffer of the chain. */
    method SendBuffer(q: seq<byte>, ghost done: seq<byte>)
      requires Sent(done)
      modifies this, gather
      ensures Sent(done + q)
    {
      var iBuf := FillUp(q, done);
      iBuf := SendWords(q, iBuf, done);
      while iBuf < |q|
        invariant iBuf <= |q| && Sent(done + q[..iBuf]) && (iBuf < |q| ==> iGather + |q| - iBuf < 4)
      {
        assert done + q[..iBuf] + [q[iBuf]] == done + q[..iBuf + 1];
        GatherByte(q[iBuf], done + q[..iBuf]);
        iBuf := iBuf + 1;
      }
      assert q[..iBuf] == q;
    }

    /** The register once more, with nothing or something left over in it. */
    method SendRest(ghost bytes: seq<byte>)
      requires Sent(bytes)
      modifies this`fifo
      ensures Flat(fifo) == bytes + Zeros(4 - |bytes| % 4) && |fifo| == |bytes| / 4 + 1
    {
      ghost var head, left, rest := Flat(fifo), gather[..iGather], gather[iGather..];
      assert |bytes| == 4 * |fifo| + iGather;
      assert gather[..] == left + rest && head + (left + rest) == (head + left) + rest;
      PutWord(gather[..]);
    }

    /** stellarisif_transmit: the FIFO gets the bytes of the chain, after the
        length has been put into the first two, and zeros up to the end of one
        more word. */
    method Transmit(chain: seq<seq<byte>>)
      requires chain != [] && |chain[0]| >= 2 && gather.Length == 4 && fifo == []
      modifies this, gather
      ensures var bytes := Concat(Stamped(chain));
        Flat(fifo) == bytes + Zeros(4 - |bytes| % 4) && |fifo| == |bytes| / 4 + 1
    {
      var stamped := Stamped(chain);
      iGather := 0;
      ClearGather();
      assert Flat(fifo) + gather[..0] == [] && gather[0..] == Zeros(4);
      SendAll(stamped);
      SendRest(Concat(stamped));
    }

    /** The loop over the chain. */
    method SendAll(chain: seq<seq<byte>>)
      requires Sent([])
      modifies this, gather
      ensures Sent(Concat(chain))
    {
      var k := 0;
      while k < |chain|
        invariant 0 <= k <= |chain| && Sent(Concat(chain[..k]))
      {
        ConcatMore(chain, k);
        SendBuffer(chain[k], Concat(chain[..k]));
        k := k + 1;
      }
      assert chain[..k] == chain;
    }
  }

  /** The stamp changes two bytes and no length. */
  lemma {:induction false} StampedLength(chain: seq<seq<byte>>)
    requires chain != [] && |chain[0]| >= 2
    ensures |Concat(Stamped(chain))| == |Concat(chain)| >= 2
    ensures Concat(Stamped(chain))[2..] == Concat(chain)[2..]
  {
    var s := Stamped(chain);
    StampedPrefix(chain, |chain|);
    assert s[..|chain|] == s && chain[..|chain|] == chain;
  }

  lemma {:induction false} StampedPrefix(chain: seq<seq<byte>>, n: nat)
    requires chain != [] && |chain[0]| >= 2 && 1 <= n <= |chain|
    ensures var x, y := Concat(Stamped(chain)[..n]), Concat(chain[..n]); |x| == |y| >= 2 && x[2..] == y[2..]
  {
    var s := Stamped(chain);
    ConcatMore(s, n - 1);
    ConcatMore(chain, n - 1);
    if n == 1 {
      assert Concat(s[..1]) == s[0] && Concat(chain[..1]) == chain[0];
    } else {
      StampedPrefix(chain, n - 1);
      var x, y := Concat(s[..n - 1]), Concat(chain[..n - 1]);
      assert (x + s[n - 1])[2..] == x[2..] + s[n - 1] && (y + chain[n - 1])[2..] == y[2..] + chain[n - 1];
    }
  }
}
