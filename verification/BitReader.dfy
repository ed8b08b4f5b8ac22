/** The bit buffer of linux/zBoot/inflate.c: NEEDBITS, DUMPBITS and the masks. */
module BitReader {
  import opened Bits
  import opened HuftBuild

  /** The bits of the bytes, in the order in which inflate takes them. */
  function ByteStream(data: seq<nat>): seq<bool> {
    if data == [] then [] else LsbBits(data[0], 8) + ByteStream(data[1..])
  }

  lemma {:induction false} StreamLength(data: seq<nat>)
    ensures |ByteStream(data)| == 8 * |data|
  {
    if data != [] { StreamLength(data[1..]); }
  }

  lemma Pow8()
    ensures Pow2(8) == 256
  {
    assert Pow2(1) == 2 && Pow2(2) == 4 && Pow2(3) == 8 && Pow2(4) == 16;
    assert Pow2(5) == 32 && Pow2(6) == 64 && Pow2(7) == 128;
  }

  /** Putting a byte above k bits of buffer. */
  lemma AddByte(b: nat, k: nat, x: nat)
    requires b < Pow2(k) && x < 256
    ensures b + Pow2(k) * x < Pow2(k + 8)
    ensures LsbBits(b + Pow2(k) * x, k + 8) == LsbBits(b, k) + LsbBits(x, 8)
  {
    hide Pow2, LsbBits, Lsb;
    var s := LsbBits(b, k) + LsbBits(x, 8);
    Pow8();
    LsbOfBits(b, k);
    LsbOfBits(x, 8);
    LsbConcat(LsbBits(b, k), LsbBits(x, 8));
    LsbBound(s);
    var y := b + Pow2(k) * x;
    LsbOfBits(y, k + 8);
    LsbInjective(LsbBits(y, k + 8), s);
  }

  lemma SplitBits(b: nat, k: nat, n: nat)
    requires b < Pow2(k) && n <= k
    ensures Low(b, n) == Lsb(LsbBits(b, k)[..n])
    ensures Shr(b, n) < Pow2(k - n) && LsbBits(Shr(b, n), k - n) == LsbBits(b, k)[n..]
  {
    var s := LsbBits(b, k);
    LsbOfBits(b, k);
    LsbSplit(s, n);
    LsbBound(s[n..]);
    LsbOfBits(Shr(b, n), k - n);
    LsbInjective(LsbBits(Shr(b, n), k - n), s[n..]);
  }

  lemma NoBytes(data: seq<nat>)
    ensures ByteStream(data[|data|..]) == []
  {
  }

  lemma FetchByte(data: seq<nat>, i: nat, before: seq<bool>)
    requires i < |data|
    ensures before + ByteStream(data[i..]) == (before + LsbBits(data[i], 8)) + ByteStream(data[i + 1..])
  {
    assert data[i..][0] == data[i] && data[i..][1..] == data[i + 1..];
  }

  lemma Beyond(k: nat, bytes: nat, n: nat)
    requires n == k + 8 * bytes
    ensures k % 8 == n % 8
  {
  }

  class Reader {
    const data: seq<nat>
    var inptr: nat
    var b: nat
    var k: nat

    ghost predicate Valid()
      reads this
    {
      inptr <= |data| && k < 32 && k <= 8 * inptr && b < Pow2(k) && forall i :: 0 <= i < |data| ==> data[i] < 256
    }

    /** The bits not yet used: those in the buffer and those of the bytes not yet fetched. */
    ghost function Stream(): seq<bool>
      reads this
    {
      LsbBits(b, k) + if inptr <= |data| then ByteStream(data[inptr..]) else []
    }

    constructor (d: seq<nat>)
      requires forall i :: 0 <= i < |d| ==> d[i] < 256
      ensures Valid() && data == d && Stream() == ByteStream(d)
    {
      data := d;
      inptr, b, k := 0, 0, 0;
      new;
      assert data[0..] == data;
    }

    /** Fetches bytes until n bits are in the buffer, which never holds more than 32; without input it halts. */
    method NeedBits(n: nat) returns (ok: bool)
      requires Valid() && n <= 16
      modifies this
      ensures Valid() && Stream() == old(Stream()) && (ok <==> k >= n) && (ok <==> |Stream()| >= n)
    {
      hide Pow2, LsbBits, ByteStream;
      while k < n
        invariant Valid() && Stream() == old(Stream())
        decreases 40 - k
      {
        if inptr == |data| {
          NoBytes(data);
          return false;
        }
        FetchOne();
      }
      return true;
    }

    /** The next byte goes above the bits that are there. */
    method FetchOne()
      requires Valid() && k < 16 && inptr < |data|
      modifies this
      ensures Valid() && Stream() == old(Stream()) && k == old(k) + 8
    {
      hide Pow2, LsbBits, ByteStream;
      AddByte(b, k, data[inptr]);
      FetchByte(data, inptr, LsbBits(b, k));
      b := b + Pow2(k) * data[inptr];
      k := k + 8;
      inptr := inptr + 1;
    }

    /** The lowest n bits of the buffer, left in place. */
    method Peek(n: nat) returns (v: nat)
      requires Valid() && n <= k
      ensures |Stream()| >= n && v == Lsb(Stream()[..n])
    {
      SplitBits(b, k, n);
      assert Stream()[..n] == LsbBits(b, k)[..n];
      v := Low(b, n);
    }

    method DumpBits(n: nat)
      requires Valid() && n <= k
      modifies this`b, this`k
      ensures Valid() && k == old(k) - n && |old(Stream())| >= n && Stream() == old(Stream())[n..]
    {
      SplitBits(b, k, n);
      assert Stream()[n..] == LsbBits(b, k)[n..] + ByteStream(data[inptr..]);
      b := Shr(b, n);
      k := k - n;
    }

    /** Fetches, reads and removes n bits. */
    method Take(n: nat) returns (ok: bool, v: nat)
      requires Valid() && n <= 16
      modifies this
      ensures Valid() && (ok <==> |old(Stream())| >= n)
      ensures ok ==> v == Lsb(old(Stream())[..n]) && Stream() == old(Stream())[n..]
      ensures !ok ==> Stream() == old(Stream())
    {
      v := 0;
      ok := NeedBits(n);
      if ok {
        v := Peek(n);
        DumpBits(n);
      }
    }

    /** The bits up to the next byte boundary are those beyond whole bytes. */
    method SkipToByte()
      requires Valid()
      modifies this
      ensures Valid() && Stream() == old(Stream())[|old(Stream())| % 8..]
    {
      hide Pow2, LsbBits, ByteStream;
      StreamLength(data[inptr..]);
      Beyond(k, |data| - inptr, |Stream()|);
      DumpBits(k % 8);
    }

    /** The end of inflate: whole bytes in the buffer go back to the input, and the next read starts at the
        byte after the last one used. */
    method UndoLookahead()
      requires Valid()
      modifies this
      ensures k < 8 && inptr <= old(inptr) && k + 8 * (old(inptr) - inptr) == old(k)
      ensures inptr <= |data| && |ByteStream(data[inptr..])| == |old(Stream())| - |old(Stream())| % 8
    {
      StreamLength(data[inptr..]);
      while k >= 8
        invariant k <= 8 * inptr && inptr <= old(inptr) && k + 8 * (old(inptr) - inptr) == old(k)
      {
        k := k - 8;
        inptr := inptr - 1;
      }
      StreamLength(data[inptr..]);
    }
  }
}
