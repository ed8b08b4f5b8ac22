/** The table-driven CRC of linux/zBoot/misc.c, and the bit-by-bit one of section 8 of RFC 1952. A register
    is its 32 bits, the least significant first. */
module Crc {
  import opened Bits

  type Reg = s: seq<bool> | |s| == 32 witness seq(32, i => false)

  function Xor(a: seq<bool>, b: seq<bool>): (r: seq<bool>)
    requires |a| == |b|
    ensures |r| == |a| && forall i :: 0 <= i < |a| ==> r[i] == (a[i] != b[i])
  {
    seq(|a|, i requires 0 <= i < |a| => a[i] != b[i])
  }

  function Zeros(n: nat): (r: seq<bool>)
    ensures |r| == n && forall i :: 0 <= i < n ==> !r[i]
  {
    seq(n, i => false)
  }

  /** The terms of the polynomial, but for the highest. */
  const Terms: set<nat> := {0, 1, 2, 4, 5, 7, 8, 10, 11, 12, 16, 22, 23, 26}

  /** The exclusive-or pattern: term p is bit 31 - p. */
  function Poly(): (r: Reg)
    ensures forall i :: 0 <= i < 32 ==> r[i] == (31 - i in Terms)
  {
    seq(32, i requires 0 <= i < 32 => 31 - i in Terms)
  }

  lemma OneMoreBit(x: nat, n: nat)
    ensures LsbBits(x, n + 1) == [x % 2 == 1] + LsbBits(x / 2, n)
  {
  }

  lemma FourBits(x: nat, n: nat)
    ensures LsbBits(x, n + 4) == [x % 2 == 1, x / 2 % 2 == 1, x / 4 % 2 == 1, x / 8 % 2 == 1] + LsbBits(x / 16, n)
  {
    hide LsbBits;
    OneMoreBit(x, n + 3);
    OneMoreBit(x / 2, n + 2);
    OneMoreBit(x / 4, n + 1);
    OneMoreBit(x / 8, n);
    assert x / 2 / 2 == x / 4 && x / 4 / 2 == x / 8 && x / 8 / 2 == x / 16;
  }

  lemma EightBits(x: nat)
    ensures LsbBits(x, 8) == [x % 2 == 1, x / 2 % 2 == 1, x / 4 % 2 == 1, x / 8 % 2 == 1,
                              x / 16 % 2 == 1, x / 32 % 2 == 1, x / 64 % 2 == 1, x / 128 % 2 == 1]
  {
    hide LsbBits;
    FourBits(x, 4);
    FourBits(x / 16, 0);
    assert LsbBits(x / 16 / 16, 0) == [];
    assert x / 16 / 2 == x / 32 && x / 16 / 4 == x / 64 && x / 16 / 8 == x / 128;
  }

  /** The pattern is the 0xEDB88320 of RFC 1952, from the lowest byte up. */
  lemma PolyValue()
    ensures Poly() == LsbBits(0x20, 8) + LsbBits(0x83, 8) + LsbBits(0xB8, 8) + LsbBits(0xED, 8)
  {
    hide LsbBits;
    EightBits(0x20);
    EightBits(0x83);
    EightBits(0xB8);
    EightBits(0xED);
    var p := LsbBits(0x20, 8) + LsbBits(0x83, 8) + LsbBits(0xB8, 8) + LsbBits(0xED, 8);
    forall i | 0 <= i < 32
      ensures Poly()[i] == p[i]
    {
      if i < 8 { assert p[i] == LsbBits(0x20, 8)[i]; }
      else if i < 16 { assert p[i] == LsbBits(0x83, 8)[i - 8]; }
      else if i < 24 { assert p[i] == LsbBits(0xB8, 8)[i - 16]; }
      else { assert p[i] == LsbBits(0xED, 8)[i - 24]; }
    }
  }

  function Right(c: Reg): Reg { c[1..] + [false] }

  /** One bit through the shift register. */
  function Shift(c: Reg): Reg { if c[0] then Xor(Right(c), Poly()) else Right(c) }

  function ShiftN(c: Reg, n: nat): Reg { if n == 0 then c else Shift(ShiftN(c, n - 1)) }

  /** A byte in the low bits of a register. */
  function Wide(y: seq<bool>): Reg
    requires |y| <= 32
  {
    y + Zeros(32 - |y|)
  }

  function ByteBits(b: nat): (y: seq<bool>)
    ensures |y| == 8
  {
    LsbBits(b, 8)
  }

  /** The register after one byte, bit by bit. */
  function ByteStep(c: Reg, b: nat): Reg { ShiftN(Xor(c, Wide(ByteBits(b))), 8) }

  function Bytes(c: Reg, s: seq<nat>): Reg { if s == [] then c else ByteStep(Bytes(c, s[..|s| - 1]), s[|s| - 1]) }

  function Ones(): (r: Reg)
    ensures forall i :: 0 <= i < 32 ==> r[i]
  {
    seq(32, i => true)
  }

  /** The checksum of a message. */
  function Checksum(s: seq<nat>): Reg { Xor(Bytes(Ones(), s), Ones()) }

  lemma Linear(a: Reg, b: Reg)
    ensures Shift(Xor(a, b)) == Xor(Shift(a), Shift(b))
  {
    var l, r := Shift(Xor(a, b)), Xor(Shift(a), Shift(b));
    forall i | 0 <= i < 32
      ensures l[i] == r[i]
    {
      if i < 31 { assert Right(a)[i] == a[i + 1] && Right(b)[i] == b[i + 1] && Right(Xor(a, b))[i] == Xor(a, b)[i + 1]; }
    }
  }

  lemma {:induction false} LinearN(a: Reg, b: Reg, n: nat)
    ensures ShiftN(Xor(a, b), n) == Xor(ShiftN(a, n), ShiftN(b, n))
  {
    if n > 0 {
      LinearN(a, b, n - 1);
      Linear(ShiftN(a, n - 1), ShiftN(b, n - 1));
    }
  }

  /** Zeros come out without effect: the other bits just move. */
  lemma {:induction false} JustMoves(h: Reg, n: nat)
    requires n <= 32 && forall i :: 0 <= i < n ==> !h[i]
    ensures ShiftN(h, n) == h[n..] + Zeros(n)
  {
    if n > 0 {
      JustMoves(h, n - 1);
      var c := h[n - 1..] + Zeros(n - 1);
      assert !c[0] && c[1..] == h[n..] + Zeros(n - 1);
      assert Zeros(n - 1) + [false] == Zeros(n);
    }
  }

  /** What a table entry must be. */
  function EntryOf(y: seq<bool>): Reg
    requires |y| == 8
  {
    ShiftN(Wide(y), 8)
  }

  /** One table look-up does the work of eight shifts. */
  lemma TableStep(c: Reg, b: nat)
    ensures Xor(EntryOf(Xor(c[..8], ByteBits(b))), c[8..] + Zeros(8)) == ByteStep(c, b)
  {
    var y := Xor(c[..8], ByteBits(b));
    var x, low, high := Xor(c, Wide(ByteBits(b))), Wide(y), Zeros(8) + c[8..];
    assert x == Xor(low, high);
    LinearN(low, high, 8);
    JustMoves(high, 8);
    assert high[8..] == c[8..];
  }

  // ---------- making the table ----------

  /** A register with only bit j. */
  function Unit(j: nat): (r: Reg)
    requires j < 32
    ensures forall i :: 0 <= i < 32 ==> r[i] == (i == j)
  {
    seq(32, i => i == j)
  }

  /** Bit j comes out in the j-th shift after it, and brings the pattern. */
  lemma UnitOut(j: nat)
    requires j < 32
    ensures ShiftN(Unit(j), j + 1) == Poly()
  {
    JustMoves(Unit(j), j);
    var u := Unit(j)[j..] + Zeros(j);
    assert u[0] && Right(u) == Zeros(32);
    assert Xor(Zeros(32), Poly()) == Poly();
  }

  /** One round of makecrc: the next bit of the index comes in, and the pattern with it if it is set. */
  lemma EntryNext(y: seq<bool>, j: nat)
    requires |y| == 8 && j < 8
    ensures ShiftN(Wide(y[..j + 1]), j + 1) ==
            var c := Shift(ShiftN(Wide(y[..j]), j)); if y[j] then Xor(c, Poly()) else c
  {
    if y[j] {
      assert Wide(y[..j + 1]) == Xor(Wide(y[..j]), Unit(j));
      LinearN(Wide(y[..j]), Unit(j), j + 1);
      UnitOut(j);
    } else {
      assert Wide(y[..j + 1]) == Wide(y[..j]);
    }
  }

  method Entry(i: nat) returns (c: Reg)
    requires i < 256
    ensures c == EntryOf(ByteBits(i))
  {
    hide Shift, ShiftN, Wide, Poly;
    c := Zeros(32);
    var k := i + 256;
    ghost var y, j := ByteBits(i), 0;
    EntryStart(i, y);
    while k != 1
      invariant 0 <= j <= 8 && k == Lsb(y[j..] + [true]) && c == ShiftN(Wide(y[..j]), j)
      decreases 8 - j
    {
      Counter(y, j);
      EntryNext(y, j);
      c := Shift(c);
      if k % 2 == 1 {
        c := Xor(c, Poly());
      }
      k := k / 2;
      j := j + 1;
    }
    Counter(y, j);
    assert y[..8] == y;
  }

  lemma EntryStart(i: nat, y: seq<bool>)
    requires i < 256 && y == ByteBits(i)
    ensures i + 256 == Lsb(y[0..] + [true]) && Zeros(32) == ShiftN(Wide(y[..0]), 0)
  {
    assert Pow2(8) == 256 by {
      assert Pow2(1) == 2 && Pow2(2) == 4 && Pow2(3) == 8 && Pow2(4) == 16;
      assert Pow2(5) == 32 && Pow2(6) == 64 && Pow2(7) == 128;
    }
    LsbOfBits(i, 8);
    LsbConcat(y, [true]);
    assert y[0..] == y && Lsb([true]) == 1;
    assert Wide([]) == Zeros(32);
  }

  /** The loop counter of makecrc: its low bit is the next bit of the index, and it is 1 at the end. */
  lemma Counter(y: seq<bool>, j: nat)
    requires |y| == 8 && j <= 8
    ensures Lsb(y[j..] + [true]) == 1 <==> j == 8
    ensures j < 8 ==> Lsb(y[j..] + [true]) % 2 == B(y[j]) && Lsb(y[j..] + [true]) / 2 == Lsb(y[j + 1..] + [true])
  {
    var s := y[j..] + [true];
    if j < 8 {
      assert s[0] == y[j] && s[1..] == y[j + 1..] + [true];
      LsbConcat(y[j + 1..], [true]);
      assert Lsb([true]) == 1;
      assert Pow2(|y[j + 1..]|) * 1 >= 1;
    } else {
      assert s == [true];
    }
  }

  method MakeCrc() returns (tab: seq<Reg>)
    ensures |tab| == 256 && forall i :: 0 <= i < 256 ==> tab[i] == EntryOf(ByteBits(i))
  {
    tab := [];
    var i := 0;
    while i < 256
      invariant 0 <= i <= 256 && |tab| == i && forall j :: 0 <= j < i ==> tab[j] == EntryOf(ByteBits(j))
    {
      var c := Entry(i);
      tab := tab + [c];
      i := i + 1;
    }
  }

  class Register {
    var crc: Reg
    const tab: seq<Reg>
    ghost var fed: seq<nat>       // the bytes since the last start

    ghost predicate Valid()
      reads this
    {
      |tab| == 256 && (forall i :: 0 <= i < 256 ==> tab[i] == EntryOf(ByteBits(i))) && crc == Bytes(Ones(), fed)
    }

    constructor (table: seq<Reg>)
      requires |table| == 256 && forall i :: 0 <= i < 256 ==> table[i] == EntryOf(ByteBits(i))
      ensures Valid() && fed == []
    {
      tab, crc, fed := table, Ones(), [];
    }

    /** Runs bytes through the register; returns the checksum of everything since the start. */
    method UpdCrc(s: seq<nat>) returns (r: Reg)
      requires Valid()
      modifies this
      ensures Valid() && fed == old(fed) + s && r == Checksum(fed)
    {
      hide EntryOf, ByteStep;
      var c := crc;
      var n := 0;
      assert fed + s[..0] == fed;
      while n < |s|
        invariant 0 <= n <= |s| && c == Bytes(Ones(), fed + s[..n])
        invariant fed == old(fed)
      {
        ghost var more := fed + s[..n + 1];
        assert more[..|more| - 1] == fed + s[..n];
        TableStep(c, s[n]);
        var y := Xor(c[..8], ByteBits(s[n]));
        Index(y);
        c := Xor(tab[Lsb(y)], c[8..] + Zeros(8));
        n := n + 1;
      }
      assert s[..n] == s;
      crc, fed := c, fed + s;
      return Xor(c, Ones());
    }
  }

  lemma Index(y: seq<bool>)
    requires |y| == 8
    ensures Lsb(y) < 256 && ByteBits(Lsb(y)) == y
  {
    LsbBound(y);
    assert Pow2(8) == 256 by {
      assert Pow2(1) == 2 && Pow2(2) == 4 && Pow2(3) == 8 && Pow2(4) == 16;
      assert Pow2(5) == 32 && Pow2(6) == 64 && Pow2(7) == 128;
    }
    LsbOfBits(Lsb(y), 8);
    LsbInjective(ByteBits(Lsb(y)), y);
  }

  // ---------- a message with its checksum behind it ----------

  lemma {:induction false} ShiftMore(c: Reg, n: nat, m: nat)
    ensures ShiftN(ShiftN(c, n), m) == ShiftN(c, n + m)
    decreases m
  {
    if m > 0 { ShiftMore(c, n, m - 1); }
  }

  /** The bytes of a register, the lowest first. */
  function RegBytes(c: Reg): (r: seq<nat>)
    ensures |r| == 4
  {
    [Lsb(c[..8]), Lsb(c[8..16]), Lsb(c[16..24]), Lsb(c[24..])]
  }

  /** Register c with its low k bits set: what is left of it after k bits of its own complement. */
  function Filled(c: Reg, k: nat): Reg
    requires k <= 32
  {
    Ones()[..k] + c[k..]
  }

  lemma FeedByte(c: Reg, k: nat, b: nat)
    requires k + 8 <= 32 && ByteBits(b) == Xor(c, Ones())[k..k + 8]
    ensures ByteStep(ShiftN(Filled(c, k), k), b) == ShiftN(Filled(c, k + 8), k + 8)
  {
    hide ShiftN, ByteBits;
    var y := ByteBits(b);
    var h := Zeros(k) + y + Zeros(24 - k);
    JustMoves(h, k);
    assert h[k..] + Zeros(k) == Wide(y);
    LinearN(Filled(c, k), h, k);
    assert Xor(Filled(c, k), h) == Filled(c, k + 8);
    ShiftMore(Filled(c, k + 8), k, 8);
  }

  lemma FedMore(c: Reg, s: seq<nat>, b: nat)
    ensures Bytes(c, s + [b]) == ByteStep(Bytes(c, s), b)
  {
    assert (s + [b])[..|s|] == s;
  }

  /** For every message: the register that has seen the message and then its checksum is always the same, whatever the message. */
  lemma Residue(s: seq<nat>)
    ensures Bytes(Ones(), s + RegBytes(Checksum(s))) == ShiftN(Ones(), 32)
  {
    hide ShiftN, ByteStep, Lsb, Bytes, ByteBits;
    var c, x := Bytes(Ones(), s), Checksum(s);
    var r := RegBytes(x);
    Index(x[..8]);
    Index(x[8..16]);
    Index(x[16..24]);
    Index(x[24..]);
    assert x[0..8] == x[..8] && x[24..32] == x[24..];
    NoShift(Filled(c, 0));
    assert Filled(c, 0) == c && Filled(c, 32) == Ones();
    FeedByte(c, 0, r[0]);
    FeedByte(c, 8, r[1]);
    FeedByte(c, 16, r[2]);
    FeedByte(c, 24, r[3]);
    FedMore(Ones(), s, r[0]);
    FedMore(Ones(), s + [r[0]], r[1]);
    FedMore(Ones(), s + [r[0]] + [r[1]], r[2]);
    FedMore(Ones(), s + [r[0]] + [r[1]] + [r[2]], r[3]);
    assert s + r == s + [r[0]] + [r[1]] + [r[2]] + [r[3]];
  }

  lemma NoShift(c: Reg)
    ensures ShiftN(c, 0) == c
  {
  }
}
