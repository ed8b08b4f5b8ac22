/** Bit strings in stream order, read as table indices (first bit least significant) and as
    Huffman code values (first bit most significant). */
module Bits {

  function Pow2(n: nat): (r: nat)
    ensures r >= 1
  {
    if n == 0 then 1 else 2 * Pow2(n - 1)
  }

  function B(b: bool): nat { if b then 1 else 0 }

  /** The value when the first bit is the least significant one: how the bit buffer indexes a table. */
  function Lsb(s: seq<bool>): nat {
    if s == [] then 0 else B(s[0]) + 2 * Lsb(s[1..])
  }

  /** The value when the first bit is the most significant one: how a Huffman code is numbered. */
  function Msb(s: seq<bool>): nat {
    if s == [] then 0 else 2 * Msb(s[..|s| - 1]) + B(s[|s| - 1])
  }

  /** The n low bits of x, least significant first. */
  function LsbBits(x: nat, n: nat): (s: seq<bool>)
    ensures |s| == n
  {
    if n == 0 then [] else [x % 2 == 1] + LsbBits(x / 2, n - 1)
  }

  /** The n-bit numeral of x, most significant bit first. */
  function MsbBits(x: nat, n: nat): (s: seq<bool>)
    ensures |s| == n
  {
    if n == 0 then [] else MsbBits(x / 2, n - 1) + [x % 2 == 1]
  }

  lemma Twice(a: int, x: int)
    ensures 2 * (a * x) == a * (2 * x) == (2 * a) * x
  {
  }

  lemma Distribute(a: int, b: int, c: int)
    ensures (a + b) * c == a * c + b * c
  {
  }

  lemma Associate(a: int, b: int, c: int)
    ensures (a * b) * c == a * (b * c)
  {
  }

  lemma {:induction false} Pow2Add(a: nat, b: nat)
    ensures Pow2(a + b) == Pow2(a) * Pow2(b)
  {
    if a > 0 {
      Pow2Add(a - 1, b);
      assert a - 1 + b == a + b - 1;
      Twice(Pow2(a - 1), Pow2(b));
    }
  }

  lemma Powers()
    ensures Pow2(0) == 1 && Pow2(1) == 2 && Pow2(2) == 4 && Pow2(3) == 8 && Pow2(4) == 16 && Pow2(5) == 32 && Pow2(6) == 64
    ensures Pow2(7) == 128 && Pow2(8) == 256 && Pow2(9) == 512 && Pow2(10) == 1024 && Pow2(11) == 2048 && Pow2(12) == 4096 && Pow2(13) == 8192
    ensures Pow2(14) == 16384 && Pow2(15) == 32768
  {
    assert Pow2(1) == 2 && Pow2(2) == 4 && Pow2(3) == 8 && Pow2(4) == 16 && Pow2(5) == 32 && Pow2(6) == 64 && Pow2(7) == 128;
    assert Pow2(8) == 256 && Pow2(9) == 512 && Pow2(10) == 1024 && Pow2(11) == 2048 && Pow2(12) == 4096;
    assert Pow2(13) == 8192 && Pow2(14) == 16384;
  }

  lemma HalfOf(e: int, m: nat)
    requires m >= 1
    ensures e / 2 / m == e / (2 * m)
  {
    var q, r := e / (2 * m), e % (2 * m);
    assert e == (m * q) * 2 + r;
    assert e / 2 == m * q + r / 2;
    Quotient(m, q, r / 2);
  }

  lemma Quotient(m: nat, q: int, r: int)
    requires 0 <= r < m
    ensures (m * q + r) / m == q
  {
    var d := (m * q + r) / m;
    assert m * q + r == m * d + (m * q + r) % m;
    assert d > q ==> m * d >= m * (q + 1);
    assert d < q ==> m * d <= m * (q - 1);
  }

  lemma {:induction false} Pow2Mono(a: nat, b: nat)
    requires a <= b
    ensures Pow2(a) <= Pow2(b)
    decreases b
  {
    if a < b { Pow2Mono(a, b - 1); }
  }

  lemma {:induction false} LsbBound(s: seq<bool>)
    ensures Lsb(s) < Pow2(|s|)
  {
    if s != [] { LsbBound(s[1..]); }
  }

  lemma {:induction false} MsbBound(s: seq<bool>)
    ensures Msb(s) < Pow2(|s|)
  {
    if s != [] { MsbBound(s[..|s| - 1]); }
  }

  lemma {:induction false} LsbConcat(a: seq<bool>, b: seq<bool>)
    ensures Lsb(a + b) == Lsb(a) + Pow2(|a|) * Lsb(b)
  {
    if a == [] {
      assert a + b == b;
    } else {
      LsbConcat(a[1..], b);
      assert (a + b)[1..] == a[1..] + b;
      Twice(Pow2(|a| - 1), Lsb(b));
    }
  }

  lemma {:induction false} MsbConcat(a: seq<bool>, b: seq<bool>)
    ensures Msb(a + b) == Msb(a) * Pow2(|b|) + Msb(b)
  {
    if b == [] {
      assert a + b == a;
    } else {
      var c := b[..|b| - 1];
      MsbConcat(a, c);
      assert (a + b)[..|a + b| - 1] == a + c && (a + b)[|a + b| - 1] == b[|b| - 1];
      assert Pow2(|b|) == 2 * Pow2(|c|) && Msb(b) == 2 * Msb(c) + B(b[|b| - 1]);
      assert Msb(a + b) == 2 * Msb(a + c) + B(b[|b| - 1]);
      hide Pow2, Msb, B;
      Twice(Msb(a), Pow2(|c|));
    }
  }

  lemma {:induction false} LsbInjective(a: seq<bool>, b: seq<bool>)
    requires |a| == |b| && Lsb(a) == Lsb(b)
    ensures a == b
  {
    if a != [] {
      assert a[0] == b[0];
      LsbInjective(a[1..], b[1..]);
      assert a == [a[0]] + a[1..] && b == [b[0]] + b[1..];
    }
  }

  lemma {:induction false} MsbInjective(a: seq<bool>, b: seq<bool>)
    requires |a| == |b| && Msb(a) == Msb(b)
    ensures a == b
  {
    if a != [] {
      var n := |a| - 1;
      assert a[n] == b[n];
      MsbInjective(a[..n], b[..n]);
      assert a == a[..n] + [a[n]] && b == b[..n] + [b[n]];
    }
  }

  lemma {:induction false} LsbOfBits(x: nat, n: nat)
    requires x < Pow2(n)
    ensures Lsb(LsbBits(x, n)) == x
  {
    if n > 0 {
      LsbOfBits(x / 2, n - 1);
      assert LsbBits(x, n)[1..] == LsbBits(x / 2, n - 1);
    }
  }

  lemma {:induction false} MsbOfBits(x: nat, n: nat)
    requires x < Pow2(n)
    ensures Msb(MsbBits(x, n)) == x
  {
    if n > 0 {
      MsbOfBits(x / 2, n - 1);
      assert MsbBits(x, n)[..n - 1] == MsbBits(x / 2, n - 1);
    }
  }

  // ---------- intervals of g-bit strings ----------

  /** The first g-bit string that begins with s, as a number. */
  function Start(g: nat, s: seq<bool>): nat
    requires |s| <= g
  {
    Msb(s) * Pow2(g - |s|)
  }

  /** How many g-bit strings share a given n-bit prefix. */
  function Size(g: nat, n: nat): (r: nat)
    requires n <= g
    ensures r >= 1
  {
    Pow2(g - n)
  }

  lemma MulLess(a: nat, b: nat, c: nat)
    requires a < b
    ensures a * c + c <= b * c
  {
    Distribute(a, 1, c);
    Distribute(a + 1, b - a - 1, c);
    assert 0 <= (b - a - 1) * c;
  }

  /** A longer string starts inside the interval of each of its prefixes. */
  lemma StartInside(g: nat, p: seq<bool>, r: seq<bool>)
    requires p <= r && |r| <= g
    ensures Start(g, p) <= Start(g, r)
    ensures Start(g, r) + Size(g, |r|) <= Start(g, p) + Size(g, |p|)
  {
    hide Pow2, Msb;
    var t := r[|p|..];
    assert r == p + t;
    MsbConcat(p, t);
    MsbBound(t);
    Pow2Add(|t|, g - |r|);
    Nested(Msb(p), Msb(t), Pow2(|t|), Pow2(g - |r|));
  }

  lemma Nested(mp: nat, mt: nat, x: nat, u: nat)
    requires mt < x
    ensures mp * (x * u) <= (mp * x + mt) * u
    ensures (mp * x + mt) * u + u <= mp * (x * u) + x * u
  {
    Distribute(mp * x, mt, u);
    Associate(mp, x, u);
    MulLess(mt, x, u);
    assert mt * u >= 0;
  }

  /** Strings of one length have disjoint intervals, in the order of their values. */
  lemma StartOrder(g: nat, p: seq<bool>, q: seq<bool>)
    requires |p| == |q| <= g && p != q
    ensures Start(g, p) + Size(g, |p|) <= Start(g, q) || Start(g, q) + Size(g, |q|) <= Start(g, p)
  {
    if Msb(p) == Msb(q) { MsbInjective(p, q); }
    else if Msb(p) < Msb(q) { MulLess(Msb(p), Msb(q), Pow2(g - |p|)); }
    else { MulLess(Msb(q), Msb(p), Pow2(g - |p|)); }
  }

  /** p is a prefix of r exactly when r starts in p's interval. */
  lemma PrefixIff(g: nat, p: seq<bool>, r: seq<bool>)
    requires |p| <= |r| <= g
    ensures p <= r <==> Start(g, p) <= Start(g, r) < Start(g, p) + Size(g, |p|)
  {
    var p' := r[..|p|];
    StartInside(g, p', r);
    if p' == p {
      assert p <= r;
    } else {
      StartOrder(g, p, p');
    }
  }

  lemma StartBound(g: nat, s: seq<bool>)
    requires |s| <= g
    ensures Start(g, s) + Size(g, |s|) <= Pow2(g)
  {
    MsbBound(s);
    MulLess(Msb(s), Pow2(|s|), Pow2(g - |s|));
    Pow2Add(|s|, g - |s|);
  }

  lemma SuccMul(x: int, y: int, u: int)
    requires y == x + 1
    ensures y * u == x * u + u
  {
  }

  /** The next string of the same length starts where this one ends. */
  lemma StartSucc(g: nat, s: seq<bool>, t: seq<bool>)
    requires |s| == |t| <= g && Msb(t) == Msb(s) + 1
    ensures Start(g, t) == Start(g, s) + Size(g, |s|)
  {
    SuccMul(Msb(s), Msb(t), Pow2(g - |s|));
  }

  lemma StartLast(g: nat, s: seq<bool>)
    requires |s| <= g && Msb(s) + 1 == Pow2(|s|)
    ensures Start(g, s) + Size(g, |s|) == Pow2(g)
  {
    SuccMul(Msb(s), Pow2(|s|), Pow2(g - |s|));
    Pow2Add(|s|, g - |s|);
  }

  /** Appending a zero moves nothing. */
  lemma StartPad(g: nat, s: seq<bool>)
    requires |s| < g
    ensures Start(g, s + [false]) == Start(g, s)
  {
    assert (s + [false])[..|s|] == s;
    assert Msb(s + [false]) == 2 * Msb(s);
    Twice(Msb(s), Pow2(g - |s| - 1));
  }

  lemma LsbPad(s: seq<bool>)
    ensures Lsb(s + [false]) == Lsb(s)
  {
    LsbConcat(s, [false]);
  }
}
