/** How data is written in the deflate format, after sections 3.2.3 to 3.2.7 of RFC 1951 and without the tables of the
    decoder: lengths and distances by arithmetic, the fixed codes by their values, the lengths of the code length code
    by a formula. Reading what was written gives the data back. */
module DeflateEncode {
  import opened Bits
  import opened HuffmanCodes
  import opened SlidingWindow
  import opened Deflate

  // ---------- lengths and distances ----------

  /** A number as a code of its range and the place within the range. */
  datatype Coded = Coded(index: nat, extra: seq<bool>)

  /** How many bits to drop until the number has k + 1 bits. */
  function Dropped(x: nat, k: nat): nat { if x < Pow2(k + 1) then 0 else 1 + Dropped(x / 2, k) }

  /** Ranges double in size after every 2^k codes. */
  function Ranged(x: nat, k: nat): Coded {
    var e := Dropped(x, k);
    Coded(e * Pow2(k) + x / Pow2(e), LsbBits(x % Pow2(e), e))
  }

  function LengthCode(n: nat): Coded
    requires 3 <= n <= 258
  {
    if n == 258 then Coded(28, []) else Ranged(n - 3, 2)
  }

  function DistanceCode(d: nat): Coded
    requires 1 <= d <= 32768
  {
    Ranged(d - 1, 1)
  }

  lemma {:induction false} DroppedRange(x: nat, k: nat, j: nat)
    requires x < Pow2(k + 1 + j)
    ensures var e := Dropped(x, k);
            && e <= j && x / Pow2(e) < Pow2(k + 1) && (e > 0 ==> x / Pow2(e) >= Pow2(k))
    decreases x
  {
    if x >= Pow2(k + 1) {
      assert j > 0 && Pow2(k + 1 + j) == 2 * Pow2(k + j);
      var e := Dropped(x / 2, k);
      assert Pow2(e + 1) == 2 * Pow2(e) && Pow2(k + 1) == 2 * Pow2(k);
      hide Pow2;
      DroppedRange(x / 2, k, j - 1);
      HalfOf(x, Pow2(e));
    }
  }

  /** Entry q of a group: the ranges of the group have the same size. */
  predicate Group(base: seq<nat>, extra: seq<nat>, at: nat, first: nat, size: nat, e: nat, lo: nat, hi: nat) {
    at + hi <= |base| == |extra| && forall q :: lo <= q < hi ==> base[at + q] == first + size * q && extra[at + q] == e
  }

  lemma InGroup(base: seq<nat>, extra: seq<nat>, at: nat, first: nat, size: nat, e: nat, lo: nat, hi: nat, q: nat)
    requires Group(base, extra, at, first, size, e, lo, hi) && lo <= q < hi
    ensures base[at + q] == first + size * q && extra[at + q] == e
  {
  }

  predicate LengthGroups(base: seq<nat>, extra: seq<nat>) {
    && Group(base, extra, 0, 3, 1, 0, 0, 8)
    && Group(base, extra, 4, 3, 2, 1, 4, 8)
    && Group(base, extra, 8, 3, 4, 2, 4, 8)
    && Group(base, extra, 12, 3, 8, 3, 4, 8)
    && Group(base, extra, 16, 3, 16, 4, 4, 8)
    && Group(base, extra, 20, 3, 32, 5, 4, 8)
  }

  lemma LowTable()
    ensures Group(LenBase, LenExtra, 0, 3, 1, 0, 0, 8) && Group(LenBase, LenExtra, 4, 3, 2, 1, 4, 8) && Group(LenBase, LenExtra, 8, 3, 4, 2, 4, 8)
  {
  }

  lemma HighTable()
    ensures Group(LenBase, LenExtra, 12, 3, 8, 3, 4, 8) && Group(LenBase, LenExtra, 16, 3, 16, 4, 4, 8) && Group(LenBase, LenExtra, 20, 3, 32, 5, 4, 8)
  {
  }

  lemma LengthTable()
    ensures LengthGroups(LenBase, LenExtra)
  {
    hide Group;
    LowTable();
    HighTable();
  }

  lemma LengthRow(base: seq<nat>, extra: seq<nat>, e: nat, q: nat)
    requires LengthGroups(base, extra) && e <= 5 && q < 8 && (e > 0 ==> q >= 4)
    ensures 4 * e + q < |base| == |extra| && extra[4 * e + q] == e && base[4 * e + q] == 3 + q * Pow2(e)
  {
    Powers();
    hide Pow2;
    if e == 0 {
      InGroup(base, extra, 0, 3, 1, 0, 0, 8, q);
    } else if e == 1 {
      InGroup(base, extra, 4, 3, 2, 1, 4, 8, q);
    } else if e == 2 {
      InGroup(base, extra, 8, 3, 4, 2, 4, 8, q);
    } else if e == 3 {
      InGroup(base, extra, 12, 3, 8, 3, 4, 8, q);
    } else if e == 4 {
      InGroup(base, extra, 16, 3, 16, 4, 4, 8, q);
    } else {
      InGroup(base, extra, 20, 3, 32, 5, 4, 8, q);
    }
  }

  predicate NearGroups(base: seq<nat>, extra: seq<nat>) {
    && Group(base, extra, 0, 1, 1, 0, 0, 4)
    && Group(base, extra, 2, 1, 2, 1, 2, 4)
    && Group(base, extra, 4, 1, 4, 2, 2, 4)
    && Group(base, extra, 6, 1, 8, 3, 2, 4)
    && Group(base, extra, 8, 1, 16, 4, 2, 4)
  }

  predicate MiddleGroups(base: seq<nat>, extra: seq<nat>) {
    && Group(base, extra, 10, 1, 32, 5, 2, 4)
    && Group(base, extra, 12, 1, 64, 6, 2, 4)
    && Group(base, extra, 14, 1, 128, 7, 2, 4)
    && Group(base, extra, 16, 1, 256, 8, 2, 4)
    && Group(base, extra, 18, 1, 512, 9, 2, 4)
  }

  predicate FarGroups(base: seq<nat>, extra: seq<nat>) {
    && Group(base, extra, 20, 1, 1024, 10, 2, 4)
    && Group(base, extra, 22, 1, 2048, 11, 2, 4)
    && Group(base, extra, 24, 1, 4096, 12, 2, 4)
    && Group(base, extra, 26, 1, 8192, 13, 2, 4)
  }

  lemma NearTable()
    ensures NearGroups(DistBase, DistExtra)
  {
  }

  lemma MiddleTable()
    ensures MiddleGroups(DistBase, DistExtra)
  {
  }

  lemma FarTable()
    ensures FarGroups(DistBase, DistExtra)
  {
  }

  lemma NearRow(base: seq<nat>, extra: seq<nat>, e: nat, q: nat)
    requires NearGroups(base, extra) && 0 <= e <= 4 && q < 4 && (e > 0 ==> q >= 2)
    ensures 2 * e + q < |base| == |extra| && extra[2 * e + q] == e && base[2 * e + q] == 1 + q * Pow2(e)
  {
    Powers();
    hide Pow2;
    if e == 0 {
      InGroup(base, extra, 0, 1, 1, 0, 0, 4, q);
    } else if e == 1 {
      InGroup(base, extra, 2, 1, 2, 1, 2, 4, q);
    } else if e == 2 {
      InGroup(base, extra, 4, 1, 4, 2, 2, 4, q);
    } else if e == 3 {
      InGroup(base, extra, 6, 1, 8, 3, 2, 4, q);
    } else {
      InGroup(base, extra, 8, 1, 16, 4, 2, 4, q);
    }
  }

  lemma MiddleRow(base: seq<nat>, extra: seq<nat>, e: nat, q: nat)
    requires MiddleGroups(base, extra) && 5 <= e <= 9 && q < 4 && (e > 0 ==> q >= 2)
    ensures 2 * e + q < |base| == |extra| && extra[2 * e + q] == e && base[2 * e + q] == 1 + q * Pow2(e)
  {
    Powers();
    hide Pow2;
    if e == 5 {
      InGroup(base, extra, 10, 1, 32, 5, 2, 4, q);
    } else if e == 6 {
      InGroup(base, extra, 12, 1, 64, 6, 2, 4, q);
    } else if e == 7 {
      InGroup(base, extra, 14, 1, 128, 7, 2, 4, q);
    } else if e == 8 {
      InGroup(base, extra, 16, 1, 256, 8, 2, 4, q);
    } else {
      InGroup(base, extra, 18, 1, 512, 9, 2, 4, q);
    }
  }

  lemma FarRow(base: seq<nat>, extra: seq<nat>, e: nat, q: nat)
    requires FarGroups(base, extra) && 10 <= e <= 13 && q < 4 && (e > 0 ==> q >= 2)
    ensures 2 * e + q < |base| == |extra| && extra[2 * e + q] == e && base[2 * e + q] == 1 + q * Pow2(e)
  {
    Powers();
    hide Pow2;
    if e == 10 {
      InGroup(base, extra, 20, 1, 1024, 10, 2, 4, q);
    } else if e == 11 {
      InGroup(base, extra, 22, 1, 2048, 11, 2, 4, q);
    } else if e == 12 {
      InGroup(base, extra, 24, 1, 4096, 12, 2, 4, q);
    } else {
      InGroup(base, extra, 26, 1, 8192, 13, 2, 4, q);
    }
  }

  lemma Placed(x: nat, m: nat)
    requires m >= 1
    ensures x / m * m + x % m == x && x % m < m
  {
  }

  /** What a table with the right row gives for a number. */
  lemma RangedRead(base: seq<nat>, extra: seq<nat>, first: nat, x: nat, k: nat)
    requires var e := Dropped(x, k);
             var i := e * Pow2(k) + x / Pow2(e);
             i < |base| == |extra| && extra[i] == e && base[i] == first + x / Pow2(e) * Pow2(e)
    ensures var c := Ranged(x, k);
            c.index < |base| == |extra| && |c.extra| == extra[c.index] && base[c.index] + Lsb(c.extra) == first + x
  {
    hide Pow2, Dropped, LsbBits, Lsb;
    var e := Dropped(x, k);
    Placed(x, Pow2(e));
    LsbOfBits(x % Pow2(e), e);
  }

  lemma LengthIn(base: seq<nat>, extra: seq<nat>, x: nat)
    requires LengthGroups(base, extra) && x < 256
    ensures var c := Ranged(x, 2);
            c.index < |base| == |extra| && |c.extra| == extra[c.index] && base[c.index] + Lsb(c.extra) == 3 + x
  {
    Powers();
    hide Pow2, Dropped, Ranged, Lsb, LengthGroups;
    var e := Dropped(x, 2);
    DroppedRange(x, 2, 5);
    LengthRow(base, extra, e, x / Pow2(e));
    assert e * Pow2(2) == 4 * e;
    RangedRead(base, extra, 3, x, 2);
  }

  lemma DistanceIn(base: seq<nat>, extra: seq<nat>, x: nat)
    requires NearGroups(base, extra) && MiddleGroups(base, extra) && FarGroups(base, extra) && x < 32768
    ensures var c := Ranged(x, 1);
            c.index < |base| == |extra| && |c.extra| == extra[c.index] && base[c.index] + Lsb(c.extra) == 1 + x
  {
    Powers();
    hide Pow2, Dropped, Ranged, Lsb, NearGroups, MiddleGroups, FarGroups;
    var e := Dropped(x, 1);
    DroppedRange(x, 1, 13);
    var q := x / Pow2(e);
    if e < 5 {
      NearRow(base, extra, e, q);
    } else if e < 10 {
      MiddleRow(base, extra, e, q);
    } else {
      FarRow(base, extra, e, q);
    }
    assert e * Pow2(1) == 2 * e;
    RangedRead(base, extra, 1, x, 1);
  }

  /** The codes 257 to 285 name every length from 3 to 258: the table's base and the extra bits add up to it. */
  lemma LengthNamed(n: nat)
    requires 3 <= n <= 258
    ensures var c := LengthCode(n);
            c.index < 29 && |c.extra| == LenExtra[c.index] && LenBase[c.index] + Lsb(c.extra) == n
  {
    hide Ranged, LengthGroups;
    if n < 258 {
      hide Lsb;
      LengthTable();
      LengthIn(LenBase, LenExtra, n - 3);
    }
  }

  /** The distance codes 0 to 29 name every distance from 1 to 32768. */
  lemma DistanceNamed(d: nat)
    requires 1 <= d <= 32768
    ensures var c := DistanceCode(d);
            c.index < 30 && |c.extra| == DistExtra[c.index] && DistBase[c.index] + Lsb(c.extra) == d
  {
    hide Ranged, Lsb, NearGroups, MiddleGroups, FarGroups;
    NearTable();
    MiddleTable();
    FarTable();
    DistanceIn(DistBase, DistExtra, d - 1);
  }

  // ---------- literals and copies ----------

  datatype Token = Literal(byte: nat) | Copy(len: nat, dist: nat)

  predicate HasCode(b: seq<nat>, s: nat) { s < |b| && b[s] > 0 }

  predicate TokenOk(ll: seq<nat>, dl: seq<nat>, t: Token) {
    match t
    case Literal(b) => b < 256 && HasCode(ll, b)
    case Copy(n, d) =>
      3 <= n <= 258 && 1 <= d <= 32768 && HasCode(ll, 257 + LengthCode(n).index) && HasCode(dl, DistanceCode(d).index)
  }

  predicate TokensOk(ll: seq<nat>, dl: seq<nat>, ts: seq<Token>) {
    HasCode(ll, 256) && forall i :: 0 <= i < |ts| ==> TokenOk(ll, dl, ts[i])
  }

  function TokenBits(ll: seq<nat>, dl: seq<nat>, t: Token): seq<bool>
    requires TokenOk(ll, dl, t)
  {
    match t
    case Literal(b) => Word(ll, b)
    case Copy(n, d) =>
      Word(ll, 257 + LengthCode(n).index) + LengthCode(n).extra + Word(dl, DistanceCode(d).index) + DistanceCode(d).extra
  }

  /** The tokens and the end-of-block code. */
  function TokensBits(ll: seq<nat>, dl: seq<nat>, ts: seq<Token>): seq<bool>
    requires TokensOk(ll, dl, ts)
  {
    if ts == [] then Word(ll, 256) else TokenBits(ll, dl, ts[0]) + TokensBits(ll, dl, ts[1..])
  }

  predicate Reaches(out: seq<nat>, t: Token) { t.Copy? ==> 1 <= t.dist <= |out| }

  /** The output with what a token stands for. */
  function Spell(out: seq<nat>, t: Token): seq<nat>
    requires Reaches(out, t)
  {
    if t.Literal? then out + [t.byte] else LzCopy(out, t.dist, t.len)
  }

  predicate AllReach(out: seq<nat>, ts: seq<Token>)
    decreases |ts|
  {
    ts == [] || (Reaches(out, ts[0]) && AllReach(Spell(out, ts[0]), ts[1..]))
  }

  function SpellAll(out: seq<nat>, ts: seq<Token>): seq<nat>
    requires AllReach(out, ts)
    decreases |ts|
  {
    if ts == [] then out else SpellAll(Spell(out, ts[0]), ts[1..])
  }

  /** A code word in front is read as its symbol. */
  lemma SymbolRead(b: seq<nat>, s: nat, rest: seq<bool>)
    requires Prefixed(b) && HasCode(b, s)
    ensures Symbol(b, Word(b, s) + rest) == s && (Word(b, s) + rest)[b[s]..] == rest
  {
    hide Word, Prefixed;
    var bits := Word(b, s) + rest;
    assert Word(b, s) <= bits;
    assert Decodes(b, bits, s);
    var t := Symbol(b, bits);
    DecodesOnce(b, bits, s, t);
  }

  lemma DistanceRead(dl: seq<nat>, d: nat, rest: seq<bool>)
    requires Prefixed(dl) && 1 <= d <= 32768 && HasCode(dl, DistanceCode(d).index)
    ensures ReadDistance(dl, Word(dl, DistanceCode(d).index) + DistanceCode(d).extra + rest) == Far(d, rest)
  {
    hide Word, Prefixed, Symbol, DistanceCode, Lsb;
    var c := DistanceCode(d);
    DistanceNamed(d);
    SymbolRead(dl, c.index, c.extra + rest);
    assert Word(dl, c.index) + c.extra + rest == Word(dl, c.index) + (c.extra + rest);
    assert (c.extra + rest)[..|c.extra|] == c.extra && (c.extra + rest)[|c.extra|..] == rest;
  }

  lemma LengthRead(ll: seq<nat>, dl: seq<nat>, s: nat, rest: seq<bool>, out: seq<nat>)
    requires Prefixed(ll) && s > 256 && HasCode(ll, s)
    ensures Codes(ll, dl, Word(ll, s) + rest, out) == Match(ll, dl, rest, out, s)
  {
    hide Word, Prefixed, Symbol, Match;
    SymbolRead(ll, s, rest);
  }

  lemma MatchRead(ll: seq<nat>, dl: seq<nat>, n: nat, d: nat, far: seq<bool>, rest: seq<bool>, out: seq<nat>)
    requires 3 <= n <= 258 && 1 <= d <= |out| && ReadDistance(dl, far) == Far(d, rest)
    ensures Match(ll, dl, LengthCode(n).extra + far, out, 257 + LengthCode(n).index) == Codes(ll, dl, rest, LzCopy(out, d, n))
  {
    hide LengthCode, Lsb, ReadDistance, LzCopy, Codes;
    var c := LengthCode(n);
    LengthNamed(n);
    assert (c.extra + far)[..|c.extra|] == c.extra && (c.extra + far)[|c.extra|..] == far;
  }

  lemma CopyRead(ll: seq<nat>, dl: seq<nat>, n: nat, d: nat, rest: seq<bool>, out: seq<nat>)
    requires Prefixed(ll) && Prefixed(dl) && TokenOk(ll, dl, Copy(n, d)) && d <= |out|
    ensures Codes(ll, dl, TokenBits(ll, dl, Copy(n, d)) + rest, out) == Codes(ll, dl, rest, LzCopy(out, d, n))
  {
    hide Word, Prefixed, LengthCode, DistanceCode, ReadDistance, LzCopy, Codes, Match;
    var c, e := LengthCode(n), DistanceCode(d);
    var far := Word(dl, e.index) + e.extra + rest;
    DistanceRead(dl, d, rest);
    MatchRead(ll, dl, n, d, far, rest, out);
    LengthRead(ll, dl, 257 + c.index, c.extra + far, out);
    assert TokenBits(ll, dl, Copy(n, d)) + rest == Word(ll, 257 + c.index) + (c.extra + far);
  }

  lemma LiteralRead(ll: seq<nat>, dl: seq<nat>, b: nat, rest: seq<bool>, out: seq<nat>)
    requires Prefixed(ll) && b <= 256 && HasCode(ll, b)
    ensures Codes(ll, dl, Word(ll, b) + rest, out) == if b == 256 then Ok(out, rest) else Codes(ll, dl, rest, out + [b])
  {
    hide Word, Prefixed, Symbol, Match;
    SymbolRead(ll, b, rest);
  }

  /** For every pair of code sets and every list of tokens: what was written is read back. */
  lemma {:induction false} TokensRead(ll: seq<nat>, dl: seq<nat>, ts: seq<Token>, rest: seq<bool>, out: seq<nat>)
    requires Prefixed(ll) && Prefixed(dl) && TokensOk(ll, dl, ts) && AllReach(out, ts)
    ensures Codes(ll, dl, TokensBits(ll, dl, ts) + rest, out) == Ok(SpellAll(out, ts), rest)
    decreases |ts|
  {
    hide Word, Prefixed, Codes, LengthCode, DistanceCode, LzCopy;
    if ts == [] {
      LiteralRead(ll, dl, 256, rest, out);
    } else {
      var more := TokensBits(ll, dl, ts[1..]) + rest;
      assert TokensBits(ll, dl, ts) + rest == TokenBits(ll, dl, ts[0]) + more;
      TokensRead(ll, dl, ts[1..], rest, Spell(out, ts[0]));
      match ts[0]
      case Literal(b) => LiteralRead(ll, dl, b, more, out);
      case Copy(n, d) => CopyRead(ll, dl, n, d, more, out);
    }
  }
}
