/** Whole deflate streams: stored, fixed and dynamic blocks as they are written, and that every stream so written is
    read back. */
module DeflateStream {
  import opened Bits
  import opened HuffmanCodes
  import opened HuftBuilder
  import opened BitReader
  import opened Deflate
  import opened DeflateEncode

  // ---------- the code lengths of a dynamic block ----------

  /** A code length; the one before it again, 3 to 6 times; or 3 to 138 zeros. */
  datatype LenToken = One(n: nat) | Again(times: nat) | Zeros(times: nat)

  function LenSymbol(t: LenToken): nat {
    match t
    case One(n) => n
    case Again(_) => 16
    case Zeros(r) => if r <= 10 then 17 else 18
  }

  predicate LenTokenOk(cl: seq<nat>, t: LenToken) {
    && (match t
        case One(n) => n <= 15
        case Again(r) => 3 <= r <= 6
        case Zeros(r) => 3 <= r <= 138)
    && HasCode(cl, LenSymbol(t))
  }

  function LenTokenBits(cl: seq<nat>, t: LenToken): seq<bool>
    requires LenTokenOk(cl, t)
  {
    Word(cl, LenSymbol(t)) +
    match t
    case One(_) => []
    case Again(r) => LsbBits(r - 3, 2)
    case Zeros(r) => if r <= 10 then LsbBits(r - 3, 3) else LsbBits(r - 11, 7)
  }

  predicate LensOk(cl: seq<nat>, ts: seq<LenToken>) { forall i :: 0 <= i < |ts| ==> LenTokenOk(cl, ts[i]) }

  function LensBits(cl: seq<nat>, ts: seq<LenToken>): seq<bool>
    requires LensOk(cl, ts)
  {
    if ts == [] then [] else LenTokenBits(cl, ts[0]) + LensBits(cl, ts[1..])
  }

  /** The code lengths with those that a token adds. */
  function SpellLen(acc: seq<nat>, t: LenToken): (r: seq<nat>)
    requires t.Again? ==> acc != []
    ensures |r| == |acc| + (if t.One? then 1 else t.times)
  {
    match t
    case One(n) => acc + [n]
    case Again(r) => acc + seq(r, i => acc[|acc| - 1])
    case Zeros(r) => acc + seq(r, i => 0)
  }

  predicate LensFollow(acc: seq<nat>, ts: seq<LenToken>)
    decreases |ts|
  {
    ts == [] || ((ts[0].Again? ==> acc != []) && LensFollow(SpellLen(acc, ts[0]), ts[1..]))
  }

  function SpellLens(acc: seq<nat>, ts: seq<LenToken>): (r: seq<nat>)
    requires LensFollow(acc, ts)
    ensures |r| >= |acc|
    decreases |ts|
  {
    if ts == [] then acc else SpellLens(SpellLen(acc, ts[0]), ts[1..])
  }

  /** One symbol of the code length code is read. */
  lemma LengthsStep(cl: seq<nat>, s: nat, after: seq<bool>, n: nat, acc: seq<nat>)
    requires Prefixed(cl) && HasCode(cl, s) && |acc| != n
    ensures s < 16 ==> Lengths(cl, Word(cl, s) + after, n, acc) == Lengths(cl, after, n, acc + [s])
    ensures s >= 16 && |after| >= RunBits(s) && (s == 16 ==> acc != []) ==>
              var rep := RunBase(s) + Lsb(after[..RunBits(s)]);
              |acc| + rep <= n ==>
              Lengths(cl, Word(cl, s) + after, n, acc) == Lengths(cl, after[RunBits(s)..], n, acc + Repeat(if s == 16 then acc[|acc| - 1] else 0, rep))
  {
    hide Word, Prefixed, Symbol, Lsb, RunBits, RunBase;
    SymbolRead(cl, s, after);
  }

  lemma RunRead(cl: seq<nat>, s: nat, x: nat, n: nat, acc: seq<nat>, rest: seq<bool>)
    requires Prefixed(cl) && HasCode(cl, s) && s >= 16 && x < Pow2(RunBits(s)) && (s == 16 ==> acc != []) && |acc| != n
    requires |acc| + RunBase(s) + x <= n
    ensures Lengths(cl, Word(cl, s) + LsbBits(x, RunBits(s)) + rest, n, acc) ==
            Lengths(cl, rest, n, acc + Repeat(if s == 16 then acc[|acc| - 1] else 0, RunBase(s) + x))
  {
    hide Word, Prefixed, Lsb, RunBits, RunBase, Lengths, Pow2, LsbBits;
    var extra := LsbBits(x, RunBits(s));
    LsbOfBits(x, RunBits(s));
    assert (extra + rest)[..|extra|] == extra && (extra + rest)[|extra|..] == rest;
    assert Word(cl, s) + extra + rest == Word(cl, s) + (extra + rest);
    LengthsStep(cl, s, extra + rest, n, acc);
  }

  lemma OneLenRead(cl: seq<nat>, t: LenToken, n: nat, acc: seq<nat>, rest: seq<bool>)
    requires Prefixed(cl) && LenTokenOk(cl, t) && (t.Again? ==> acc != []) && |SpellLen(acc, t)| <= n
    ensures Lengths(cl, LenTokenBits(cl, t) + rest, n, acc) == Lengths(cl, rest, n, SpellLen(acc, t))
  {
    hide Word, Prefixed, Lengths, LsbBits, Pow2;
    Powers();
    match t
    case One(s) =>
      LengthsStep(cl, s, rest, n, acc);
      assert LenTokenBits(cl, t) == Word(cl, s);
    case Again(r) =>
      RunRead(cl, 16, r - 3, n, acc, rest);
      assert Repeat(acc[|acc| - 1], r) == seq(r, i => acc[|acc| - 1]);
    case Zeros(r) =>
      if r <= 10 { RunRead(cl, 17, r - 3, n, acc, rest); } else { RunRead(cl, 18, r - 11, n, acc, rest); }
      assert Repeat(0, r) == seq(r, i => 0);
  }

  lemma {:induction false} LensRead(cl: seq<nat>, ts: seq<LenToken>, acc: seq<nat>, rest: seq<bool>)
    requires Prefixed(cl) && LensOk(cl, ts) && LensFollow(acc, ts)
    ensures Lengths(cl, LensBits(cl, ts) + rest, |SpellLens(acc, ts)|, acc) == Ok(SpellLens(acc, ts), rest)
    decreases |ts|
  {
    hide Prefixed, LenTokenBits;
    if ts == [] {
      assert LensBits(cl, ts) + rest == rest;
    } else {
      hide Lengths;
      var more := LensBits(cl, ts[1..]) + rest;
      assert LensBits(cl, ts) + rest == LenTokenBits(cl, ts[0]) + more;
      OneLenRead(cl, ts[0], |SpellLens(acc, ts)|, acc, more);
      LensRead(cl, ts[1..], SpellLen(acc, ts[0]), rest);
    }
  }

  // ---------- the code length code ----------

  /** The symbol whose length comes in place k: 16 to 18, then 0, then from 8 on upwards and downwards in turn. */
  function OrderAt(k: nat): (s: nat)
    requires k < 19
    ensures s < 19
  {
    if k < 3 then 16 + k else if k == 3 then 0 else if k % 2 == 0 then 8 + (k - 4) / 2 else 8 - (k - 3) / 2
  }

  /** The place of symbol s. */
  function PlaceOf(s: nat): (k: nat)
    requires s < 19
    ensures k < 19 && OrderAt(k) == s
  {
    if s >= 16 then s - 16 else if s == 0 then 3 else if s >= 8 then 4 + 2 * (s - 8) else 3 + 2 * (8 - s)
  }

  lemma OrderIs(k: nat)
    requires k < 19
    ensures Order[k] == OrderAt(k)
  {
  }

  lemma PlaceIff(s: nat, k: nat)
    requires s < 19 && k < 19
    ensures PlaceOf(s) == k <==> OrderAt(k) == s
  {
  }

  lemma NoneRead(bits: seq<bool>)
    ensures CodeLens(bits, 0) == Repeat(0, 19)
  {
  }

  function ClBits(cl: seq<nat>, nb: nat): (r: seq<bool>)
    requires |cl| == 19 && nb <= 19
    ensures |r| == 3 * nb
  {
    if nb == 0 then [] else ClBits(cl, nb - 1) + LsbBits(cl[OrderAt(nb - 1)], 3)
  }

  /** The lengths fit into three bits, and those from place nb on are zero. */
  predicate ClOk(cl: seq<nat>, nb: nat) {
    |cl| == 19 && nb <= 19 && forall s :: 0 <= s < 19 ==> cl[s] < 8 && (PlaceOf(s) >= nb ==> cl[s] == 0)
  }

  lemma ClStep(cl: seq<nat>, nb: nat, rest: seq<bool>, j: nat)
    requires ClOk(cl, nb) && j < nb
    ensures var bits := ClBits(cl, nb) + rest;
            CodeLens(bits, j + 1) == CodeLens(bits, j)[OrderAt(j) := cl[OrderAt(j)]]
  {
    hide OrderAt, PlaceOf, ClBits, LsbBits, Lsb, Pow2;
    var bits := ClBits(cl, nb) + rest;
    OrderIs(j);
    ClAt(cl, nb, j);
    assert bits[3 * j..3 * (j + 1)] == ClBits(cl, nb)[3 * j..3 * j + 3];
    Powers();
    LsbOfBits(cl[OrderAt(j)], 3);
  }

  lemma {:induction false} ClRead(cl: seq<nat>, nb: nat, rest: seq<bool>, j: nat)
    requires ClOk(cl, nb) && j <= nb && |cl| == 19 && nb <= 19
    ensures var r := CodeLens(ClBits(cl, nb) + rest, j);
            forall s :: 0 <= s < 19 ==> r[s] == if PlaceOf(s) < j then cl[s] else 0
  {
    hide CodeLens, OrderAt, PlaceOf, ClBits, ClOk;
    if j == 0 {
      NoneRead(ClBits(cl, nb) + rest);
    } else {
      ClRead(cl, nb, rest, j - 1);
      ClStep(cl, nb, rest, j - 1);
      forall s | 0 <= s < 19
        ensures CodeLens(ClBits(cl, nb) + rest, j)[s] == if PlaceOf(s) < j then cl[s] else 0
      {
        PlaceIff(s, j - 1);
      }
    }
  }

  lemma {:induction false} ClAt(cl: seq<nat>, nb: nat, j: nat)
    requires |cl| == 19 && j < nb <= 19
    ensures ClBits(cl, nb)[3 * j..3 * j + 3] == LsbBits(cl[OrderAt(j)], 3)
    decreases nb
  {
    if j < nb - 1 {
      hide OrderAt, LsbBits;
      ClAt(cl, nb - 1, j);
      var p := ClBits(cl, nb - 1);
      assert 3 * j + 3 <= |p| && (p + LsbBits(cl[OrderAt(nb - 1)], 3))[3 * j..3 * j + 3] == p[3 * j..3 * j + 3];
    }
  }

  // ---------- the fixed codes ----------

  /** The code words that section 3.2.6 of RFC 1951 lists. */
  function FixedWord(s: nat): seq<bool>
    requires s < 288
  {
    if s < 144 then MsbBits(0x30 + s, 8)
    else if s < 256 then MsbBits(0x190 + (s - 144), 9)
    else if s < 280 then MsbBits(s - 256, 7)
    else MsbBits(0xC0 + (s - 280), 8)
  }

  lemma {:induction false} CountRun(a: seq<nat>, x: nat, n: nat, m: nat)
    requires m > 0
    ensures Count(a + Repeat(x, n), m) == Count(a, m) + if x == m then n else 0
    decreases n
  {
    if n == 0 {
      assert a + Repeat(x, 0) == a;
    } else {
      var s := a + Repeat(x, n);
      assert s[..|s| - 1] == a + Repeat(x, n - 1);
      CountRun(a, x, n - 1, m);
    }
  }

  /** The lengths of the symbols before s. */
  lemma FixedBefore(s: nat)
    requires s <= 288
    ensures var p := FixedLit()[..s];
            && Count(p, 7) == (if s < 256 then 0 else if s < 280 then s - 256 else 24)
            && Count(p, 8) == (if s < 144 then s else if s < 280 then 144 else s - 136)
            && Count(p, 9) == (if s < 144 then 0 else if s < 256 then s - 144 else 112)
            && (forall m :: 0 < m < 7 ==> Count(p, m) == 0)
  {
    forall m | 0 < m <= 9
      ensures Count(FixedLit()[..s], m) ==
              (if m == 8 then (if s < 144 then s else 144) else 0) + (if m == 9 && s > 144 then (if s < 256 then s - 144 else 112) else 0) +
              (if m == 7 && s > 256 then (if s < 280 then s - 256 else 24) else 0) + (if m == 8 && s > 280 then s - 280 else 0)
    {
      FixedCount(s, m);
    }
  }

  lemma FixedCount(s: nat, m: nat)
    requires s <= 288 && 0 < m
    ensures Count(FixedLit()[..s], m) ==
            (if m == 8 then (if s < 144 then s else 144) else 0) + (if m == 9 && s > 144 then (if s < 256 then s - 144 else 112) else 0) +
            (if m == 7 && s > 256 then (if s < 280 then s - 256 else 24) else 0) + (if m == 8 && s > 280 then s - 280 else 0)
  {
    var a := if s < 144 then s else 144;
    var b := if s < 144 then 0 else if s < 256 then s - 144 else 112;
    var c := if s < 256 then 0 else if s < 280 then s - 256 else 24;
    var d := if s < 280 then 0 else s - 280;
    assert FixedLit()[..s] == [] + Repeat(8, a) + Repeat(9, b) + Repeat(7, c) + Repeat(8, d);
    CountRun([], 8, a, m);
    CountRun([] + Repeat(8, a), 9, b, m);
    CountRun([] + Repeat(8, a) + Repeat(9, b), 7, c, m);
    CountRun([] + Repeat(8, a) + Repeat(9, b) + Repeat(7, c), 8, d, m);
  }

  lemma FixedFirst()
    ensures FirstCode(FixedLit(), 7) == 0 && FirstCode(FixedLit(), 8) == 48 && FirstCode(FixedLit(), 9) == 400
  {
    hide FixedLit;
    var b := FixedLit();
    FixedLength();
    FixedBefore(288);
    assert b[..288] == b;
    assert FirstCode(b, 1) == 0;
    assert FirstCode(b, 2) == 0;
    assert FirstCode(b, 3) == 0;
    assert FirstCode(b, 4) == 0;
    assert FirstCode(b, 5) == 0;
    assert FirstCode(b, 6) == 0;
    assert FirstCode(b, 7) == 0;
    assert FirstCode(b, 8) == 48;
  }

  lemma FixedLength()
    ensures |FixedLit()| == 288
    ensures forall s :: 0 <= s < 288 ==> FixedLit()[s] == if s < 144 then 8 else if s < 256 then 9 else if s < 280 then 7 else 8
  {
  }

  /** The fixed lengths give every symbol the code word that the format lists. */
  lemma FixedWordIs(s: nat)
    requires s < 288
    ensures |FixedLit()| == 288 && Word(FixedLit(), s) == FixedWord(s)
  {
    hide FixedLit, Count, FirstCode, MsbBits;
    FixedLength();
    FixedFirst();
    FixedBefore(s);
  }

  lemma FixedDistIs(s: nat)
    requires s < 30
    ensures |FixedDist()| == 30 && Word(FixedDist(), s) == MsbBits(s, 5)
  {
    hide Count, MsbBits, FirstCode;
    var b := FixedDist();
    assert b[..s] == [] + Repeat(5, s);
    CountRun([], 5, s, 5);
    CountNone(5);
    ZeroFirst(b, 5);
  }

  lemma CountNone(m: nat)
    ensures Count([], m) == 0
  {
  }

  /** As long as no word is shorter, the first code is zero. */
  lemma {:induction false} ZeroFirst(b: seq<nat>, m: nat)
    requires b == Repeat(5, 30) && m <= 5
    ensures FirstCode(b, m) == 0
  {
    if m > 0 {
      ZeroFirst(b, m - 1);
      if m > 1 {
        CountRun([], 5, 30, m - 1);
        assert [] + Repeat(5, 30) == b;
      }
    }
  }

  predicate FixedOk(t: Token) { if t.Literal? then t.byte < 256 else 3 <= t.len <= 258 && 1 <= t.dist <= 32768 }

  predicate AllFixedOk(ts: seq<Token>) { forall i :: 0 <= i < |ts| ==> FixedOk(ts[i]) }

  function FixedTokenBits(t: Token): seq<bool>
    requires FixedOk(t)
  {
    match t
    case Literal(b) => FixedWord(b)
    case Copy(n, d) =>
      LengthNamed(n);
      FixedWord(257 + LengthCode(n).index) + LengthCode(n).extra + MsbBits(DistanceCode(d).index, 5) + DistanceCode(d).extra
  }

  function FixedBits(ts: seq<Token>): seq<bool>
    requires AllFixedOk(ts)
  {
    if ts == [] then FixedWord(256) else FixedTokenBits(ts[0]) + FixedBits(ts[1..])
  }

  lemma FixedTokenSame(t: Token)
    requires FixedOk(t)
    ensures TokenOk(FixedLit(), FixedDist(), t) && FixedTokenBits(t) == TokenBits(FixedLit(), FixedDist(), t)
  {
    hide FixedLit, FixedDist, Word, FixedWord, LengthCode, DistanceCode, MsbBits;
    FixedLength();
    match t
    case Literal(b) => FixedWordIs(b);
    case Copy(n, d) =>
      LengthNamed(n);
      DistanceNamed(d);
      FixedDistFacts();
      FixedWordIs(257 + LengthCode(n).index);
      FixedDistIs(DistanceCode(d).index);
  }

  lemma {:induction false} FixedSame(ts: seq<Token>)
    requires AllFixedOk(ts)
    ensures TokensOk(FixedLit(), FixedDist(), ts) && FixedBits(ts) == TokensBits(FixedLit(), FixedDist(), ts)
    decreases |ts|
  {
    hide FixedLit, FixedDist, Word, FixedWord, TokenOk, TokenBits, FixedTokenBits;
    FixedLength();
    FixedWordIs(256);
    if ts != [] {
      FixedTokenSame(ts[0]);
      FixedSame(ts[1..]);
    }
    forall i | 0 <= i < |ts|
      ensures TokenOk(FixedLit(), FixedDist(), ts[i])
    {
      FixedTokenSame(ts[i]);
    }
  }

  // ---------- blocks ----------

  /** What one block is made from: bytes to be stored, tokens for the fixed codes, or tokens for codes of their own, with the lengths of
      the codes, the tokens that these lengths are written with, and the code for those. */
  datatype Part =
    | Plain(bytes: seq<nat>)
    | WithFixed(tokens: seq<Token>)
    | WithOwn(ll: seq<nat>, dl: seq<nat>, cl: seq<nat>, nb: nat, lens: seq<LenToken>, tokens: seq<Token>)

  predicate AreBytes(s: seq<nat>) { forall i :: 0 <= i < |s| ==> s[i] < 256 }

  ghost predicate HeaderOk(p: Part)
    requires p.WithOwn?
  {
    && 257 <= |p.ll| <= 286 && 1 <= |p.dl| <= 30 && 4 <= p.nb <= 19 && ClOk(p.cl, p.nb)
    && CodeOk(p.cl) && MaxLen(p.cl) > 0 && CodeOk(p.ll) && CodeOk(p.dl)
    && LensOk(p.cl, p.lens) && LensFollow([], p.lens) && SpellLens([], p.lens) == p.ll + p.dl
  }

  ghost predicate PartOk(p: Part, out: seq<nat>) {
    match p
    case Plain(bytes) => |bytes| <= 0xFFFF && AreBytes(bytes)
    case WithFixed(ts) => AllFixedOk(ts) && AllReach(out, ts)
    case WithOwn(ll, dl, _, _, _, ts) => HeaderOk(p) && TokensOk(ll, dl, ts) && AllReach(out, ts)
  }

  function SpellPart(out: seq<nat>, p: Part): seq<nat>
    requires !p.Plain? ==> AllReach(out, p.tokens)
  {
    match p
    case Plain(bytes) => out + bytes
    case WithFixed(ts) => SpellAll(out, ts)
    case WithOwn(_, _, _, _, _, ts) => SpellAll(out, ts)
  }

  /** Bits up to the next byte boundary. */
  function Padding(pos: nat): (r: seq<bool>)
    ensures (pos + |r|) % 8 == 0 && |r| < 8
  {
    seq((8 - pos % 8) % 8, i => false)
  }

  function PlainBits(bytes: seq<nat>, pos: nat): seq<bool>
    requires |bytes| <= 0xFFFF
  {
    Padding(pos) + LsbBits(|bytes|, 16) + LsbBits(0xFFFF - |bytes|, 16) + ByteStream(bytes)
  }

  ghost function OwnBits(p: Part): seq<bool>
    requires p.WithOwn? && HeaderOk(p) && TokensOk(p.ll, p.dl, p.tokens)
  {
    LsbBits(|p.ll| - 257, 5) + LsbBits(|p.dl| - 1, 5) + LsbBits(p.nb - 4, 4) +
    (ClBits(p.cl, p.nb) + (LensBits(p.cl, p.lens) + TokensBits(p.ll, p.dl, p.tokens)))
  }

  /** A block that starts at bit pos of the stream. */
  ghost function PartBits(p: Part, out: seq<nat>, last: bool, pos: nat): (r: seq<bool>)
    requires PartOk(p, out)
    ensures |r| >= 3 && r[0] == last
  {
    [last] +
    match p
    case Plain(bytes) => LsbBits(0, 2) + PlainBits(bytes, pos + 3)
    case WithFixed(ts) => LsbBits(1, 2) + FixedBits(ts)
    case WithOwn(_, _, _, _, _, _) => LsbBits(2, 2) + OwnBits(p)
  }

  lemma {:induction false} BytesRead(bytes: seq<nat>, rest: seq<bool>)
    requires AreBytes(bytes)
    ensures |ByteStream(bytes)| == 8 * |bytes| && BytesOf(ByteStream(bytes) + rest, |bytes|) == bytes
    decreases |bytes|
  {
    StreamLength(bytes);
    if bytes != [] {
      var more := ByteStream(bytes[1..]) + rest;
      var bits := ByteStream(bytes) + rest;
      assert bits == LsbBits(bytes[0], 8) + more;
      assert bits[..8] == LsbBits(bytes[0], 8) && bits[8..] == more;
      Powers();
      LsbOfBits(bytes[0], 8);
      BytesRead(bytes[1..], rest);
    }
  }

  lemma Sixteen()
    ensures Pow2(16) == 0x1_0000
  {
    Powers();
  }

  lemma PlainRead(bytes: seq<nat>, pos: nat, rest: seq<bool>, out: seq<nat>)
    requires |bytes| <= 0xFFFF && AreBytes(bytes) && (pos + |PlainBits(bytes, pos) + rest|) % 8 == 0
    ensures Stored(PlainBits(bytes, pos) + rest, out) == Ok(out + bytes, rest)
  {
    hide LsbBits, Lsb, ByteStream, BytesOf, Pow2;
    var n, pad := |bytes|, Padding(pos);
    var x, y, data := LsbBits(n, 16), LsbBits(0xFFFF - n, 16), ByteStream(bytes) + rest;
    var b := x + y + data;
    var bits := PlainBits(bytes, pos) + rest;
    assert bits == pad + b;
    Aligned(pos, |pad|, |b|);
    assert bits[|bits| % 8..] == b;
    assert b[..16] == x && b[16..32] == y && b[32..] == data;
    Sixteen();
    LsbOfBits(n, 16);
    LsbOfBits(0xFFFF - n, 16);
    BytesRead(bytes, rest);
    assert data[8 * n..] == rest;
    assert b[32 + 8 * n..] == data[8 * n..];
  }

  lemma Aligned(pos: nat, pad: nat, n: nat)
    requires (pos + pad) % 8 == 0 && pad < 8 && (pos + (pad + n)) % 8 == 0
    ensures (pad + n) % 8 == pad
  {
  }

  lemma OwnRead(p: Part, rest: seq<bool>, out: seq<nat>)
    requires p.WithOwn? && PartOk(p, out)
    ensures Deflate.Dynamic(OwnBits(p) + rest, out) == Ok(SpellAll(out, p.tokens), rest)
  {
    hide LsbBits, Lsb, Pow2, CodeLens, ClBits, LensBits, TokensBits, WithCodeLens, HeaderOk, TokensOk;
    HeaderParts(p);
    var x, y, z := LsbBits(|p.ll| - 257, 5), LsbBits(|p.dl| - 1, 5), LsbBits(p.nb - 4, 4);
    var body := LensBits(p.cl, p.lens) + TokensBits(p.ll, p.dl, p.tokens) + rest;
    var cls := ClBits(p.cl, p.nb);
    var bits := OwnBits(p) + rest;
    assert bits == x + y + z + (cls + body);
    assert bits[..5] == x && bits[5..10] == y && bits[10..14] == z && bits[14..] == cls + body;
    Powers();
    LsbOfBits(|p.ll| - 257, 5);
    LsbOfBits(|p.dl| - 1, 5);
    LsbOfBits(p.nb - 4, 4);
    assert (cls + body)[3 * p.nb..] == body;
    AllClRead(p.cl, p.nb, body);
    BodyRead(p, rest, out);
  }

  lemma HeaderParts(p: Part)
    requires p.WithOwn? && HeaderOk(p)
    ensures 257 <= |p.ll| <= 286 && 1 <= |p.dl| <= 30 && 4 <= p.nb <= 19 && |p.cl| == 19 && ClOk(p.cl, p.nb) && LensOk(p.cl, p.lens)
  {
  }

  lemma AllClRead(cl: seq<nat>, nb: nat, rest: seq<bool>)
    requires ClOk(cl, nb)
    ensures CodeLens(ClBits(cl, nb) + rest, nb) == cl
  {
    ClRead(cl, nb, rest, nb);
  }

  lemma UsablePrefixed(b: seq<nat>)
    requires CodeOk(b)
    ensures Prefixed(b)
  {
    var y := Unused(b);
  }

  lemma BodyRead(p: Part, rest: seq<bool>, out: seq<nat>)
    requires p.WithOwn? && PartOk(p, out)
    ensures WithCodeLens(p.cl, |p.ll|, |p.dl|, LensBits(p.cl, p.lens) + TokensBits(p.ll, p.dl, p.tokens) + rest, out) ==
            Ok(SpellAll(out, p.tokens), rest)
  {
    hide CodeOk, Prefixed, LensBits, TokensBits, Lengths, TwoCodes, ClOk, LensOk, TokensOk, MaxLen, SpellLens, SpellAll, AllReach;
    var more := TokensBits(p.ll, p.dl, p.tokens) + rest;
    UsablePrefixed(p.cl);
    LensRead(p.cl, p.lens, [], more);
    assert LensBits(p.cl, p.lens) + TokensBits(p.ll, p.dl, p.tokens) + rest == LensBits(p.cl, p.lens) + more;
    assert (p.ll + p.dl)[..|p.ll|] == p.ll && (p.ll + p.dl)[|p.ll|..] == p.dl;
    TwoCodesRead(p.ll, p.dl, p.tokens, rest, out);
  }

  lemma TwoCodesRead(ll: seq<nat>, dl: seq<nat>, ts: seq<Token>, rest: seq<bool>, out: seq<nat>)
    requires CodeOk(ll) && CodeOk(dl) && TokensOk(ll, dl, ts) && AllReach(out, ts)
    ensures TwoCodes(ll, dl, TokensBits(ll, dl, ts) + rest, out) == Ok(SpellAll(out, ts), rest)
  {
    hide CodeOk, Prefixed, TokensBits, Codes, TokenOk;
    UsablePrefixed(ll);
    UsablePrefixed(dl);
    TokensRead(ll, dl, ts, rest, out);
    assert ll[256] <= MaxLen(ll);
  }

  lemma FixedRead(ts: seq<Token>, rest: seq<bool>, out: seq<nat>)
    requires AllFixedOk(ts) && AllReach(out, ts)
    ensures Codes(FixedLit(), FixedDist(), FixedBits(ts) + rest, out) == Ok(SpellAll(out, ts), rest)
  {
    hide FixedLit, FixedDist, Codes, TokensBits, FixedBits, Oversubscribed, MaxLen;
    FixedLitFacts();
    FixedDistFacts();
    FixedSame(ts);
    TokensRead(FixedLit(), FixedDist(), ts, rest, out);
  }

  /** One block of any of the three kinds is read back. */
  lemma PartRead(p: Part, out: seq<nat>, last: bool, pos: nat, rest: seq<bool>)
    requires PartOk(p, out) && (pos + |PartBits(p, out, last, pos) + rest|) % 8 == 0
    ensures Block(PartBits(p, out, last, pos) + rest, out) == Ok(SpellPart(out, p), rest)
  {
    hide LsbBits, Lsb, Stored, Codes, Deflate.Dynamic, OwnBits, FixedBits, PlainBits, HeaderOk, TokensOk, AllFixedOk, AreBytes, Pow2, FixedLit, FixedDist;
    var bits := PartBits(p, out, last, pos) + rest;
    var kind := if p.Plain? then 0 else if p.WithFixed? then 1 else 2;
    Powers();
    LsbOfBits(kind, 2);
    match p
    case Plain(bytes) =>
      var body := PlainBits(bytes, pos + 3) + rest;
      assert bits == [last] + LsbBits(0, 2) + body;
      assert bits[1..3] == LsbBits(0, 2) && bits[3..] == body;
      PlainRead(bytes, pos + 3, rest, out);
    case WithFixed(ts) =>
      var body := FixedBits(ts) + rest;
      assert bits == [last] + LsbBits(1, 2) + body;
      assert bits[1..3] == LsbBits(1, 2) && bits[3..] == body;
      FixedRead(ts, rest, out);
    case WithOwn(_, _, _, _, _, ts) =>
      var body := OwnBits(p) + rest;
      assert bits == [last] + LsbBits(2, 2) + body;
      assert bits[1..3] == LsbBits(2, 2) && bits[3..] == body;
      OwnRead(p, rest, out);
  }

  // ---------- streams ----------

  ghost predicate PartsOk(ps: seq<Part>, out: seq<nat>)
    decreases |ps|
  {
    ps == [] || (PartOk(ps[0], out) && PartsOk(ps[1..], SpellPart(out, ps[0])))
  }

  ghost function SpellParts(out: seq<nat>, ps: seq<Part>): seq<nat>
    requires PartsOk(ps, out)
    decreases |ps|
  {
    if ps == [] then out else SpellParts(SpellPart(out, ps[0]), ps[1..])
  }

  /** The blocks, the last one marked, from bit pos on. */
  ghost function StreamBits(ps: seq<Part>, out: seq<nat>, pos: nat): seq<bool>
    requires PartsOk(ps, out) && ps != []
    decreases |ps|
  {
    var first := PartBits(ps[0], out, |ps| == 1, pos);
    if |ps| == 1 then first else first + StreamBits(ps[1..], SpellPart(out, ps[0]), pos + |first|)
  }

  /** Every stream of stored, fixed and dynamic blocks that is written by the format is read back, whatever follows it in
      its last byte and behind. */
  lemma {:induction false} StreamRead(ps: seq<Part>, out: seq<nat>, pos: nat, rest: seq<bool>)
    requires PartsOk(ps, out) && ps != [] && (pos + |StreamBits(ps, out, pos) + rest|) % 8 == 0
    ensures Decode(StreamBits(ps, out, pos) + rest, out) == Ok(SpellParts(out, ps), rest)
    decreases |ps|
  {
    hide Block, PartBits, SpellPart, HeaderOk, TokensOk, AllFixedOk, AreBytes;
    var first := PartBits(ps[0], out, |ps| == 1, pos);
    if |ps| == 1 {
      PartRead(ps[0], out, true, pos, rest);
    } else {
      var more := StreamBits(ps[1..], SpellPart(out, ps[0]), pos + |first|) + rest;
      assert StreamBits(ps, out, pos) + rest == first + more;
      PartRead(ps[0], out, false, pos, more);
      StreamRead(ps[1..], SpellPart(out, ps[0]), pos + |first|, rest);
    }
  }

  // ---------- every sequence of bytes has a stream ----------

  function Literals(s: seq<nat>): (r: seq<Token>)
    ensures |r| == |s| && forall i :: 0 <= i < |s| ==> r[i] == Literal(s[i])
  {
    seq(|s|, i requires 0 <= i < |s| => Literal(s[i]))
  }

  lemma {:induction false} LiteralsSpell(s: seq<nat>, out: seq<nat>)
    ensures AllReach(out, Literals(s)) && SpellAll(out, Literals(s)) == out + s
    decreases |s|
  {
    if s != [] {
      LiteralsSpell(s[1..], out + [s[0]]);
      assert Literals(s)[1..] == Literals(s[1..]);
      assert out + s == out + [s[0]] + s[1..];
    } else {
      assert out + s == out;
    }
  }

  lemma LiteralsOk(s: seq<nat>)
    requires AreBytes(s)
    ensures PartOk(WithFixed(Literals(s)), [])
  {
    hide AllReach;
    LiteralsSpell(s, []);
  }

  lemma OneBlock(s: seq<nat>)
    requires AreBytes(s)
    ensures PartsOk([WithFixed(Literals(s))], []) && SpellParts([], [WithFixed(Literals(s))]) == s
  {
    hide AllReach, SpellAll, PartOk;
    var ps := [WithFixed(Literals(s))];
    LiteralsOk(s);
    LiteralsSpell(s, []);
    assert [] + s == s && ps[1..] == [];
    assert SpellPart([], ps[0]) == s && PartsOk([], s) && SpellParts(s, []) == s;
  }

  /** One block of literals in the fixed codes: its stream decodes to the bytes that it was made from. */
  lemma BytesRoundTrip(s: seq<nat>, rest: seq<bool>)
    requires AreBytes(s)
    ensures PartsOk([WithFixed(Literals(s))], [])
    ensures var bits := StreamBits([WithFixed(Literals(s))], [], 0);
            |bits + rest| % 8 == 0 ==> Decode(bits + rest, []) == Ok(s, rest)
  {
    hide StreamBits, Decode, PartsOk, SpellParts;
    OneBlock(s);
    var ps := [WithFixed(Literals(s))];
    if |StreamBits(ps, [], 0) + rest| % 8 == 0 { StreamRead(ps, [], 0, rest); }
  }

  // ---------- a dynamic block ----------

  lemma {:induction false} NoneKraft(a: seq<nat>, n: nat, g: nat)
    ensures KraftSum(a + Repeat(0, n), g) == KraftSum(a, g)
    decreases n
  {
    var s := a + Repeat(0, n);
    if n == 0 {
      assert s == a;
    } else {
      assert s[..|s| - 1] == a + Repeat(0, n - 1);
      NoneKraft(a, n - 1, g);
    }
  }

  lemma OneMoreKraft(a: seq<nat>, x: nat, g: nat)
    requires 0 < x <= g
    ensures KraftSum(a + [x], g) == KraftSum(a, g) + Pow2(g - x)
  {
    assert (a + [x])[..|a|] == a;
  }

  /** Codes of one bit for byte 0 and the end of the block, and no distance code. */
  const TwoLens: seq<nat> := [1] + Repeat(0, 255) + [1]
  const SmallCl: seq<nat> := [2, 1] + Repeat(0, 16) + [2]
  const SmallRuns: seq<LenToken> := [One(1), Zeros(138), Zeros(117), One(1), One(0)]

  lemma TwoLensOk()
    ensures CodeOk(TwoLens)
  {
    LongestIs(TwoLens, 1);
    OneMoreKraft([], 1, 1);
    assert [] + [1] == [1];
    NoneKraft([1], 255, 1);
    OneMoreKraft([1] + Repeat(0, 255), 1, 1);
  }

  lemma SmallClOk()
    ensures CodeOk(SmallCl) && MaxLen(SmallCl) > 0
  {
    assert SmallCl[0] == 2;
    LongestIs(SmallCl, 2);
    OneMoreKraft([], 2, 2);
    OneMoreKraft([2], 1, 2);
    assert [] + [2] == [2] && [2] + [1] == [2, 1];
    NoneKraft([2, 1], 16, 2);
    OneMoreKraft([2, 1] + Repeat(0, 16), 2, 2);
    assert Pow2(2) == 4 && Pow2(1) == 2;
  }

  lemma SmallRunsSpell()
    ensures LensFollow([], SmallRuns) && SpellLens([], SmallRuns) == TwoLens + [0]
  {
    var a1 := [1];
    var a2 := a1 + seq(138, i => 0);
    var a3 := a2 + seq(117, i => 0);
    var a4 := a3 + [1];
    var a5 := a4 + [0];
    assert [] + [1] == a1;
    assert SmallRuns[1..] == [Zeros(138), Zeros(117), One(1), One(0)];
    assert [Zeros(138), Zeros(117), One(1), One(0)][1..] == [Zeros(117), One(1), One(0)];
    assert [Zeros(117), One(1), One(0)][1..] == [One(1), One(0)];
    assert [One(1), One(0)][1..] == [One(0)] && [One(0)][1..] == [];
    assert LensFollow(a4, [One(0)]) && SpellLens(a4, [One(0)]) == a5;
    assert LensFollow(a3, [One(1), One(0)]) && SpellLens(a3, [One(1), One(0)]) == a5;
    assert LensFollow(a2, [Zeros(117), One(1), One(0)]) && SpellLens(a2, [Zeros(117), One(1), One(0)]) == a5;
    assert LensFollow(a1, SmallRuns[1..]) && SpellLens(a1, SmallRuns[1..]) == a5;
    assert a3 == [1] + Repeat(0, 255);
  }

  /** There are dynamic blocks: one with codes of one bit and their lengths written with runs of zeros. */
  lemma DynamicWitness(out: seq<nat>)
    ensures var p := WithOwn(TwoLens, [0], SmallCl, 18, SmallRuns, [Literal(0)]);
            PartOk(p, out) && SpellPart(out, p) == out + [0]
  {
    hide CodeOk, MaxLen, LensFollow, SpellLens;
    TwoLensOk();
    SmallClOk();
    SmallRunsSpell();
    NoDistances();
    assert [Literal(0)][1..] == [];
  }

  lemma NoDistances()
    ensures CodeOk([0])
  {
    assert [0] == [] + Repeat(0, 1);
    NoneKraft([], 1, 0);
  }
}
