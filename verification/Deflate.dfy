/** The deflate format as sections 3.2.3 to 3.2.7 of RFC 1951 define it: what a bit stream stands for. */
module Deflate {
  import opened Bits
  import opened HuffmanCodes
  import opened HuftBuilder
  import opened SlidingWindow

  /** The bytes a stream decodes to and the bits after it, or no valid data. */
  datatype Result = Ok(out: seq<nat>, rest: seq<bool>) | Bad

  /** Base values and extra bits of the length codes 257 to 285. */
  const LenBase: seq<nat> :=
    [3, 4, 5, 6, 7, 8, 9, 10, 11, 13, 15, 17, 19, 23, 27, 31, 35, 43, 51, 59, 67, 83, 99, 115, 131, 163, 195, 227, 258]
  const LenExtra: seq<nat> := [0, 0, 0, 0, 0, 0, 0, 0, 1, 1, 1, 1, 2, 2, 2, 2, 3, 3, 3, 3, 4, 4, 4, 4, 5, 5, 5, 5, 0]

  /** Base values and extra bits of the distance codes 0 to 29. */
  const DistBase: seq<nat> :=
    [1, 2, 3, 4, 5, 7, 9, 13, 17, 25, 33, 49, 65, 97, 129, 193, 257, 385, 513, 769, 1025, 1537, 2049, 3073, 4097, 6145, 8193, 12289, 16385, 24577]
  const DistExtra: seq<nat> :=
    [0, 0, 0, 0, 1, 1, 2, 2, 3, 3, 4, 4, 5, 5, 6, 6, 7, 7, 8, 8, 9, 9, 10, 10, 11, 11, 12, 12, 13, 13]

  /** The order in which the lengths of the code length code come. */
  const Order: seq<nat> := [16, 17, 18, 0, 8, 7, 9, 6, 10, 5, 11, 4, 12, 3, 13, 2, 14, 1, 15]

  /** The symbol whose code word the bits begin with, or |b| if there is none. */
  ghost function Symbol(b: seq<nat>, bits: seq<bool>): (s: nat)
    ensures s <= |b| && (s < |b| ==> Decodes(b, bits, s)) && (s == |b| ==> forall t :: !Decodes(b, bits, t))
  {
    if exists t: nat :: Decodes(b, bits, t) then var t: nat :| Decodes(b, bits, t); t else |b|
  }

  /** A set of lengths that a stream may use: complete, or a single code of one bit, or none at all. */
  predicate CodeOk(b: seq<nat>) { !Oversubscribed(b) && (MaxLen(b) <= 1 || Unused(b) == 0) }

  /** Codes and extra bits up to the end-of-block code. */
  ghost function Codes(ll: seq<nat>, dl: seq<nat>, bits: seq<bool>, out: seq<nat>): (r: Result)
    ensures r.Ok? ==> |r.rest| <= |bits|
    decreases |bits|
  {
    var s := Symbol(ll, bits);
    if s == |ll| then Bad
    else
      var rest := bits[ll[s]..];
      if s < 256 then Codes(ll, dl, rest, out + [s])
      else if s == 256 then Ok(out, rest)
      else Match(ll, dl, rest, out, s)
  }

  datatype Distance = Far(dist: nat, rest: seq<bool>) | NoDistance

  /** A distance code and its extra bits. */
  ghost function ReadDistance(dl: seq<nat>, bits: seq<bool>): (r: Distance)
    ensures r.Far? ==> r.dist > 0 && |r.rest| < |bits|
  {
    var t := Symbol(dl, bits);
    if t == |dl| || t > 29 then NoDistance
    else
      var after := bits[dl[t]..];
      if |after| < DistExtra[t] then NoDistance
      else Far(DistBase[t] + Lsb(after[..DistExtra[t]]), after[DistExtra[t]..])
  }

  /** A length code was read: its extra bits, the distance, and the copy. */
  ghost function Match(ll: seq<nat>, dl: seq<nat>, bits: seq<bool>, out: seq<nat>, s: nat): (r: Result)
    requires s > 256
    ensures r.Ok? ==> |r.rest| <= |bits|
    decreases |bits|
  {
    if s > 285 || |bits| < LenExtra[s - 257] then Bad
    else
      var le := LenExtra[s - 257];
      match ReadDistance(dl, bits[le..])
      case NoDistance => Bad
      case Far(dist, rest) =>
        if dist > |out| then Bad else Codes(ll, dl, rest, LzCopy(out, dist, LenBase[s - 257] + Lsb(bits[..le])))
  }

  function BytesOf(bits: seq<bool>, n: nat): (r: seq<nat>)
    requires 8 * n <= |bits|
    ensures |r| == n
  {
    if n == 0 then [] else [Lsb(bits[..8])] + BytesOf(bits[8..], n - 1)
  }

  /** A stored block: from the next byte boundary, a length, its complement, and the bytes. */
  function Stored(bits: seq<bool>, out: seq<nat>): (r: Result)
    ensures r.Ok? ==> |r.rest| <= |bits|
  {
    var b := bits[|bits| % 8..];
    if |b| < 32 then Bad
    else
      var n := Lsb(b[..16]);
      if n + Lsb(b[16..32]) != 0xFFFF || |b| < 32 + 8 * n then Bad
      else Ok(out + BytesOf(b[32..], n), b[32 + 8 * n..])
  }

  function Repeat(x: nat, n: nat): (r: seq<nat>)
    ensures |r| == n && forall i :: 0 <= i < n ==> r[i] == x
  {
    seq(n, i => x)
  }

  /** The lengths of the fixed codes. */
  function FixedLit(): seq<nat> { Repeat(8, 144) + Repeat(9, 112) + Repeat(7, 24) + Repeat(8, 8) }

  function FixedDist(): seq<nat> { Repeat(5, 30) }

  /** The lengths of the code length code: nb of them, three bits each, in their own order. */
  function CodeLens(bits: seq<bool>, nb: nat): (r: seq<nat>)
    requires nb <= 19 && 3 * nb <= |bits|
    ensures |r| == 19
  {
    if nb == 0 then Repeat(0, 19)
    else CodeLens(bits, nb - 1)[Order[nb - 1] := Lsb(bits[3 * (nb - 1)..3 * nb])]
  }

  /** n code lengths, themselves coded with runs. */
  ghost function Lengths(cl: seq<nat>, bits: seq<bool>, n: nat, acc: seq<nat>): (r: Result)
    ensures r.Ok? ==> |r.rest| <= |bits| && |r.out| == n
    decreases |bits|
  {
    if |acc| == n then Ok(acc, bits)
    else
      var s := Symbol(cl, bits);
      if s == |cl| then Bad
      else
        var rest := bits[cl[s]..];
        if s < 16 then Lengths(cl, rest, n, acc + [s])
        else if |rest| < RunBits(s) then Bad
        else
          var rep := RunBase(s) + Lsb(rest[..RunBits(s)]);
          if |acc| + rep > n || (s == 16 && acc == []) then Bad
          else Lengths(cl, rest[RunBits(s)..], n, acc + Repeat(if s == 16 then acc[|acc| - 1] else 0, rep))
  }

  /** The repeat counts of codes 16, 17 and 18. */
  function RunBits(s: nat): nat { if s == 16 then 2 else if s == 17 then 3 else 7 }

  function RunBase(s: nat): nat { if s == 18 then 11 else 3 }

  /** A dynamic block: the counts, the code length code, the code lengths, and the codes. */
  ghost function Dynamic(bits: seq<bool>, out: seq<nat>): (r: Result)
    ensures r.Ok? ==> |r.rest| <= |bits|
  {
    if |bits| < 14 then Bad
    else
      var nl, nd, nb := 257 + Lsb(bits[..5]), 1 + Lsb(bits[5..10]), 4 + Lsb(bits[10..14]);
      if nl > 286 || nd > 30 || nb > 19 || |bits[14..]| < 3 * nb then Bad
      else WithCodeLens(CodeLens(bits[14..], nb), nl, nd, bits[14..][3 * nb..], out)
  }

  ghost function WithCodeLens(cl: seq<nat>, nl: nat, nd: nat, bits: seq<bool>, out: seq<nat>): (r: Result)
    ensures r.Ok? ==> |r.rest| <= |bits|
  {
    if !CodeOk(cl) || MaxLen(cl) == 0 then Bad
    else
      var r := Lengths(cl, bits, nl + nd, []);
      if r.Bad? then Bad else TwoCodes(r.out[..nl], r.out[nl..], r.rest, out)
  }

  ghost function TwoCodes(ll: seq<nat>, dl: seq<nat>, bits: seq<bool>, out: seq<nat>): (r: Result)
    ensures r.Ok? ==> |r.rest| <= |bits|
  {
    if !CodeOk(ll) || MaxLen(ll) == 0 || !CodeOk(dl) then Bad else Codes(ll, dl, bits, out)
  }

  ghost function Block(bits: seq<bool>, out: seq<nat>): (r: Result)
    ensures r.Ok? ==> |r.rest| < |bits|
  {
    if |bits| < 3 then Bad
    else
      var t := Lsb(bits[1..3]);
      if t == 0 then Stored(bits[3..], out)
      else if t == 1 then Codes(FixedLit(), FixedDist(), bits[3..], out)
      else if t == 2 then Dynamic(bits[3..], out)
      else Bad
  }

  /** Blocks up to the one marked as the last. */
  ghost function Decode(bits: seq<bool>, out: seq<nat>): (r: Result)
    ensures r.Ok? ==> |r.rest| <= |bits|
    decreases |bits|
  {
    var r := Block(bits, out);
    if r.Bad? then Bad else if bits[0] then r else Decode(r.rest, r.out)
  }

  // ---------- the fixed codes ----------

  lemma {:induction false} RepeatKraft(a: seq<nat>, x: nat, n: nat, g: nat)
    requires 0 < x <= g
    ensures KraftSum(a + Repeat(x, n), g) == KraftSum(a, g) + n * Pow2(g - x)
    decreases n
  {
    if n == 0 {
      assert a + Repeat(x, n) == a;
    } else {
      var s := a + Repeat(x, n);
      assert s[..|s| - 1] == a + Repeat(x, n - 1);
      RepeatKraft(a, x, n - 1, g);
      Distribute(n - 1, 1, Pow2(g - x));
    }
  }

  lemma {:induction false} LongestIs(b: seq<nat>, g: nat)
    requires g in b && forall i :: 0 <= i < |b| ==> b[i] <= g
    ensures MaxLen(b) == g
  {
  }

  lemma FixedLitFacts()
    ensures |FixedLit()| == 288 && MaxLen(FixedLit()) == 9 && !Oversubscribed(FixedLit()) && Unused(FixedLit()) == 0
    ensures forall i :: 0 <= i < 288 ==> FixedLit()[i] <= 9
  {
    var b := FixedLit();
    assert b[144] == 9;
    LongestIs(b, 9);
    var p, q, r := Repeat(8, 144), Repeat(8, 144) + Repeat(9, 112), Repeat(8, 144) + Repeat(9, 112) + Repeat(7, 24);
    RepeatKraft([], 8, 144, 9);
    assert [] + p == p;
    RepeatKraft(p, 9, 112, 9);
    RepeatKraft(q, 7, 24, 9);
    RepeatKraft(r, 8, 8, 9);
    Powers();
  }

  lemma FixedDistFacts()
    ensures |FixedDist()| == 30 && MaxLen(FixedDist()) == 5 && !Oversubscribed(FixedDist()) && Unused(FixedDist()) == 2
    ensures forall i :: 0 <= i < 30 ==> FixedDist()[i] == 5
  {
    var b := FixedDist();
    assert b[0] == 5;
    LongestIs(b, 5);
    RepeatKraft([], 5, 30, 5);
    assert [] + b == b;
    Powers();
  }
}
