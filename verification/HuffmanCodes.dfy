/** Canonical Huffman codes as section 3.2.2 of RFC 1951 assigns them to a list of code lengths. */
module HuffmanCodes {
  import opened Bits

  const BMAX: nat := 16

  /** How many symbols have code length m (symbols of length zero have no code). */
  function Count(b: seq<nat>, m: nat): nat {
    if b == [] || m == 0 then 0
    else Count(b[..|b| - 1], m) + if b[|b| - 1] == m then 1 else 0
  }

  function MaxLen(b: seq<nat>): (g: nat)
    ensures forall i :: 0 <= i < |b| ==> b[i] <= g
    ensures g > 0 ==> g in b
  {
    if b == [] then 0
    else
      var g := MaxLen(b[..|b| - 1]);
      if b[|b| - 1] > g then b[|b| - 1] else g
  }

  /** The first code of length m: the running value `code` of RFC 1951. */
  function FirstCode(b: seq<nat>, m: nat): nat {
    if m == 0 then 0 else 2 * (FirstCode(b, m - 1) + Count(b, m - 1))
  }

  /** The position of symbol s among the symbols of its length. */
  function Rank(b: seq<nat>, s: nat): nat
    requires s < |b|
  {
    Count(b[..s], b[s])
  }

  function Code(b: seq<nat>, s: nat): nat
    requires s < |b|
  {
    FirstCode(b, b[s]) + Rank(b, s)
  }

  /** The bits of symbol s in the order in which the stream delivers them. */
  function Word(b: seq<nat>, s: nat): (w: seq<bool>)
    requires s < |b|
    ensures |w| == b[s]
  {
    MsbBits(Code(b, s), b[s])
  }

  /** Bit patterns of length m that no shorter or equally long code uses. */
  function Left(b: seq<nat>, m: nat): int {
    if m == 0 then 1 else 2 * Left(b, m - 1) - Count(b, m)
  }

  /** The Kraft sum, in units of 2^-g. */
  function KraftSum(b: seq<nat>, g: nat): nat {
    if b == [] then 0
    else KraftSum(b[..|b| - 1], g) + if 0 < b[|b| - 1] <= g then Pow2(g - b[|b| - 1]) else 0
  }

  /** The lengths leave no pattern over and use none twice. */
  predicate Complete(b: seq<nat>) {
    MaxLen(b) > 0 && Left(b, MaxLen(b)) == 0
  }

  /** No pattern is used twice. */
  predicate Prefixed(b: seq<nat>) { Left(b, MaxLen(b)) >= 0 }

  lemma {:induction false} LeftAppend(b: seq<nat>, m: nat, j: nat)
    ensures Left(b + [m], j) == Left(b, j) - if 0 < m <= j then Pow2(j - m) else 0
  {
    assert (b + [m])[..|b|] == b;
    if j > 0 {
      LeftAppend(b, m, j - 1);
    }
  }

  /** The patterns left over are what the Kraft sum leaves. */
  lemma {:induction false} LeftIsKraft(b: seq<nat>, g: nat)
    ensures Left(b, g) == Pow2(g) - KraftSum(b, g)
  {
    if b == [] {
      LeftOfNone(g);
    } else {
      var n := |b| - 1;
      assert b == b[..n] + [b[n]];
      LeftAppend(b[..n], b[n], g);
      LeftIsKraft(b[..n], g);
    }
  }

  lemma {:induction false} LeftOfNone(g: nat)
    ensures Left([], g) == Pow2(g)
  {
    if g > 0 { LeftOfNone(g - 1); }
  }

  /** Once too many codes have been handed out, no longer length can make up for it. */
  lemma {:induction false} LeftStaysNegative(b: seq<nat>, m: nat, n: nat)
    requires m <= n && Left(b, m) < 0
    ensures Left(b, n) < 0
    decreases n
  {
    if m < n { LeftStaysNegative(b, m, n - 1); }
  }

  lemma CompletePrefixed(b: seq<nat>)
    requires Complete(b)
    ensures Prefixed(b)
  {
  }

  lemma LeftNonNegative(b: seq<nat>, m: nat)
    requires Prefixed(b) && m <= MaxLen(b)
    ensures Left(b, m) >= 0
  {
    if Left(b, m) < 0 { LeftStaysNegative(b, m, MaxLen(b)); }
  }

  /** The end of the codes of length m, counted from the other side. */
  lemma {:induction false} CodesUsed(b: seq<nat>, m: nat)
    ensures FirstCode(b, m) + Count(b, m) == Pow2(m) - Left(b, m)
  {
    if m > 0 { CodesUsed(b, m - 1); }
  }

  /** Symbols of one length are numbered in order. */
  lemma {:induction false} CountMono(b: seq<nat>, i: nat, j: nat, m: nat)
    requires i <= j <= |b|
    ensures Count(b[..i], m) <= Count(b[..j], m)
    decreases j
  {
    if i < j {
      CountMono(b, i, j - 1, m);
      assert b[..j][..j - 1] == b[..j - 1];
    }
  }

  lemma RankLess(b: seq<nat>, s: nat, t: nat)
    requires s < t < |b| && b[s] == b[t] > 0
    ensures Rank(b, s) < Rank(b, t)
  {
    assert b[..s + 1][..s] == b[..s];
    CountMono(b, s + 1, t, b[s]);
  }

  lemma RankBound(b: seq<nat>, s: nat)
    requires s < |b| && b[s] > 0
    ensures Rank(b, s) < Count(b, b[s])
  {
    assert b[..s + 1][..s] == b[..s];
    CountMono(b, s + 1, |b|, b[s]);
    assert b[..|b|] == b;
  }

  lemma CodeBound(b: seq<nat>, s: nat)
    requires Prefixed(b) && s < |b| && b[s] > 0
    ensures Code(b, s) < Pow2(b[s])
    ensures Msb(Word(b, s)) == Code(b, s)
  {
    RankBound(b, s);
    CodesUsed(b, b[s]);
    LeftNonNegative(b, b[s]);
    MsbOfBits(Code(b, s), b[s]);
  }

  /** All codes of length m come before all codes of a longer length n. */
  lemma {:induction false} LengthsInOrder(b: seq<nat>, g: nat, m: nat, n: nat)
    requires m < n <= g
    ensures (FirstCode(b, m) + Count(b, m)) * Pow2(g - m) <= FirstCode(b, n) * Pow2(g - n)
    decreases n
  {
    var used := FirstCode(b, n - 1) + Count(b, n - 1);
    Twice(used, Pow2(g - n));
    assert used * Pow2(g - (n - 1)) == FirstCode(b, n) * Pow2(g - n);
    if m < n - 1 {
      LengthsInOrder(b, g, m, n - 1);
      Distribute(FirstCode(b, n - 1), Count(b, n - 1), Pow2(g - (n - 1)));
      assert Count(b, n - 1) * Pow2(g - (n - 1)) >= 0;
    }
  }

  /** No code word is a prefix of another. */
  lemma PrefixFree(b: seq<nat>, s: nat, t: nat)
    requires Prefixed(b) && s < |b| && t < |b| && b[s] > 0 && b[t] > 0
    requires Word(b, s) <= Word(b, t)
    ensures s == t
  {
    if b[s] == b[t] {
      CodeBound(b, s);
      CodeBound(b, t);
      assert Word(b, s) == Word(b, t);
      if s < t { RankLess(b, s, t); }
      if t < s { RankLess(b, t, s); }
    } else {
      ShorterFirst(b, s, t);
      PrefixIff(MaxLen(b), Word(b, s), Word(b, t));
    }
  }

  /** All strings that begin with a shorter code word come before those that begin with a longer one. */
  lemma ShorterFirst(b: seq<nat>, s: nat, t: nat)
    requires Prefixed(b) && s < |b| && t < |b| && 0 < b[s] < b[t]
    ensures Start(MaxLen(b), Word(b, s)) + Size(MaxLen(b), b[s]) <= Start(MaxLen(b), Word(b, t))
  {
    hide Prefixed, MaxLen, Pow2, Count, FirstCode, Rank, Word, Msb;
    var g := MaxLen(b);
    CodeBound(b, s);
    CodeBound(b, t);
    RankBound(b, s);
    LengthsInOrder(b, g, b[s], b[t]);
    MulChain(Code(b, s), FirstCode(b, b[s]) + Count(b, b[s]), Pow2(g - b[s]), FirstCode(b, b[t]), Rank(b, t), Pow2(g - b[t]));
  }

  lemma MulChain(c: nat, used: nat, x: nat, first: nat, rank: nat, y: nat)
    requires c < used && used * x <= first * y
    ensures c * x + x <= (first + rank) * y
  {
    MulLess(c, used, x);
    Distribute(first, rank, y);
    assert rank * y >= 0;
  }

  /** The symbol of length k whose rank is r. */
  function NthSymbol(b: seq<nat>, k: nat, r: nat): (s: nat)
    requires k > 0 && r < Count(b, k)
    ensures s < |b| && b[s] == k && Rank(b, s) == r
  {
    var n := |b| - 1;
    if b[n] == k && Count(b[..n], k) == r then n
    else
      var s := NthSymbol(b[..n], k, r);
      assert b[..n][..s] == b[..s];
      s
  }

  /** Symbol s is decoded from a stream exactly when its code word comes first. */
  predicate Decodes(b: seq<nat>, stream: seq<bool>, s: nat) {
    s < |b| && b[s] > 0 && Word(b, s) <= stream
  }

  lemma DecodesOnce(b: seq<nat>, stream: seq<bool>, s: nat, t: nat)
    requires Prefixed(b) && Decodes(b, stream, s) && Decodes(b, stream, t)
    ensures s == t
  {
    if b[s] <= b[t] {
      assert Word(b, s) == stream[..b[s]] && Word(b, t) == stream[..b[t]];
      PrefixFree(b, s, t);
    } else {
      PrefixFree(b, t, s);
    }
  }

  /** The r-th code of length k belongs to the r-th symbol of that length. */
  lemma NthWord(b: seq<nat>, cur: seq<bool>, r: nat)
    requires Complete(b) && 0 < |cur| && r < Count(b, |cur|) && Msb(cur) == FirstCode(b, |cur|) + r
    ensures Word(b, NthSymbol(b, |cur|, r)) == cur
  {
    hide Left, Count, FirstCode, NthSymbol, Rank, Word;
    var s := NthSymbol(b, |cur|, r);
    CodeBound(b, s);
    MsbInjective(Word(b, s), cur);
  }

  /** A complete code leaves no stream undecoded: one that is as long as the longest word begins with a word. */
  lemma DecodesSome(b: seq<nat>, stream: seq<bool>) returns (s: nat)
    requires Complete(b) && |stream| >= MaxLen(b)
    ensures Decodes(b, stream, s)
  {
    assert stream[..0] == [];
    s := DecodesFrom(b, stream, 0);
  }

  /** Its first m bits come after all words of fewer than m bits. */
  lemma {:induction false} DecodesFrom(b: seq<nat>, stream: seq<bool>, m: nat) returns (s: nat)
    requires Complete(b) && m <= MaxLen(b) <= |stream| && Msb(stream[..m]) >= FirstCode(b, m)
    ensures Decodes(b, stream, s)
    decreases MaxLen(b) - m
  {
    hide Complete, NthSymbol, Word;
    var r := Msb(stream[..m]) - FirstCode(b, m);
    if r < Count(b, m) {
      s := NthSymbol(b, m, r);
      NthWord(b, stream[..m], r);
    } else {
      LastLength(b, stream, m);
      assert stream[..m + 1][..m] == stream[..m];
      s := DecodesFrom(b, stream, m + 1);
    }
  }

  lemma LastLength(b: seq<nat>, stream: seq<bool>, m: nat)
    requires Complete(b) && m <= MaxLen(b) <= |stream| && Msb(stream[..m]) >= FirstCode(b, m) + Count(b, m)
    ensures m < MaxLen(b)
  {
    if m == MaxLen(b) {
      CodesUsed(b, m);
      MsbBound(stream[..m]);
    }
  }
}
