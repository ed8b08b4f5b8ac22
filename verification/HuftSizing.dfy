/** What the sizing loop of huft_build makes of a region of a complete code: a table of at most l bits that holds
    what it must, or one of more than l bits, and exactly where the latter happens. */
module HuftSizing {
  import opened Bits
  import opened HuffmanCodes
  import opened HuftTables
  import opened HuftBuild

  /** cur is the r-th word of its length and the first one below pre. */
  ghost predicate FirstBelow(job: Job, pre: seq<bool>, cur: seq<bool>, r: nat) {
    && pre <= cur && |pre| < |cur| <= job.g && r < Count(job.b, |cur|)
    && (forall i :: |pre| <= i < |cur| ==> !cur[i])
    && Msb(cur) == FirstCode(job.b, |cur|) + r
  }

  /** No word below the bits is shorter than the first one. */
  lemma FirstShortest(job: Job, pre: seq<bool>, cur: seq<bool>, r: nat, s: nat)
    requires ValidJob(job) && FirstBelow(job, pre, cur, r) && pre != [] && s < |job.b| && pre <= Word(job.b, s)
    ensures job.b[s] >= |cur|
  {
    hide Complete, Prefixed, MaxLen, Count, FirstCode, NthSymbol, Word, Start, Size, ValidAlphabet;
    CompletePrefixed(job.b);
    var s0 := NthSymbol(job.b, |cur|, r);
    NthWord(job.b, cur, r);
    assert cur[..|pre|] == pre;
    ZeroTail(job.g, cur, |pre|);
    if job.b[s] < |cur| {
      StartInside(job.g, pre, Word(job.b, s));
      ShorterFirst(job.b, s, s0);
    }
  }

  /** A word that is below the bits and one that is a prefix of them exclude each other. */
  lemma NotAbove(job: Job, pre: seq<bool>, s: nat, s': nat)
    requires ValidJob(job) && s < |job.b| && s' < |job.b| && 0 < job.b[s'] <= |pre| < job.b[s]
    requires pre <= Word(job.b, s)
    ensures !(Word(job.b, s') <= pre)
  {
    if Word(job.b, s') <= pre {
      assert Word(job.b, s') <= Word(job.b, s);
      PrefixFree(job.b, s', s);
    }
  }

  /** Too few words of the first one's length to fill l bits: there is a longer one. */
  lemma LongerInside(job: Job, pre: seq<bool>, cur: seq<bool>, r: nat) returns (s: nat)
    requires ValidJob(job) && FirstBelow(job, pre, cur, r) && pre != [] && |cur| == |pre| + job.l
    requires Count(job.b, |cur|) - r < Pow2(job.l)
    ensures s < |job.b| && pre <= Word(job.b, s) && job.b[s] > |cur|
  {
    var n, k := Count(job.b, |cur|) - r, |cur|;
    var z := MsbBits(n, job.l);
    var q := pre + z;
    var bits := q + seq(job.g - k, i => false);
    s := DecodesSome(job.b, bits);
    NextValue(job, pre, cur, r, n);
    NotShort(job, pre, cur, r, q, bits, s);
    assert bits[..k] == q && Word(job.b, s)[..k] == bits[..k];
  }

  lemma NextValue(job: Job, pre: seq<bool>, cur: seq<bool>, r: nat, n: nat)
    requires FirstBelow(job, pre, cur, r) && |cur| == |pre| + job.l && n < Pow2(job.l)
    ensures Msb(pre + MsbBits(n, job.l)) == Msb(cur) + n
  {
    hide Pow2, Msb, MsbBits;
    MsbOfBits(n, job.l);
    MsbConcat(pre, MsbBits(n, job.l));
    FirstValue(job, pre, cur, r);
  }

  lemma FirstValue(job: Job, pre: seq<bool>, cur: seq<bool>, r: nat)
    requires FirstBelow(job, pre, cur, r)
    ensures Msb(cur) == Msb(pre) * Pow2(|cur| - |pre|)
  {
    var z := cur[|pre|..];
    assert cur == pre + z;
    MsbConcat(pre, z);
    ZeroTail(|z|, z, 0);
    assert z[..0] == [];
    assert Pow2(0) == 1;
  }

  lemma NotShort(job: Job, pre: seq<bool>, cur: seq<bool>, r: nat, q: seq<bool>, bits: seq<bool>, s: nat)
    requires ValidJob(job) && FirstBelow(job, pre, cur, r) && pre != [] && |q| == |cur| && pre <= q && q <= bits
    requires Msb(q) == FirstCode(job.b, |cur|) + Count(job.b, |cur|)
    requires Decodes(job.b, bits, s)
    ensures job.b[s] > |cur|
  {
    hide Complete, Prefixed, MaxLen, NthSymbol, ValidAlphabet;
    CompletePrefixed(job.b);
    var s0, w := NthSymbol(job.b, |cur|, r), Word(job.b, s);
    NthWord(job.b, cur, r);
    if job.b[s] <= |pre| {
      assert w == bits[..job.b[s]] == pre[..job.b[s]];
      NotAbove(job, pre, s0, s);
    } else {
      assert pre == bits[..|pre|] == w[..|pre|];
      FirstShortest(job, pre, cur, r, s);
      if job.b[s] == |cur| {
        assert w == bits[..|cur|] == q;
        CodeBound(job.b, s);
        RankBound(job.b, s);
      }
    }
  }

  /** Enough words of the first one's length to fill l bits: there is no longer one. */
  lemma FullRegion(job: Job, pre: seq<bool>, cur: seq<bool>, r: nat, s: nat)
    requires ValidJob(job) && FirstBelow(job, pre, cur, r) && |cur| == |pre| + job.l
    requires Count(job.b, |cur|) - r >= Pow2(job.l) && s < |job.b| && pre <= Word(job.b, s)
    ensures job.b[s] <= |cur|
  {
    var k := |cur|;
    if job.b[s] > k {
      var q := Word(job.b, s)[..k];
      var z := q[|pre|..];
      assert q == pre + z;
      MsbConcat(pre, z);
      MsbBound(z);
      FirstValue(job, pre, cur, r);
      NthWord(job.b, q, r + Msb(z));
      PrefixFree(job.b, NthSymbol(job.b, k, r + Msb(z)), s);
    }
  }

  /** The first word is far enough down, and some word is further: the region is a wide one. */
  lemma IsWide(job: Job, pre: seq<bool>, cur: seq<bool>, r: nat, s: nat)
    requires ValidJob(job) && FirstBelow(job, pre, cur, r) && pre != [] && |cur| >= |pre| + job.l
    requires s < |job.b| && pre <= Word(job.b, s) && job.b[s] > |pre| + job.l
    ensures WideRegion(job, pre)
  {
    forall s' | 0 <= s' < |job.b| && pre <= Word(job.b, s')
      ensures job.b[s'] >= |pre| + job.l
    {
      FirstShortest(job, pre, cur, r, s');
    }
  }

  lemma IsNarrow(job: Job, pre: seq<bool>, cur: seq<bool>, r: nat)
    requires ValidJob(job) && FirstBelow(job, pre, cur, r) && pre != []
    requires |cur| < |pre| + job.l || (|cur| == |pre| + job.l && Count(job.b, |cur|) - r >= Pow2(job.l))
    ensures !WideRegion(job, pre)
  {
    hide ValidJob;
    var s0 := NthSymbol(job.b, |cur|, r);
    assert Word(job.b, s0) == cur by { JobComplete(job); NthWord(job.b, cur, r); }
    if |cur| == |pre| + job.l {
      forall s | 0 <= s < |job.b| && pre <= Word(job.b, s)
        ensures job.b[s] <= |pre| + job.l
      {
        FullRegion(job, pre, cur, r, s);
      }
    }
  }

  lemma JobComplete(job: Job)
    requires ValidJob(job)
    ensures Complete(job.b) && job.g == MaxLen(job.b) && job.l > 0
  {
  }

  /** The bits that are filled in a table that looks up j. */
  function Nominal(job: Job, j: nat): nat { if j > job.l then job.l else j }

  /** What the sizing loop chose fits, and is too wide exactly in a wide region. */
  lemma SizeLooks(job: Job, pre: seq<bool>, cur: seq<bool>, r: nat, a: nat, j: nat)
    requires ValidJob(job) && FirstBelow(job, pre, cur, r) && pre != [] && a + 1 == Count(job.b, |cur|) - r
    requires Leveled(job.l, |pre|) && |cur| - |pre| <= j
    requires var z, n := TableLimit(|pre|, job.l, job.g), |cur| - |pre|;
             n < z || Pow2(n) <= a + 1 ==>
               (j <= z || j == n) && (j == z || Pow2(j) <= Remaining(job.b, Msb(cur), |cur|, |pre| + j))
    requires var z, n := TableLimit(|pre|, job.l, job.g), |cur| - |pre|;
             n >= z && Pow2(n) > a + 1 ==> j == n + 1
    ensures 0 < Nominal(job, j) <= job.l && |pre| + Nominal(job, j) <= job.g
    ensures Fits(job, Info(pre, Nominal(job, j), j)) && LookOk(job, Info(pre, Nominal(job, j), j))
  {
    hide Complete, WideRegion, Leveled, Remaining, NthSymbol, Word, MaxLen, ValidAlphabet, Count, FirstCode, Msb, Used;
    var z, n := TableLimit(|pre|, job.l, job.g), |cur| - |pre|;
    var s0 := NthSymbol(job.b, |cur|, r);
    NthWord(job.b, cur, r);
    RegionFull(job.b, pre, cur);
    LastLevel(job, pre, cur, r, a);
    if n > job.l {
      IsWide(job, pre, cur, r, s0);
    } else if n == job.l && Pow2(n) > a + 1 {
      var s := LongerInside(job, pre, cur, r);
      IsWide(job, pre, cur, r, s);
    } else {
      IsNarrow(job, pre, cur, r);
      if j < job.l { FitsFrom(job, pre, cur, j, j); }
    }
  }

  /** Words of the greatest length fill the region. */
  lemma LastLevel(job: Job, pre: seq<bool>, cur: seq<bool>, r: nat, a: nat)
    requires ValidJob(job) && FirstBelow(job, pre, cur, r) && a + 1 == Count(job.b, |cur|) - r
    ensures |cur| == job.g ==> Pow2(job.g - |pre|) <= a + 1
  {
    if |cur| == job.g {
      RegionFull(job.b, pre, cur);
      assert Pow2(0) == 1;
    }
  }
}
