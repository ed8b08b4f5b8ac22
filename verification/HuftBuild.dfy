/** huft_build of linux/zBoot/inflate.c: from a list of code lengths to linked decoding tables. */
module HuftBuild {
  import opened Bits
  import opened HuffmanCodes
  import opened HuftTables

  // ---------- counting and sorting ----------

  function Zeros(b: seq<nat>): nat {
    if b == [] then 0 else Zeros(b[..|b| - 1]) + if b[|b| - 1] == 0 then 1 else 0
  }

  /** The bit length count table; entry 0 counts the symbols without a code. */
  method CountLengths(b: seq<nat>) returns (c: seq<nat>)
    requires forall i :: 0 <= i < |b| ==> b[i] <= BMAX
    ensures |c| == BMAX + 1 && c[0] == Zeros(b)
    ensures forall m :: 0 < m <= BMAX ==> c[m] == Count(b, m)
  {
    c := seq(BMAX + 1, i => 0);
    var p := 0;
    while p < |b|
      invariant 0 <= p <= |b| && |c| == BMAX + 1 && c[0] == Zeros(b[..p])
      invariant forall m :: 0 < m <= BMAX ==> c[m] == Count(b[..p], m)
    {
      assert b[..p + 1][..p] == b[..p];
      c := c[b[p] := c[b[p]] + 1];
      p := p + 1;
    }
    assert b[..|b|] == b;
  }

  /** Where the symbols of length k begin in the sorted list. */
  function Offset(b: seq<nat>, k: nat): nat {
    if k <= 1 then 0 else Offset(b, k - 1) + Count(b, k - 1)
  }

  lemma {:induction false} OffsetMono(b: seq<nat>, m: nat, k: nat)
    requires 0 < m < k
    ensures Offset(b, m) + Count(b, m) <= Offset(b, k)
    decreases k
  {
    if m < k - 1 { OffsetMono(b, m, k - 1); }
  }

  lemma {:induction false} OffsetAppend(b: seq<nat>, x: nat, k: nat)
    ensures Offset(b + [x], k) == Offset(b, k) + if 0 < x < k then 1 else 0
  {
    assert (b + [x])[..|b|] == b;
    if k > 1 { OffsetAppend(b, x, k - 1); }
  }

  /** The sorted list holds every symbol that has a code. */
  lemma {:induction false} OffsetBound(b: seq<nat>, k: nat)
    ensures Offset(b, k) + Zeros(b) <= |b|
    ensures (forall i :: 0 <= i < |b| ==> b[i] < k) ==> Offset(b, k) + Zeros(b) == |b|
  {
    if b == [] {
      OffsetNone(k);
    } else {
      var n := |b| - 1;
      assert b == b[..n] + [b[n]];
      OffsetAppend(b[..n], b[n], k);
      OffsetBound(b[..n], k);
    }
  }

  lemma {:induction false} OffsetNone(k: nat)
    ensures Offset([], k) == 0
  {
    if k > 1 { OffsetNone(k - 1); }
  }

  lemma CountPrefix(b: seq<nat>, i: nat, m: nat)
    requires i <= |b|
    ensures Count(b[..i], m) <= Count(b, m)
  {
    CountMono(b, i, |b|, m);
    assert b[..|b|] == b;
  }

  /** v lists the symbols of b[..i] by length, and within a length in increasing order. */
  ghost predicate SortedUpTo(b: seq<nat>, v: seq<nat>, i: nat)
    requires i <= |b|
  {
    forall m: nat, r: nat :: SortedAt(b, v, i, m, r)
  }

  ghost predicate SortedAt(b: seq<nat>, v: seq<nat>, i: nat, m: nat, r: nat)
    requires i <= |b|
  {
    m > 0 && r < Count(b[..i], m) ==> Offset(b, m) + r < |v| && v[Offset(b, m) + r] == NthSymbol(b[..i], m, r)
  }

  lemma SortStep(b: seq<nat>, v: seq<nat>, i: nat, v': seq<nat>)
    requires i < |b| && b[i] > 0 && |v| == |b| && SortedUpTo(b, v, i)
    requires var at := Offset(b, b[i]) + Count(b[..i], b[i]); at < |v| && v' == v[at := i]
    ensures SortedUpTo(b, v', i + 1)
  {
    var i1 := i + 1;
    assert b[..i1][..i] == b[..i];
    forall m: nat, r: nat
      ensures SortedAt(b, v', i1, m, r)
    {
      if m > 0 && r < Count(b[..i1], m) {
        var k := b[i];
        assert SortedAt(b, v, i, m, r);
        CountPrefix(b, i, m);
        CountPrefix(b, i1, k);
        if m < k { OffsetMono(b, m, k); }
        if k < m { OffsetMono(b, k, m); }
      }
    }
  }

  /** The starting offset for each length. */
  method Offsets(b: seq<nat>, c: seq<nat>, g: nat) returns (x: seq<nat>)
    requires 0 < g <= BMAX && |c| == BMAX + 1
    requires forall m :: 0 < m < g ==> c[m] == Count(b, m)
    ensures |x| == BMAX + 1 && forall m :: 1 <= m <= g ==> x[m] == Offset(b, m)
  {
    x := seq(BMAX + 1, i => 0);
    var j, i := 0, 1;
    while i < g
      invariant 1 <= i <= g && |x| == BMAX + 1 && j == Offset(b, i)
      invariant forall m :: 1 <= m <= i ==> x[m] == Offset(b, m)
    {
      j := j + c[i];
      i := i + 1;
      x := x[i := j];
    }
  }

  /** The symbols sorted by the length of their codes; the places beyond them keep what was there. */
  method SortSymbols(b: seq<nat>, c: seq<nat>, g: nat, v0: seq<nat>) returns (v: seq<nat>)
    requires 0 < g <= BMAX && |c| == BMAX + 1 && |v0| == |b|
    requires forall i :: 0 <= i < |b| ==> b[i] <= g
    requires forall m :: 0 < m < g ==> c[m] == Count(b, m)
    ensures |v| == |b| && SortedUpTo(b, v, |b|)
    ensures forall k :: Offset(b, g + 1) <= k < |b| ==> v[k] == v0[k]
  {
    hide Count, Offset, SortedUpTo;
    var x := Offsets(b, c, g);
    v := v0;
    var i := 0;
    SortNone(b, v);
    while i < |b|
      invariant 0 <= i <= |b| && |x| == BMAX + 1 && |v| == |b|
      invariant forall m :: 1 <= m <= g ==> x[m] == Offset(b, m) + Count(b[..i], m)
      invariant SortedUpTo(b, v, i)
      invariant forall k :: Offset(b, g + 1) <= k < |b| ==> v[k] == v0[k]
    {
      var j := b[i];
      NextCounts(b, i);
      if j != 0 {
        SlotInRange(b, i, g);
        SortStep(b, v, i, v[x[j] := i]);
        v := v[x[j] := i];
        x := x[j := x[j] + 1];
      } else {
        SortSkip(b, v, i);
      }
      i := i + 1;
    }
  }

  lemma NextCounts(b: seq<nat>, i: nat)
    requires i < |b|
    ensures forall m :: 0 < m ==> Count(b[..i + 1], m) == Count(b[..i], m) + if b[i] == m then 1 else 0
  {
    assert b[..i + 1][..i] == b[..i];
  }

  lemma SlotInRange(b: seq<nat>, i: nat, g: nat)
    requires i < |b| && 0 < b[i] <= g
    ensures Offset(b, b[i]) + Count(b[..i], b[i]) < Offset(b, g + 1) <= |b|
  {
    NextCounts(b, i);
    CountPrefix(b, i + 1, b[i]);
    OffsetMono(b, b[i], g + 1);
    OffsetBound(b, g + 1);
  }

  lemma SortNone(b: seq<nat>, v: seq<nat>)
    ensures SortedUpTo(b, v, 0) && forall m :: m > 0 ==> Count(b[..0], m) == 0
  {
    assert b[..0] == [];
  }

  lemma SortSkip(b: seq<nat>, v: seq<nat>, i: nat)
    requires i < |b| && b[i] == 0 && SortedUpTo(b, v, i)
    ensures SortedUpTo(b, v, i + 1)
    ensures forall m :: m > 0 ==> Count(b[..i + 1], m) == Count(b[..i], m)
  {
    var i1 := i + 1;
    assert b[..i1][..i] == b[..i];
    forall m: nat, r: nat
      ensures SortedAt(b, v, i1, m, r)
    {
      assert SortedAt(b, v, i, m, r);
    }
  }

  // ---------- the length check ----------

  /** `y` is what the code lengths leave over at length g; two-valued failure as in the source. */
  method CheckLengths(b: seq<nat>, c: seq<nat>, min: nat, g: nat) returns (y: int)
    requires 0 < min <= g <= BMAX && |c| == BMAX + 1
    requires forall m :: 0 < m <= BMAX ==> c[m] == Count(b, m)
    requires forall m :: 0 < m < min ==> c[m] == 0
    ensures y < 0 <==> KraftSum(b, g) > Pow2(g)
    ensures y >= 0 ==> y == Pow2(g) - KraftSum(b, g) == Left(b, g)
  {
    var j := min;
    y := Pow2(j);
    LeftBefore(b, min);
    LeftIsKraft(b, g);
    while j < g
      invariant min <= j <= g && y == 2 * Left(b, j - 1)
    {
      y := y - c[j];
      if y < 0 {
        LeftStaysNegative(b, j, g);
        return;
      }
      j := j + 1;
      y := 2 * y;
    }
    y := y - c[g];
  }

  lemma {:induction false} LeftBefore(b: seq<nat>, min: nat)
    requires min > 0 && forall m :: 0 < m < min ==> Count(b, m) == 0
    ensures 2 * Left(b, min - 1) == Pow2(min)
  {
    if min > 1 { LeftBefore(b, min - 1); }
  }

  // ---------- the backwards increment ----------

  /** Adding one to a code, most significant bit first; past the last code it starts again at zero. */
  function Inc(s: seq<bool>): (t: seq<bool>)
    ensures |t| == |s|
  {
    if s == [] then []
    else
      var n := |s| - 1;
      if s[n] then Inc(s[..n]) + [false] else s[..n] + [true]
  }

  lemma {:induction false} IncValue(s: seq<bool>)
    ensures Msb(Inc(s)) == if Msb(s) + 1 == Pow2(|s|) then 0 else Msb(s) + 1
  {
    if s != [] {
      var n := |s| - 1;
      IncValue(s[..n]);
      MsbBound(s[..n]);
      if s[n] {
        assert Inc(s)[..n] == Inc(s[..n]);
      } else {
        assert Inc(s)[..n] == s[..n];
      }
    }
  }

  /** If the first n bits change, a carry ran through all the others and left zeros. */
  lemma {:induction false} IncCarry(s: seq<bool>, n: nat)
    requires n <= |s| && Inc(s)[..n] != s[..n]
    ensures forall i :: n <= i < |s| ==> !Inc(s)[i]
  {
    if n < |s| {
      var h := |s| - 1;
      if s[h] {
        assert Inc(s)[..n] == Inc(s[..h])[..n] && s[..n] == s[..h][..n];
        IncCarry(s[..h], n);
      }
    }
  }

  /** The next code of the same length starts where this one ends. */
  lemma IncStart(g: nat, s: seq<bool>)
    requires |s| <= g && Msb(s) + 1 != Pow2(|s|)
    ensures Start(g, Inc(s)) == Start(g, s) + Size(g, |s|)
  {
    IncValue(s);
    StartSucc(g, s, Inc(s));
  }

  /** The last code of a length ends at the end of all strings. */
  lemma IncLast(g: nat, s: seq<bool>)
    requires |s| <= g && Msb(s) + 1 == Pow2(|s|)
    ensures Start(g, s) + Size(g, |s|) == Pow2(g)
    ensures Lsb(Inc(s)) == 0
  {
    StartLast(g, s);
    IncToZero(s);
  }

  lemma {:induction false} IncToZero(s: seq<bool>)
    requires Msb(s) + 1 == Pow2(|s|)
    ensures Lsb(Inc(s)) == 0
  {
    if s != [] {
      var n := |s| - 1;
      MsbBound(s[..n]);
      IncToZero(s[..n]);
      LsbPad(Inc(s[..n]));
    }
  }

  /** i >> n. */
  function Shr(i: nat, n: nat): nat {
    if n == 0 then i else Shr(i / 2, n - 1)
  }

  /** The lowest n bits of i. */
  function Low(i: nat, n: nat): nat {
    if n == 0 then 0 else i % 2 + 2 * Low(i / 2, n - 1)
  }

  lemma {:induction false} LsbSplit(s: seq<bool>, n: nat)
    requires n <= |s|
    ensures Low(Lsb(s), n) == Lsb(s[..n]) && Shr(Lsb(s), n) == Lsb(s[n..])
  {
    if n == 0 {
      assert s[..n] == [] && s[n..] == s;
    } else {
      LsbSplit(s[1..], n - 1);
      assert s[..n][1..] == s[1..][..n - 1] && s[n..] == s[1..][n - 1..];
    }
  }

  /** Bit n of a value. */
  lemma LsbBit(s: seq<bool>, n: nat)
    requires n < |s|
    ensures Shr(Lsb(s), n) % 2 == B(s[n])
  {
    hide Shr, Low, Lsb;
    LsbSplit(s, n);
    LsbFirst(s[n..]);
  }

  lemma LsbFirst(s: seq<bool>)
    requires s != []
    ensures Lsb(s) % 2 == B(s[0])
  {
  }

  /** Changing bit n changes the value by 2^n. */
  lemma {:induction false} LsbChange(s: seq<bool>, n: nat, v: bool)
    requires n < |s| && s[n] != v
    ensures Lsb(s[n := v]) == if v then Lsb(s) + Pow2(n) else Lsb(s) - Pow2(n)
  {
    if n > 0 {
      LsbChange(s[1..], n - 1, v);
      assert s[n := v][1..] == s[1..][n - 1 := v];
    } else {
      assert s[n := v][1..] == s[1..];
    }
  }

  lemma {:induction false} LowNext(x: nat, n: nat)
    ensures Low(x + Pow2(n), n) == Low(x, n)
  {
    if n > 0 {
      LowNext(x / 2, n - 1);
      assert (x + Pow2(n)) / 2 == x / 2 + Pow2(n - 1);
    }
  }

  /** Values with the same low bits are a multiple of 2^n apart. */
  lemma {:induction false} LowGap(x: nat, y: nat, n: nat)
    requires x < y && Low(x, n) == Low(y, n)
    ensures y >= x + Pow2(n)
  {
    if n > 0 {
      LowGap(x / 2, y / 2, n - 1);
    }
  }

  lemma {:induction false} LowSmall(x: nat, n: nat)
    ensures Low(x, n) < Pow2(n)
    ensures x < Pow2(n) ==> Low(x, n) == x
  {
    if n > 0 { LowSmall(x / 2, n - 1); }
  }

  /** The code after the k-bit code i, which is stored with its first bit lowest. */
  method NextCode(i: nat, k: nat, ghost cur: seq<bool>) returns (i': nat)
    requires |cur| == k > 0 && i == Lsb(cur)
    ensures i' == Lsb(Inc(cur))
  {
    i' := i;
    var j := k;               // bit j - 1 is looked at
    ghost var s := cur;
    assert cur[..k] == cur && s[k..] == [];
    while j > 0 && Shr(i', j - 1) % 2 == 1
      invariant 0 <= j <= k && |s| == k && i' == Lsb(s)
      invariant s[..j] == cur[..j]
      invariant Inc(cur) == Inc(cur[..j]) + s[j..]
    {
      LsbBit(s, j - 1);
      LsbChange(s, j - 1, false);
      assert cur[..j][..j - 1] == cur[..j - 1] && cur[..j][j - 1];
      i' := i' - Pow2(j - 1);
      s := s[j - 1 := false];
      j := j - 1;
    }
    if j > 0 {
      LsbBit(s, j - 1);
      LsbChange(s, j - 1, true);
      assert cur[..j][..j - 1] == cur[..j - 1];
      assert Inc(cur) == s[j - 1 := true];
      i' := i' + Pow2(j - 1);
    } else {
      assert Inc(cur) == s;
    }
  }

  // ---------- filling code-like entries ----------

  /** Every 2^n-th place from `first` on gets the entry. */
  method FillEntries(table: seq<Huft>, first: nat, n: nat, e: Huft) returns (table': seq<Huft>)
    requires first < Pow2(n)
    ensures |table'| == |table|
    ensures forall i :: 0 <= i < |table| ==> table'[i] == if Low(i, n) == first then e else table[i]
  {
    table' := table;
    var j := first;
    forall i: nat ensures i < Pow2(n) ==> Low(i, n) == i { LowSmall(i, n); }
    while j < |table|
      invariant Low(j, n) == first && first <= j && |table'| == |table|
      invariant forall i :: 0 <= i < |table| && i >= j ==> table'[i] == table[i]
      invariant forall i :: 0 <= i < |table| && i < j ==> table'[i] == if Low(i, n) == first then e else table[i]
    {
      table' := table'[j := e];
      LowNext(j, n);
      forall i | j < i < j + Pow2(n)
        ensures Low(i, n) != first
      {
        if Low(i, n) == Low(j, n) { LowGap(j, i, n); }
      }
      j := j + Pow2(n);
    }
  }

  lemma FillSpreads(table: seq<Huft>, table': seq<Huft>, width: nat, z: seq<bool>, e: Huft)
    requires |z| <= width && Pow2(width) <= |table| == |table'|
    requires forall i :: 0 <= i < |table| ==> table'[i] == if Low(i, |z|) == Lsb(z) then e else table[i]
    ensures Spread(table, table', width, z, e)
  {
    forall y: seq<bool> | |y| == width
      ensures Lsb(y) < |table| && table'[Lsb(y)] == if z <= y then e else table[Lsb(y)]
    {
      LsbBound(y);
      LsbSplit(y, |z|);
      if Lsb(y[..|z|]) == Lsb(z) { LsbInjective(y[..|z|], z); }
      assert z <= y <==> y[..|z|] == z;
    }
  }

  // ---------- how wide a table must be ----------

  /** Patterns of length m, from the code cv of length k on, that codes of length up to m use up. */
  function Remaining(b: seq<nat>, cv: nat, k: nat, m: nat): int
    requires k <= m
  {
    Used(b, m) - cv * Pow2(m - k)
  }

  lemma RemainingNext(b: seq<nat>, cv: nat, k: nat, m: nat)
    requires k <= m
    ensures Remaining(b, cv, k, m + 1) == 2 * Remaining(b, cv, k, m) + Count(b, m + 1)
  {
    Twice(cv, Pow2(m - k));
  }

  function TableLimit(w: nat, l: nat, g: nat): nat
    requires w <= g
  {
    if g - w > l then l else g - w
  }

  /** The number of bits of the table for a code of length k of which a + 1 codes are left, after w bits. */
  method SizeTable(c: seq<nat>, k: nat, a: nat, w: nat, l: nat, g: nat, ghost b: seq<nat>, ghost cv: nat) returns (j: nat)
    requires w < k <= g <= BMAX && l > 0 && |c| == BMAX + 1
    requires forall m :: 0 < m <= g ==> c[m] == Count(b, m)
    requires a + 1 == Remaining(b, cv, k, k)
    ensures k - w <= j
    ensures k - w < TableLimit(w, l, g) || Pow2(k - w) <= a + 1 ==>
              && (j <= TableLimit(w, l, g) || j == k - w)
              && (j == TableLimit(w, l, g) || Pow2(j) <= Remaining(b, cv, k, w + j))
    ensures k - w >= TableLimit(w, l, g) && Pow2(k - w) > a + 1 ==> j == k - w + 1
  {
    hide Count, Used, Remaining;
    var z := TableLimit(w, l, g);
    j := k - w;
    var f := Pow2(j);
    if f > a + 1 {
      f := f - (a + 1);
      var xp := k;
      j := j + 1;
      while j < z
        invariant k - w < j && xp == w + j - 1 && (k - w < z ==> j <= z) && (k - w >= z ==> j == k - w + 1)
        invariant f == Pow2(j - 1) - Remaining(b, cv, k, w + j - 1) && f > 0
      {
        RemainingNext(b, cv, k, w + j - 1);
        f := 2 * f;
        xp := xp + 1;
        if f <= c[xp] { break; }
        f := f - c[xp];
        j := j + 1;
      }
    }
  }

  /** A table whose patterns the codes use up fits. */
  lemma FitsFrom(job: Job, pre: seq<bool>, cur: seq<bool>, width: nat, looked: nat)
    requires pre <= cur && |cur| <= |pre| + width
    requires forall i :: |pre| <= i < |cur| ==> !cur[i]
    requires Pow2(width) <= Remaining(job.b, Msb(cur), |cur|, |pre| + width)
    ensures Fits(job, Info(pre, width, looked))
  {
    PadValue(pre, cur, width);
    SuccMul(Msb(pre), Msb(pre) + 1, Pow2(width));
  }

  lemma PadValue(pre: seq<bool>, cur: seq<bool>, width: nat)
    requires pre <= cur && |cur| <= |pre| + width
    requires forall i :: |pre| <= i < |cur| ==> !cur[i]
    ensures Msb(cur) * Pow2(|pre| + width - |cur|) == Msb(pre) * Pow2(width)
  {
    var g := |pre| + width;
    ZeroTail(g, cur, |pre|);
    assert cur[..|pre|] == pre;
    assert Start(g, cur) == Start(g, pre);
  }

  /** In a complete code the remaining codes fill the region of any prefix. */
  lemma RegionFull(b: seq<nat>, pre: seq<bool>, cur: seq<bool>)
    requires Complete(b) && pre <= cur && |cur| <= MaxLen(b)
    requires forall i :: |pre| <= i < |cur| ==> !cur[i]
    ensures Remaining(b, Msb(cur), |cur|, MaxLen(b)) >= Pow2(MaxLen(b) - |pre|)
  {
    var g := MaxLen(b);
    ZeroTail(g, cur, |pre|);
    assert cur[..|pre|] == pre;
    StartBound(g, pre);
    CodesUsed(b, g);
    assert Msb(cur) * Pow2(g - |cur|) == Start(g, cur);
  }

  /** n codes of length k or more use up at most n patterns of length k. */
  lemma {:induction false} FewCodes(b: seq<nat>, cv: nat, k: nat, m: nat)
    requires 0 < k <= m && Remaining(b, cv, k, k) <= Count(b, k)
    ensures Remaining(b, cv, k, m) <= (Offset(b, m + 1) - Offset(b, k)) * Pow2(m - k)
    decreases m
  {
    if m == k {
      assert Pow2(0) == 1;
    } else {
      FewCodes(b, cv, k, m - 1);
      RemainingNext(b, cv, k, m - 1);
      FewCodesStep(Remaining(b, cv, k, m - 1), Offset(b, m) - Offset(b, k), Pow2(m - 1 - k), Count(b, m));
    }
  }

  lemma FewCodesStep(rem: int, n: int, u: nat, c: nat)
    requires rem <= n * u && u >= 1
    ensures 2 * rem + c <= (n + c) * (2 * u)
  {
    Twice(n, u);
    Distribute(n, c, 2 * u);
    MulMono(1, 2 * u, c);
  }

  /** Under the condition on the arguments, a code is never more than one level below the current table,
      and a second-level table is never filled by codes of its full l bits. */
  lemma NarrowEnough(job: Job, pre: seq<bool>, cur: seq<bool>, r: nat)
    requires ValidJob(job) && (job.g <= 2 * job.l || |job.b| < Pow2(job.l))
    requires job.l <= |pre| < |cur| <= job.g && pre <= cur
    requires forall i :: |pre| <= i < |cur| ==> !cur[i]
    requires Msb(cur) == FirstCode(job.b, |cur|) + r
    ensures |cur| - |pre| <= job.l && (|cur| - |pre| < job.l || |cur| == job.g)
  {
    var k, w, g := |cur|, |pre|, job.g;
    if g > 2 * job.l {
      RegionFull(job.b, pre, cur);
      FewCodes(job.b, Msb(cur), k, g);
      OffsetBound(job.b, g + 1);
      var n := Offset(job.b, g + 1) - Offset(job.b, k);
      Pow2Add(k - w, g - k);
      Cancel(Pow2(k - w), n, Pow2(g - k));
      if k - w >= job.l { Pow2Mono(job.l, k - w); }
    }
  }

  lemma Cancel(x: int, y: int, u: nat)
    requires x * u <= y * u && u >= 1
    ensures x <= y
  {
    if x > y {
      Distribute(y, x - y, u);
      MulMono(1, x - y, u);
    }
  }
}
