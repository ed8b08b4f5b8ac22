/** huft_build of linux/zBoot/inflate.c as a whole, with its return codes. */
module HuftBuilder {
  import opened Bits
  import opened HuffmanCodes
  import opened HuftTables
  import opened HuftBuild
  import opened HuftSizing
  import opened HuftMake
  import opened HuftWalks

  /** The code lengths with y dummy codes of the greatest length added. */
  function Padded(b: seq<nat>, y: nat, g: nat): seq<nat> {
    b + seq(y, i => g)
  }

  lemma {:induction false} PaddedCounts(b: seq<nat>, y: nat, g: nat, k: nat)
    requires g > 0
    ensures Count(Padded(b, y, g), k) == Count(b, k) + if k == g then y else 0
    ensures k <= g ==> Offset(Padded(b, y, g), k) == Offset(b, k)
    ensures KraftSum(Padded(b, y, g), g) == KraftSum(b, g) + y
    decreases y
  {
    if y == 0 {
      assert Padded(b, y, g) == b;
    } else {
      PaddedCounts(b, y - 1, g, k);
      assert Padded(b, y, g) == Padded(b, y - 1, g) + [g];
      assert Padded(b, y, g)[..|b| + y - 1] == Padded(b, y - 1, g);
      OffsetAppend(Padded(b, y - 1, g), g, k);
    }
  }

  lemma {:induction false} PaddedNth(b: seq<nat>, y: nat, g: nat, k: nat, r: nat)
    requires g > 0 && k > 0 && r < Count(Padded(b, y, g), k)
    ensures r < Count(b, k) ==> NthSymbol(Padded(b, y, g), k, r) == NthSymbol(b, k, r)
    ensures r >= Count(b, k) ==> NthSymbol(Padded(b, y, g), k, r) == |b| + r - Count(b, k)
    decreases y
  {
    if y == 0 {
      assert Padded(b, y, g) == b;
    } else {
      var n := |b| + y - 1;
      assert Padded(b, y, g) == Padded(b, y - 1, g) + [g];
      assert Padded(b, y, g)[..n] == Padded(b, y - 1, g);
      PaddedCounts(b, y - 1, g, k);
      if r < Count(Padded(b, y - 1, g), k) {
        PaddedNth(b, y - 1, g, k, r);
      }
    }
  }

  lemma {:induction false} PaddedMax(b: seq<nat>, y: nat, g: nat)
    requires MaxLen(b) == g
    ensures MaxLen(Padded(b, y, g)) == g
    decreases y
  {
    if y == 0 {
      assert Padded(b, y, g) == b;
    } else {
      PaddedMax(b, y - 1, g);
      assert Padded(b, y, g)[..|b| + y - 1] == Padded(b, y - 1, g);
    }
  }

  lemma {:induction false} PaddedFirst(b: seq<nat>, y: nat, g: nat, m: nat)
    requires 0 < g && m <= g
    ensures FirstCode(Padded(b, y, g), m) == FirstCode(b, m)
  {
    if m > 0 {
      PaddedFirst(b, y, g, m - 1);
      PaddedCounts(b, y, g, m - 1);
    }
  }

  /** Dummy codes do not change the codes of the symbols. */
  lemma PaddedWord(b: seq<nat>, y: nat, g: nat, s: nat)
    requires 0 < g && s < |b| && b[s] <= g
    ensures Word(Padded(b, y, g), s) == Word(b, s)
  {
    PaddedFirst(b, y, g, b[s]);
    assert Padded(b, y, g)[..s] == b[..s];
  }

  predicate Oversubscribed(b: seq<nat>) { KraftSum(b, MaxLen(b)) > Pow2(MaxLen(b)) }

  /** The number of patterns that no code uses. */
  function Unused(b: seq<nat>): (y: nat)
    requires !Oversubscribed(b)
    ensures y == Left(b, MaxLen(b))
  {
    LeftIsKraft(b, MaxLen(b));
    Pow2(MaxLen(b)) - KraftSum(b, MaxLen(b))
  }

  /** The first length from j on that some symbol has. */
  function Shortest(b: seq<nat>, j: nat): (k: nat)
    ensures k >= j && (k <= BMAX ==> Count(b, k) > 0) && forall m :: j <= m < k ==> Count(b, m) == 0
    decreases BMAX + 1 - j
  {
    if j > BMAX || Count(b, j) > 0 then j else Shortest(b, j + 1)
  }

  /** The number of bits looked up at a time: what was asked for, bounded by the lengths. */
  function Lookup(b: seq<nat>, m: nat): nat {
    var l := if m < Shortest(b, 1) then Shortest(b, 1) else m;
    if l > MaxLen(b) then MaxLen(b) else l
  }

  /** What the symbol list holds beyond the symbols that have a code. */
  function Leftover(b: seq<nat>, v0: seq<nat>): (r: seq<nat>)
    requires !Oversubscribed(b) && |v0| == |b|
    ensures |r| == if Unused(b) == 0 then 0 else Zeros(b)
  {
    OffsetBound(b, MaxLen(b) + 1);
    if Unused(b) == 0 then [] else v0[|b| - Zeros(b)..]
  }

  function JobOf(b: seq<nat>, simple: nat, base: seq<nat>, extra: seq<nat>, m: nat, v0: seq<nat>): Job
    requires !Oversubscribed(b) && |v0| == |b|
  {
    Job(Padded(b, Unused(b), MaxLen(b)), Alphabet(|b|, simple, base, extra, Leftover(b, v0)), Lookup(b, m), MaxLen(b))
  }

  /** The tables decode the code of the job, starting with table 0. */
  ghost predicate Built(job: Job, tables: seq<seq<Huft>>) {
    exists info :: |info| > 0 && info[0] == Info([], job.l, job.l) && AllOk(job, tables, info) && Exact(info)
  }

  /** Two levels of tables are enough, or there are too few codes to fill a table of l bits. */
  predicate Sized(job: Job) { job.g <= 2 * job.l || |job.b| < Pow2(job.l) }

  /** Then no table is too wide. */
  lemma SizedNarrow(job: Job)
    requires ValidJob(job) && Sized(job)
    ensures !Overwide(job)
  {
    hide Complete, WideRegion, Pow2;
    forall pre: seq<bool>
      ensures !WideAt(job, pre)
    {
      if WideAt(job, pre) { SizedNotWide(job, pre); }
    }
  }

  lemma SizedNotWide(job: Job, pre: seq<bool>)
    requires ValidJob(job) && Sized(job) && Leveled(job.l, |pre|)
    ensures !WideRegion(job, pre)
  {
    hide Complete, Prefixed, Pow2, Msb, Sized;
    CompletePrefixed(job.b);
    if WideRegion(job, pre) {
      var s :| 0 <= s < |job.b| && pre <= Word(job.b, s) && job.b[s] > |pre| + job.l;
      var s0 := FirstWord(job, pre, s);
      assert Leveled(job.l, 0) by { assert 0 == 0 * job.l; }
      LevelGap(job.l, 0, |pre|);
      CodeBound(job.b, s0);
      SizedNarrowEnough(job, pre, Word(job.b, s0), Rank(job.b, s0));
    }
  }

  lemma SizedNarrowEnough(job: Job, pre: seq<bool>, cur: seq<bool>, r: nat)
    requires ValidJob(job) && Sized(job)
    requires job.l <= |pre| < |cur| <= job.g && pre <= cur
    requires forall i :: |pre| <= i < |cur| ==> !cur[i]
    requires Msb(cur) == FirstCode(job.b, |cur|) + r
    ensures |cur| - |pre| <= job.l && (|cur| - |pre| < job.l || |cur| == job.g)
  {
    NarrowEnough(job, pre, cur, r);
  }

  /** The first word below the bits, when there is one below them at all. */
  lemma FirstWord(job: Job, pre: seq<bool>, s: nat) returns (s0: nat)
    requires ValidJob(job) && s < |job.b| && pre <= Word(job.b, s) && job.b[s] > |pre|
    ensures s0 < |job.b| && pre <= Word(job.b, s0) && |pre| < job.b[s0] <= job.g
    ensures forall i :: |pre| <= i < job.b[s0] ==> !Word(job.b, s0)[i]
  {
    hide Complete;
    var bits := pre + seq(job.g, i => false);
    s0 := DecodesSome(job.b, bits);
    var w := Word(job.b, s0);
    if job.b[s0] <= |pre| {
      assert w == bits[..job.b[s0]] == pre[..job.b[s0]];
      NotAbove(job, pre, s, s0);
    } else {
      assert pre == bits[..|pre|] == w[..|pre|];
    }
  }

  lemma CountPositive(b: seq<nat>, s: nat)
    requires s < |b| && b[s] > 0
    ensures Count(b, b[s]) > 0
  {
    RankBound(b, s);
  }

  lemma MaxIs(b: seq<nat>, g: nat)
    requires forall i :: 0 <= i < |b| ==> b[i] <= BMAX
    requires g <= BMAX && (g > 0 ==> Count(b, g) > 0) && forall m :: g < m <= BMAX ==> Count(b, m) == 0
    ensures MaxLen(b) == g
  {
    if g > 0 {
      var s := NthSymbol(b, g, 0);
    }
    if MaxLen(b) > g {
      var t :| 0 <= t < |b| && b[t] == MaxLen(b);
      CountPositive(b, t);
    }
  }

  lemma {:induction false} ZerosAll(b: seq<nat>)
    ensures Zeros(b) <= |b| && (Zeros(b) == |b| <==> MaxLen(b) == 0)
  {
    if b != [] { ZerosAll(b[..|b| - 1]); }
  }

  lemma JobValid(b: seq<nat>, simple: nat, base: seq<nat>, extra: seq<nat>, m: nat, v0: seq<nat>)
    requires !Oversubscribed(b) && |v0| == |b| && 0 < MaxLen(b) <= BMAX
    requires |b| <= simple + |base| && |extra| == |base|
    ensures ValidJob(JobOf(b, simple, base, extra, m, v0))
    ensures 0 < Shortest(b, 1) <= Lookup(b, m) <= MaxLen(b)
  {
    var g, y := MaxLen(b), Unused(b);
    PaddedMax(b, y, g);
    PaddedCounts(b, y, g, g);
    LeftIsKraft(Padded(b, y, g), g);
    var s :| 0 <= s < |b| && b[s] == g;
    CountPositive(b, s);
  }

  lemma ValuesHold(b: seq<nat>, simple: nat, base: seq<nat>, extra: seq<nat>, m: nat, v0: seq<nat>, v: seq<nat>)
    requires !Oversubscribed(b) && |v0| == |b| == |v| && MaxLen(b) > 0
    requires SortedUpTo(b, v, |b|)
    requires forall k :: Offset(b, MaxLen(b) + 1) <= k < |b| ==> v[k] == v0[k]
    ensures Values(JobOf(b, simple, base, extra, m, v0), v)
  {
    hide Holds, Offset, NthSymbol, Count, Zeros, KraftSum, MaxLen, Pow2, Leftover, SortedUpTo, Lookup, Padded;
    var job := JobOf(b, simple, base, extra, m, v0);
    forall k: nat, r: nat | 0 < k && r < Count(job.b, k)
      ensures Holds(job.al, v, Offset(job.b, k) + r, NthSymbol(job.b, k, r))
    {
      ValueHolds(b, Unused(b), v0, v, job.al, k, r);
    }
  }

  lemma ValueHolds(b: seq<nat>, y: nat, v0: seq<nat>, v: seq<nat>, al: Alphabet, k: nat, r: nat)
    requires !Oversubscribed(b) && |v0| == |b| == |v| && MaxLen(b) > 0 && y == Unused(b)
    requires SortedUpTo(b, v, |b|)
    requires forall k :: Offset(b, MaxLen(b) + 1) <= k < |b| ==> v[k] == v0[k]
    requires al.limit == |b| && al.stale == Leftover(b, v0)
    requires 0 < k && r < Count(Padded(b, y, MaxLen(b)), k)
    ensures Holds(al, v, Offset(Padded(b, y, MaxLen(b)), k) + r, NthSymbol(Padded(b, y, MaxLen(b)), k, r))
  {
    hide Padded, Zeros, KraftSum, Pow2, Left, Count, NthSymbol, MaxLen;
    var g := MaxLen(b);
    PaddedCounts(b, y, g, k);
    PaddedNth(b, y, g, k, r);
    OffsetBound(b, g + 1);
    LongerNone(b, k);
    assert b[..|b|] == b;
    assert SortedAt(b, v, |b|, k, r);
  }

  lemma LongerNone(b: seq<nat>, k: nat)
    ensures k > MaxLen(b) ==> Count(b, k) == 0
  {
    if k > MaxLen(b) && Count(b, k) > 0 {
      var s := NthSymbol(b, k, 0);
    }
  }

  /** What huft_build returns, but for lack of memory. */
  function ReturnCode(b: seq<nat>): nat {
    if MaxLen(b) == 0 then 0
    else if Oversubscribed(b) then 2
    else if Unused(b) > 0 && MaxLen(b) != 1 then 1
    else 0
  }

  /** The first part of huft_build: counts, least and greatest length, look-up bits, and the dummy codes. */
  method Measure(b: seq<nat>, m: nat) returns (code: nat, l: nat, c: seq<nat>, min: nat, g: nat, y: int)
    requires 0 < |b| && forall i :: 0 <= i < |b| ==> b[i] <= BMAX
    ensures code == ReturnCode(b) && (MaxLen(b) == 0 ==> l == 0) && (MaxLen(b) > 0 ==> l == Lookup(b, m))
    ensures MaxLen(b) > 0 ==> g == MaxLen(b) <= BMAX && min == Shortest(b, 1) <= g
    ensures MaxLen(b) > 0 ==> |c| == BMAX + 1 && forall n :: 0 < n <= BMAX ==> c[n] == Count(b, n)
    ensures MaxLen(b) > 0 && !Oversubscribed(b) ==> y == Unused(b)
  {
    hide Count, KraftSum, Pow2, MaxLen, Zeros;
    code, l, min, g, y := 0, 0, 0, 0, 0;
    c := CountLengths(b);
    ZerosAll(b);
    if c[0] == |b| {
      return;
    }
    l := m;
    min := 1;
    while min <= BMAX && c[min] == 0
      invariant 1 <= min <= BMAX + 1 && Shortest(b, 1) == Shortest(b, min)
    {
      min := min + 1;
    }
    if l < min { l := min; }
    g := BMAX;
    while g > 0 && c[g] == 0
      invariant 0 <= g <= BMAX && forall n :: g < n <= BMAX ==> Count(b, n) == 0
    {
      g := g - 1;
    }
    MaxIs(b, g);
    if l > g { l := g; }
    SomeLength(b);
    y := CheckLengths(b, c, min, g);
    code := if y < 0 then 2 else if y != 0 && g != 1 then 1 else 0;
  }

  /** huft_build: the return code is decided by the Kraft sum and the longest code, and the tables decode every
      stream exactly when none of them is too wide. */
  method Build(b: seq<nat>, simple: nat, base: seq<nat>, extra: seq<nat>, m: nat, v0: seq<nat>)
    returns (code: nat, tables: seq<seq<Huft>>, l: nat)
    requires 0 < |b| == |v0| && forall i :: 0 <= i < |b| ==> b[i] <= BMAX
    requires |b| <= simple + |base| && |extra| == |base|
    ensures code == ReturnCode(b)
    ensures MaxLen(b) == 0 ==> tables == [] && l == 0
    ensures MaxLen(b) > 0 ==> l == Lookup(b, m)
    ensures MaxLen(b) > 0 && !Oversubscribed(b) ==>
              var job := JobOf(b, simple, base, extra, m, v0);
              && ValidJob(job) && (AllRead(job, tables) <==> !Overwide(job)) && (!Overwide(job) ==> Built(job, tables))
  {
    hide Built, ValidJob, AllOk, Looks, AllRead, Overwide, Count, KraftSum, Pow2, MaxLen, Zeros, Values, Leftover, Padded;
    var c, min, g, y;
    tables := [];
    code, l, c, min, g, y := Measure(b, m);
    if code == 2 || l == 0 {
      NoLookup(b, m);
      return;
    }
    NoLookup(b, m);
    c := c[g := c[g] + y];
    var v := SortSymbols(b, c, g, v0);
    var job := JobOf(b, simple, base, extra, m, v0);
    JobValid(b, simple, base, extra, m, v0);
    ValuesHold(b, simple, base, extra, m, v0, v);
    PaddedArguments(b, job, c, y, g, min);
    ghost var info;
    tables, info := BuildTables(job, c, v, min);
    BuiltBy(job, tables, info);
  }

  lemma NoLookup(b: seq<nat>, m: nat)
    ensures MaxLen(b) > 0 && MaxLen(b) <= BMAX ==> Lookup(b, m) > 0
  {
    if 0 < MaxLen(b) <= BMAX { SomeLength(b); }
  }

  lemma BuiltBy(job: Job, tables: seq<seq<Huft>>, info: seq<Info>)
    requires ValidJob(job) && |info| > 0 && info[0] == Info([], job.l, job.l) && AllOk(job, tables, info) && Looks(job, tables, info)
    ensures AllRead(job, tables) <==> !Overwide(job)
    ensures !Overwide(job) ==> Built(job, tables)
  {
    hide AllOk, Looks, ValidJob, AllRead, Overwide, Exact;
    AllReadIff(job, tables, info);
  }

  lemma SomeLength(b: seq<nat>)
    requires 0 < MaxLen(b) <= BMAX
    ensures 0 < Shortest(b, 1) <= MaxLen(b)
  {
    var s :| 0 <= s < |b| && b[s] == MaxLen(b);
    CountPositive(b, s);
  }

  lemma PaddedArguments(b: seq<nat>, job: Job, c: seq<nat>, y: nat, g: nat, min: nat)
    requires job.b == Padded(b, y, g) && ValidJob(job) && 0 < g == job.g <= BMAX
    requires |c| == BMAX + 1 && forall m :: 0 < m <= g ==> c[m] == Count(b, m) + if m == g then y else 0
    requires min <= g && Count(b, min) > 0 && forall m :: 0 < m < min ==> Count(b, m) == 0
    ensures Arguments(job, c)
    ensures Count(job.b, min) > 0 && forall m :: 0 < m < min ==> Count(job.b, m) == 0
  {
    forall m
      ensures m >= 0 ==> Count(job.b, m) == Count(b, m) + if m == g then y else 0
    {
      if m >= 0 { PaddedCounts(b, y, g, m); }
    }
  }

  /** The walk found the entry of code s and used up exactly its word. */
  predicate DecodedAs(job: Job, w: Walked, bits: seq<bool>, s: nat, k: nat) {
    && w.Found? && s < |job.b| && job.b[s] <= |bits| && ValidAlphabet(job.al)
    && w == Found(LeafOf(job.al, s, k), bits[job.b[s]..])
  }

  /** Walking the tables over any bits yields the symbol whose canonical code word the bits begin with,
      and uses up exactly that word; bits that begin with no symbol's word are an unused code. The walk
      gets stuck only when fewer bits are left than the longest code has. */
  lemma BuiltDecodes(b: seq<nat>, simple: nat, base: seq<nat>, extra: seq<nat>, m: nat, v0: seq<nat>, tables: seq<seq<Huft>>, bits: seq<bool>)
    returns (s: nat, k: nat)
    requires !Oversubscribed(b) && |v0| == |b| && MaxLen(b) > 0
    requires ValidJob(JobOf(b, simple, base, extra, m, v0)) && Built(JobOf(b, simple, base, extra, m, v0), tables)
    ensures Walk(tables, 0, Lookup(b, m), bits).Stuck? ==> |bits| < MaxLen(b)
    ensures Walk(tables, 0, Lookup(b, m), bits).Found? ==>
              && DecodedAs(JobOf(b, simple, base, extra, m, v0), Walk(tables, 0, Lookup(b, m), bits), bits, s, k)
              && (if s < |b| then Decodes(b, bits, s) else forall t :: !Decodes(b, bits, t))
              && (forall t :: Decodes(b, bits, t) ==> t == s)
  {
    var job := JobOf(b, simple, base, extra, m, v0);
    s, k := BuiltWalk(job, tables, bits);
    if Walk(tables, 0, job.l, bits).Found? { SameSymbols(b, simple, base, extra, m, v0, bits, s); }
  }

  lemma SameSymbols(b: seq<nat>, simple: nat, base: seq<nat>, extra: seq<nat>, m: nat, v0: seq<nat>, bits: seq<bool>, s: nat)
    requires !Oversubscribed(b) && |v0| == |b| && MaxLen(b) > 0
    requires ValidJob(JobOf(b, simple, base, extra, m, v0)) && Decodes(JobOf(b, simple, base, extra, m, v0).b, bits, s)
    ensures if s < |b| then Decodes(b, bits, s) else forall t :: !Decodes(b, bits, t)
    ensures forall t :: Decodes(b, bits, t) ==> t == s
  {
    hide ValidJob, Complete, Leftover, Zeros, KraftSum, Pow2, Word, Lookup;
    var job := JobOf(b, simple, base, extra, m, v0);
    forall t: nat
      ensures Decodes(b, bits, t) <==> t < |b| && Decodes(job.b, bits, t)
    {
      if t < |b| { PaddedWord(b, Unused(b), MaxLen(b), t); }
    }
    forall t: nat
      ensures Decodes(job.b, bits, t) ==> t == s
    {
      if Decodes(job.b, bits, t) { OnlyOne(job, bits, s, t); }
    }
  }

  lemma OnlyOne(job: Job, bits: seq<bool>, s: nat, t: nat)
    requires ValidJob(job) && Decodes(job.b, bits, s) && Decodes(job.b, bits, t)
    ensures s == t
  {
    DecodesOnce(job.b, bits, s, t);
  }

  lemma BuiltWalk(job: Job, tables: seq<seq<Huft>>, bits: seq<bool>) returns (s: nat, k: nat)
    requires ValidJob(job) && Built(job, tables)
    ensures Walk(tables, 0, job.l, bits).Stuck? ==> |bits| < job.g
    ensures Walk(tables, 0, job.l, bits).Found? ==>
              Decodes(job.b, bits, s) && Walk(tables, 0, job.l, bits) == Found(LeafOf(job.al, s, k), bits[job.b[s]..])
  {
    hide AllOk, Exact, ValidJob, Walk, LeafOf, Decodes;
    var info :| |info| > 0 && info[0] == Info([], job.l, job.l) && AllOk(job, tables, info) && Exact(info);
    assert [] + bits == bits;
    s, k := WalkDecodes(job, tables, info, 0, bits);
  }

  /** Bits that begin with the i-th code that belongs to no symbol: the walk uses up that code and ends in an entry
      that is marked invalid exactly when there are no more than i symbols without a code, or the symbol list
      happens to hold one at that place that is marked so itself; otherwise it ends in the entry of whatever
      symbol the list holds. */
  lemma UnusedCodeIff(b: seq<nat>, simple: nat, base: seq<nat>, extra: seq<nat>, m: nat, v0: seq<nat>,
                      tables: seq<seq<Huft>>, bits: seq<bool>, i: nat) returns (k: nat)
    requires !Oversubscribed(b) && |v0| == |b| && MaxLen(b) > 0 && i < Unused(b) && |bits| >= MaxLen(b)
    requires ValidJob(JobOf(b, simple, base, extra, m, v0)) && Built(JobOf(b, simple, base, extra, m, v0), tables)
    requires Decodes(JobOf(b, simple, base, extra, m, v0).b, bits, |b| + i)
    ensures Zeros(b) <= |b| && Walk(tables, 0, Lookup(b, m), bits).Found?
    ensures var al, w := JobOf(b, simple, base, extra, m, v0).al, Walk(tables, 0, Lookup(b, m), bits);
            && w.rest == bits[MaxLen(b)..]
            && (Invalid(w.leaf) <==> i >= Zeros(b) || Invalid(SymbolEntry(al, v0[|b| - Zeros(b) + i], k)))
            && (i < Zeros(b) ==> w.leaf == SymbolEntry(al, v0[|b| - Zeros(b) + i], k))
  {
    hide Built, ValidJob, Decodes, Walk;
    var job := JobOf(b, simple, base, extra, m, v0);
    var s;
    s, k := BuiltWalk(job, tables, bits);
    if Walk(tables, 0, job.l, bits).Found? { OnlyOne(job, bits, s, |b| + i); }
    ZerosAll(b);
  }

  predicate Invalid(e: Huft) { e.Leaf? && e.e == 99 }

  /** One symbol of length one and one without a code: in the tables that huft_build makes and reports as a
      success, the other bit decodes to whatever the symbol list held, here symbol 0 again. */
  lemma UnusedWitness(tables: seq<seq<Huft>>)
    ensures var b, v0 := [1, 0], [0, 0];
            !Oversubscribed(b) && MaxLen(b) == 1 && ReturnCode(b) == 0 && var job := JobOf(b, 2, [], [], 1, v0);
            && ValidJob(job) && !Overwide(job)
            && (Built(job, tables) ==> var w := Walk(tables, 0, 1, [true]); w.Found? && w.leaf.Leaf? && w.leaf.e == 16 && w.leaf.n == 0)
  {
    hide Built, Overwide, Walk;
    var b, v0 := [1, 0], [0, 0];
    OneBitCode();
    JobValid(b, 2, [], [], 1, v0);
    var job := JobOf(b, 2, [], [], 1, v0);
    SizedNarrow(job);
    if Built(job, tables) {
      var k := UnusedCodeIff(b, 2, [], [], 1, v0, tables, [true], 0);
    }
  }

  lemma OneBitCode()
    ensures var b := [1, 0];
            && MaxLen(b) == 1 && KraftSum(b, 1) == 1 && Zeros(b) == 1 && Pow2(1) == 2 && Shortest(b, 1) == 1
            && Padded(b, 1, 1) == [1, 0, 1] && Decodes([1, 0, 1], [true], 2)
  {
    var b := [1, 0];
    assert b[..1] == [1] && [1][..0] == [];
    assert MaxLen([1]) == 1 && MaxLen(b) == 1;
    assert KraftSum([1], 1) == 1 && KraftSum(b, 1) == 1;
    assert Zeros([1]) == 0 && Zeros(b) == 1;
    assert Pow2(1) == 2;
    assert Count([1], 1) == 1 && Count(b, 1) == 1;
    var p := [1, 0, 1];
    assert p[..2] == b;
    assert Count(p, 0) == 0 && FirstCode(p, 1) == 0;
    assert Code(p, 2) == 1;
    assert MsbBits(1, 1) == [true];
  }

  /** Lengths 1, 2, 3 and 3 with one bit looked up at a time: the call succeeds, but the table after the first one
      bit is too wide, so that whatever tables it makes do not decode every stream. */
  lemma OverwideWitness(tables: seq<seq<Huft>>, info: seq<Info>)
    ensures var b, v0 := [1, 2, 3, 3], [0, 0, 0, 0];
            !Oversubscribed(b) && MaxLen(b) == 3 && ReturnCode(b) == 0 && var job := JobOf(b, 4, [], [], 1, v0);
            ValidJob(job) && job.l == 1 && Overwide(job) && (Laid(job, tables, info) ==> !AllRead(job, tables))
  {
    hide Word, WideRegion, Laid, AllRead;
    var b, v0 := [1, 2, 3, 3], [0, 0, 0, 0];
    FourCodes();
    JobValid(b, 4, [], [], 1, v0);
    var job := JobOf(b, 4, [], [], 1, v0);
    assert job.b == b;
    FourWords(job);
    assert |[true]| == 1 * job.l;
    assert WideAt(job, [true]);
    if Laid(job, tables, info) { AllReadIff(job, tables, info); }
  }

  lemma FourCodes()
    ensures var b := [1, 2, 3, 3];
            && MaxLen(b) == 3 && KraftSum(b, 3) == Pow2(3) == 8 && Shortest(b, 1) == 1
            && Count(b, 1) == 1 && Count(b, 2) == 1 && Count(b, 3) == 2
  {
    var b := [1, 2, 3, 3];
    assert b[..3] == [1, 2, 3] && [1, 2, 3][..2] == [1, 2] && [1, 2][..1] == [1] && [1][..0] == [];
    assert MaxLen([1]) == 1 && MaxLen([1, 2]) == 2 && MaxLen([1, 2, 3]) == 3;
    assert Pow2(1) == 2 && Pow2(2) == 4 && Pow2(3) == 8;
    assert KraftSum([1], 3) == 4 && KraftSum([1, 2], 3) == 6 && KraftSum([1, 2, 3], 3) == 7;
    assert Count([1], 1) == 1 && Count([1, 2], 1) == 1 && Count([1, 2, 3], 1) == 1;
    assert Count([1], 2) == 0 && Count([1, 2], 2) == 1 && Count([1, 2, 3], 2) == 1;
    assert Count([1], 3) == 0 && Count([1, 2], 3) == 0 && Count([1, 2, 3], 3) == 1;
  }

  lemma FourWords(job: Job)
    requires job.b == [1, 2, 3, 3] && job.l == 1
    ensures WideRegion(job, [true])
  {
    hide Word;
    FourFirst();
    FourThird();
    assert [true][0] && ![false][0] && [true] <= [true, true, false];
  }

  lemma FourFirst()
    ensures Word([1, 2, 3, 3], 0) == [false]
  {
    var b := [1, 2, 3, 3];
    assert b[..0] == [];
    assert FirstCode(b, 1) == 0 && Code(b, 0) == 0 && MsbBits(0, 0) == [];
  }

  lemma FourThird()
    ensures Word([1, 2, 3, 3], 2) == [true, true, false]
  {
    hide MaxLen, KraftSum, Pow2, Shortest, MsbBits;
    var b := [1, 2, 3, 3];
    FourCodes();
    assert b[..2] == [1, 2] && [1, 2][..1] == [1] && [1][..0] == [];
    assert FirstCode(b, 1) == 0 && FirstCode(b, 2) == 2 && FirstCode(b, 3) == 6;
    assert Count([1], 3) == 0 && Count([1, 2], 3) == 0;
    assert Code(b, 2) == 6;
    SixBits();
  }

  lemma SixBits()
    ensures MsbBits(6, 3) == [true, true, false]
  {
    assert MsbBits(1, 1) == [true] && MsbBits(3, 2) == [true, true];
  }

  /** No table is too wide for any complete code that inflate passes. */
  lemma InflateArguments(b: seq<nat>, simple: nat, base: seq<nat>, extra: seq<nat>, m: nat, v0: seq<nat>)
    requires !Oversubscribed(b) && |v0| == |b| && Unused(b) == 0
    requires (m == 9 && |b| <= 288) || (m == 6 && |b| <= 32) || (m == 7 && |b| <= 19)
    requires ValidJob(JobOf(b, simple, base, extra, m, v0))
    ensures !Overwide(JobOf(b, simple, base, extra, m, v0))
  {
    hide Overwide;
    Pow2Mono(m, if m < Shortest(b, 1) then Shortest(b, 1) else m);
    SmallPowers();
    SizedNarrow(JobOf(b, simple, base, extra, m, v0));
  }

  lemma SmallPowers()
    ensures Pow2(5) == 32 && Pow2(6) == 64 && Pow2(7) == 128 && Pow2(9) == 512
  {
    assert Pow2(2) == 4 && Pow2(3) == 8 && Pow2(4) == 16;
    assert Pow2(5) == 32 && Pow2(6) == 64 && Pow2(7) == 128;
    assert Pow2(8) == 256;
  }
}
