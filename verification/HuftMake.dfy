/** The main loop of huft_build: codes in order of length, tables pushed, filled and left behind. */
module HuftMake {
  import opened Bits
  import opened HuffmanCodes
  import opened HuftTables
  import opened HuftBuild
  import opened HuftSizing

  /** The loop's variables: the table stack u with the pattern x of each level, the bits w before the
      current table, the table q that is being filled, and the current code i. */
  datatype Work = Work(tables: seq<seq<Huft>>, stack: seq<nat>, x: seq<nat>, w: nat, q: nat, i: nat)

  ghost function MadeBy(wk: Work, info: seq<Info>): Made { Made(wk.tables, info, wk.stack) }

  /** The variables describe tables that are in place up to position p. */
  ghost predicate Ready(job: Job, wk: Work, info: seq<Info>, p: nat) {
    && Good(job, MadeBy(wk, info), p) && Looks(job, wk.tables, info)
    && |wk.x| == |wk.stack| > 0
    && (forall v :: 0 <= v < |wk.x| ==> wk.stack[v] < |info| && wk.x[v] == Lsb(info[wk.stack[v]].pre))
    && wk.w == |Top(info, wk.stack).pre|
  }

  /** The next code to place, and the table for it: the current one, or one still to be allocated. */
  ghost predicate Next(job: Job, wk: Work, info: seq<Info>, cur: seq<bool>, r: nat, p: nat) {
    && Ready(job, wk, info, p)
    && At(job, Top(info, wk.stack).pre, cur, r, p)
    && wk.i == Lsb(cur)
    && (wk.q == wk.stack[|wk.stack| - 1] || |cur| > wk.w + job.l)
  }

  ghost predicate Arguments(job: Job, c: seq<nat>) {
    && ValidJob(job) && job.g <= BMAX && |c| == BMAX + 1
    && (forall m :: 0 < m <= job.g ==> c[m] == Count(job.b, m))
  }

  lemma {:induction false} LeftPositive(b: seq<nat>, m: nat)
    requires Complete(b) && m < MaxLen(b)
    ensures Left(b, m) > 0
    decreases MaxLen(b) - m
  {
    if m + 1 == MaxLen(b) {
      var s :| 0 <= s < |b| && b[s] == MaxLen(b);
      RankBound(b, s);
    } else {
      LeftPositive(b, m + 1);
    }
  }

  function PushWork(job: Job, wk: Work, j: nat): Work
    requires wk.stack != [] && wk.stack[|wk.stack| - 1] < |wk.tables|
    requires Shr(wk.i, wk.w) < |wk.tables[wk.stack[|wk.stack| - 1]]|
  {
    var t, n := wk.stack[|wk.stack| - 1], |wk.tables|;
    var link := wk.tables[t := wk.tables[t][Shr(wk.i, wk.w) := Link(job.l, j, n)]];
    Work(link + [seq(Pow2(j), k => Blank)], wk.stack + [n], wk.x + [wk.i], wk.w + job.l, n, wk.i)
  }

  lemma PushIndex(job: Job, top: Info, table: seq<Huft>, cur: seq<bool>, r: nat, p: nat)
    requires Fits(job, top) && At(job, top.pre, cur, r, p) && |cur| > |top.pre| + job.l
    requires top.width <= job.l && Pow2(top.width) <= |table|
    ensures top.width == job.l
    ensures Shr(Lsb(cur), |top.pre|) == Lsb(cur[|top.pre|..|top.pre| + job.l]) < |table|
  {
    CodeFits(job, top, cur, r, p);
    LinkIndex(job, cur, |top.pre|);
    LsbBound(cur[|top.pre|..|top.pre| + job.l]);
  }

  lemma PushX(job: Job, x: seq<nat>, info: seq<Info>, stack: seq<nat>, i: Info)
    requires |x| == |stack| && forall v :: 0 <= v < |stack| ==> stack[v] < |info| && x[v] == Lsb(info[stack[v]].pre)
    ensures var x', info', stack' := x + [Lsb(i.pre)], info + [i], stack + [|info|];
            forall v :: 0 <= v < |x'| ==> x'[v] == Lsb(info'[stack'[v]].pre)
  {
  }

  /** A table of j bits can be made for the next l bits of cur. */
  ghost predicate Pushable(job: Job, pre: seq<bool>, j: nat) {
    && 0 < Nominal(job, j) <= job.l && |pre| + Nominal(job, j) <= job.g
    && Fits(job, Info(pre, Nominal(job, j), j)) && LookOk(job, Info(pre, Nominal(job, j), j))
  }

  lemma PushNext(job: Job, wk: Work, info: seq<Info>, cur: seq<bool>, r: nat, p: nat, j: nat, wk': Work, info': seq<Info>)
    requires job.l > 0 && Next(job, wk, info, cur, r, p) && |cur| > wk.w + job.l
    requires Pushable(job, cur[..wk.w + job.l], j)
    requires Top(info, wk.stack).width == job.l
    requires Shr(wk.i, wk.w) == Lsb(cur[wk.w..wk.w + job.l]) < |wk.tables[wk.stack[|wk.stack| - 1]]|
    requires wk' == PushWork(job, wk, j) && info' == info + [Info(cur[..wk.w + job.l], Nominal(job, j), j)]
    ensures Next(job, wk', info', cur, r, p)
  {
    hide Filled, Fits, LookOk, Looks, Below, Shr, Pow2, Nominal, Plain;
    var m, n, table := MadeBy(wk, info), Nominal(job, j), seq(Pow2(j), k => Blank);
    assert MadeBy(wk', info') == Pushed(job, m, cur, n, j, table);
    NominalTable(job, j);
    PushGood(job, m, cur, r, p, n, j, table, MadeBy(wk', info'));
    PushLooks(job, m, cur, n, j, table, MadeBy(wk', info'));
    PushAt(job, Top(info, wk.stack).pre, cur, r, p);
    ZeroTail(job.g, cur, wk.w + job.l);
    PushX(job, wk.x, info, wk.stack, Info(cur[..wk.w + job.l], n, j));
  }

  lemma NominalTable(job: Job, j: nat)
    ensures Pow2(Nominal(job, j)) <= Pow2(j) && Plain(job.l, seq(Pow2(j), k => Blank))
  {
    Pow2Mono(Nominal(job, j), j);
  }

  /** One round of the loop that makes tables up to the required level. */
  method PushOne(job: Job, c: seq<nat>, k: nat, a: nat, wk: Work, ghost info: seq<Info>, ghost cur: seq<bool>, ghost r: nat, ghost p: nat)
    returns (wk': Work, ghost info': seq<Info>)
    requires Arguments(job, c) && Next(job, wk, info, cur, r, p)
    requires |cur| == k > wk.w + job.l && a + 1 == Count(job.b, k) - r
    ensures Next(job, wk', info', cur, r, p) && wk'.w == wk.w + job.l && wk'.q == wk'.stack[|wk'.stack| - 1]
    ensures |info| > 0 && |info'| > 0 && info'[0] == info[0]
  {
    hide Filled, Shr, Pow2, Fits, Looks, Pushable, Leveled, Below, Start, Complete;
    NextLevel(job, info, wk.stack);
    var j := SizePushed(job, c, k, a, wk.w, cur, Top(info, wk.stack).pre, r, p);
    PushIndex(job, Top(info, wk.stack), wk.tables[wk.stack[|wk.stack| - 1]], cur, r, p);
    wk' := PushWork(job, wk, j);
    info' := info + [Info(cur[..wk.w + job.l], Nominal(job, j), j)];
    PushNext(job, wk, info, cur, r, p, j, wk', info');
  }

  lemma NextLevel(job: Job, info: seq<Info>, stack: seq<nat>)
    requires Stacked(job, info, stack)
    ensures Leveled(job.l, |Top(info, stack).pre| + job.l)
  {
    var v := |stack| - 1;
    Distribute(v, 1, job.l);
    assert |Top(info, stack).pre| + job.l == (v + 1) * job.l;
  }

  method SizePushed(job: Job, c: seq<nat>, k: nat, a: nat, w: nat, ghost cur: seq<bool>, ghost pre: seq<bool>, ghost r: nat, ghost p: nat)
    returns (j: nat)
    requires Arguments(job, c) && At(job, pre, cur, r, p) && w == |pre|
    requires |cur| == k > w + job.l && a + 1 == Count(job.b, k) - r && Leveled(job.l, w + job.l)
    ensures Pushable(job, cur[..w + job.l], j)
  {
    hide Fits, LookOk, Leveled;
    j := SizeTable(c, k, a, w + job.l, job.l, job.g, job.b, Msb(cur));
    SizeLooks(job, cur[..w + job.l], cur, r, a, j);
  }

  lemma LinkIndex(job: Job, cur: seq<bool>, w: nat)
    requires w + job.l <= |cur| <= job.g
    requires forall i :: w + job.l <= i < |cur| ==> !cur[i]
    ensures Shr(Lsb(cur), w) == Lsb(cur[w..w + job.l])
  {
    LsbSplit(cur, w);
    var s := cur[w..];
    ZeroTail(job.g, s, job.l);
    assert s[..job.l] == cur[w..w + job.l];
  }

  /** Adds tables until the code of length k ends in the last one. */
  method Descend(job: Job, c: seq<nat>, k: nat, a: nat, wk: Work, ghost info: seq<Info>, ghost cur: seq<bool>, ghost r: nat, ghost p: nat)
    returns (wk': Work, ghost info': seq<Info>)
    requires Arguments(job, c) && Next(job, wk, info, cur, r, p)
    requires |cur| == k && a + 1 == Count(job.b, k) - r
    ensures Next(job, wk', info', cur, r, p) && k <= wk'.w + job.l
    ensures |info| > 0 && |info'| > 0 && info'[0] == info[0]
  {
    hide Arguments, Ready, At;
    NextFacts(job, c, wk, info, cur, r, p);
    wk', info' := wk, info;
    while k > wk'.w + job.l
      invariant Next(job, wk', info', cur, r, p) && |info'| > 0 && info'[0] == info[0]
      decreases k - wk'.w
    {
      wk', info' := PushOne(job, c, k, a, wk', info', cur, r, p);
    }
  }

  lemma NextFacts(job: Job, c: seq<nat>, wk: Work, info: seq<Info>, cur: seq<bool>, r: nat, p: nat)
    requires Arguments(job, c) && Next(job, wk, info, cur, r, p)
    ensures |info| > 0 && job.l > 0
  {
  }

  // ---------- placing a code ----------

  /** Enters the code wherever its remaining bits lead. */
  method Place(job: Job, k: nat, wk: Work, e: Huft, ghost s: nat, ghost info: seq<Info>, ghost cur: seq<bool>, ghost r: nat, ghost p: nat)
    returns (wk': Work)
    requires ValidJob(job) && Next(job, wk, info, cur, r, p)
    requires |cur| == k <= wk.w + job.l && s < |job.b| && Word(job.b, s) == cur && e == LeafOf(job.al, s, k - wk.w)
    ensures wk' == wk.(tables := wk'.tables)
    ensures Ready(job, wk', info, p + Size(job.g, k))
  {
    hide Good, Looks, Shr, Pow2, Word, LeafOf, Complete, Low, Lsb, Msb;
    GoodParts(job, MadeBy(wk, info), p);
    PlaceIndex(wk.i, wk.w, cur);
    var table := FillEntries(wk.tables[wk.q], Shr(wk.i, wk.w), k - wk.w, e);
    wk' := wk.(tables := wk.tables[wk.q := table]);
    PlaceGood(job, wk, e, s, info, cur, r, p, table, wk');
    PlaceLooks(job, wk, e, s, k - wk.w, info, table, wk'.tables);
  }

  lemma PlaceIndex(i: nat, w: nat, cur: seq<bool>)
    requires i == Lsb(cur) && w <= |cur|
    ensures Shr(i, w) == Lsb(cur[w..]) < Pow2(|cur| - w)
  {
    LsbSplit(cur, w);
    LsbBound(cur[w..]);
  }

  lemma PlaceGood(job: Job, wk: Work, e: Huft, s: nat, info: seq<Info>, cur: seq<bool>, r: nat, p: nat, table: seq<Huft>, wk': Work)
    requires ValidJob(job) && Next(job, wk, info, cur, r, p)
    requires |cur| <= wk.w + job.l && s < |job.b| && Word(job.b, s) == cur && e == LeafOf(job.al, s, |cur| - wk.w)
    requires |table| == |wk.tables[wk.q]|
    requires forall i :: 0 <= i < |table| ==> table[i] == if Low(i, |cur| - wk.w) == Lsb(cur[wk.w..]) then e else wk.tables[wk.q][i]
    requires wk' == wk.(tables := wk.tables[wk.q := table])
    ensures Good(job, MadeBy(wk', info), p + Size(job.g, |cur|))
  {
    hide Good, Looks, At, Start, Pow2, Word, LeafOf, Complete, Low, Lsb, Spread;
    var m, top := MadeBy(wk, info), Top(info, wk.stack);
    GoodParts(job, m, p);
    PlaceSpread(job, top, cur, r, p, wk.tables[wk.q], e, table);
    FillFilled(job, m, cur, r, p, s, table);
    assert MadeBy(wk', info) == Refilled(m, table);
  }

  lemma PlaceLooks(job: Job, wk: Work, e: Huft, s: nat, bits: nat, info: seq<Info>, table: seq<Huft>, tables': seq<seq<Huft>>)
    requires Looks(job, wk.tables, info) && wk.stack != [] && wk.q == wk.stack[|wk.stack| - 1] < |info|
    requires ValidAlphabet(job.al) && e == LeafOf(job.al, s, bits) && bits <= job.l
    requires |table| == |wk.tables[wk.q]|
    requires forall i :: 0 <= i < |table| ==> table[i] == e || table[i] == wk.tables[wk.q][i]
    requires tables' == wk.tables[wk.q := table]
    ensures Looks(job, tables', info)
  {
    hide Looks, LeafOf;
    LooksLengths(job, wk.tables, info);
    LeafBits(job.al, s, bits);
    FillLooks(job, MadeBy(wk, info), table, e);
    assert tables' == Refilled(MadeBy(wk, info), table).tables;
  }

  lemma LooksLengths(job: Job, tables: seq<seq<Huft>>, info: seq<Info>)
    requires Looks(job, tables, info)
    ensures |tables| == |info|
  {
  }

  lemma LeafBits(al: Alphabet, s: nat, bits: nat)
    requires ValidAlphabet(al)
    ensures (LeafOf(al, s, bits).Leaf? || LeafOf(al, s, bits).Stray?) && LeafOf(al, s, bits).b == bits
  {
  }

  lemma PlaceSpread(job: Job, top: Info, cur: seq<bool>, r: nat, p: nat, table: seq<Huft>, e: Huft, table': seq<Huft>)
    requires Fits(job, top) && At(job, top.pre, cur, r, p) && |cur| <= |top.pre| + job.l
    requires Pow2(top.width) <= |table| == |table'|
    requires forall i :: 0 <= i < |table| ==> table'[i] == if Low(i, |cur| - |top.pre|) == Lsb(cur[|top.pre|..]) then e else table[i]
    ensures |cur| <= |top.pre| + top.width && Spread(table, table', top.width, cur[|top.pre|..], e)
  {
    hide Pow2, Low, Lsb, Start, Spread, Fits;
    CodeFits(job, top, cur, r, p);
    FillSpreads(table, table', top.width, cur[|top.pre|..], e);
  }

  // ---------- backing up ----------

  /** A table whose prefix the next code no longer has is finished. */
  lemma LeftBehind(job: Job, pre: seq<bool>, i: Info, cur: seq<bool>, p: nat)
    requires i.pre == pre <= cur && |cur| <= job.g && Inc(cur)[..|pre|] != pre && Start(job.g, cur) == p
    ensures Finished(job, i, p + Size(job.g, |cur|))
  {
    var g := job.g;
    if Msb(cur) + 1 == Pow2(|cur|) {
      IncLast(g, cur);
      StartBound(g, pre);
    } else {
      IncStart(g, cur);
      StartInside(g, pre, cur);
      PrefixIff(g, pre, Inc(cur));
    }
  }

  /** What holds while finished tables are left: everything up to the end of the code is in place, the
      current table lies on the path of the code, and beyond its reach the next code is all zero. */
  ghost predicate Leaving(job: Job, wk: Work, info: seq<Info>, cur: seq<bool>, p: nat) {
    && |cur| <= job.g && Start(job.g, cur) == p
    && Ready(job, wk, info, p + Size(job.g, |cur|))
    && Top(info, wk.stack).pre <= cur && wk.w < |cur| && wk.i == Lsb(Inc(cur))
    && (forall i :: wk.w + job.l <= i < |cur| ==> !Inc(cur)[i])
    && (wk.q == wk.stack[|wk.stack| - 1] || |cur| > wk.w + job.l)
  }

  lemma Mismatch(job: Job, wk: Work, info: seq<Info>, cur: seq<bool>, p: nat)
    requires Leaving(job, wk, info, cur, p) && Low(wk.i, wk.w) != wk.x[|wk.x| - 1]
    ensures Inc(cur)[..wk.w] != Top(info, wk.stack).pre
  {
    hide Good, Start, Filled;
    LsbSplit(Inc(cur), wk.w);
  }

  lemma Match(job: Job, wk: Work, info: seq<Info>, cur: seq<bool>, p: nat)
    requires Leaving(job, wk, info, cur, p) && Low(wk.i, wk.w) == wk.x[|wk.x| - 1]
    ensures Top(info, wk.stack).pre <= Inc(cur)
  {
    hide Good, Start, Filled;
    LsbSplit(Inc(cur), wk.w);
    LsbInjective(Inc(cur)[..wk.w], Top(info, wk.stack).pre);
  }

  lemma NotRoot(job: Job, wk: Work, info: seq<Info>, cur: seq<bool>, p: nat)
    requires Leaving(job, wk, info, cur, p) && Low(wk.i, wk.w) != wk.x[|wk.x| - 1]
    ensures |wk.stack| > 1
  {
    hide Filled, Start, Fits, Below;
  }

  function Popped(job: Job, wk: Work): Work
    requires |wk.stack| > 1 && |wk.x| == |wk.stack| && wk.w >= job.l
  {
    wk.(stack := wk.stack[..|wk.stack| - 1], x := wk.x[..|wk.x| - 1], w := wk.w - job.l)
  }

  lemma PopGood(job: Job, wk: Work, info: seq<Info>, cur: seq<bool>, p: nat)
    requires Leaving(job, wk, info, cur, p) && |wk.stack| > 1 && Inc(cur)[..wk.w] != Top(info, wk.stack).pre
    ensures Good(job, Made(wk.tables, info, wk.stack[..|wk.stack| - 1]), p + Size(job.g, |cur|))
  {
    hide Filled, Fits, Below, Start, Lsb, Msb;
    var top := Top(info, wk.stack);
    LeftBehind(job, top.pre, top, cur, p);
    PopKeeps(job, MadeBy(wk, info), p + Size(job.g, |cur|));
  }

  lemma PopLevel(job: Job, info: seq<Info>, stack: seq<nat>)
    requires Stacked(job, info, stack) && |stack| > 1
    ensures stack[|stack| - 2] < |info|
    ensures info[stack[|stack| - 2]].pre <= Top(info, stack).pre
    ensures |info[stack[|stack| - 2]].pre| + job.l == |Top(info, stack).pre|
  {
    var h := |stack| - 1;
    assert Below(job, info[stack[h - 1]], info[stack[h]]);
    Distribute(h - 1, 1, job.l);
  }

  lemma PopLeaving(job: Job, wk: Work, info: seq<Info>, cur: seq<bool>, p: nat)
    requires job.l > 0
    requires Leaving(job, wk, info, cur, p) && |wk.stack| > 1 && Inc(cur)[..wk.w] != Top(info, wk.stack).pre
    ensures wk.w >= job.l && Leaving(job, Popped(job, wk), info, cur, p)
  {
    hide Good, Looks, Shaped, Stacked, Placed, Start, Size, Lsb, Msb, Inc;
    PopGood(job, wk, info, cur, p);
    GoodParts(job, MadeBy(wk, info), p + Size(job.g, |cur|));
    PopLevel(job, info, wk.stack);
    assert cur[..wk.w] == Top(info, wk.stack).pre;
    IncCarry(cur, wk.w);
    assert MadeBy(Popped(job, wk), info) == Made(wk.tables, info, wk.stack[..|wk.stack| - 1]);
  }

  /** Leaves every table that the next code does not continue. */
  method Retreat(job: Job, wk: Work, ghost info: seq<Info>, ghost cur: seq<bool>, ghost p: nat) returns (wk': Work)
    requires job.l > 0 && Leaving(job, wk, info, cur, p)
    ensures Leaving(job, wk', info, cur, p) && Top(info, wk'.stack).pre <= Inc(cur)
  {
    wk' := wk;
    hide Good, Start, Lsb, Msb;
    while Low(wk'.i, wk'.w) != wk'.x[|wk'.x| - 1]
      invariant Leaving(job, wk', info, cur, p)
      decreases |wk'.stack|
    {
      NotRoot(job, wk', info, cur, p);
      Mismatch(job, wk', info, cur, p);
      PopLeaving(job, wk', info, cur, p);
      wk' := Popped(job, wk');
    }
    Match(job, wk', info, cur, p);
  }

  // ---------- the whole loop ----------

  /** Place `at` of the symbol list holds what code s decodes to. */
  predicate Holds(al: Alphabet, v: seq<nat>, at: nat, s: nat) {
    if at >= |v| then s >= al.limit + |al.stale|
    else if s < al.limit then v[at] == s
    else s < al.limit + |al.stale| && v[at] == al.stale[s - al.limit]
  }

  /** The symbol list holds the symbols in the order in which their codes come. */
  ghost predicate Values(job: Job, v: seq<nat>) {
    forall k: nat, r: nat :: 0 < k && r < Count(job.b, k) ==> Holds(job.al, v, Offset(job.b, k) + r, NthSymbol(job.b, k, r))
  }

  /** The entry that stands for the code in the table. */
  function EntryAt(al: Alphabet, v: seq<nat>, at: nat, bits: nat, ghost s: nat): (e: Huft)
    requires ValidAlphabet(al) && Holds(al, v, at, s)
    ensures e == LeafOf(al, s, bits)
  {
    if at >= |v| then Leaf(99, bits, 0) else SymbolEntry(al, v[at], bits)
  }

  /** The next code is due, or all codes of the greatest length are placed. */
  ghost predicate Reached(job: Job, wk: Work, info: seq<Info>, cur: seq<bool>, r: nat, p: nat) {
    if |cur| == job.g && r == Count(job.b, job.g) then Ready(job, wk, info, Pow2(job.g))
    else Next(job, wk, info, cur, r, p)
  }

  /** A code below the last one of the greatest length is not all ones. */
  lemma NotLast(job: Job, cur: seq<bool>, r: nat)
    requires ValidJob(job) && 0 < |cur| <= job.g && r < Count(job.b, |cur|) && Msb(cur) == FirstCode(job.b, |cur|) + r
    ensures Msb(cur) + 1 == Pow2(|cur|) <==> |cur| == job.g && r + 1 == Count(job.b, job.g)
  {
    hide Pow2, Msb, FirstCode, Count;
    var k := |cur|;
    CodesUsed(job.b, k);
    if k < job.g {
      LeftPositive(job.b, k);
    } else {
      LeftIsKraft(job.b, k);
    }
  }

  lemma NextReached(job: Job, wk: Work, info: seq<Info>, cur: seq<bool>, r: nat, p: nat)
    requires ValidJob(job) && Leaving(job, wk, info, cur, p) && Top(info, wk.stack).pre <= Inc(cur)
    requires Msb(cur) == FirstCode(job.b, |cur|) + r && r < Count(job.b, |cur|)
    ensures Reached(job, wk, info, Inc(cur), r + 1, p + Size(job.g, |cur|))
  {
    hide Good, Complete, Pow2, Msb, Lsb, FirstCode, Count, Start, Size, Inc;
    NotLast(job, cur, r);
    IncValue(cur);
    if Msb(cur) + 1 == Pow2(|cur|) {
      IncLast(job.g, cur);
    } else {
      IncStart(job.g, cur);
    }
  }

  lemma NowLeaving(job: Job, wk: Work, info: seq<Info>, cur: seq<bool>, r: nat, p: nat, wk': Work)
    requires Next(job, wk, info, cur, r, p) && |cur| <= wk.w + job.l
    requires Ready(job, wk', info, p + Size(job.g, |cur|)) && wk'.stack == wk.stack && wk'.w == wk.w && wk'.q == wk.q
    requires wk'.i == Lsb(Inc(cur))
    ensures Leaving(job, wk', info, cur, p)
  {
    hide Good, Start, Size, Lsb, Msb, Inc;
  }

  /** One round of the loop over the codes of length k. */
  method OneCode(job: Job, c: seq<nat>, v: seq<nat>, k: nat, a: nat, at: nat, wk: Work,
                 ghost info: seq<Info>, ghost cur: seq<bool>, ghost r: nat, ghost p: nat)
    returns (wk': Work, ghost info': seq<Info>)
    requires Arguments(job, c) && Values(job, v) && Next(job, wk, info, cur, r, p)
    requires |cur| == k > 0 && a + 1 == Count(job.b, k) - r && at == Offset(job.b, k) + r
    ensures Reached(job, wk', info', Inc(cur), r + 1, p + Size(job.g, k))
    ensures |info| > 0 && |info'| > 0 && info'[0] == info[0]
  {
    hide Ready, Offset, Complete, Count, FirstCode, NthSymbol, Word, LeafOf, SymbolEntry, Start, Size, Lsb, Msb, Inc;
    wk', info' := Descend(job, c, k, a, wk, info, cur, r, p);
    ghost var s := NthSymbol(job.b, k, r);
    NthWord(job.b, cur, r);
    WithinReach(job, wk', info', cur, r, p);
    var e := EntryAt(job.al, v, at, k - wk'.w, s);
    ghost var was := wk';
    wk' := Place(job, k, wk', e, s, info', cur, r, p);
    var i := NextCode(wk'.i, k, cur);
    wk' := wk'.(i := i);
    StillReady(job, was, wk', info', p + Size(job.g, k));
    NowLeaving(job, was, info', cur, r, p, wk');
    wk' := Retreat(job, wk', info', cur, p);
    NextReached(job, wk', info', cur, r, p);
  }

  lemma WithinReach(job: Job, wk: Work, info: seq<Info>, cur: seq<bool>, r: nat, p: nat)
    requires Next(job, wk, info, cur, r, p)
    ensures wk.w < |cur|
  {
  }

  lemma StillReady(job: Job, was: Work, wk: Work, info: seq<Info>, p: nat)
    requires Ready(job, wk.(i := was.i), info, p)
    ensures Ready(job, wk, info, p)
  {
    hide Good;
    assert MadeBy(wk, info) == MadeBy(wk.(i := was.i), info);
  }

  /** From the codes of one length to those of the next. */
  lemma LongerCodes(job: Job, wk: Work, info: seq<Info>, cur: seq<bool>, p: nat)
    requires Reached(job, wk, info, cur, Count(job.b, |cur|), p) && |cur| < job.g
    ensures Next(job, wk, info, cur + [false], 0, p)
  {
    hide Good, Start, Looks, Lsb, Pow2;
    var cur' := cur + [false];
    StartPad(job.g, cur);
    LsbPad(cur);
    assert cur'[..|cur|] == cur;
  }

  lemma {:induction false} FirstCodeZero(b: seq<nat>, k: nat)
    requires forall m :: 0 < m < k ==> Count(b, m) == 0
    ensures FirstCode(b, k) == 0 && Offset(b, k) == 0
  {
    if k > 0 { FirstCodeZero(b, k - 1); }
  }

  /** The first table has at least the l bits that decoding looks up in it. */
  lemma RootWide(job: Job, k: nat, a: nat, j: nat)
    requires ValidJob(job) && 0 < k <= job.l && a + 1 == Count(job.b, k) && FirstCode(job.b, k) == 0 && k <= j
    requires k < TableLimit(0, job.l, job.g) || Pow2(k) <= a + 1 ==>
               j <= TableLimit(0, job.l, job.g) || j == k
    requires k < TableLimit(0, job.l, job.g) || Pow2(k) <= a + 1 ==>
               j == TableLimit(0, job.l, job.g) || Pow2(j) <= Remaining(job.b, 0, k, j)
    requires k >= TableLimit(0, job.l, job.g) && Pow2(k) > a + 1 ==> j == k + 1
    ensures j >= job.l
  {
    if j < job.l {
      CodesUsed(job.b, j);
      LeftPositive(job.b, j);
    }
  }

  lemma RootReady(job: Job, k: nat, table: seq<Huft>, wk: Work, info: seq<Info>, cur: seq<bool>)
    requires 0 < job.l <= job.g && Pow2(job.l) <= |table| && 0 < k <= job.g && Plain(job.l, table)
    requires wk == Work([table], [0], [0], 0, 0, 0) && info == [Info([], job.l, job.l)]
    requires cur == seq(k, i => false) && FirstCode(job.b, k) == 0
    ensures Next(job, wk, info, cur, 0, 0)
  {
    hide Good;
    RootGood(job, table);
    AllZero(job.g, k, cur);
    assert 0 == 0 * job.l;
    assert LookOk(job, info[0]);
    assert MadeBy(wk, info) == Made([table], [Info([], job.l, job.l)], [0]);
  }

  lemma RootGood(job: Job, table: seq<Huft>)
    requires 0 < job.l <= job.g && Pow2(job.l) <= |table|
    ensures Good(job, Made([table], [Info([], job.l, job.l)], [0]), 0)
  {
    hide Start;
    forall y: seq<bool> | |y| == job.l
      ensures !Due(job, [], y, [], 0)
    {
    }
  }

  lemma AllZero(g: nat, k: nat, cur: seq<bool>)
    requires k <= g && cur == seq(k, i => false)
    ensures Msb(cur) == 0 && Lsb(cur) == 0 && Start(g, cur) == 0
  {
    ZeroTail(g, cur, 0);
    ZeroTail(|cur|, cur, 0);
    assert cur[..0] == [];
  }

  /** The main loop of huft_build, from the shortest codes to the longest. Afterwards every entry that the bits
      before it can select leads to the symbol whose word they begin with, and each table looks up as many bits
      as the sizing loop says. */
  method BuildTables(job: Job, c: seq<nat>, v: seq<nat>, min: nat) returns (tables: seq<seq<Huft>>, ghost info: seq<Info>)
    requires Arguments(job, c) && Values(job, v)
    requires 0 < min <= job.l && Count(job.b, min) > 0 && forall m :: 0 < m < min ==> Count(job.b, m) == 0
    ensures |info| > 0 && info[0] == Info([], job.l, job.l) && AllOk(job, tables, info) && Looks(job, tables, info)
  {
    hide Good, Complete, Count, FirstCode, Offset, Start, Lsb, Msb, Inc, Next, Values, Pow2;
    var k, at := min, 0;
    FirstCodeZero(job.b, min);
    var wk: Work;
    wk, info := MakeRoot(job, c, min);
    ghost var cur, p: nat := seq(k, i => false), 0;
    while k <= job.g
      invariant min <= k <= job.g + 1 && |info| > 0 && info[0] == Info([], job.l, job.l)
      invariant k <= job.g ==> |cur| == k && at == Offset(job.b, k) && Next(job, wk, info, cur, 0, p)
      invariant k > job.g ==> Ready(job, wk, info, Pow2(job.g))
    {
      var a := c[k];
      ghost var r := 0;
      NotYetDone(job, wk, info, cur, p);
      while a > 0
        invariant a + r == Count(job.b, k) && at == Offset(job.b, k) + r && |cur| == k
        invariant |info| > 0 && info[0] == Info([], job.l, job.l)
        invariant Reached(job, wk, info, cur, r, p)
      {
        a := a - 1;
        wk, info := OneCode(job, c, v, k, a, at, wk, info, cur, r, p);
        cur, r, p, at := Inc(cur), r + 1, p + Size(job.g, k), at + 1;
      }
      if k < job.g {
        LongerCodes(job, wk, info, cur, p);
        cur := cur + [false];
      }
      OffsetNext(job.b, k);
      k := k + 1;
    }
    tables := wk.tables;
    AllFilled(job, MadeBy(wk, info));
  }

  lemma OffsetNext(b: seq<nat>, k: nat)
    requires k > 0
    ensures Offset(b, k + 1) == Offset(b, k) + Count(b, k)
  {
  }

  lemma NotYetDone(job: Job, wk: Work, info: seq<Info>, cur: seq<bool>, p: nat)
    requires ValidJob(job) && Next(job, wk, info, cur, 0, p)
    ensures Reached(job, wk, info, cur, 0, p)
  {
    hide Good, Ready, At, Next;
    var s :| 0 <= s < |job.b| && job.b[s] == job.g;
    RankBound(job.b, s);
  }

  method MakeRoot(job: Job, c: seq<nat>, k: nat) returns (wk: Work, ghost info: seq<Info>)
    requires Arguments(job, c) && 0 < k <= job.l && Count(job.b, k) > 0 && FirstCode(job.b, k) == 0
    ensures Next(job, wk, info, seq(k, i => false), 0, 0) && info == [Info([], job.l, job.l)]
  {
    hide Complete, Next, Pow2;
    assert Remaining(job.b, 0, k, k) == Count(job.b, k);
    var j := SizeTable(c, k, c[k] - 1, 0, job.l, job.g, job.b, 0);
    RootWide(job, k, c[k] - 1, j);
    Pow2Mono(job.l, j);
    wk := Work([seq(Pow2(j), i => Blank)], [0], [0], 0, 0, 0);
    info := [Info([], job.l, job.l)];
    NominalTable(job, j);
    RootReady(job, k, wk.tables[0], wk, info, seq(k, i => false));
  }
}
