/** The linked decoding tables of linux/zBoot/inflate.c: what huft_build maintains while it fills
    them, and why walking them decodes the canonical code. */
module HuftTables {
  import opened Bits
  import opened HuffmanCodes

  /** A table entry: unused, a decoded symbol, a pointer to a further table, or what memory held where a symbol
      outside the alphabet was looked up. */
  datatype Huft =
    | Blank
    | Leaf(e: nat, b: nat, n: nat)
    | Link(b: nat, width: nat, table: nat)
    | Stray(b: nat)

  /** How a symbol is turned into an entry: the first `simple` symbols stand for themselves, the
      others carry a base value and a number of extra bits. Codes from `limit` on belong to no
      symbol: they take the leftover contents of the symbol list, whatever they are, or are invalid beyond it. */
  datatype Alphabet = Alphabet(limit: nat, simple: nat, base: seq<nat>, extra: seq<nat>, stale: seq<nat>)

  predicate ValidAlphabet(al: Alphabet) { al.limit <= al.simple + |al.base| && |al.extra| == |al.base| }

  /** The entry for symbol s; 16 marks a literal, 15 the end of a block. */
  function SymbolEntry(al: Alphabet, s: nat, bits: nat): Huft
    requires ValidAlphabet(al)
  {
    if s < al.simple then Leaf(if s < 256 then 16 else 15, bits, s)
    else if s < al.simple + |al.base| then Leaf(al.extra[s - al.simple], bits, al.base[s - al.simple])
    else Stray(bits)
  }

  /** The entry for code s; 99 marks an invalid code. */
  function LeafOf(al: Alphabet, s: nat, bits: nat): Huft
    requires ValidAlphabet(al)
  {
    if s < al.limit then SymbolEntry(al, s, bits)
    else if s - al.limit < |al.stale| then SymbolEntry(al, al.stale[s - al.limit], bits)
    else Leaf(99, bits, 0)
  }

  /** What is known of an allocated table: the bits that lead to it, the bits that select the entries that are
      filled, and the bits that a walk looks up in it, which can be more. */
  datatype Info = Info(pre: seq<bool>, width: nat, looked: nat)

  /** One code length list, with greatest length g, being turned into tables of `l` bits per level. */
  datatype Job = Job(b: seq<nat>, al: Alphabet, l: nat, g: nat)

  ghost predicate ValidJob(j: Job) {
    Complete(j.b) && j.g == MaxLen(j.b) && ValidAlphabet(j.al) && 0 < j.l <= j.g
  }

  ghost predicate LeafFor(j: Job, pre: seq<bool>, y: seq<bool>, e: Huft, s: nat) {
    && s < |j.b| && |pre| < j.b[s] && Word(j.b, s) <= pre + y
    && ValidAlphabet(j.al) && e == LeafOf(j.al, s, j.b[s] - |pre|)
  }

  ghost predicate LinkFor(l: nat, info: seq<Info>, pre: seq<bool>, y: seq<bool>, e: Huft) {
    && e.Link? && e.b == |y| == l > 0 && e.table < |info|
    && info[e.table].pre == pre + y && e.width == info[e.table].looked
  }

  /** The entry that the bits y select in table t decodes them correctly. */
  ghost predicate EntryOk(j: Job, tables: seq<seq<Huft>>, info: seq<Info>, t: nat, y: seq<bool>)
    requires t < |tables| == |info|
  {
    && Lsb(y) < |tables[t]|
    && (LinkFor(j.l, info, info[t].pre, y, tables[t][Lsb(y)]) || exists s :: LeafFor(j, info[t].pre, y, tables[t][Lsb(y)], s))
  }

  /** The tables allocated so far, what is known of each, and the stack of those still being filled. */
  datatype Made = Made(tables: seq<seq<Huft>>, info: seq<Info>, stack: seq<nat>)

  ghost predicate Shaped(j: Job, tables: seq<seq<Huft>>, info: seq<Info>) {
    && |tables| == |info|
    && (forall t :: 0 <= t < |info| ==>
          && |info[t].pre| + info[t].width <= j.g && 0 < info[t].width <= j.l
          && Pow2(info[t].width) <= |tables[t]|)
  }

  /** All words below the bits are at least l bits deeper, and some are more: where the sizing loop of huft_build
      makes a table of more than l bits. */
  ghost predicate WideRegion(j: Job, pre: seq<bool>) {
    && pre != []
    && (forall s :: 0 <= s < |j.b| && pre <= Word(j.b, s) ==> j.b[s] >= |pre| + j.l)
    && (exists s :: 0 <= s < |j.b| && pre <= Word(j.b, s) && j.b[s] > |pre| + j.l)
  }

  /** So many bits before a table are a multiple of l. */
  ghost predicate Leveled(l: nat, n: nat) { exists h: nat :: n == h * l }

  ghost predicate LookOk(j: Job, i: Info) {
    && (i.looked == i.width || i.width == j.l < i.looked) && (i.looked > j.l <==> WideRegion(j, i.pre))
    && Leveled(j.l, |i.pre|)
  }

  /** Links stand only where l bits lead, and a symbol ends within l bits of its table. */
  predicate Plain(l: nat, table: seq<Huft>) {
    forall x :: 0 <= x < |table| ==> PlainEntry(l, x, table[x])
  }

  predicate PlainEntry(l: nat, x: nat, e: Huft) {
    match e
    case Link(_, _, _) => x < Pow2(l)
    case Leaf(_, b, _) => b <= l
    case Stray(b) => b <= l
    case Blank => true
  }

  /** How many bits each table looks up, and what its entries can be. */
  ghost predicate Looks(j: Job, tables: seq<seq<Huft>>, info: seq<Info>) {
    && |tables| == |info|
    && (forall t :: 0 <= t < |info| ==> LookOk(j, info[t]) && Plain(j.l, tables[t]))
  }

  function Used(b: seq<nat>, m: nat): nat { FirstCode(b, m) + Count(b, m) }

  /** A table is wide enough: it has the full l bits, or the codes it can hold fill its region. */
  ghost predicate Fits(j: Job, i: Info) {
    i.width == j.l || Used(j.b, |i.pre| + i.width) >= (Msb(i.pre) + 1) * Pow2(i.width)
  }

  /** The tables on the stack: level v has v * l bits before it, and each one extends those below. */
  ghost predicate Stacked(j: Job, info: seq<Info>, stack: seq<nat>) {
    && stack != []
    && (forall v :: 0 <= v < |stack| ==> stack[v] < |info| && Fits(j, info[stack[v]]) && |info[stack[v]].pre| == v * j.l)
    && (forall u, v :: 0 <= u < v < |stack| ==> Below(j, info[stack[u]], info[stack[v]]))
  }

  predicate Below(j: Job, lower: Info, upper: Info) {
    lower.pre <= upper.pre && |lower.pre| + j.l <= |upper.pre| && lower.width == j.l
  }

  function Top(info: seq<Info>, stack: seq<nat>): Info
    requires stack != [] && stack[|stack| - 1] < |info|
  {
    info[stack[|stack| - 1]]
  }

  /** A table that is no longer on the stack lies entirely before position p. */
  ghost predicate Finished(j: Job, i: Info, p: nat) {
    |i.pre| <= j.g && Start(j.g, i.pre) + Size(j.g, |i.pre|) <= p
  }

  /** The bits y of a table lead on to the current table, or to strings before position p. */
  ghost predicate Due(j: Job, pre: seq<bool>, y: seq<bool>, top: seq<bool>, p: nat) {
    pre + y <= top || (|pre + y| <= j.g && Start(j.g, pre + y) < p)
  }

  /** Table t is being filled or lies entirely before position p. */
  ghost predicate Placed(j: Job, m: Made, t: nat, p: nat)
    requires t < |m.info|
  {
    t in m.stack || Finished(j, m.info[t], p)
  }

  /** Everything before position p, and the path to the current table, is in place. */
  ghost predicate Filled(j: Job, m: Made, p: nat)
    requires |m.tables| == |m.info| && m.stack != [] && m.stack[|m.stack| - 1] < |m.info|
  {
    && (forall t :: 0 <= t < |m.info| ==> Placed(j, m, t, p))
    && (forall t, y: seq<bool> ::
          0 <= t < |m.info| && |y| == m.info[t].width && Due(j, m.info[t].pre, y, Top(m.info, m.stack).pre, p) ==>
          EntryOk(j, m.tables, m.info, t, y))
  }

  ghost predicate Good(j: Job, m: Made, p: nat) {
    Shaped(j, m.tables, m.info) && Stacked(j, m.info, m.stack) && Filled(j, m, p)
  }

  /** The walk of inflate_codes and inflate_dynamic through the tables. */
  datatype Walked = Stuck | Found(leaf: Huft, rest: seq<bool>)

  function Walk(tables: seq<seq<Huft>>, t: nat, width: nat, bits: seq<bool>): Walked
    decreases |bits|
  {
    if t >= |tables| || |bits| < width then Stuck
    else
      var k := Lsb(bits[..width]);
      if k >= |tables[t]| then Stuck
      else match tables[t][k]
        case Leaf(e, b, n) => if b <= |bits| then Found(tables[t][k], bits[b..]) else Stuck
        case Stray(b) => if b <= |bits| then Found(tables[t][k], bits[b..]) else Stuck
        case Link(b, w, t') => if 0 < b <= |bits| then Walk(tables, t', w, bits[b..]) else Stuck
        case Blank => Stuck
  }

  /** Every entry of every table is in place. */
  ghost predicate AllOk(j: Job, tables: seq<seq<Huft>>, info: seq<Info>) {
    && Shaped(j, tables, info)
    && (forall t, y: seq<bool> :: 0 <= t < |info| && |y| == info[t].width ==> EntryOk(j, tables, info, t, y))
  }

  /** No table looks up more bits than its entries are filled for. */
  ghost predicate Exact(info: seq<Info>) {
    forall t :: 0 <= t < |info| ==> info[t].looked == info[t].width
  }

  /** When all entries are in place, a walk ends in the symbol whose code word the bits begin with,
      having used up exactly that word; it gets stuck only if the bits run out. */
  lemma {:induction false} WalkDecodes(j: Job, tables: seq<seq<Huft>>, info: seq<Info>, t: nat, bits: seq<bool>)
    returns (s: nat, k: nat)
    requires ValidJob(j) && AllOk(j, tables, info) && Exact(info) && t < |info|
    ensures Walk(tables, t, info[t].width, bits).Stuck? ==> |bits| < j.g - |info[t].pre|
    ensures Walk(tables, t, info[t].width, bits).Found? ==>
              && Decodes(j.b, info[t].pre + bits, s)
              && Walk(tables, t, info[t].width, bits) == Found(LeafOf(j.al, s, k), (info[t].pre + bits)[j.b[s]..])
    decreases |bits|
  {
    var pre, w := info[t].pre, info[t].width;
    s, k := 0, 0;
    if |bits| >= w {
      var y := bits[..w];
      assert EntryOk(j, tables, info, t, y);
      var e := tables[t][Lsb(y)];
      assert pre + bits == pre + y + bits[w..];
      if LinkFor(j.l, info, pre, y, e) {
        var rest := bits[e.b..];
        assert info[e.table].pre + rest == pre + bits;
        s, k := WalkDecodes(j, tables, info, e.table, rest);
      } else {
        s :| LeafFor(j, pre, y, e, s);
        k := j.b[s] - |pre|;
        LeafReached(j, pre, y, s, bits);
      }
    }
  }

  lemma LeafReached(j: Job, pre: seq<bool>, y: seq<bool>, s: nat, bits: seq<bool>)
    requires s < |j.b| && |pre| < j.b[s] && Word(j.b, s) <= pre + y && y <= bits
    ensures Decodes(j.b, pre + bits, s) && j.b[s] - |pre| <= |y|
    ensures bits[j.b[s] - |pre|..] == (pre + bits)[j.b[s]..]
  {
    assert pre + bits == pre + y + bits[|y|..];
  }

  // ---------- the steps of huft_build ----------

  /** The code being placed: the r-th one of length k, whose bits are cur, at position p. Past the
      bits that the current table can look up it is all zero. */
  ghost predicate At(j: Job, pre: seq<bool>, cur: seq<bool>, r: nat, p: nat) {
    && |pre| < |cur| <= j.g
    && Msb(cur) == FirstCode(j.b, |cur|) + r
    && Start(j.g, cur) == p
    && pre <= cur
    && (forall i :: |pre| + j.l <= i < |cur| ==> !cur[i])
  }

  lemma {:induction false} FirstCodeGrows(b: seq<nat>, m: nat, k: nat)
    requires m < k
    ensures Used(b, m) * Pow2(k - m) <= FirstCode(b, k)
    decreases k
  {
    if m < k - 1 {
      FirstCodeGrows(b, m, k - 1);
      Twice(Used(b, m), Pow2(k - 1 - m));
    } else {
      assert Pow2(1) == 2 * Pow2(0);
    }
  }

  /** A code within l bits of the current table fits it; for a longer one the table has all l bits. */
  lemma CodeFits(j: Job, i: Info, cur: seq<bool>, r: nat, p: nat)
    requires Fits(j, i) && At(j, i.pre, cur, r, p)
    ensures i.width == j.l || |cur| <= |i.pre| + i.width
  {
    var m, k := |i.pre| + i.width, |cur|;
    if i.width != j.l && k > m {
      FirstCodeGrows(j.b, m, k);
      var t := cur[|i.pre|..];
      assert cur == i.pre + t;
      MsbConcat(i.pre, t);
      MsbBound(t);
      Pow2Add(i.width, k - m);
      PatternsLeft(Used(j.b, m), Msb(i.pre), Pow2(i.width), Pow2(k - m), Msb(cur), Msb(t));
    }
  }

  lemma PatternsLeft(used: nat, a: nat, x: nat, y: nat, c: nat, t: nat)
    requires used >= (a + 1) * x && c == a * (x * y) + t && t < x * y
    ensures c < used * y
  {
    Distribute(a, 1, x * y);
    Associate(a + 1, x, y);
    MulMono((a + 1) * x, used, y);
  }

  lemma MulMono(a: nat, b: nat, c: nat)
    requires a <= b
    ensures a * c <= b * c
  {
    Distribute(a, b - a, c);
    assert (b - a) * c >= 0;
  }

  /** The state after a table of the given width has been allocated for the next l bits of cur and
      linked from the current table. */
  function Pushed(j: Job, m: Made, cur: seq<bool>, width: nat, looked: nat, table: seq<Huft>): Made
    requires |m.tables| == |m.info| && m.stack != [] && m.stack[|m.stack| - 1] < |m.info|
    requires |Top(m.info, m.stack).pre| + j.l <= |cur|
    requires Lsb(cur[|Top(m.info, m.stack).pre|..|Top(m.info, m.stack).pre| + j.l]) < |m.tables[m.stack[|m.stack| - 1]]|
  {
    var t := m.stack[|m.stack| - 1];
    var a := |m.info[t].pre|;
    Made(m.tables[t := m.tables[t][Lsb(cur[a..a + j.l]) := Link(j.l, looked, |m.info|)]] + [table],
         m.info + [Info(cur[..a + j.l], width, looked)], m.stack + [|m.info|])
  }

  ghost predicate CanPush(j: Job, m: Made, cur: seq<bool>, r: nat, p: nat, width: nat, looked: nat, table: seq<Huft>) {
    && j.l > 0 && Good(j, m, p) && At(j, Top(m.info, m.stack).pre, cur, r, p)
    && |cur| > |Top(m.info, m.stack).pre| + j.l
    && Top(m.info, m.stack).width == j.l
    && Lsb(cur[|Top(m.info, m.stack).pre|..|Top(m.info, m.stack).pre| + j.l]) < |m.tables[m.stack[|m.stack| - 1]]|
    && 0 < width <= j.l && |Top(m.info, m.stack).pre| + j.l + width <= j.g && Pow2(width) <= |table|
    && Fits(j, Info(cur[..|Top(m.info, m.stack).pre| + j.l], width, looked))
  }

  lemma PushShaped(j: Job, m: Made, cur: seq<bool>, width: nat, looked: nat, table: seq<Huft>)
    requires Shaped(j, m.tables, m.info) && m.stack != [] && m.stack[|m.stack| - 1] < |m.info|
    requires var a := |Top(m.info, m.stack).pre|;
             && a + j.l <= |cur| && Lsb(cur[a..a + j.l]) < |m.tables[m.stack[|m.stack| - 1]]|
             && 0 < width <= j.l && a + j.l + width <= j.g && Pow2(width) <= |table|
    ensures var m' := Pushed(j, m, cur, width, looked, table); Shaped(j, m'.tables, m'.info)
  {
  }

  lemma PushLooks(j: Job, m: Made, cur: seq<bool>, width: nat, looked: nat, table: seq<Huft>, m': Made)
    requires Looks(j, m.tables, m.info) && m.stack != [] && m.stack[|m.stack| - 1] < |m.info|
    requires var a := |Top(m.info, m.stack).pre|;
             && a + j.l <= |cur| && Lsb(cur[a..a + j.l]) < |m.tables[m.stack[|m.stack| - 1]]|
             && LookOk(j, Info(cur[..a + j.l], width, looked)) && Plain(j.l, table)
    requires m' == Pushed(j, m, cur, width, looked, table)
    ensures Looks(j, m'.tables, m'.info)
  {
    hide LookOk, Pow2;
    var a := |Top(m.info, m.stack).pre|;
    LsbBound(cur[a..a + j.l]);
  }

  lemma FillLooks(j: Job, m: Made, table: seq<Huft>, e: Huft)
    requires Looks(j, m.tables, m.info) && m.stack != [] && m.stack[|m.stack| - 1] < |m.info|
    requires |table| == |m.tables[m.stack[|m.stack| - 1]]|
    requires forall x :: 0 <= x < |table| ==> table[x] == e || table[x] == m.tables[m.stack[|m.stack| - 1]][x]
    requires (e.Leaf? || e.Stray?) && e.b <= j.l
    ensures Looks(j, Refilled(m, table).tables, m.info)
  {
    hide LookOk, Pow2;
  }

  lemma PushStacked(j: Job, info: seq<Info>, stack: seq<nat>, i: Info)
    requires Stacked(j, info, stack) && Fits(j, i)
    requires Top(info, stack).pre <= i.pre && |i.pre| == |Top(info, stack).pre| + j.l
    requires Top(info, stack).width == j.l
    ensures Stacked(j, info + [i], stack + [|info|])
  {
    var info', stack' := info + [i], stack + [|info|];
    var h := |stack|;
    Distribute(h - 1, 1, j.l);
    assert forall v :: 0 <= v < h ==> stack'[v] == stack[v] && info'[stack'[v]] == info[stack[v]];
    assert forall u :: 0 <= u < h - 1 ==> Below(j, info[stack[u]], info[stack[h - 1]]);
  }

  lemma PushAt(j: Job, pre: seq<bool>, cur: seq<bool>, r: nat, p: nat)
    requires At(j, pre, cur, r, p) && |cur| > |pre| + j.l
    ensures At(j, cur[..|pre| + j.l], cur, r, p) && Start(j.g, cur[..|pre| + j.l]) == p
  {
    ZeroTail(j.g, cur, |pre| + j.l);
  }

  lemma {:induction false} ZeroTail(g: nat, s: seq<bool>, n: nat)
    requires n <= |s| <= g && forall i :: n <= i < |s| ==> !s[i]
    ensures Start(g, s) == Start(g, s[..n]) && Lsb(s) == Lsb(s[..n])
  {
    if n == |s| {
      assert s[..n] == s;
    } else {
      var u := s[..|s| - 1];
      assert s == u + [false] && u[..n] == s[..n];
      ZeroTail(g, u, n);
      StartPad(g, u);
      LsbPad(u);
    }
  }

  /** An entry other than the new link stays as it was. */
  lemma PushOther(j: Job, m: Made, cur: seq<bool>, width: nat, looked: nat, table: seq<Huft>, t: nat, y: seq<bool>)
    requires Shaped(j, m.tables, m.info) && m.stack != [] && m.stack[|m.stack| - 1] < |m.info|
    requires var a := |Top(m.info, m.stack).pre|;
             && a + j.l <= |cur| && Lsb(cur[a..a + j.l]) < |m.tables[m.stack[|m.stack| - 1]]|
             && Top(m.info, m.stack).width == j.l
             && t < |m.info| && |y| == m.info[t].width && !(t == m.stack[|m.stack| - 1] && y == cur[a..a + j.l])
    requires EntryOk(j, m.tables, m.info, t, y)
    ensures var m' := Pushed(j, m, cur, width, looked, table); EntryOk(j, m'.tables, m'.info, t, y)
  {
    var m' := Pushed(j, m, cur, width, looked, table);
    var a := |Top(m.info, m.stack).pre|;
    if t == m.stack[|m.stack| - 1] && Lsb(y) == Lsb(cur[a..a + j.l]) {
      LsbInjective(y, cur[a..a + j.l]);
    }
    var e := m.tables[t][Lsb(y)];
    assert m'.tables[t][Lsb(y)] == e;
    if LinkFor(j.l, m.info, m.info[t].pre, y, e) {
      assert LinkFor(j.l, m'.info, m'.info[t].pre, y, e);
    } else {
      var s :| LeafFor(j, m.info[t].pre, y, e, s);
      assert LeafFor(j, m'.info[t].pre, y, e, s);
    }
  }

  lemma PushLink(j: Job, m: Made, cur: seq<bool>, width: nat, looked: nat, table: seq<Huft>)
    requires Shaped(j, m.tables, m.info) && m.stack != [] && m.stack[|m.stack| - 1] < |m.info|
    requires var pre := Top(m.info, m.stack).pre;
             && pre <= cur && |pre| + j.l <= |cur| && j.l > 0
             && Lsb(cur[|pre|..|pre| + j.l]) < |m.tables[m.stack[|m.stack| - 1]]|
    ensures var m', a := Pushed(j, m, cur, width, looked, table), |Top(m.info, m.stack).pre|;
            EntryOk(j, m'.tables, m'.info, m.stack[|m.stack| - 1], cur[a..a + j.l])
  {
    var m' := Pushed(j, m, cur, width, looked, table);
    var t := m.stack[|m.stack| - 1];
    var pre := m.info[t].pre;
    var y := cur[|pre|..|pre| + j.l];
    assert pre + y == cur[..|pre| + j.l];
    assert LinkFor(j.l, m'.info, pre, y, m'.tables[t][Lsb(y)]);
  }

  /** What is due after the push was due before, or is the new link. */
  lemma PushDue(j: Job, i: Info, top: Info, isTop: bool, cur: seq<bool>, r: nat, p: nat, y: seq<bool>)
    requires if isTop then i == top else Below(j, i, top) || Finished(j, i, p)
    requires top.width == j.l && At(j, top.pre, cur, r, p) && |cur| > |top.pre| + j.l
    requires |y| == i.width && Due(j, i.pre, y, cur[..|top.pre| + j.l], p)
    ensures Due(j, i.pre, y, top.pre, p) || (isTop && y == cur[|top.pre|..|top.pre| + j.l])
  {
    var q, w := i.pre, |top.pre| + j.l;
    if q + y <= cur[..w] {
      assert q == (q + y)[..|q|] == cur[..|q|];
      PrefixIff(j.g, q, cur);
      if isTop {
        assert q + y == cur[..w];
        assert y == (q + y)[|q|..];
      } else {
        assert q + y == cur[..|q + y|];
        assert top.pre == cur[..|top.pre|];
      }
    }
  }

  lemma OnStack(j: Job, m: Made, p: nat, t: nat)
    requires Stacked(j, m.info, m.stack) && t < |m.info| && Placed(j, m, t, p)
    ensures t == m.stack[|m.stack| - 1] || Below(j, m.info[t], Top(m.info, m.stack)) || Finished(j, m.info[t], p)
  {
    if t in m.stack {
      var v :| 0 <= v < |m.stack| && m.stack[v] == t;
      if v < |m.stack| - 1 {
        assert Below(j, m.info[m.stack[v]], m.info[m.stack[|m.stack| - 1]]);
      }
    }
  }

  lemma PushOld(j: Job, m: Made, cur: seq<bool>, r: nat, p: nat, width: nat, looked: nat, table: seq<Huft>, m': Made, t: nat, y: seq<bool>)
    requires Shaped(j, m.tables, m.info) && Stacked(j, m.info, m.stack) && j.l > 0
    requires t < |m.info| && |y| == m.info[t].width && Placed(j, m, t, p)
    requires var top := Top(m.info, m.stack);
             && top.width == j.l && At(j, top.pre, cur, r, p) && |cur| > |top.pre| + j.l
             && Lsb(cur[|top.pre|..|top.pre| + j.l]) < |m.tables[m.stack[|m.stack| - 1]]|
             && Due(j, m.info[t].pre, y, cur[..|top.pre| + j.l], p)
             && (Due(j, m.info[t].pre, y, top.pre, p) ==> EntryOk(j, m.tables, m.info, t, y))
             && m' == Pushed(j, m, cur, width, looked, table)
    ensures EntryOk(j, m'.tables, m'.info, t, y)
  {
    var top := Top(m.info, m.stack);
    OnStack(j, m, p, t);
    PushDue(j, m.info[t], top, t == m.stack[|m.stack| - 1], cur, r, p, y);
    if t == m.stack[|m.stack| - 1] && y == cur[|top.pre|..|top.pre| + j.l] {
      PushLink(j, m, cur, width, looked, table);
    } else {
      PushOther(j, m, cur, width, looked, table, t, y);
    }
  }

  /** Nothing in a fresh table is due yet. */
  lemma PushNew(j: Job, pre: seq<bool>, y: seq<bool>, p: nat)
    requires y != [] && |pre + y| <= j.g && Start(j.g, pre) == p
    ensures !Due(j, pre, y, pre, p)
  {
    StartInside(j.g, pre, pre + y);
  }

  lemma PushOldAll(j: Job, m: Made, cur: seq<bool>, r: nat, p: nat, width: nat, looked: nat, table: seq<Huft>, m': Made, new': seq<bool>)
    requires CanPush(j, m, cur, r, p, width, looked, table) && m' == Pushed(j, m, cur, width, looked, table)
    requires new' == cur[..|Top(m.info, m.stack).pre| + j.l]
    ensures forall t, y: seq<bool> :: 0 <= t < |m.info| && |y| == m'.info[t].width && Due(j, m'.info[t].pre, y, new', p) ==>
                                      EntryOk(j, m'.tables, m'.info, t, y)
  {
    forall t, y: seq<bool> | 0 <= t < |m.info| && |y| == m'.info[t].width && Due(j, m'.info[t].pre, y, new', p)
      ensures EntryOk(j, m'.tables, m'.info, t, y)
    {
      PushOld(j, m, cur, r, p, width, looked, table, m', t, y);
    }
  }

  lemma PushFilled(j: Job, m: Made, cur: seq<bool>, r: nat, p: nat, width: nat, looked: nat, table: seq<Huft>, m': Made)
    requires CanPush(j, m, cur, r, p, width, looked, table) && m' == Pushed(j, m, cur, width, looked, table)
    ensures Filled(j, m', p)
  {
    hide EntryOk, Due, Placed, Below, Fits, Start, Lsb, Msb, Pow2;
    var new' := cur[..|Top(m.info, m.stack).pre| + j.l];
    PushAt(j, Top(m.info, m.stack).pre, cur, r, p);
    PushMembers(j, m, p, m', width);
    PushOldAll(j, m, cur, r, p, width, looked, table, m', new');
    PushCombine(j, m', |m.info|, new', width, looked, p);
  }

  lemma PushGood(j: Job, m: Made, cur: seq<bool>, r: nat, p: nat, width: nat, looked: nat, table: seq<Huft>, m': Made)
    requires CanPush(j, m, cur, r, p, width, looked, table) && m' == Pushed(j, m, cur, width, looked, table)
    ensures Good(j, m', p)
  {
    hide EntryOk, Due, Placed, Below, Fits, Filled, Start, Lsb, Msb, Pow2;
    PushShaped(j, m, cur, width, looked, table);
    PushStacked(j, m.info, m.stack, Info(cur[..|Top(m.info, m.stack).pre| + j.l], width, looked));
    PushFilled(j, m, cur, r, p, width, looked, table, m');
  }

  lemma PushCombine(j: Job, m': Made, n: nat, new': seq<bool>, width: nat, looked: nat, p: nat)
    requires |m'.info| == |m'.tables| == n + 1 && m'.info[n] == Info(new', width, looked)
    requires m'.stack != [] && m'.stack[|m'.stack| - 1] == n
    requires forall t :: 0 <= t < |m'.info| ==> Placed(j, m', t, p)
    requires forall t, y: seq<bool> :: 0 <= t < n && |y| == m'.info[t].width && Due(j, m'.info[t].pre, y, new', p) ==>
                                       EntryOk(j, m'.tables, m'.info, t, y)
    requires width > 0 && |new'| + width <= j.g && Start(j.g, new') == p
    ensures Filled(j, m', p)
  {
    forall y: seq<bool> | |y| == width
      ensures !Due(j, new', y, new', p)
    {
      PushNew(j, new', y, p);
    }
  }

  lemma PushMembers(j: Job, m: Made, p: nat, m': Made, width: nat)
    requires forall t :: 0 <= t < |m.info| ==> Placed(j, m, t, p)
    requires |m'.info| == |m.info| + 1 && m'.info[..|m.info|] == m.info && m'.stack == m.stack + [|m.info|]
    ensures forall t :: 0 <= t < |m'.info| ==> Placed(j, m', t, p)
  {
    assert |m.info| in m'.stack;
    forall t | 0 <= t < |m'.info|
      ensures Placed(j, m', t, p)
    {
      if t < |m.info| {
        assert Placed(j, m, t, p);
        assert m'.info[t] == m'.info[..|m.info|][t];
      }
    }
  }

  /** table' is table with every entry whose index begins with the bits z set to e. */
  ghost predicate Spread(table: seq<Huft>, table': seq<Huft>, width: nat, z: seq<bool>, e: Huft) {
    && |table'| == |table| && Pow2(width) <= |table|
    && (forall y: seq<bool> :: |y| == width ==>
          Lsb(y) < |table| && table'[Lsb(y)] == if z <= y then e else table[Lsb(y)])
  }

  function Refilled(m: Made, table: seq<Huft>): Made
    requires m.stack != [] && m.stack[|m.stack| - 1] < |m.tables|
  {
    m.(tables := m.tables[m.stack[|m.stack| - 1] := table])
  }

  /** A string of a lower table that starts inside a code below the current table leads to that table. */
  lemma FillBelow(j: Job, q: seq<bool>, top: seq<bool>, cur: seq<bool>)
    requires |q| <= |top| && top <= cur && |cur| <= j.g
    requires Start(j.g, cur) <= Start(j.g, q) < Start(j.g, cur) + Size(j.g, |cur|)
    ensures q <= top
  {
    var q' := top[..|q|];
    StartInside(j.g, top, cur);
    StartInside(j.g, q', top);
    if q != q' { StartOrder(j.g, q, q'); }
  }

  lemma FillFinished(j: Job, i: Info, p: nat, y: seq<bool>)
    requires Finished(j, i, p) && |i.pre + y| <= j.g
    ensures Start(j.g, i.pre + y) < p
  {
    StartInside(j.g, i.pre, i.pre + y);
  }

  /** In the current table: what is due after the code is placed. */
  lemma FillTop(j: Job, m: Made, cur: seq<bool>, r: nat, p: nat, s: nat, table: seq<Huft>, y: seq<bool>)
    requires ValidJob(j) && Shaped(j, m.tables, m.info) && Stacked(j, m.info, m.stack)
    requires var top := Top(m.info, m.stack);
             && At(j, top.pre, cur, r, p) && |cur| <= |top.pre| + top.width && |y| == top.width
             && s < |j.b| && Word(j.b, s) == cur
             && Spread(m.tables[m.stack[|m.stack| - 1]], table, top.width, cur[|top.pre|..], LeafOf(j.al, s, |cur| - |top.pre|))
             && Due(j, top.pre, y, top.pre, p + Size(j.g, |cur|))
             && (Due(j, top.pre, y, top.pre, p) ==> EntryOk(j, m.tables, m.info, m.stack[|m.stack| - 1], y))
    ensures EntryOk(j, Refilled(m, table).tables, m.info, m.stack[|m.stack| - 1], y)
  {
    var top, t := Top(m.info, m.stack), m.stack[|m.stack| - 1];
    PrefixIff(j.g, cur, top.pre + y);
    TailPrefix(top.pre, cur, y);
    if cur[|top.pre|..] <= y {
      assert LeafFor(j, top.pre, y, table[Lsb(y)], s);
    } else {
      assert EntryOk(j, m.tables, m.info, t, y);
      assert table[Lsb(y)] == m.tables[t][Lsb(y)];
    }
  }

  lemma TailPrefix(pre: seq<bool>, cur: seq<bool>, y: seq<bool>)
    requires pre <= cur && |cur| <= |pre| + |y|
    ensures cur[|pre|..] <= y <==> cur <= pre + y
  {
    assert cur == pre + cur[|pre|..];
    if cur <= pre + y {
      assert cur == (pre + y)[..|cur|];
      assert cur[|pre|..] == y[..|cur| - |pre|];
    }
  }

  /** In any other table nothing changes, and nothing new is due. */
  lemma FillOther(j: Job, m: Made, cur: seq<bool>, r: nat, p: nat, table: seq<Huft>, t: nat, y: seq<bool>)
    requires Shaped(j, m.tables, m.info) && Stacked(j, m.info, m.stack)
    requires t < |m.info| && t != m.stack[|m.stack| - 1] && |y| == m.info[t].width && Placed(j, m, t, p)
    requires var top := Top(m.info, m.stack);
             && At(j, top.pre, cur, r, p)
             && Due(j, m.info[t].pre, y, top.pre, p + Size(j.g, |cur|))
             && (Due(j, m.info[t].pre, y, top.pre, p) ==> EntryOk(j, m.tables, m.info, t, y))
    ensures EntryOk(j, Refilled(m, table).tables, m.info, t, y)
  {
    var top, i := Top(m.info, m.stack), m.info[t];
    OnStack(j, m, p, t);
    if !Due(j, i.pre, y, top.pre, p) {
      if Below(j, i, top) {
        FillBelow(j, i.pre + y, top.pre, cur);
      } else {
        FillFinished(j, i, p, y);
      }
    }
  }

  lemma FillPlaced(j: Job, m: Made, m': Made, p: nat, p': nat)
    requires m'.info == m.info && m'.stack == m.stack && p <= p'
    requires forall t :: 0 <= t < |m.info| ==> Placed(j, m, t, p)
    ensures forall t :: 0 <= t < |m'.info| ==> Placed(j, m', t, p')
  {
    forall t | 0 <= t < |m'.info|
      ensures Placed(j, m', t, p')
    {
      assert Placed(j, m, t, p);
    }
  }

  /** Placing a code: the current table gets the symbol wherever the code's remaining bits lead, and
      everything up to the end of the code is in place. */
  lemma FillFilled(j: Job, m: Made, cur: seq<bool>, r: nat, p: nat, s: nat, table: seq<Huft>)
    requires ValidJob(j) && Good(j, m, p)
    requires var top := Top(m.info, m.stack);
             && At(j, top.pre, cur, r, p) && |cur| <= |top.pre| + top.width
             && s < |j.b| && Word(j.b, s) == cur
             && Spread(m.tables[m.stack[|m.stack| - 1]], table, top.width, cur[|top.pre|..], LeafOf(j.al, s, |cur| - |top.pre|))
    ensures Good(j, Refilled(m, table), p + Size(j.g, |cur|))
  {
    hide *;
    GoodParts(j, m, p);
    AtBounds(j, Top(m.info, m.stack).pre, cur, r, p);
    var m', p' := Refilled(m, table), p + Size(j.g, |cur|);
    FillShaped(j, m, cur, s, table, m');
    FillPlaced(j, m, m', p, p');
    FillAll(j, m, cur, r, p, s, table, m', p');
    GoodFrom(j, m', p');
  }

  lemma AtBounds(j: Job, pre: seq<bool>, cur: seq<bool>, r: nat, p: nat)
    requires At(j, pre, cur, r, p)
    ensures |pre| <= |cur| <= j.g
  {
  }

  lemma FillShaped(j: Job, m: Made, cur: seq<bool>, s: nat, table: seq<Huft>, m': Made)
    requires Shaped(j, m.tables, m.info) && m.stack != [] && m.stack[|m.stack| - 1] < |m.info|
    requires ValidJob(j)
    requires var top := Top(m.info, m.stack);
             |top.pre| <= |cur| && Spread(m.tables[m.stack[|m.stack| - 1]], table, top.width, cur[|top.pre|..], LeafOf(j.al, s, |cur| - |top.pre|))
    requires m' == Refilled(m, table)
    ensures m'.info == m.info && m'.stack == m.stack && Shaped(j, m'.tables, m'.info)
  {
  }

  lemma GoodParts(j: Job, m: Made, p: nat)
    requires Good(j, m, p)
    ensures m.stack != [] && m.stack[|m.stack| - 1] < |m.info| == |m.tables|
    ensures Shaped(j, m.tables, m.info) && Stacked(j, m.info, m.stack)
    ensures forall t :: 0 <= t < |m.info| ==> Placed(j, m, t, p)
  {
  }

  lemma GoodFrom(j: Job, m: Made, p: nat)
    requires Shaped(j, m.tables, m.info) && Stacked(j, m.info, m.stack)
    requires forall t :: 0 <= t < |m.info| ==> Placed(j, m, t, p)
    requires forall t, y: seq<bool> :: 0 <= t < |m.info| && |y| == m.info[t].width && Due(j, m.info[t].pre, y, Top(m.info, m.stack).pre, p) ==>
                                       EntryOk(j, m.tables, m.info, t, y)
    ensures Good(j, m, p)
  {
  }

  lemma FillAll(j: Job, m: Made, cur: seq<bool>, r: nat, p: nat, s: nat, table: seq<Huft>, m': Made, p': nat)
    requires ValidJob(j) && Good(j, m, p)
    requires var top := Top(m.info, m.stack);
             && At(j, top.pre, cur, r, p) && |cur| <= |top.pre| + top.width
             && s < |j.b| && Word(j.b, s) == cur
             && Spread(m.tables[m.stack[|m.stack| - 1]], table, top.width, cur[|top.pre|..], LeafOf(j.al, s, |cur| - |top.pre|))
    requires m' == Refilled(m, table) && p' == p + Size(j.g, |cur|)
    ensures forall t, y: seq<bool> ::
              0 <= t < |m.info| && |y| == m.info[t].width && Due(j, m.info[t].pre, y, Top(m.info, m.stack).pre, p') ==>
              EntryOk(j, m'.tables, m.info, t, y)
  {
    var top := Top(m.info, m.stack);
    hide At, Due, EntryOk, Placed, Below, Fits, Word, Start, Complete, Spread, LeafOf, Finished, Pow2, ValidAlphabet;
    forall t, y: seq<bool> | 0 <= t < |m.info| && |y| == m.info[t].width && Due(j, m.info[t].pre, y, top.pre, p')
      ensures EntryOk(j, m'.tables, m.info, t, y)
    {
      if t == m.stack[|m.stack| - 1] {
        FillTop(j, m, cur, r, p, s, table, y);
      } else {
        FillOther(j, m, cur, r, p, table, t, y);
      }
    }
  }

  lemma PopPlaced(j: Job, m: Made, m': Made, p: nat)
    requires |m.stack| > 1 && m'.info == m.info && m.stack == m'.stack + [m.stack[|m.stack| - 1]]
    requires m.stack[|m.stack| - 1] < |m.info| && Finished(j, Top(m.info, m.stack), p)
    requires forall t :: 0 <= t < |m.info| ==> Placed(j, m, t, p)
    ensures forall t :: 0 <= t < |m'.info| ==> Placed(j, m', t, p)
  {
    forall t | 0 <= t < |m'.info|
      ensures Placed(j, m', t, p)
    {
      assert Placed(j, m, t, p);
    }
  }

  lemma PopDue(j: Job, i: Info, y: seq<bool>, top': Info, top: Info, p: nat)
    requires Below(j, top', top) && Due(j, i.pre, y, top'.pre, p)
    ensures Due(j, i.pre, y, top.pre, p)
  {
  }

  /** Leaving a finished table. */
  lemma PopKeeps(j: Job, m: Made, p: nat)
    requires Good(j, m, p) && |m.stack| > 1 && Finished(j, Top(m.info, m.stack), p)
    ensures Good(j, m.(stack := m.stack[..|m.stack| - 1]), p)
  {
    hide Due, EntryOk, Placed, Below, Fits, Start;
    var h := |m.stack| - 1;
    var m' := m.(stack := m.stack[..h]);
    var top, top' := Top(m.info, m.stack), Top(m'.info, m'.stack);
    assert Below(j, m.info[m.stack[h - 1]], m.info[m.stack[h]]);
    assert m.stack == m'.stack + [m.stack[h]];
    PopPlaced(j, m, m', p);
    forall t, y: seq<bool> | 0 <= t < |m'.info| && |y| == m'.info[t].width && Due(j, m'.info[t].pre, y, top'.pre, p)
      ensures EntryOk(j, m'.tables, m'.info, t, y)
    {
      PopDue(j, m.info[t], y, top', top, p);
    }
  }

  /** At the end every table is complete. */
  lemma AllFilled(j: Job, m: Made)
    requires ValidJob(j) && Good(j, m, Pow2(j.g))
    ensures AllOk(j, m.tables, m.info)
  {
    forall t, y: seq<bool> | 0 <= t < |m.info| && |y| == m.info[t].width
      ensures EntryOk(j, m.tables, m.info, t, y)
    {
      StartBound(j.g, m.info[t].pre + y);
      assert Due(j, m.info[t].pre, y, Top(m.info, m.stack).pre, Pow2(j.g));
    }
  }
}
