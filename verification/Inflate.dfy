/** inflate of linux/zBoot/inflate.c: every valid deflate stream comes out as RFC 1951 says. */
module Inflate {
  import opened Bits
  import opened HuffmanCodes
  import opened HuftTables
  import opened HuftWalks
  import opened HuftBuilder
  import opened BitReader
  import opened Crc
  import opened SlidingWindow
  import opened Deflate

  /** A routine returned 0, returned an error, halted for lack of input, or followed a null pointer or an entry
      that was filled from outside the tables of its alphabet. */
  datatype Status = Done | Failed | Halted | Wild

  /** The places of the symbol list of huft_build, which is not initialised. */
  const N_MAX: nat := 288

  const CpLens: seq<nat> := LenBase + [0, 0]
  const CpLext: seq<nat> := LenExtra + [99, 99]

  /** The arguments of one call of huft_build. */
  datatype CodeSet = CodeSet(b: seq<nat>, simple: nat, base: seq<nat>, extra: seq<nat>, m: nat, v0: seq<nat>)

  ghost function Task(c: CodeSet): Job
    requires !Oversubscribed(c.b) && |c.v0| == |c.b|
  {
    JobOf(c.b, c.simple, c.base, c.extra, c.m, c.v0)
  }

  /** The tables decode the code set. */
  ghost predicate TablesFor(c: CodeSet, tables: seq<seq<Huft>>, l: nat) {
    && !Oversubscribed(c.b) && |c.v0| == |c.b| && 0 < MaxLen(c.b) <= 15
    && ValidJob(Task(c)) && Built(Task(c), tables) && l == Lookup(c.b, c.m)
  }

  // ---------- decoding one symbol ----------

  /** What one look-up finds. */
  lemma WalkStep(j: Job, tables: seq<seq<Huft>>, info: seq<Info>, t: nat, bits: seq<bool>)
    requires ValidJob(j) && AllOk(j, tables, info) && Exact(info) && t < |info| && |bits| >= info[t].width
    ensures var w := info[t].width;
            && t < |tables| && Lsb(bits[..w]) < |tables[t]| && 0 < w <= j.l
            && var e := tables[t][Lsb(bits[..w])];
               && !e.Blank?
               && (e.Link? ==> e.b == w && e.table < |info| && info[e.table].width == e.width
                               && Walk(tables, t, w, bits) == Walk(tables, e.table, e.width, bits[w..]))
               && (e.Leaf? || e.Stray? ==> 0 < e.b <= w && Walk(tables, t, w, bits) == Found(e, bits[e.b..]))
  {
    var w := info[t].width;
    var y := bits[..w];
    assert EntryOk(j, tables, info, t, y);
    var e := tables[t][Lsb(y)];
    if !LinkFor(j.l, info, info[t].pre, y, e) {
      var s :| LeafFor(j, info[t].pre, y, e, s);
      LeafReached(j, info[t].pre, y, s, bits);
    }
  }

  /** Code s is what the bits begin with, for the code set as given: a symbol of it, or none. */
  ghost predicate Meets(b: seq<nat>, bits: seq<bool>, s: nat) {
    Symbol(b, bits) == if s < |b| then s else |b|
  }

  /** The entry for code s, but for the number of bits it takes. */
  predicate EntryFor(al: Alphabet, s: nat, leaf: Huft) {
    && ValidAlphabet(al)
    && match LeafOf(al, s, 0)
       case Leaf(e, _, n) => leaf.Leaf? && leaf.e == e && leaf.n == n
       case _ => leaf.Stray?
  }

  /** No symbol of the code set has a stray entry. */
  lemma StrayUnused(c: CodeSet, tables: seq<seq<Huft>>, l: nat, s: nat, leaf: Huft)
    requires TablesFor(c, tables, l) && EntryFor(Task(c).al, s, leaf) && leaf.Stray?
    ensures s >= |c.b|
  {
  }

  lemma UnusedMeets(b: seq<nat>, bits: seq<bool>, s: nat)
    requires Meets(b, bits, s) && s >= |b|
    ensures Symbol(b, bits) == |b|
  {
  }

  /** A finished walk has found the entry of the symbol, and used up its word. */
  lemma FoundSymbol(c: CodeSet, tables: seq<seq<Huft>>, l: nat, bits: seq<bool>) returns (s: nat)
    requires TablesFor(c, tables, l)
    ensures Walk(tables, 0, l, bits).Stuck? ==> |bits| < 15
    ensures Walk(tables, 0, l, bits).Found? ==>
              && EntryFor(Task(c).al, s, Walk(tables, 0, l, bits).leaf) && Meets(c.b, bits, s)
              && |Walk(tables, 0, l, bits).rest| < |bits|
              && (s < |c.b| ==> c.b[s] <= |bits| && Walk(tables, 0, l, bits).rest == bits[c.b[s]..])
  {
    hide Walk, Built, ValidJob, Complete, Oversubscribed, MaxLen, KraftSum, Pow2, Word, Lookup, Leftover;
    var k;
    s, k := BuiltDecodes(c.b, c.simple, c.base, c.extra, c.m, c.v0, tables, bits);
    if Walk(tables, 0, l, bits).Found? { WordsPositive(c, s); }
  }

  lemma WordsPositive(c: CodeSet, s: nat)
    requires !Oversubscribed(c.b) && |c.v0| == |c.b| && MaxLen(c.b) > 0 && s < |Task(c).b|
    ensures s < |c.b| ==> Task(c).b[s] == c.b[s]
    ensures s >= |c.b| ==> Task(c).b[s] > 0
  {
  }

  class Inflater {
    const rd: Reader
    const win: Window

    ghost predicate Valid()
      reads this, rd, win, win.slide, win.reg
    {
      rd.Valid() && win.Valid()
    }

    constructor (data: seq<nat>, table: seq<Reg>)
      requires forall i :: 0 <= i < |data| ==> data[i] < 256
      requires |table| == 256 && forall i :: 0 <= i < 256 ==> table[i] == EntryOf(ByteBits(i))
      ensures Valid() && rd.Stream() == ByteStream(data) && win.History() == []
      ensures fresh(rd) && fresh(win) && fresh(win.slide) && fresh(win.reg)
    {
      rd := new Reader(data);
      win := new Window(table);
    }

    /** The loop through the linked tables. */
    method LookUp(ghost c: CodeSet, tables: seq<seq<Huft>>, width: nat) returns (st: Status, leaf: Huft, ghost s: nat)
      requires rd.Valid() && TablesFor(c, tables, width)
      modifies rd
      ensures rd.Valid() && (st.Halted? ==> |old(rd.Stream())| < 15)
      ensures !st.Halted? ==> EntryFor(Task(c).al, s, leaf) && Meets(c.b, old(rd.Stream()), s) && (leaf.Leaf? || leaf.Stray?)
      ensures !st.Halted? ==> (st.Wild? <==> leaf.Stray?) && (st.Failed? <==> Invalid(leaf))
      ensures st.Wild? ==> s >= |c.b|
      ensures st.Done? ==> |rd.Stream()| < |old(rd.Stream())|
      ensures st.Done? && s < |c.b| ==> c.b[s] <= |old(rd.Stream())| && rd.Stream() == old(rd.Stream())[c.b[s]..]
    {
      hide Walk, AllOk, Exact, ValidJob, Lookup, Oversubscribed, EntryFor, Meets, MaxLen, Pow2;
      ghost var bits := rd.Stream();
      s := FoundSymbol(c, tables, width, bits);
      ghost var info := InfoOf(c, tables, width);
      leaf := Blank;
      var ok := rd.NeedBits(width);
      if !ok {
        StuckHere(tables, 0, width, bits);
        return Halted, leaf, s;
      }
      var v := rd.Peek(width);
      ghost var t, wd := 0, width;
      WalkStep(Task(c), tables, info, t, rd.Stream());
      leaf := tables[0][v];
      while leaf.Link?
        invariant rd.Valid() && t < |info| == |tables| && wd == info[t].width <= rd.k && wd <= |rd.Stream()|
        invariant Walk(tables, t, wd, rd.Stream()) == Walk(tables, 0, width, bits)
        invariant Lsb(rd.Stream()[..wd]) < |tables[t]| && leaf == tables[t][Lsb(rd.Stream()[..wd])]
        decreases |rd.Stream()|
      {
        WalkStep(Task(c), tables, info, t, rd.Stream());
        var next, w := leaf.table, leaf.width;
        rd.DumpBits(leaf.b);
        WidthSmall(c, tables, info, next);
        ok := rd.NeedBits(w);
        if !ok {
          StuckHere(tables, next, w, rd.Stream());
          return Halted, leaf, s;
        }
        v := rd.Peek(w);
        WalkStep(Task(c), tables, info, next, rd.Stream());
        leaf := tables[next][v];
        t, wd := next, w;
      }
      WalkStep(Task(c), tables, info, t, rd.Stream());
      if leaf.Stray? {
        StrayUnused(c, tables, width, s, leaf);
        return Wild, leaf, s;
      }
      if leaf.e == 99 {
        return Failed, leaf, s;
      }
      rd.DumpBits(leaf.b);
      return Done, leaf, s;
    }

    /** The distance code and its extra bits. */
    method TakeDistance(ghost c: CodeSet, td: seq<seq<Huft>>, bd: nat) returns (st: Status, dist: nat)
      requires rd.Valid() && DistSet(c, td, bd)
      modifies rd
      ensures rd.Valid() && (st.Done? ==> 0 < dist <= WSIZE && |rd.Stream()| <= |old(rd.Stream())|)
      ensures var r := ReadDistance(c.b, old(rd.Stream()));
              r.Far? ==> (st.Done? && dist == r.dist && rd.Stream() == r.rest) || (st.Halted? && |r.rest| < 16)
    {
      hide TablesFor, Meets, EntryFor, Symbol, Oversubscribed, ReadDistance, MaxLen, Pow2, Lsb;
      ghost var bits := rd.Stream();
      dist := 0;
      DistanceBits(c.b, bits);
      if td == [] {
        NoSymbols(c, td, bd, bits);
        return Wild, dist;
      }
      var d;
      ghost var t;
      st, d, t := LookUp(c, td, bd);
      if !st.Done? {
        if st.Failed? { DistInvalid(c, td, bd, bits, d, t); }
        if st.Wild? { UnusedMeets(c.b, bits, t); }
        return;
      }
      DistLeaf(c, td, bd, t, d);
      ghost var after := rd.Stream();
      var ok, y := rd.Take(d.e);
      if !ok {
        DistShort(c.b, bits, t, after, d);
        return Halted, dist;
      }
      DistSmall(d, y, after);
      DistanceIs(c.b, bits, t, after, d, y);
      dist := d.n + y;
    }

    /** A length was decoded: its extra bits, the distance, and the copy. `more` says that the block goes on. */
    method CopyMatch(ghost cl: CodeSet, ghost cd: CodeSet, td: seq<seq<Huft>>, bd: nat, leaf: Huft, ghost s: nat)
      returns (st: Status, more: bool)
      requires Valid() && DistSet(cd, td, bd) && leaf.Leaf? && leaf.e <= 5
      requires s < |cl.b| ==> 257 <= s <= 285 && leaf.e == LenExtra[s - 257] && leaf.n == LenBase[s - 257]
      modifies rd, win, win.slide, win.reg
      ensures Valid() && (st.Done? ==> |rd.Stream()| <= |old(rd.Stream())|) && (more ==> st.Done?)
      ensures s < |cl.b| ==> Goes(Match(cl.b, cd.b, old(rd.Stream()), old(win.History()), s), cl.b, cd.b, st, more, rd.Stream(), win.History())
    {
      hide Match, Codes, ReadDistance, LzCopy, Lsb, DistSet, LsbBits, ByteStream, Pow2, Rel;
      more := false;
      ghost var bits, out := rd.Stream(), win.History();
      if s < |cl.b| { MatchParts(cl.b, cd.b, bits, out, s, leaf.e, leaf.n); }
      var ok, x := rd.Take(leaf.e);
      if !ok {
        return Halted, more;
      }
      var dist;
      st, dist := TakeDistance(cd, td, bd);
      if !st.Done? {
        return;
      }
      win.Copy(leaf.n + x, dist);
      more := true;
    }

    /** One literal, match or end-of-block code. */
    method OneCode(ghost cl: CodeSet, ghost cd: CodeSet, tl: seq<seq<Huft>>, td: seq<seq<Huft>>, bl: nat, bd: nat)
      returns (st: Status, more: bool)
      requires Valid() && LitSet(cl, tl, bl) && DistSet(cd, td, bd)
      modifies rd, win, win.slide, win.reg
      ensures Valid() && (st.Done? ==> |rd.Stream()| < |old(rd.Stream())|) && (more ==> st.Done?)
      ensures Goes(Codes(cl.b, cd.b, old(rd.Stream()), old(win.History())), cl.b, cd.b, st, more, rd.Stream(), win.History())
    {
      hide Match, Codes, DistSet, TablesFor, Meets, EntryFor, Symbol, Oversubscribed, LitMeaning;
      ghost var bits, out := rd.Stream(), win.History();
      more := false;
      var leaf;
      ghost var s;
      st, leaf, s := LookUp(cl, tl, bl);
      if st.Halted? {
        return;
      }
      CodesParts(cl.b, cd.b, bits, out, s);
      if st.Wild? {
        return;
      }
      LitLeaf(cl, tl, bl, s, leaf);
      if st.Failed? {
        LitBad(cl, s, leaf);
        if 256 < s < |cl.b| { MatchInvalid(cl.b, cd.b, bits[cl.b[s]..], out, s); }
        return;
      }
      LitCases(cl, s, leaf);
      if leaf.e == 16 {
        win.PutByte(leaf.n);
        more := true;
      } else if leaf.e != 15 {
        st, more := CopyMatch(cl, cd, td, bd, leaf, s);
      }
    }

    /** Decompresses the codes of a block. */
    method InflateCodes(ghost cl: CodeSet, ghost cd: CodeSet, tl: seq<seq<Huft>>, td: seq<seq<Huft>>, bl: nat, bd: nat)
      returns (st: Status)
      requires Valid() && LitSet(cl, tl, bl) && DistSet(cd, td, bd)
      modifies rd, win, win.slide, win.reg
      ensures st.Done? ==> |rd.Stream()| <= |old(rd.Stream())|
      ensures Valid() && Agrees(Codes(cl.b, cd.b, old(rd.Stream()), old(win.History())), st, rd.Stream(), win.History())
    {
      hide Codes, DistSet, LitSet;
      ghost var r := Codes(cl.b, cd.b, rd.Stream(), win.History());
      var more := true;
      st := Done;
      while more
        invariant Valid() && if more then r.Ok? ==> Codes(cl.b, cd.b, rd.Stream(), win.History()) == r else Agrees(r, st, rd.Stream(), win.History())
        invariant st.Done? ==> |rd.Stream()| <= |old(rd.Stream())|
        invariant more ==> st.Done?
        decreases if more then 1 + |rd.Stream()| else 0
      {
        st, more := OneCode(cl, cd, tl, td, bl, bd);
      }
    }

    /** A stored block. */
    method InflateStored() returns (st: Status)
      requires Valid()
      modifies rd, win, win.slide, win.reg
      ensures st.Done? ==> |rd.Stream()| <= |old(rd.Stream())|
      ensures Valid() && Agrees(Stored(old(rd.Stream()), old(win.History())), st, rd.Stream(), win.History())
    {
      hide BytesOf, Lsb, LsbBits, ByteStream, Pow2, Rel;
      ghost var bits, out := rd.Stream(), win.History();
      rd.SkipToByte();
      ghost var b := rd.Stream();
      var ok, n := rd.Take(16);
      if !ok {
        return Halted;
      }
      var m;
      ok, m := rd.Take(16);
      if !ok {
        return Halted;
      }
      assert b[16..][..16] == b[16..32] && b[16..][16..] == b[32..];
      if n + m != 0xFFFF {
        return Failed;
      }
      st := CopyBytes(n);
      assert 8 * n <= |b[32..]| ==> b[32..][8 * n..] == b[32 + 8 * n..];
    }

    method CopyBytes(n: nat) returns (st: Status)
      requires Valid()
      modifies rd, win, win.slide, win.reg
      ensures Valid() && (st.Done? || st.Halted?) && (st.Done? <==> |old(rd.Stream())| >= 8 * n)
      ensures st.Done? ==> rd.Stream() == old(rd.Stream())[8 * n..] && win.History() == old(win.History()) + BytesOf(old(rd.Stream()), n)
    {
      hide BytesOf, Lsb, LsbBits, ByteStream, Pow2, Rel;
      ghost var bits, out := rd.Stream(), win.History();
      var i := 0;
      BytesNone(bits);
      while i < n
        invariant Valid() && 0 <= i <= n && 8 * i <= |bits| && rd.Stream() == bits[8 * i..]
        invariant win.History() == out + BytesOf(bits, i)
      {
        var ok, x := rd.Take(8);
        if !ok {
          return Halted;
        }
        BytesMore(bits, i);
        win.PutByte(x);
        i := i + 1;
      }
      return Done;
    }

    /** A block with the fixed codes. */
    method InflateFixed(junk: seq<nat>) returns (st: Status)
      requires Valid() && |junk| == N_MAX
      modifies rd, win, win.slide, win.reg
      ensures st.Done? ==> |rd.Stream()| <= |old(rd.Stream())|
      ensures Valid() && Agrees(Codes(FixedLit(), FixedDist(), old(rd.Stream()), old(win.History())), st, rd.Stream(), win.History())
    {
      hide Codes, FixedLit, FixedDist, TablesFor;
      var ll, dl := FixedLit(), FixedDist();
      FixedLitFacts();
      FixedDistFacts();
      var cl, cd := CodeSet(ll, 257, CpLens, CpLext, 7, junk[..|ll|]), CodeSet(dl, 0, DistBase, DistExtra, 5, junk[..|dl|]);
      FixedSized(cl, cd);
      var tl, bl := BuildSet(cl, junk);
      var td, bd := BuildSet(cd, junk);
      st := InflateCodes(cl, cd, tl, td, bl, bd);
    }

    /** The lengths of the code length code. */
    method TakeCodeLens(nb: nat) returns (ok: bool, lens: seq<nat>)
      requires rd.Valid() && nb <= 19
      modifies rd
      ensures rd.Valid() && (ok <==> |old(rd.Stream())| >= 3 * nb)
      ensures ok ==> lens == CodeLens(old(rd.Stream()), nb) && rd.Stream() == old(rd.Stream())[3 * nb..]
      ensures ok ==> forall i :: 0 <= i < |lens| ==> lens[i] <= 7
    {
      hide CodeLens, Lsb, Repeat;
      ghost var bits := rd.Stream();
      lens := Repeat(0, 19);
      NoCodeLens(bits);
      var j := 0;
      while j < nb
        invariant rd.Valid() && 0 <= j <= nb && 3 * j <= |bits| && rd.Stream() == bits[3 * j..] && lens == CodeLens(bits, j)
        invariant forall i :: 0 <= i < |lens| ==> lens[i] <= 7
      {
        var v;
        ok, v := rd.Take(3);
        if !ok {
          return;
        }
        ThreeBits(bits, j);
        MoreCodeLens(bits, j);
        lens := lens[Order[j] := v];
        j := j + 1;
      }
      ok := true;
    }

    /** One symbol of the code length code, for which there is a single table. */
    method TakeLength(ghost c: CodeSet, tables: seq<seq<Huft>>, width: nat) returns (st: Status, n: nat, ghost s: nat)
      requires rd.Valid() && LengthSet(c, tables, width)
      modifies rd
      ensures rd.Valid() && !st.Failed? && (st.Halted? ==> |old(rd.Stream())| < 15)
      ensures !st.Halted? ==> Meets(c.b, old(rd.Stream()), s)
      ensures st.Wild? ==> s >= |c.b|
      ensures st.Done? ==> n < 19 && |rd.Stream()| < |old(rd.Stream())|
      ensures st.Done? && s < |c.b| ==> n == s && c.b[s] <= |old(rd.Stream())| && rd.Stream() == old(rd.Stream())[c.b[s]..]
    {
      hide Walk, AllOk, Exact, ValidJob, Lookup, Oversubscribed, EntryFor, Meets, MaxLen, Pow2, Task;
      ghost var bits := rd.Stream();
      n := 0;
      s := FoundSymbol(c, tables, width, bits);
      ghost var info := InfoOf(c, tables, width);
      var ok := rd.NeedBits(width);
      if !ok {
        return Halted, n, s;
      }
      var v := rd.Peek(width);
      WalkStep(Task(c), tables, info, 0, bits);
      SingleTable(c, tables, width, info, bits);
      var leaf := tables[0][v];
      if leaf.Stray? {
        StrayUnused(c, tables, width, s, leaf);
        return Wild, n, s;
      }
      rd.DumpBits(leaf.b);
      LengthLeaf(c, tables, width, s, leaf);
      return Done, leaf.n, s;
    }

    /** The code lengths of the block, with their runs. */
    method TakeLengths(ghost c: CodeSet, tables: seq<seq<Huft>>, width: nat, n: nat) returns (st: Status, lens: seq<nat>)
      requires rd.Valid() && LengthSet(c, tables, width)
      modifies rd
      ensures st.Done? ==> |rd.Stream()| <= |old(rd.Stream())|
      ensures rd.Valid() && (st.Done? ==> |lens| == n && forall i :: 0 <= i < n ==> lens[i] <= 15)
      ensures var r := Lengths(c.b, old(rd.Stream()), n, []);
              r.Ok? ==> (st.Done? && lens == r.out && rd.Stream() == r.rest) || (st.Halted? && |r.rest| < 16)
    {
      hide Lengths, LengthSet, Meets, LsbBits, ByteStream, Pow2, Lsb;
      ghost var r := Lengths(c.b, rd.Stream(), n, []);
      var last := 0;
      lens := [];
      while |lens| < n
        invariant rd.Valid() && |lens| <= n && last <= 15 && (lens != [] ==> last == lens[|lens| - 1])
        invariant forall i :: 0 <= i < |lens| ==> lens[i] <= 15
        invariant r.Ok? ==> Lengths(c.b, rd.Stream(), n, lens) == r
        invariant |rd.Stream()| <= |old(rd.Stream())|
        decreases |rd.Stream()|
      {
        ghost var bits, acc := rd.Stream(), lens;
        var ok, j;
        ghost var s;
        st, j, s := TakeLength(c, tables, width);
        if st.Halted? {
          return;
        }
        LengthsParts(c.b, bits, n, acc, s);
        if st.Wild? {
          return;
        }
        if j < 16 {
          last := j;
          lens := lens + [j];
        } else {
          var x;
          ok, x := rd.Take(RunBits(j));
          if !ok {
            return Halted, lens;
          }
          var rep := RunBase(j) + x;
          if |lens| + rep > n {
            return Failed, lens;
          }
          if j != 16 {
            last := 0;
          }
          lens := lens + Repeat(last, rep);
        }
      }
      LengthsEnd(c.b, rd.Stream(), n, lens);
      st := Done;
    }

    /** The three counts at the head of a dynamic block. */
    method TakeCounts() returns (ok: bool, nl: nat, nd: nat, nb: nat)
      requires rd.Valid()
      modifies rd
      ensures rd.Valid() && (ok <==> |old(rd.Stream())| >= 14)
      ensures ok ==> Counts(old(rd.Stream()), nl, nd, nb) && nb <= 19 && rd.Stream() == old(rd.Stream())[14..]
    {
      hide Lsb;
      ghost var bits := rd.Stream();
      nl, nd, nb := 0, 0, 0;
      ok, nl := rd.Take(5);
      if !ok {
        return;
      }
      ok, nd := rd.Take(5);
      if !ok {
        return;
      }
      ok, nb := rd.Take(4);
      if !ok {
        return;
      }
      CountBits(bits);
      nl, nd, nb := 257 + nl, 1 + nd, 4 + nb;
    }

    /** A block with its own codes. */
    method InflateDynamic(junk: seq<nat>) returns (st: Status)
      requires Valid() && |junk| == N_MAX
      modifies rd, win, win.slide, win.reg
      ensures st.Done? ==> |rd.Stream()| <= |old(rd.Stream())|
      ensures Valid() && Agrees(Dynamic(old(rd.Stream()), old(win.History())), st, rd.Stream(), win.History())
    {
      hide Dynamic, WithCodeLens, CodeLens, Lsb, Counts;
      ghost var bits, out := rd.Stream(), win.History();
      var ok, nl, nd, nb := TakeCounts();
      DynamicParts(bits, out, ok, nl, nd, nb);
      if !ok {
        return Halted;
      }
      if nl > 286 || nd > 30 {
        return Failed;
      }
      var cb;
      ok, cb := TakeCodeLens(nb);
      if !ok {
        return Halted;
      }
      st := DynamicBody(cb, nl, nd, junk);
    }

    /** Reads the code lengths with the code length code, and then the block with the codes they give. */
    method DynamicBody(cb: seq<nat>, nl: nat, nd: nat, junk: seq<nat>) returns (st: Status)
      requires Valid() && |junk| == N_MAX && |cb| == 19 && (forall i :: 0 <= i < 19 ==> cb[i] <= 7) && 257 <= nl <= 286 && 1 <= nd <= 30
      modifies rd, win, win.slide, win.reg
      ensures st.Done? ==> |rd.Stream()| <= |old(rd.Stream())|
      ensures Valid() && Agrees(WithCodeLens(cb, nl, nd, old(rd.Stream()), old(win.History())), st, rd.Stream(), win.History())
    {
      hide WithCodeLens, TwoCodes, Lengths, CodeOk, MaxLen, LengthSet, Checkable, TablesFor, Rel, Pow2, LsbBits;
      ghost var bits, out := rd.Stream(), win.History();
      WithParts(cb, nl, nd, bits, out);
      var c := CodeSet(cb, 19, [], [], 7, junk[..19]);
      LengthArguments(c, junk);
      var tables, width;
      st, tables, width := BuildChecked(c, junk);
      if !st.Done? {
        return;
      }
      LengthReady(c, tables, width);
      var lens;
      st, lens := TakeLengths(c, tables, width, nl + nd);
      if !st.Done? {
        return;
      }
      st := WithLengths(lens, nl, junk);
    }

    /** The end of inflate_dynamic: the tables for the two codes, and the block. */
    method WithLengths(lens: seq<nat>, nl: nat, junk: seq<nat>) returns (st: Status)
      requires Valid() && |junk| == N_MAX && 257 <= nl <= 286 && nl < |lens| <= nl + 30 && forall i :: 0 <= i < |lens| ==> lens[i] <= 15
      modifies rd, win, win.slide, win.reg
      ensures st.Done? ==> |rd.Stream()| <= |old(rd.Stream())|
      ensures Valid() && Agrees(TwoCodes(lens[..nl], lens[nl..], old(rd.Stream()), old(win.History())), st, rd.Stream(), win.History())
    {
      hide Codes, CodeOk, MaxLen, LitSet, DistSet, Checkable, TablesFor, Buildable, ReturnCode;
      var ll, dl := lens[..nl], lens[nl..];
      var cl, cd := LitCode(ll, junk), DistCode(dl, junk);
      CodeArguments(ll, dl, junk);
      var tl, bl, td, bd;
      st, tl, bl := BuildChecked(cl, junk);
      if !st.Done? {
        return;
      }
      st, td, bd := BuildDistance(cd, junk);
      if !st.Done? {
        return;
      }
      LitReady(ll, junk, tl, bl);
      DistReady(dl, junk, td, bd);
      st := InflateCodes(cl, cd, tl, td, bl, bd);
    }

    /** huft_build for the distance code, which may be empty. */
    method BuildDistance(c: CodeSet, junk: seq<nat>) returns (st: Status, tables: seq<seq<Huft>>, l: nat)
      requires Checkable(c, junk)
      ensures (st.Done? || st.Failed?) && (st.Done? <==> CodeOk(c.b))
      ensures st.Done? ==> if MaxLen(c.b) == 0 then tables == [] && l == 0 else tables != [] && TablesFor(c, tables, l)
    {
      hide CodeOk, MaxLen, Overwide, AllRead, ValidJob, Built, Lookup, Oversubscribed, ReturnCode;
      KnownSizes(c);
      MaxSmall(c.b);
      CodeOkIff(c.b);
      var code;
      code, tables, l := Build(c.b, c.simple, c.base, c.extra, c.m, c.v0);
      if code != 0 {
        return Failed, tables, l;
      }
      if MaxLen(c.b) > 0 {
        CodeOkNarrow(c);
        SomeTable(Task(c), tables);
      }
      return Done, tables, l;
    }

    /** huft_build, and what inflate does about its return code. A table for no codes at all is a null
        pointer that inflate follows; the tables of an incomplete set are thrown away unused. */
    method BuildChecked(c: CodeSet, junk: seq<nat>) returns (st: Status, tables: seq<seq<Huft>>, l: nat)
      requires Checkable(c, junk)
      ensures st.Done? <==> CodeOk(c.b) && MaxLen(c.b) > 0
      ensures !st.Halted? && (st.Done? ==> TablesFor(c, tables, l))
    {
      hide CodeOk, MaxLen, TablesFor, ReturnCode;
      st, tables, l := BuildDistance(c, junk);
      if !st.Done? {
        return;
      }
      if tables == [] {
        return Wild, tables, l;
      }
      return Done, tables, l;
    }

    /** One block, and whether it is the last. */
    method InflateBlock(junk: seq<nat>) returns (st: Status, last: bool)
      requires Valid() && |junk| == N_MAX
      modifies rd, win, win.slide, win.reg
      ensures Valid() && (st.Done? ==> |rd.Stream()| < |old(rd.Stream())| && last == old(rd.Stream())[0])
      ensures Agrees(Block(old(rd.Stream()), old(win.History())), st, rd.Stream(), win.History())
    {
      hide Stored, Codes, Dynamic, Lsb, FixedLit, FixedDist, Rel, Pow2, LsbBits;
      ghost var bits, out := rd.Stream(), win.History();
      var ok, e := rd.Take(1);
      if !ok {
        return Halted, false;
      }
      OneBit(bits);
      last := e == 1;
      var t;
      ok, t := rd.Take(2);
      if !ok {
        return Halted, last;
      }
      assert bits[1..][..2] == bits[1..3] && bits[1..][2..] == bits[3..];
      if t == 2 {
        st := InflateDynamic(junk);
      } else if t == 0 {
        st := InflateStored();
      } else if t == 1 {
        st := InflateFixed(junk);
      } else {
        st := Failed;
      }
    }

    /** Decompresses a whole deflate stream: if it is valid and has a trailer behind it, the output is exactly
        what RFC 1951 says, the checksum register has seen exactly that, and the input continues at the first
        byte behind the stream. */
    method Inflate(junk: seq<nat>) returns (st: Status)
      requires Valid() && |junk| == N_MAX
      modifies rd, win, win.slide, win.reg
      ensures st.Done? ==> win.reg.Valid() && win.reg.fed == win.flushed && rd.inptr <= |rd.data|
      ensures var r := Decode(old(rd.Stream()), old(win.History()));
              r.Ok? && |r.rest| >= 16 ==> st.Done? && win.flushed == r.out && 8 * (|rd.data| - rd.inptr) == |r.rest| - |r.rest| % 8
    {
      hide Decode, Block, Rel, Pow2, LsbBits;
      ghost var r := Decode(rd.Stream(), win.History());
      var last := false;
      st := Done;
      while st.Done? && !last
        invariant Valid()
        invariant st.Done? && !last && r.Ok? ==> Decode(rd.Stream(), win.History()) == r
        invariant last && st.Done? ==> Agrees(r, st, rd.Stream(), win.History())
        invariant !st.Done? ==> Agrees(r, st, rd.Stream(), win.History())
        decreases if st.Done? && !last then 1 + |rd.Stream()| else 0
      {
        DecodeParts(rd.Stream(), win.History());
        st, last := InflateBlock(junk);
      }
      if !st.Done? {
        return;
      }
      rd.UndoLookahead();
      StreamLength(rd.data[rd.inptr..]);
      win.Finish();
    }

    /** unzip after the header of a gzip member: the stream, and the checksum and length behind it. */
    method Unzip(junk: seq<nat>) returns (ok: bool)
      requires Valid() && |junk| == N_MAX && win.History() == []
      modifies rd, win, win.slide, win.reg
      ensures ok ==> Trailer(rd.data, rd.inptr - 8, win.flushed)
      ensures var r := Decode(old(rd.Stream()), []);
              r.Ok? && |r.rest| >= 64 && Trailer(rd.data, |rd.data| - |r.rest| / 8, r.out) ==> ok && win.flushed == r.out
    {
      hide Decode, Rel, Pow2, LsbBits, Checksum, ByteStream;
      var st := Inflate(junk);
      if !st.Done? {
        return false;
      }
      if rd.inptr + 8 > |rd.data| {
        return false;
      }
      var crc := rd.data[rd.inptr..rd.inptr + 4];
      var len := rd.data[rd.inptr + 4..rd.inptr + 8];
      rd.inptr := rd.inptr + 8;
      var c := win.reg.UpdCrc([]);
      assert win.flushed + [] == win.flushed;
      ok := StreamOf(crc) == c && Lsb(StreamOf(len)) == |win.flushed| % 0x1_0000_0000;
    }
  }

  /** The bits of some bytes. */
  function StreamOf(bytes: seq<nat>): seq<bool> { ByteStream(bytes) }

  /** The eight bytes at place i are the checksum and the length of the output. */
  ghost predicate Trailer(data: seq<nat>, i: int, out: seq<nat>) {
    && 0 <= i && i + 8 <= |data| && StreamOf(data[i..i + 4]) == Checksum(out)
    && Lsb(StreamOf(data[i + 4..i + 8])) == |out| % 0x1_0000_0000
  }

  lemma OneBit(bits: seq<bool>)
    requires |bits| >= 1
    ensures Lsb(bits[..1]) == B(bits[0])
  {
    assert bits[..1][1..] == [];
  }

  lemma DecodeParts(bits: seq<bool>, out: seq<nat>)
    ensures Block(bits, out).Bad? ==> Decode(bits, out).Bad?
    ensures Block(bits, out).Ok? ==> |bits| > 0 && Decode(bits, out) == if bits[0] then Block(bits, out) else Decode(Block(bits, out).rest, Block(bits, out).out)
  {
    hide Block;
  }

  /** Arguments of huft_build that inflate passes for a dynamic block. */
  ghost predicate Checkable(c: CodeSet, junk: seq<nat>) {
    && Known(c) && 0 < |c.b| <= 288 && |junk| == N_MAX && c.v0 == junk[..|c.b|] && (forall i :: 0 <= i < |c.b| ==> c.b[i] <= 15)
    && ((c.m == 9 && |c.b| <= 288) || (c.m == 6 && |c.b| <= 32) || (c.m == 7 && |c.b| <= 19))
  }

  function LitCode(ll: seq<nat>, junk: seq<nat>): CodeSet
    requires |ll| <= |junk|
  {
    CodeSet(ll, 257, CpLens, CpLext, 9, junk[..|ll|])
  }

  function DistCode(dl: seq<nat>, junk: seq<nat>): CodeSet
    requires |dl| <= |junk|
  {
    CodeSet(dl, 0, DistBase, DistExtra, 6, junk[..|dl|])
  }

  lemma CodeArguments(ll: seq<nat>, dl: seq<nat>, junk: seq<nat>)
    requires 0 < |ll| <= 288 && 0 < |dl| <= 30 && |junk| == N_MAX
    requires (forall i :: 0 <= i < |ll| ==> ll[i] <= 15) && (forall i :: 0 <= i < |dl| ==> dl[i] <= 15)
    ensures Checkable(LitCode(ll, junk), junk) && Checkable(DistCode(dl, junk), junk)
  {
  }

  lemma LengthArguments(c: CodeSet, junk: seq<nat>)
    requires |junk| == N_MAX && |c.b| == 19 && (forall i :: 0 <= i < 19 ==> c.b[i] <= 7)
    requires c == CodeSet(c.b, 19, [], [], 7, junk[..19])
    ensures Checkable(c, junk)
  {
  }

  ghost predicate Counts(bits: seq<bool>, nl: nat, nd: nat, nb: nat) {
    |bits| >= 14 && nl == 257 + Lsb(bits[..5]) && nd == 1 + Lsb(bits[5..10]) && nb == 4 + Lsb(bits[10..14])
  }

  lemma CountBits(bits: seq<bool>)
    requires |bits| >= 14
    ensures bits[5..][..5] == bits[5..10] && bits[5..][5..] == bits[10..] && bits[10..][..4] == bits[10..14] && bits[10..][4..] == bits[14..]
    ensures Lsb(bits[10..14]) <= 15
  {
    LsbBound(bits[10..14]);
    Powers();
  }

  lemma CodeOkIff(b: seq<nat>)
    ensures ReturnCode(b) == 0 <==> CodeOk(b)
  {
    if MaxLen(b) == 0 { NoKraft(b); }
  }

  lemma {:induction false} NoKraft(b: seq<nat>)
    ensures KraftSum(b, 0) == 0
  {
    if b != [] { NoKraft(b[..|b| - 1]); }
  }

  lemma LengthReady(c: CodeSet, tables: seq<seq<Huft>>, width: nat)
    requires c.simple == 19 && c.base == [] && c.extra == [] && |c.b| == 19 && c.m == 7 && TablesFor(c, tables, width)
    requires forall i :: 0 <= i < 19 ==> c.b[i] <= 7
    ensures LengthSet(c, tables, width)
  {
  }

  lemma LitReady(ll: seq<nat>, junk: seq<nat>, tl: seq<seq<Huft>>, bl: nat)
    requires |ll| <= 288 == |junk| && TablesFor(LitCode(ll, junk), tl, bl)
    ensures LitSet(LitCode(ll, junk), tl, bl)
  {
    hide TablesFor;
  }

  lemma DistReady(dl: seq<nat>, junk: seq<nat>, td: seq<seq<Huft>>, bd: nat)
    requires |dl| <= 30 && |junk| == 288
    requires if MaxLen(dl) == 0 then td == [] && bd == 0 else td != [] && TablesFor(DistCode(dl, junk), td, bd)
    ensures DistSet(DistCode(dl, junk), td, bd)
  {
    hide TablesFor, MaxLen, Oversubscribed, Task, ValidJob, Built;
    var c := DistCode(dl, junk);
    assert c.simple == 0 && c.base == DistBase && c.extra == DistExtra && c.b == dl;
  }

  lemma WithParts(cb: seq<nat>, nl: nat, nd: nat, bits: seq<bool>, out: seq<nat>)
    ensures !CodeOk(cb) || MaxLen(cb) == 0 ==> WithCodeLens(cb, nl, nd, bits, out).Bad?
    ensures CodeOk(cb) && MaxLen(cb) > 0 ==>
              var r := Lengths(cb, bits, nl + nd, []);
              && (r.Bad? ==> WithCodeLens(cb, nl, nd, bits, out).Bad?)
              && (r.Ok? ==> WithCodeLens(cb, nl, nd, bits, out) == TwoCodes(r.out[..nl], r.out[nl..], r.rest, out))
  {
    hide Lengths, TwoCodes, CodeOk, MaxLen;
  }

  /** What a dynamic block amounts to, step by step. */
  lemma DynamicParts(bits: seq<bool>, out: seq<nat>, ok: bool, nl: nat, nd: nat, nb: nat)
    requires ok <==> |bits| >= 14
    requires ok ==> Counts(bits, nl, nd, nb) && nb <= 19
    ensures !ok ==> Dynamic(bits, out).Bad?
    ensures ok ==> nl >= 257 && nd >= 1
    ensures ok && (nl > 286 || nd > 30 || |bits[14..]| < 3 * nb) ==> Dynamic(bits, out).Bad?
    ensures ok && nl <= 286 && nd <= 30 && |bits[14..]| >= 3 * nb ==>
              Dynamic(bits, out) == WithCodeLens(CodeLens(bits[14..], nb), nl, nd, bits[14..][3 * nb..], out)
  {
    hide WithCodeLens, CodeLens, Lsb;
  }

  /** The tables for the code length code. */
  ghost predicate LengthSet(c: CodeSet, tables: seq<seq<Huft>>, width: nat) {
    && c.simple == 19 && c.base == [] && c.extra == [] && |c.b| == 19 && c.m == 7 && MaxLen(c.b) <= 7
    && TablesFor(c, tables, width)
  }

  lemma ThreeBits(bits: seq<bool>, j: nat)
    requires 3 * j + 3 <= |bits|
    ensures bits[3 * j..][..3] == bits[3 * j..3 * (j + 1)] && bits[3 * j..][3..] == bits[3 * (j + 1)..]
    ensures Lsb(bits[3 * j..3 * (j + 1)]) <= 7
  {
    LsbBound(bits[3 * j..3 * (j + 1)]);
    Powers();
  }

  lemma NoCodeLens(bits: seq<bool>)
    ensures CodeLens(bits, 0) == Repeat(0, 19) && forall i :: 0 <= i < 19 ==> Repeat(0, 19)[i] == 0
  {
  }

  lemma MoreCodeLens(bits: seq<bool>, j: nat)
    requires j < 19 && 3 * (j + 1) <= |bits|
    ensures Order[j] < 19 && CodeLens(bits, j + 1) == CodeLens(bits, j)[Order[j] := Lsb(bits[3 * j..3 * (j + 1)])]
  {
  }

  /** The first table looks up as many bits as the longest code has, so nothing is behind it. */
  lemma SingleTable(c: CodeSet, tables: seq<seq<Huft>>, width: nat, info: seq<Info>, bits: seq<bool>)
    requires LengthSet(c, tables, width) && AllOk(Task(c), tables, info) && |info| > 0 && info[0].width == width <= |bits|
    requires Lsb(bits[..width]) < |tables[0]| && !tables[0][Lsb(bits[..width])].Blank?
    ensures !tables[0][Lsb(bits[..width])].Link?
  {
    var y := bits[..width];
    var e := tables[0][Lsb(y)];
    LookupEnough(c.b, c.m);
    assert width == MaxLen(c.b);
    assert EntryOk(Task(c), tables, info, 0, y);
  }

  lemma LengthLeaf(c: CodeSet, tables: seq<seq<Huft>>, width: nat, s: nat, leaf: Huft)
    requires LengthSet(c, tables, width) && EntryFor(Task(c).al, s, leaf) && leaf.Leaf?
    ensures leaf.n < 19 && (s < |c.b| ==> leaf.n == s)
  {
    AlphabetOf(c, tables, width);
  }

  lemma LengthsParts(cl: seq<nat>, bits: seq<bool>, n: nat, acc: seq<nat>, s: nat)
    requires Meets(cl, bits, s) && |acc| < n
    ensures s >= |cl| ==> Lengths(cl, bits, n, acc).Bad?
    ensures s < |cl| ==> cl[s] <= |bits|
    ensures s < |cl| && s < 16 ==> Lengths(cl, bits, n, acc) == Lengths(cl, bits[cl[s]..], n, acc + [s])
    ensures s < |cl| && s >= 16 && |bits[cl[s]..]| < RunBits(s) ==> Lengths(cl, bits, n, acc).Bad?
    ensures s < |cl| && s >= 16 && |bits[cl[s]..]| >= RunBits(s) ==>
              var rest := bits[cl[s]..];
              var rep := RunBase(s) + Lsb(rest[..RunBits(s)]);
              Lengths(cl, bits, n, acc) ==
              if |acc| + rep > n || (s == 16 && acc == []) then Bad
              else Lengths(cl, rest[RunBits(s)..], n, acc + Repeat(if s == 16 then acc[|acc| - 1] else 0, rep))
  {
  }

  lemma LengthsEnd(cl: seq<nat>, bits: seq<bool>, n: nat, acc: seq<nat>)
    requires |acc| == n
    ensures Lengths(cl, bits, n, acc) == Ok(acc, bits)
  {
  }

  /** The arguments with which inflate calls huft_build. */
  predicate Known(c: CodeSet) {
    || (c.simple == 257 && c.base == CpLens && c.extra == CpLext && |c.b| <= 288)
    || (c.simple == 0 && c.base == DistBase && c.extra == DistExtra && |c.b| <= 30)
    || (c.simple == 19 && c.base == [] && c.extra == [] && |c.b| == 19)
  }

  ghost predicate Buildable(c: CodeSet, junk: seq<nat>) {
    && Known(c) && 0 < |c.b| <= 288 && |junk| == N_MAX && c.v0 == junk[..|c.b|]
    && (forall i :: 0 <= i < |c.b| ==> c.b[i] <= 15) && !Oversubscribed(c.b) && (MaxLen(c.b) > 0 ==> !Overwide(Task(c)))
  }

  method BuildSet(c: CodeSet, junk: seq<nat>) returns (tables: seq<seq<Huft>>, l: nat)
    requires Buildable(c, junk)
    ensures if MaxLen(c.b) == 0 then tables == [] && l == 0 else tables != [] && TablesFor(c, tables, l)
  {
    hide Oversubscribed, Overwide, AllRead, MaxLen, ValidJob, Built, Lookup;
    KnownSizes(c);
    MaxSmall(c.b);
    var code;
    code, tables, l := Build(c.b, c.simple, c.base, c.extra, c.m, c.v0);
    if MaxLen(c.b) > 0 { SomeTable(Task(c), tables); }
  }

  lemma KnownSizes(c: CodeSet)
    requires Known(c)
    ensures |c.b| <= c.simple + |c.base| && |c.extra| == |c.base|
  {
    assert |CpLens| == 31 && |CpLext| == 31 && |DistBase| == 30 && |DistExtra| == 30;
  }

  lemma MaxSmall(b: seq<nat>)
    requires forall i :: 0 <= i < |b| ==> b[i] <= 15
    ensures MaxLen(b) <= 15
  {
  }

  lemma SomeTable(job: Job, tables: seq<seq<Huft>>)
    requires Built(job, tables)
    ensures tables != []
  {
  }

  lemma LookupEnough(b: seq<nat>, m: nat)
    ensures Lookup(b, m) >= m || Lookup(b, m) == MaxLen(b)
  {
  }

  lemma FixedSized(cl: CodeSet, cd: CodeSet)
    requires cl.b == FixedLit() && cl.m == 7 && cd.b == FixedDist() && cd.m == 5 && |cl.v0| == |cl.b| && |cd.v0| == |cd.b|
    requires Known(cl) && Known(cd)
    ensures !Oversubscribed(cl.b) && !Overwide(Task(cl)) && !Oversubscribed(cd.b) && !Overwide(Task(cd))
  {
    hide FixedLit, FixedDist, Oversubscribed, Overwide, ValidJob, Lookup, MaxLen, Leftover, Padded;
    FixedLitFacts();
    FixedDistFacts();
    LookupEnough(cl.b, cl.m);
    LookupEnough(cd.b, cd.m);
    KnownSizes(cl);
    KnownSizes(cd);
    JobValid(cl.b, cl.simple, cl.base, cl.extra, cl.m, cl.v0);
    JobValid(cd.b, cd.simple, cd.base, cd.extra, cd.m, cd.v0);
    SizedNarrow(Task(cl));
    SizedNarrow(Task(cd));
  }

  /** No table is too wide for any code set that a stream may use. */
  lemma CodeOkNarrow(c: CodeSet)
    requires Known(c) && CodeOk(c.b) && |c.v0| == |c.b| && 0 < MaxLen(c.b) <= 15
    requires (c.m == 9 && |c.b| <= 288) || (c.m == 6 && |c.b| <= 32) || (c.m == 7 && |c.b| <= 19)
    ensures !Oversubscribed(c.b) && !Overwide(Task(c))
  {
    hide Oversubscribed, Overwide, ValidJob, Lookup, MaxLen, Leftover, Padded;
    KnownSizes(c);
    JobValid(c.b, c.simple, c.base, c.extra, c.m, c.v0);
    if Unused(c.b) == 0 {
      InflateArguments(c.b, c.simple, c.base, c.extra, c.m, c.v0);
    } else {
      LookupEnough(c.b, c.m);
      SizedNarrow(Task(c));
    }
  }

  lemma BytesNone(bits: seq<bool>)
    ensures BytesOf(bits, 0) == []
  {
  }

  lemma {:induction false} BytesMore(bits: seq<bool>, i: nat)
    requires |bits| >= 8 * i + 8
    ensures BytesOf(bits, i + 1) == BytesOf(bits, i) + [Lsb(bits[8 * i..][..8])]
    decreases i
  {
    if i == 0 {
      assert bits[0..][..8] == bits[..8];
      assert BytesOf(bits[8..], 0) == [];
    } else {
      BytesMore(bits[8..], i - 1);
      assert bits[8..][8 * (i - 1)..] == bits[8 * i..];
    }
  }

  /** What a code amounts to. */
  lemma CodesParts(ll: seq<nat>, dl: seq<nat>, bits: seq<bool>, out: seq<nat>, s: nat)
    requires Meets(ll, bits, s)
    ensures s >= |ll| ==> Codes(ll, dl, bits, out).Bad?
    ensures s < |ll| ==> ll[s] <= |bits|
    ensures s < |ll| && s < 256 ==> Codes(ll, dl, bits, out) == Codes(ll, dl, bits[ll[s]..], out + [s])
    ensures s < |ll| && s == 256 ==> Codes(ll, dl, bits, out) == Ok(out, bits[ll[s]..])
    ensures s < |ll| && s > 256 ==> Codes(ll, dl, bits, out) == Match(ll, dl, bits[ll[s]..], out, s)
  {
    hide Match;
  }

  lemma LitBad(c: CodeSet, s: nat, leaf: Huft)
    requires leaf.Leaf? && (s < |c.b| ==> LitMeaning(s, leaf)) && leaf.e == 99
    ensures s < |c.b| ==> s > 285
  {
  }

  lemma MatchInvalid(ll: seq<nat>, dl: seq<nat>, bits: seq<bool>, out: seq<nat>, s: nat)
    requires s > 256
    ensures s > 285 ==> Match(ll, dl, bits, out, s).Bad?
  {
  }

  /** What an entry of the literal tables says about its symbol. */
  ghost predicate LitMeaning(s: nat, leaf: Huft)
    requires leaf.Leaf?
  {
    && (leaf.e == 16 <==> s < 256) && (s < 256 ==> leaf.n == s) && (leaf.e == 15 <==> s == 256)
    && (256 < s <= 285 ==> leaf.e == LenExtra[s - 257] && leaf.n == LenBase[s - 257])
    && (leaf.e == 99 <==> s > 285)
  }

  lemma LenSmall(x: nat)
    requires x < 29
    ensures LenExtra[x] <= 5
  {
  }

  lemma LitEntry(al: Alphabet, s: nat, leaf: Huft)
    requires ValidAlphabet(al) && al.simple == 257 && al.base == CpLens && al.extra == CpLext && EntryFor(al, s, leaf) && leaf.Leaf?
    ensures leaf.e == 99 || leaf.e == 16 || leaf.e == 15 || leaf.e <= 5
    ensures s < al.limit ==> LitMeaning(s, leaf)
  {
    if s < al.limit + |al.stale| {
      var x := if s < al.limit then s else al.stale[s - al.limit];
      LitSymbol(x);
      assert leaf.e == SymbolEntry(al, x, 0).e && leaf.n == SymbolEntry(al, x, 0).n;
    }
  }

  lemma LitSymbol(x: nat)
    requires x < 257 + |CpLens|
    ensures x >= 257 ==> x <= 287 && CpLext[x - 257] == (if x <= 285 then LenExtra[x - 257] else 99)
    ensures 257 <= x <= 285 ==> CpLens[x - 257] == LenBase[x - 257] && LenExtra[x - 257] <= 5
  {
    if 257 <= x <= 285 { LenSmall(x - 257); }
  }

  lemma LitLeaf(c: CodeSet, tl: seq<seq<Huft>>, bl: nat, s: nat, leaf: Huft)
    requires LitSet(c, tl, bl) && EntryFor(Task(c).al, s, leaf) && leaf.Leaf?
    ensures leaf.e == 99 || leaf.e == 16 || leaf.e == 15 || leaf.e <= 5
    ensures s < |c.b| ==> LitMeaning(s, leaf)
  {
    hide TablesFor, EntryFor, ValidAlphabet, LitMeaning, Task;
    AlphabetOf(c, tl, bl);
    LitEntry(Task(c).al, s, leaf);
  }

  lemma LitCases(c: CodeSet, s: nat, leaf: Huft)
    requires leaf.Leaf? && (s < |c.b| ==> LitMeaning(s, leaf)) && leaf.e != 99
    ensures s < |c.b| ==> (leaf.e == 16 <==> s < 256) && (s < 256 ==> leaf.n == s) && (leaf.e == 15 <==> s == 256) && s <= 285
    ensures s < |c.b| && s > 256 ==> leaf.e == LenExtra[s - 257] && leaf.n == LenBase[s - 257]
  {
  }

  /** What a match amounts to, step by step. */
  lemma MatchParts(ll: seq<nat>, dl: seq<nat>, bits: seq<bool>, out: seq<nat>, s: nat, e: nat, n: nat)
    requires 257 <= s <= 285 && e == LenExtra[s - 257] && n == LenBase[s - 257]
    ensures |bits| < e ==> Match(ll, dl, bits, out, s).Bad?
    ensures |bits| >= e ==>
              var r := ReadDistance(dl, bits[e..]);
              && (r.NoDistance? ==> Match(ll, dl, bits, out, s).Bad?)
              && (r.Far? ==> 0 < r.dist && Match(ll, dl, bits, out, s) ==
                                           if r.dist > |out| then Bad else Codes(ll, dl, r.rest, LzCopy(out, r.dist, n + Lsb(bits[..e]))))
  {
    hide Codes, LzCopy, ReadDistance, Lsb;
  }

  /** The tables for the distance code; a code without symbols has none. */
  ghost predicate DistSet(c: CodeSet, td: seq<seq<Huft>>, bd: nat) {
    && c.simple == 0 && c.base == DistBase && c.extra == DistExtra && |c.b| <= 30
    && if td == [] then MaxLen(c.b) == 0 else TablesFor(c, td, bd)
  }

  ghost predicate LitSet(c: CodeSet, tl: seq<seq<Huft>>, bl: nat) {
    c.simple == 257 && c.base == CpLens && c.extra == CpLext && |c.b| <= 288 && TablesFor(c, tl, bl)
  }

  /** A valid stream has been decoded as it should, or the input ended within its last bits. */
  ghost predicate Agrees(r: Result, st: Status, stream: seq<bool>, history: seq<nat>) {
    r.Ok? ==> (st.Done? && stream == r.rest && history == r.out) || (st.Halted? && |r.rest| < 16)
  }

  /** A valid stream goes on being decoded, or ended as it should. */
  ghost predicate Goes(r: Result, ll: seq<nat>, dl: seq<nat>, st: Status, more: bool, stream: seq<bool>, history: seq<nat>) {
    if more then r.Ok? ==> Codes(ll, dl, stream, history) == r else Agrees(r, st, stream, history)
  }

  lemma NoSymbols(c: CodeSet, td: seq<seq<Huft>>, bd: nat, bits: seq<bool>)
    requires DistSet(c, td, bd) && td == []
    ensures Symbol(c.b, bits) == |c.b|
  {
  }

  lemma DistanceBits(dl: seq<nat>, bits: seq<bool>)
    ensures ReadDistance(dl, bits).Far? ==> |ReadDistance(dl, bits).rest| < |bits|
    ensures Symbol(dl, bits) == |dl| ==> ReadDistance(dl, bits).NoDistance?
  {
  }

  lemma AlphabetOf(c: CodeSet, td: seq<seq<Huft>>, bd: nat)
    requires TablesFor(c, td, bd)
    ensures !Oversubscribed(c.b) && |c.v0| == |c.b|
    ensures var al := Task(c).al; ValidAlphabet(al) && al.limit == |c.b| && al.simple == c.simple && al.base == c.base && al.extra == c.extra
  {
  }

  /** An entry of the distance tables is that of some distance code. */
  lemma DistEntry(al: Alphabet, t: nat, d: Huft)
    requires ValidAlphabet(al) && al.simple == 0 && al.base == DistBase && al.extra == DistExtra && EntryFor(al, t, d) && d.Leaf?
    ensures d.e != 99 ==> IsDistance(d)
    ensures t < al.limit ==> t <= 29 && d.e == DistExtra[t] && d.n == DistBase[t]
  {
    if t < al.limit + |al.stale| {
      var x := if t < al.limit then t else al.stale[t - al.limit];
      assert d.e == DistExtra[x] && d.n == DistBase[x];
    }
  }

  lemma ExtraSmall(x: nat)
    requires x < 30
    ensures DistExtra[x] <= 13 && DistBase[x] > 0
  {
  }

  lemma DistLeaf(c: CodeSet, td: seq<seq<Huft>>, bd: nat, t: nat, d: Huft)
    requires DistSet(c, td, bd) && td != [] && EntryFor(Task(c).al, t, d) && d.Leaf? && d.e != 99
    ensures IsDistance(d)
    ensures t < |c.b| ==> t <= 29 && d.e == DistExtra[t] && d.n == DistBase[t]
    ensures d.e <= 13
  {
    hide TablesFor, Oversubscribed, EntryFor, ValidAlphabet, Leftover, Padded, Task, IsDistance;
    AlphabetOf(c, td, bd);
    DistEntry(Task(c).al, t, d);
    DistanceSmall(d);
  }

  /** The base value and extra bits of some distance code. */
  ghost predicate IsDistance(d: Huft) { d.Leaf? && exists x :: 0 <= x < 30 && d.e == DistExtra[x] && d.n == DistBase[x] }

  lemma DistanceSmall(d: Huft)
    requires IsDistance(d)
    ensures d.e <= 13
  {
    var x :| 0 <= x < 30 && d.e == DistExtra[x] && d.n == DistBase[x];
    ExtraSmall(x);
  }

  /** An invalid distance code: no symbol has it. */
  lemma DistInvalid(c: CodeSet, td: seq<seq<Huft>>, bd: nat, bits: seq<bool>, d: Huft, t: nat)
    requires DistSet(c, td, bd) && td != [] && EntryFor(Task(c).al, t, d) && Meets(c.b, bits, t) && Invalid(d)
    ensures Symbol(c.b, bits) == |c.b|
  {
    hide TablesFor, Oversubscribed, EntryFor, ValidAlphabet, Leftover, Padded, Symbol, Task;
    AlphabetOf(c, td, bd);
    DistEntry(Task(c).al, t, d);
    if t < |c.b| { ExtraSmall(t); }
  }

  lemma DistShort(dl: seq<nat>, bits: seq<bool>, t: nat, after: seq<bool>, d: Huft)
    requires d.Leaf? && |after| < d.e && Meets(dl, bits, t)
    requires t < |dl| ==> t <= 29 && dl[t] <= |bits| && after == bits[dl[t]..] && d.e == DistExtra[t]
    ensures ReadDistance(dl, bits).NoDistance?
  {
  }

  lemma DistanceIs(dl: seq<nat>, bits: seq<bool>, t: nat, after: seq<bool>, d: Huft, y: nat)
    requires d.Leaf? && |after| >= d.e && y == Lsb(after[..d.e]) && Meets(dl, bits, t)
    requires t < |dl| ==> t <= 29 && dl[t] <= |bits| && after == bits[dl[t]..] && d.e == DistExtra[t] && d.n == DistBase[t]
    ensures ReadDistance(dl, bits).Far? ==> ReadDistance(dl, bits) == Far(d.n + y, after[d.e..])
  {
  }

  /** No distance reaches back further than the window. */
  lemma DistSmall(d: Huft, y: nat, after: seq<bool>)
    requires IsDistance(d)
    requires |after| >= d.e && y == Lsb(after[..d.e])
    ensures 0 < d.n + y <= WSIZE
  {
    LsbBound(after[..d.e]);
    var x :| 0 <= x < 30 && d.e == DistExtra[x] && d.n == DistBase[x];
    DistReach(x);
  }

  lemma DistReach(x: nat)
    requires x < 30
    ensures DistBase[x] + Pow2(DistExtra[x]) <= 32769
  {
    Powers();
    if x < 10 {
      match x case 0 => case 1 => case 2 => case 3 => case 4 => case 5 => case 6 => case 7 => case 8 => case _ =>
    } else if x < 20 {
      match x case 10 => case 11 => case 12 => case 13 => case 14 => case 15 => case 16 => case 17 => case 18 => case _ =>
    } else {
      match x case 20 => case 21 => case 22 => case 23 => case 24 => case 25 => case 26 => case 27 => case 28 => case _ =>
    }
  }

  lemma InfoOf(c: CodeSet, tables: seq<seq<Huft>>, l: nat) returns (info: seq<Info>)
    requires TablesFor(c, tables, l)
    ensures ValidJob(Task(c)) && AllOk(Task(c), tables, info) && Exact(info) && |info| == |tables| > 0 && info[0].width == l <= 15
  {
    info :| |info| > 0 && info[0] == Info([], Task(c).l, Task(c).l) && AllOk(Task(c), tables, info) && Exact(info);
  }

  lemma WidthSmall(c: CodeSet, tables: seq<seq<Huft>>, info: seq<Info>, t: nat)
    requires !Oversubscribed(c.b) && |c.v0| == |c.b| && MaxLen(c.b) <= 15 && AllOk(Task(c), tables, info) && t < |info|
    ensures info[t].width <= 15
  {
  }

  lemma StuckHere(tables: seq<seq<Huft>>, t: nat, width: nat, bits: seq<bool>)
    requires |bits| < width
    ensures Walk(tables, t, width, bits).Stuck?
  {
  }
}
