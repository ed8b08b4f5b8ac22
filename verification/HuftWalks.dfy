/** When the tables of huft_build decode every stream: exactly when the sizing loop never makes one that looks up
    more than l bits. */
module HuftWalks {
  import opened Bits
  import opened HuffmanCodes
  import opened HuftTables
  import opened HuftSizing

  /** At some table position below the first table all words are l bits deeper or more, but not all exactly l. */
  ghost predicate Overwide(job: Job) {
    exists pre: seq<bool> :: WideAt(job, pre)
  }

  ghost predicate WideAt(job: Job, pre: seq<bool>) { Leveled(job.l, |pre|) && WideRegion(job, pre) }

  /** The tables as huft_build leaves them. */
  ghost predicate Laid(job: Job, tables: seq<seq<Huft>>, info: seq<Info>) {
    |info| > 0 && info[0] == Info([], job.l, job.l) && AllOk(job, tables, info) && Looks(job, tables, info)
  }

  /** The walk yields the symbol s whose word the bits begin with, and uses up exactly that word. */
  ghost predicate ReadAs(job: Job, tables: seq<seq<Huft>>, bits: seq<bool>, s: nat, k: nat) {
    && Decodes(job.b, bits, s) && ValidAlphabet(job.al)
    && Walk(tables, 0, job.l, bits) == Found(LeafOf(job.al, s, k), bits[job.b[s]..])
  }

  /** Every stream that is as long as the longest word is decoded. */
  ghost predicate AllRead(job: Job, tables: seq<seq<Huft>>) {
    forall bits: seq<bool> :: |bits| >= job.g ==> Read(job, tables, bits)
  }

  ghost predicate Read(job: Job, tables: seq<seq<Huft>>, bits: seq<bool>) {
    exists s, k :: ReadAs(job, tables, bits, s, k)
  }

  // ---------- without a wide table ----------

  lemma NarrowExact(job: Job, tables: seq<seq<Huft>>, info: seq<Info>)
    requires Laid(job, tables, info) && !Overwide(job)
    ensures Exact(info)
  {
    hide AllOk, WideRegion, Plain;
    forall t | 0 <= t < |info|
      ensures info[t].looked == info[t].width
    {
      assert LookOk(job, info[t]);
      assert !WideAt(job, info[t].pre);
    }
  }

  lemma ExactReads(job: Job, tables: seq<seq<Huft>>, info: seq<Info>, bits: seq<bool>)
    requires ValidJob(job) && Laid(job, tables, info) && Exact(info) && |bits| >= job.g
    ensures Read(job, tables, bits)
  {
    hide AllOk, Looks, Walk, Decodes, LeafOf, Complete;
    assert [] + bits == bits;
    var s, k := WalkDecodes(job, tables, info, 0, bits);
    assert ReadAs(job, tables, bits, s, k);
  }

  // ---------- with a wide table ----------

  /** No position on the way to pre is wide. */
  ghost predicate NoneAbove(job: Job, pre: seq<bool>) {
    forall q: seq<bool> :: q <= pre && |q| < |pre| ==> !WideAt(job, q)
  }

  lemma {:induction false} FirstWide(job: Job, pre: seq<bool>) returns (q: seq<bool>)
    requires WideAt(job, pre)
    ensures WideAt(job, q) && NoneAbove(job, q)
    decreases |pre|
  {
    hide WideAt;
    q := pre;
    if q': seq<bool> :| q' <= pre && |q'| < |pre| && WideAt(job, q') {
      q := FirstWide(job, q');
    }
  }

  lemma LevelGap(l: nat, a: nat, b: nat)
    requires Leveled(l, a) && Leveled(l, b) && a < b
    ensures a + l <= b
  {
    var x: nat :| a == x * l;
    var y: nat :| b == y * l;
    if x < y {
      MulMono(x + 1, y, l);
      Distribute(x, 1, l);
    } else {
      MulMono(y, x, l);
    }
  }

  /** The bits go on below pre to the word of s, but not along it: after l more bits comes a one and then zeros. */
  function Astray(job: Job, pre: seq<bool>, s: nat, n: nat): seq<bool>
    requires s < |job.b| && |pre| + job.l <= job.b[s]
  {
    Word(job.b, s)[..|pre| + job.l] + [true] + seq(n, i => false)
  }

  /** A word is below pre and deeper than the l bits below it. */
  ghost predicate Deep(job: Job, pre: seq<bool>, s: nat) {
    s < |job.b| && pre <= Word(job.b, s) && job.b[s] > |pre| + job.l
  }

  /** One level of the walk towards a wide position. */
  lemma OneLevel(job: Job, tables: seq<seq<Huft>>, info: seq<Info>, t: nat, pre: seq<bool>, s: nat, bits: seq<bool>) returns (t': nat)
    requires ValidJob(job) && AllOk(job, tables, info) && t < |info| && info[t].looked == info[t].width
    requires |info[t].pre| + job.l <= |pre| && Deep(job, pre, s) && info[t].pre <= pre && pre <= info[t].pre + bits
    ensures t' < |info| && info[t'].pre == pre[..|info[t].pre| + job.l] && job.l <= |bits|
    ensures Walk(tables, t, info[t].looked, bits) == Walk(tables, t', info[t'].looked, bits[job.l..])
  {
    var i := info[t];
    var y := bits[..i.width];
    assert EntryOk(job, tables, info, t, y);
    var e := tables[t][Lsb(y)];
    assert i.pre + y <= pre by { Along(i.pre, pre, bits, i.width); }
    if !LinkFor(job.l, info, i.pre, y, e) {
      var s' :| LeafFor(job, i.pre, y, e, s');
      assert Word(job.b, s') <= Word(job.b, s);
      PrefixFree(job.b, s', s);
    }
    t' := e.table;
    assert i.pre + y == pre[..|i.pre| + job.l];
  }

  lemma Along(q: seq<bool>, pre: seq<bool>, bits: seq<bool>, w: nat)
    requires q <= pre && pre <= q + bits && |q| + w <= |pre|
    ensures w <= |bits| && q + bits[..w] <= pre
  {
    assert (q + bits)[..|q| + w] == q + bits[..w];
    assert pre[..|q| + w] == (q + bits)[..|q| + w];
  }

  /** The walk reaches the table of a wide position if none above it is wide. */
  lemma {:induction false} Reach(job: Job, tables: seq<seq<Huft>>, info: seq<Info>, pre: seq<bool>, s: nat, t: nat, bits: seq<bool>)
    returns (t': nat)
    requires ValidJob(job) && AllOk(job, tables, info) && Looks(job, tables, info) && t < |info|
    requires Leveled(job.l, |pre|) && Deep(job, pre, s) && NoneAbove(job, pre)
    requires info[t].pre <= pre && pre <= info[t].pre + bits
    ensures t' < |info| && info[t'].pre == pre && |pre| - |info[t].pre| <= |bits|
    ensures Walk(tables, t, info[t].looked, bits) == Walk(tables, t', info[t'].looked, bits[|pre| - |info[t].pre|..])
    decreases |pre| - |info[t].pre|
  {
    hide ValidJob, AllOk, Looks, Walk, Deep, WideRegion, Leveled;
    var q := info[t].pre;
    if q == pre {
      t' := t;
      assert bits[0..] == bits;
    } else {
      LooksAt(job, tables, info, t);
      LevelGap(job.l, |q|, |pre|);
      JobComplete(job);
      assert !WideAt(job, q);
      var t1 := OneLevel(job, tables, info, t, pre, s, bits);
      assert pre <= info[t1].pre + bits[job.l..] by { Onward(q, pre, bits, job.l); }
      t' := Reach(job, tables, info, pre, s, t1, bits[job.l..]);
      assert bits[job.l..][|pre| - |info[t1].pre|..] == bits[|pre| - |q|..];
    }
  }

  lemma LooksAt(job: Job, tables: seq<seq<Huft>>, info: seq<Info>, t: nat)
    requires Looks(job, tables, info) && t < |info|
    ensures |tables| == |info| && Plain(job.l, tables[t]) && Leveled(job.l, |info[t].pre|)
    ensures info[t].looked > job.l <==> WideRegion(job, info[t].pre)
    ensures info[t].looked == info[t].width || info[t].looked > job.l
  {
    assert LookOk(job, info[t]);
  }

  lemma Onward(q: seq<bool>, pre: seq<bool>, bits: seq<bool>, l: nat)
    requires q <= pre && pre <= q + bits && |q| + l <= |pre|
    ensures l <= |bits| && pre <= pre[..|q| + l] + bits[l..]
  {
    Along(q, pre, bits, l);
    assert pre[..|q| + l] == (q + bits)[..|q| + l] == q + bits[..l];
    assert pre[..|q| + l] + bits[l..] == q + bits;
  }

  /** In the wide table the bits select an entry that was never filled, or a symbol of at most l bits. */
  lemma Missed(job: Job, tables: seq<seq<Huft>>, t: nat, looked: nat, bits: seq<bool>)
    requires t < |tables| && Plain(job.l, tables[t]) && looked > job.l && |bits| > job.l && bits[job.l]
    ensures Walk(tables, t, looked, bits).Found? ==> |Walk(tables, t, looked, bits).rest| >= |bits| - job.l
  {
    if |bits| >= looked {
      var y := bits[..looked];
      var z := y[job.l..];
      assert y == y[..job.l] + z && z[0];
      LsbConcat(y[..job.l], z);
      FarIndex(Lsb(y[..job.l]), Pow2(job.l), Lsb(z));
      if Lsb(y) < |tables[t]| { assert PlainEntry(job.l, Lsb(y), tables[t][Lsb(y)]); }
    }
  }

  lemma FarIndex(x: nat, p: nat, z: nat)
    requires z >= 1
    ensures x + p * z >= p
  {
    MulMono(1, z, p);
  }

  /** At a wide position some stream is not decoded. */
  lemma WideFails(job: Job, tables: seq<seq<Huft>>, info: seq<Info>, pre: seq<bool>)
    requires ValidJob(job) && Laid(job, tables, info) && WideAt(job, pre) && NoneAbove(job, pre)
    ensures !AllRead(job, tables)
  {
    hide AllOk, Looks, Complete, Walk, Word, Plain, ReadAs, Leveled, NoneAbove;
    var s :| 0 <= s < |job.b| && pre <= Word(job.b, s) && job.b[s] > |pre| + job.l;
    var n := |pre| + job.l;
    var bits := Astray(job, pre, s, job.g);
    assert bits[..n] == Word(job.b, s)[..n] && pre == Word(job.b, s)[..|pre|];
    assert pre <= bits && [] + bits == bits;
    var t := Reach(job, tables, info, pre, s, 0, bits);
    LooksAt(job, tables, info, t);
    Missed(job, tables, t, info[t].looked, bits[|pre|..]);
    forall s', k
      ensures !ReadAs(job, tables, bits, s', k)
    {
      NotReadAs(job, tables, bits, n, s, s', k);
    }
    assert !Read(job, tables, bits);
  }

  /** A walk that uses up at most n bits, while the word that the bits begin with has more. */
  lemma NotReadAs(job: Job, tables: seq<seq<Huft>>, bits: seq<bool>, n: nat, s: nat, s': nat, k: nat)
    requires ValidJob(job) && s < |job.b| && n < job.b[s] && n <= |bits| && bits[..n] == Word(job.b, s)[..n]
    requires var w := Walk(tables, 0, job.l, bits); w.Found? ==> |w.rest| >= |bits| - n
    ensures !ReadAs(job, tables, bits, s', k)
  {
    hide Walk, Word, Complete, Prefixed;
    CompletePrefixed(job.b);
    if ReadAs(job, tables, bits, s', k) {
      if job.b[s'] <= n {
        assert Word(job.b, s') == bits[..job.b[s']] == bits[..n][..job.b[s']];
        assert Word(job.b, s') <= Word(job.b, s);
        PrefixFree(job.b, s', s);
      }
    }
  }

  /** For every complete code: the tables decode every stream if and only if no table is too wide. */
  lemma AllReadIff(job: Job, tables: seq<seq<Huft>>, info: seq<Info>)
    requires ValidJob(job) && Laid(job, tables, info)
    ensures AllRead(job, tables) <==> !Overwide(job)
    ensures !Overwide(job) ==> Exact(info)
  {
    hide ValidJob, Laid, Read, Exact, WideAt, NoneAbove;
    if Overwide(job) {
      var pre :| WideAt(job, pre);
      var q := FirstWide(job, pre);
      WideFails(job, tables, info, q);
    } else {
      NarrowExact(job, tables, info);
      forall bits: seq<bool> | |bits| >= job.g
        ensures Read(job, tables, bits)
      {
        ExactReads(job, tables, info, bits);
      }
    }
  }
}
