/** The 32K output window of linux/zBoot/inflate.c and misc.c: literals, copies from the past in chunks that
    wrap around, and flushes that feed the checksum. */
module SlidingWindow {
  import opened Crc

  const WSIZE: nat := 0x8000

  /** The copy as RFC 1951 defines it: byte by byte from `dist` back in everything produced so far. */
  function LzCopy(h: seq<nat>, dist: nat, n: nat): (r: seq<nat>)
    requires 0 < dist <= |h|
    ensures |r| == |h| + n
  {
    if n == 0 then h else var g := LzCopy(h, dist, n - 1); g + [g[|g| - dist]]
  }

  /** A copy keeps the history, and every byte that it adds is the one dist places before it. */
  lemma {:induction false} LzCopyRepeats(h: seq<nat>, dist: nat, n: nat)
    requires 0 < dist <= |h|
    ensures LzCopy(h, dist, n)[..|h|] == h
    ensures forall i :: |h| <= i < |h| + n ==> LzCopy(h, dist, n)[i] == LzCopy(h, dist, n)[i - dist]
  {
    if n > 0 {
      LzCopyRepeats(h, dist, n - 1);
      var g := LzCopy(h, dist, n - 1);
      assert LzCopy(h, dist, n)[..|g|] == g;
    }
  }

  lemma {:induction false} LzCopyMore(h: seq<nat>, dist: nat, n: nat, m: nat)
    requires 0 < dist <= |h|
    ensures LzCopy(LzCopy(h, dist, n), dist, m) == LzCopy(h, dist, n + m)
  {
    if m > 0 { LzCopyMore(h, dist, n, m - 1); }
  }

  /** n bytes have been copied from `dist` back, where that is not before the beginning. */
  ghost predicate Copied(h: seq<nat>, h': seq<nat>, dist: nat, n: nat) {
    |h'| == |h| + n && (0 < dist <= |h| ==> h' == LzCopy(h, dist, n))
  }

  lemma NoneCopied(h: seq<nat>, dist: nat)
    ensures Copied(h, h, dist, 0)
  {
  }

  lemma MoreCopied(h: seq<nat>, g: seq<nat>, h': seq<nat>, dist: nat, n: nat, e: nat)
    requires Copied(h, g, dist, n) && |h'| == |g| + e && (0 < dist <= |g| ==> h' == LzCopy(g, dist, e))
    ensures Copied(h, h', dist, n + e)
  {
    if 0 < dist <= |h| { LzCopyMore(h, dist, n, e); }
  }

  lemma AllCopied(h: seq<nat>, h': seq<nat>, dist: nat, n: nat)
    requires Copied(h, h', dist, n)
    ensures |h'| == |h| + n && (0 < dist <= |h| ==> h' == LzCopy(h, dist, n))
  {
  }

  /** e bytes moved from d on to w on, in this order, within one buffer. */
  function Moved(s: seq<nat>, w: nat, d: nat, e: nat): (r: seq<nat>)
    requires w + e <= |s| && d + e <= |s|
    ensures |r| == |s|
  {
    if e == 0 then s else var t := Moved(s, w, d, e - 1); t[w + e - 1 := t[d + e - 1]]
  }

  lemma {:induction false} MovedOutside(s: seq<nat>, w: nat, d: nat, e: nat)
    requires w + e <= |s| && d + e <= |s|
    ensures Moved(s, w, d, e)[..w] == s[..w] && Moved(s, w, d, e)[w + e..] == s[w + e..]
  {
    if e > 0 {
      MovedOutside(s, w, d, e - 1);
      var t := Moved(s, w, d, e - 1);
      assert t[w + e..] == t[w + e - 1..][1..];
    }
  }

  /** The buffer holds the last bytes of the history: those since the last flush in front of w, and behind it
      those that were there before. */
  ghost predicate Rel(h: seq<nat>, flushed: seq<nat>, s: seq<nat>, w: nat) {
    && |s| == WSIZE && w <= WSIZE && h == flushed + s[..w]
    && (flushed == [] || (|flushed| >= WSIZE && s[w..] == flushed[|flushed| - WSIZE + w..]))
  }

  /** Place d of the buffer is `dist` before place w. */
  predicate Back(d: nat, w: nat, dist: nat) { d == if dist <= w then w - dist else w - dist + WSIZE }

  lemma BackStart(d: nat, w: nat, dist: nat)
    requires w < WSIZE && 0 < dist <= WSIZE && d == if dist <= w then w - dist else w + WSIZE - dist
    ensures Back(d, w, dist) && d < WSIZE
  {
  }

  /** Source and target of a copy advance together. */
  lemma BackStep(d: nat, w: nat, dist: nat, e: nat)
    requires Back(d, w, dist) && 0 < dist <= WSIZE && w + e <= WSIZE && d + e <= WSIZE
    ensures Back(if d + e == WSIZE then 0 else d + e, if w + e == WSIZE then 0 else w + e, dist)
  {
  }

  lemma ReadBack(h: seq<nat>, flushed: seq<nat>, s: seq<nat>, w: nat, d: nat, dist: nat)
    requires Rel(h, flushed, s, w) && w < WSIZE && 0 < dist <= WSIZE && dist <= |h| && Back(d, w, dist) && d < WSIZE
    ensures s[d] == h[|h| - dist]
  {
    if dist <= w {
      assert s[d] == s[..w][d];
    } else {
      assert s[d] == s[w..][d - w];
    }
  }

  lemma RelNext(h: seq<nat>, flushed: seq<nat>, s: seq<nat>, w: nat, b: nat)
    requires Rel(h, flushed, s, w) && w < WSIZE
    ensures Rel(h + [b], flushed, s[w := b], w + 1)
  {
    var s' := s[w := b];
    assert s'[..w + 1] == s[..w] + [b];
    assert s'[w + 1..] == s[w + 1..] == s[w..][1..];
  }

  lemma RelIs(h: seq<nat>, flushed: seq<nat>, s: seq<nat>, w: nat)
    requires Rel(h, flushed, s, w)
    ensures |s| == WSIZE && w <= WSIZE && h == flushed + s[..w]
  {
  }

  /** Moving a chunk that stays inside the buffer appends to the history; and if the distance does not reach
      back before the beginning, it appends what the byte-by-byte copy does. */
  lemma {:induction false} ChunkMoves(h: seq<nat>, flushed: seq<nat>, s: seq<nat>, w: nat, d: nat, e: nat, dist: nat)
    returns (h': seq<nat>)
    requires |s| == WSIZE && Rel(h, flushed, s, w) && 0 < dist <= WSIZE && Back(d, w, dist) && w + e <= WSIZE && d + e <= WSIZE
    ensures Rel(h', flushed, Moved(s, w, d, e), w + e) && |h'| == |h| + e
    ensures dist <= |h| ==> h' == LzCopy(h, dist, e)
    decreases e
  {
    hide Rel;
    if e == 0 {
      h' := h;
    } else {
      var g := ChunkMoves(h, flushed, s, w, d, e - 1, dist);
      var t := Moved(s, w, d, e - 1);
      h' := g + [t[d + e - 1]];
      RelNext(g, flushed, t, w + e - 1, t[d + e - 1]);
      if dist <= |h| { ReadBack(g, flushed, t, w + e - 1, d + e - 1, dist); }
    }
  }

  class Window {
    const slide: array<nat>
    var w: nat
    var flushed: seq<nat>          // output_data[..output_ptr]
    const reg: Register

    ghost predicate Valid()
      reads this, slide, reg
    {
      && slide.Length == WSIZE && w < WSIZE && Rel(History(), flushed, slide[..], w)
      && reg.Valid() && reg.fed == flushed
    }

    /** Everything produced so far. */
    ghost function History(): seq<nat>
      reads this, slide
    {
      if w <= slide.Length then flushed + slide[..w] else []
    }

    constructor (table: seq<Reg>)
      requires |table| == 256 && forall i :: 0 <= i < 256 ==> table[i] == EntryOf(ByteBits(i))
      ensures Valid() && History() == [] && fresh(slide) && fresh(reg)
    {
      slide := new nat[WSIZE](i => 0);
      w, flushed := 0, [];
      reg := new Register(table);
    }

    /** flush_window with n bytes in the window. */
    method Flush(n: nat)
      requires slide.Length == WSIZE && n <= WSIZE && reg.Valid() && reg.fed == flushed
      modifies this`flushed, reg
      ensures flushed == old(flushed) + slide[..n] && reg.Valid() && reg.fed == flushed
    {
      if n == 0 {
        assert flushed + slide[..0] == flushed;
        return;
      }
      var bytes := slide[..n];
      var r := reg.UpdCrc(bytes);
      flushed := flushed + bytes;
    }

    /** The window is full: it goes out whole, and what it holds stays for copies. */
    method WrapAround()
      requires slide.Length == WSIZE && w == WSIZE && Rel(flushed + slide[..], flushed, slide[..], w)
      requires reg.Valid() && reg.fed == flushed
      modifies this, reg
      ensures Valid() && w == 0 && History() == old(flushed + slide[..])
    {
      assert slide[..w] == slide[..];
      Flush(w);
      w := 0;
      assert slide[..][0..] == slide[..] == flushed[|flushed| - WSIZE..];
      assert flushed + slide[..0] == flushed;
    }

    method PutByte(b: nat)
      requires Valid()
      modifies this, slide, reg
      ensures Valid() && History() == old(History()) + [b]
    {
      RelNext(History(), flushed, slide[..], w, b);
      slide[w] := b;
      w := w + 1;
      if w == WSIZE {
        assert slide[..w] == slide[..];
        WrapAround();
      }
    }

    /** Both ways of copying a chunk go byte by byte from the front, memcpy in misc.c too. */
    method Move(d: nat, e: nat)
      requires slide.Length == WSIZE && w + e <= WSIZE && d + e <= WSIZE
      modifies slide
      ensures slide[..] == Moved(old(slide[..]), w, d, e)
    {
      var i := 0;
      while i < e
        invariant 0 <= i <= e && slide[..] == Moved(old(slide[..]), w, d, i)
      {
        slide[w + i] := slide[d + i];
        i := i + 1;
      }
    }

    /** Copies n0 bytes from dist back, chunk by chunk. */
    method Copy(n0: nat, dist: nat)
      requires Valid() && 0 < dist <= WSIZE
      modifies this, slide, reg
      ensures Valid() && |History()| == |old(History())| + n0
      ensures dist <= |old(History())| ==> History() == LzCopy(old(History()), dist, n0)
    {
      hide Rel, LzCopy, Back, Copied;
      ghost var h := History();
      NoneCopied(h, dist);
      var n: nat := n0;
      var d: nat := if dist <= w then w - dist else w + WSIZE - dist;
      BackStart(d, w, dist);
      while n > 0
        invariant n <= n0 && Valid() && Back(d, w, dist) && d < WSIZE
        invariant Copied(h, History(), dist, n0 - n)
        decreases n
      {
        var e: nat := WSIZE - if d > w then d else w;
        if e > n {
          e := n;
        }
        ghost var g := History();
        BackStep(d, w, dist, e);
        CopyChunk(d, e, dist);
        MoreCopied(h, g, History(), dist, n0 - n, e);
        d := if d + e == WSIZE then 0 else d + e;
        n := n - e;
      }
      AllCopied(h, History(), dist, n0);
    }

    /** One chunk, up to the end of the buffer. */
    method CopyChunk(d: nat, e: nat, dist: nat)
      requires Valid() && 0 < dist <= WSIZE && Back(d, w, dist) && 0 < e && w + e <= WSIZE && d + e <= WSIZE
      modifies this, slide, reg
      ensures Valid() && w == if old(w) + e == WSIZE then 0 else old(w) + e
      ensures |History()| == |old(History())| + e
      ensures dist <= |old(History())| ==> History() == LzCopy(old(History()), dist, e)
    {
      hide Moved, LzCopy, Rel;
      ghost var h := ChunkMoves(History(), flushed, slide[..], w, d, e, dist);
      Move(d, e);
      w := w + e;
      RelIs(h, flushed, slide[..], w);
      assert slide[..][..w] == slide[..w];
      if w == WSIZE {
        WrapAround();
      }
    }

    /** The end of inflate: what is left in the window goes out. */
    method Finish()
      requires Valid()
      modifies this`flushed, reg
      ensures flushed == old(History()) && reg.Valid() && reg.fed == flushed
    {
      Flush(w);
    }
  }
}
