/** The list of memory areas of a process (linux/mm/mmap.c) as a map from addresses to what is mapped
    there. */
module VmAreas {
  const PAGE_SIZE: nat := 4096
  const TASK_SIZE: nat := 0xC000_0000
  const SHM_RANGE_START: nat := 0x4000_0000
  const SHM_RANGE_END: nat := 0x6000_0000
  const WORD: nat := 0x1_0000_0000

  /** 32-bit addition. */
  function Add32(x: nat, y: nat): nat { if x + y >= WORD then x + y - WORD else x + y }

  /** 32-bit subtraction. */
  function Sub32(x: nat, y: nat): nat
    requires y < WORD
  {
    if x >= y then x - y else x + WORD - y
  }

  /** The least multiple of the page size that is not below x. */
  function PageAlign(x: nat): (r: nat)
    ensures r % PAGE_SIZE == 0 && x <= r < x + PAGE_SIZE
  {
    (x + (PAGE_SIZE - 1)) / PAGE_SIZE * PAGE_SIZE
  }

  /** An area [start, end); inode 0 and ops 0 stand for none. */
  datatype Area = Area(start: nat, end: nat, prot: nat, inode: nat, offset: nat, ops: nat, share: nat)

  /** What an address is mapped to. The place in the file matters only when there is a file. */
  datatype Mapped = Nothing | Mapped(inode: nat, place: nat, prot: nat, ops: nat, share: nat)

  predicate AreaOk(x: Area) { x.start < x.end <= TASK_SIZE && x.offset < WORD }

  predicate Contains(x: Area, a: nat) { x.start <= a < x.end }

  function At(x: Area, a: nat): Mapped
    requires Contains(x, a)
  {
    Mapped(x.inode, if x.inode == 0 then 0 else Add32(x.offset, a - x.start), x.prot, x.ops, x.share)
  }

  function Lookup(areas: seq<Area>, a: nat): Mapped {
    if areas == [] then Nothing
    else if Contains(areas[0], a) then At(areas[0], a)
    else Lookup(areas[1..], a)
  }

  predicate Apart(x: Area, y: Area) { x.end <= y.start || y.end <= x.start }

  /** Sorted by address and disjoint. */
  predicate Sorted(areas: seq<Area>) {
    && (forall i :: 0 <= i < |areas| ==> AreaOk(areas[i]))
    && (forall i, j :: 0 <= i < j < |areas| ==> areas[i].end <= areas[j].start)
  }

  predicate ApartFrom(areas: seq<Area>, x: Area) { forall i :: 0 <= i < |areas| ==> Apart(areas[i], x) }

  // ---------- looking up ----------

  lemma {:induction false} LookupConcat(p: seq<Area>, q: seq<Area>, a: nat)
    ensures Lookup(p + q, a) == if Lookup(p, a) == Nothing then Lookup(q, a) else Lookup(p, a)
  {
    if p == [] {
      assert p + q == q;
    } else {
      assert (p + q)[1..] == p[1..] + q;
      LookupConcat(p[1..], q, a);
    }
  }

  lemma {:induction false} LookupNone(areas: seq<Area>, a: nat)
    requires forall i :: 0 <= i < |areas| ==> !Contains(areas[i], a)
    ensures Lookup(areas, a) == Nothing
  {
    if areas != [] {
      assert forall i :: 0 <= i < |areas[1..]| ==> areas[1..][i] == areas[i + 1];
      LookupNone(areas[1..], a);
    }
  }

  lemma {:induction false} LookupSome(areas: seq<Area>, a: nat) returns (i: nat)
    requires Lookup(areas, a) != Nothing
    ensures i < |areas| && Contains(areas[i], a) && Lookup(areas, a) == At(areas[i], a)
  {
    if Contains(areas[0], a) {
      i := 0;
    } else {
      var j := LookupSome(areas[1..], a);
      i := j + 1;
    }
  }

  lemma LookupOne(x: Area, a: nat)
    ensures Lookup([x], a) == if Contains(x, a) then At(x, a) else Nothing
  {
    assert [x][1..] == [];
  }

  // ---------- inserting ----------

  /** Where insert_vm_struct puts an area: before the first one that starts later. */
  function Place(areas: seq<Area>, x: Area): (i: nat)
    ensures i <= |areas| && (forall j :: 0 <= j < i ==> areas[j].start <= x.start) && (i < |areas| ==> areas[i].start > x.start)
  {
    if areas == [] || areas[0].start > x.start then 0 else 1 + Place(areas[1..], x)
  }

  function Inserted(areas: seq<Area>, x: Area): seq<Area> {
    areas[..Place(areas, x)] + [x] + areas[Place(areas, x)..]
  }

  lemma InsertSorted(areas: seq<Area>, x: Area)
    requires Sorted(areas) && AreaOk(x) && ApartFrom(areas, x)
    ensures Sorted(Inserted(areas, x))
  {
    var i, r := Place(areas, x), Inserted(areas, x);
    forall j | 0 <= j < |areas|
      ensures if j < i then areas[j].end <= x.start else x.end <= areas[j].start
    {
      assert Apart(areas[j], x);
      if j > i { assert areas[i].end <= areas[j].start; }
    }
    assert forall j :: 0 <= j < |r| ==> r[j] == if j < i then areas[j] else if j == i then x else areas[j - 1];
  }

  lemma InsertLookup(areas: seq<Area>, x: Area, a: nat)
    requires ApartFrom(areas, x) && x.start < x.end
    ensures Lookup(Inserted(areas, x), a) == if Contains(x, a) then At(x, a) else Lookup(areas, a)
  {
    var i := Place(areas, x);
    var p, q := areas[..i], areas[i..];
    assert areas == p + q;
    LookupConcat(p + [x], q, a);
    LookupConcat(p, [x], a);
    LookupConcat(p, q, a);
    LookupOne(x, a);
    if Contains(x, a) {
      forall j | 0 <= j < |p|
        ensures !Contains(p[j], a)
      {
        assert Apart(areas[j], x);
      }
      LookupNone(p, a);
    }
  }

  lemma InsertApart(areas: seq<Area>, x: Area, y: Area)
    requires ApartFrom(areas, y) && Apart(x, y)
    ensures ApartFrom(Inserted(areas, x), y)
  {
  }

  // ---------- what is left of an area ----------

  /** The parts of an area before addr and from end on, as unmap_fixup makes them. */
  function Rest(x: Area, addr: nat, end: nat): seq<Area>
    requires x.start <= addr <= end <= x.end
  {
    (if end < x.end then [x.(offset := Add32(x.offset, end - x.start), start := end)] else []) +
    (if x.start < addr then [x.(end := addr)] else [])
  }

  lemma AddMore(o: nat, d: nat, e: nat)
    requires o < WORD && d + e < WORD
    ensures Add32(Add32(o, d), e) == Add32(o, d + e)
  {
  }

  /** The remaining addresses keep their inode, place, protection and operations. */
  lemma RestKeeps(x: Area, addr: nat, end: nat, a: nat)
    requires AreaOk(x) && x.start <= addr <= end <= x.end
    ensures forall i :: 0 <= i < |Rest(x, addr, end)| ==> AreaOk(Rest(x, addr, end)[i]) && x.start <= Rest(x, addr, end)[i].start && Rest(x, addr, end)[i].end <= x.end
    ensures Lookup(Rest(x, addr, end), a) == if Contains(x, a) && !(addr <= a < end) then At(x, a) else Nothing
  {
    var r := if end < x.end then [x.(offset := Add32(x.offset, end - x.start), start := end)] else [];
    var l := if x.start < addr then [x.(end := addr)] else [];
    LookupConcat(r, l, a);
    if end < x.end {
      LookupOne(r[0], a);
      if end <= a < x.end { AddMore(x.offset, end - x.start, a - end); }
    }
    if x.start < addr { LookupOne(l[0], a); }
  }

  // ---------- the areas an unmapping touches ----------

  predicate Touches(x: Area, addr: nat, end: nat) {
    !((addr < x.start && end <= x.start) || (addr >= x.end && end > x.end))
  }

  lemma TouchesIff(x: Area, addr: nat, end: nat)
    requires AreaOk(x) && addr < end
    ensures Touches(x, addr, end) <==> x.start < end && addr < x.end
  {
  }

  function Max(a: nat, b: nat): nat { if a < b then b else a }

  function Min(a: nat, b: nat): nat { if a < b then a else b }

  /** The list while do_munmap works: `free` holds the touched areas not yet dealt with. */
  ghost predicate Working(before: seq<Area>, mmap: seq<Area>, free: seq<Area>, addr: nat, end: nat) {
    && Sorted(mmap)
    && (forall i :: 0 <= i < |free| ==> AreaOk(free[i]) && free[i].start < end && addr < free[i].end && ApartFrom(mmap, free[i]))
    && (forall i, j :: 0 <= i < j < |free| ==> Apart(free[i], free[j]))
    && (forall a: nat :: Meaning(before, mmap, free, addr, end, a))
  }

  ghost predicate Meaning(before: seq<Area>, mmap: seq<Area>, free: seq<Area>, addr: nat, end: nat, a: nat) {
    && Lookup(mmap, a) == (if addr <= a < end || Lookup(free, a) != Nothing then Nothing else Lookup(before, a))
    && (Lookup(free, a) != Nothing ==> Lookup(free, a) == Lookup(before, a))
  }

  lemma DropFirst(free: seq<Area>, x: Area, rest: seq<Area>, a: nat)
    requires free == [x] + rest && forall i :: 0 <= i < |rest| ==> Apart(x, rest[i])
    ensures Lookup(rest, a) == if Contains(x, a) then Nothing else Lookup(free, a)
  {
    assert free[1..] == rest;
    if Contains(x, a) { LookupNone(rest, a); }
  }

  class AddressSpace {
    var mmap: seq<Area>

    constructor ()
      ensures mmap == []
    {
      mmap := [];
    }

    method InsertVmStruct(x: Area)
      modifies this
      ensures mmap == Inserted(old(mmap), x)
    {
      var i := 0;
      while i < |mmap| && mmap[i].start <= x.start
        invariant 0 <= i <= |mmap| && forall j :: 0 <= j < i ==> mmap[j].start <= x.start
      {
        i := i + 1;
      }
      PlaceIs(mmap, x, i);
      mmap := mmap[..i] + [x] + mmap[i..];
    }

    /** Puts back what is left of an area that has been taken off the list: nothing, one end, or
        both sides of a hole. An empty hole inside the area splits it in two. */
    method UnmapFixup(area: Area, addr: nat, len: nat)
      requires addr < WORD && len < WORD && area.end < WORD && area.offset < WORD
      modifies this
      ensures mmap == if area.start <= addr < area.end && area.start < addr + len <= area.end then InsertAll(old(mmap), Rest(area, addr, addr + len))
                      else old(mmap)
    {
      var x, end := area, Add32(addr, len);
      if addr < x.start || addr >= x.end || end <= x.start || end > x.end || end < addr {
        return;
      }
      ghost var rest := Rest(area, addr, end);
      if addr == x.start && end == x.end {
        assert rest == [];
        return;
      }
      if addr >= x.start && end == x.end {
        x := x.(end := addr);
      }
      if addr == x.start && end <= x.end {
        x := x.(offset := Add32(x.offset, end - x.start), start := end);
      }
      if addr > x.start && end < x.end {
        var mpnt := x.(offset := Add32(x.offset, end - x.start), start := end);
        InsertVmStruct(mpnt);
        x := x.(end := addr);
        assert rest == [mpnt, x];
        InsertTwo(old(mmap), mpnt, x);
      } else {
        assert rest == [x];
        InsertOne(old(mmap), x);
      }
      InsertVmStruct(x);
    }

    /** Takes the touched areas off the list, and then puts back what is left of each. */
    method DoMunmap(addr: nat, length: nat) returns (ok: bool)
      requires Sorted(mmap)
      modifies this
      ensures ok <==> addr % PAGE_SIZE == 0 && addr <= TASK_SIZE && length <= TASK_SIZE - addr
      ensures !ok ==> mmap == old(mmap)
      ensures Sorted(mmap)
      ensures ok ==> forall a: nat :: Lookup(mmap, a) == if addr <= a < addr + PageAlign(length) then Nothing else Lookup(old(mmap), a)
    {
      if addr % PAGE_SIZE != 0 || addr > TASK_SIZE || length > TASK_SIZE - addr {
        return false;
      }
      var len := PageAlign(length);
      if len == 0 {
        return true;
      }
      var free := TakeTouched(addr, addr + len);
      PutBack(free, addr, addr + len, old(mmap));
      return true;
    }

    /** Merges neighbours that fit together, so that no two of them are left. */
    method MergeSegments(ignoreOffsets: bool)
      requires forall i :: 0 <= i < |mmap| ==> mmap[i].start < WORD
      modifies this
      ensures Sorted(old(mmap)) ==> Sorted(mmap) && Merged(mmap, ignoreOffsets) && NeighboursApart(mmap, ignoreOffsets)
      ensures Sorted(old(mmap)) ==> forall a: nat :: Lookup(mmap, a) == Lookup(old(mmap), a)
      ensures Wrapped(old(mmap)) ==> Wrapped(mmap)
    {
      if mmap == [] {
        return;
      }
      ghost var before := mmap;
      var done, i := [mmap[0]], 1;
      if Sorted(mmap) { MergeStart(mmap, ignoreOffsets); }
      assert done + mmap[1..] == mmap;
      while i < |mmap|
        invariant 1 <= i <= |mmap| && mmap == before && done != []
        invariant forall j :: 0 <= j < |done| ==> done[j].start < WORD
        invariant Sorted(mmap) ==> Merging(mmap, i, done, ignoreOffsets)
        invariant Wrapped(before) ==> Wrapped(done + mmap[i..])
      {
        hide Merging, Wrapped, CanMerge;
        var prev, m := done[|done| - 1], mmap[i];
        if Sorted(mmap) { MergeNext(mmap, i, done, ignoreOffsets); }
        MergeWraps(done, mmap[i..], ignoreOffsets);
        if CanMerge(prev, m, ignoreOffsets) {
          done := done[..|done| - 1] + [prev.(end := m.end)];
        } else {
          done := done + [m];
        }
        i := i + 1;
      }
      assert done + mmap[i..] == done;
      mmap := done;
      if Sorted(before) {
        MergeEnd(before, done, ignoreOffsets);
        MergedApart(done, ignoreOffsets);
      }
    }

    /** The search of do_mmap: right for every length but that of the whole address space, for which
        the sum of address and length is zero and every address looks free. */
    method FindRange(len: nat) returns (ok: bool, addr: nat)
      requires 0 < len <= TASK_SIZE && forall i :: 0 <= i < |mmap| ==> AreaOk(mmap[i])
      ensures len < TASK_SIZE <==> FoundRight(mmap, len, ok, addr)
      ensures len == TASK_SIZE ==> ok && addr == SHM_RANGE_START
    {
      addr := SHM_RANGE_START;
      if len == TASK_SIZE {
        WholeSpace(mmap, addr);
      }
      while Add32(addr, len) < SHM_RANGE_END
        invariant SHM_RANGE_START <= addr <= TASK_SIZE && addr % PAGE_SIZE == 0
        invariant addr == SHM_RANGE_START || len < SHM_RANGE_END - SHM_RANGE_START
        invariant len < TASK_SIZE ==> NoneBelow(mmap, len, addr)
        decreases TASK_SIZE + 1 - addr
      {
        var i := 0;
        var hit := false;
        while i < |mmap| && !hit
          invariant 0 <= i <= |mmap|
          invariant !hit ==> forall j :: 0 <= j < i ==> addr >= mmap[j].end || Add32(addr, len) <= mmap[j].start
          invariant hit ==> i < |mmap| && addr < mmap[i].end && Add32(addr, len) > mmap[i].start
          decreases |mmap| - i, !hit
        {
          if addr >= mmap[i].end || Add32(addr, len) <= mmap[i].start {
            i := i + 1;
          } else {
            hit := true;
          }
        }
        if !hit {
          break;
        }
        Advance(mmap, len, addr, i);
        addr := PageAlign(mmap[i].end);
      }
      ok := Add32(addr, len) < SHM_RANGE_END;
    }

    /** do_mmap from the choice of the address on, for a mapping of at least one page whose arguments
        passed the checks. The list stays in order exactly when the sum of address and length does not wrap. */
    method DoMmap(fixed: bool, addr0: nat, len: nat, x: Area) returns (ok: bool, addr: nat)
      requires Sorted(mmap) && 0 < len && len % PAGE_SIZE == 0 && addr0 + len <= TASK_SIZE && x.offset < WORD
      requires fixed ==> addr0 % PAGE_SIZE == 0
      modifies this
      ensures !ok ==> mmap == old(mmap)
      ensures !ok <==> !fixed && len < TASK_SIZE && forall b: nat :: Page(b) && SHM_RANGE_START <= b && b + len < SHM_RANGE_END ==> !RangeFree(old(mmap), b, len)
      ensures ok ==> (Sorted(mmap) <==> fixed || len < TASK_SIZE)
      ensures ok && Sorted(mmap) ==> NeighboursApart(mmap, x.inode == 0)
      ensures ok && fixed ==> addr == addr0
      ensures ok && !fixed && len < TASK_SIZE ==> RangeFree(old(mmap), addr, len) && NoneBelow(old(mmap), len, addr)
      ensures ok && (fixed || len < TASK_SIZE) ==>
                addr + len <= TASK_SIZE && forall a: nat :: Lookup(mmap, a) == if addr <= a < addr + len then At(Over(x, addr, len), a) else Lookup(old(mmap), a)
    {
      if fixed {
        ok, addr := true, addr0;
      } else {
        ok, addr := FindRange(len);
        if !ok {
          return;
        }
      }
      AlignedSame(len);
      var _ := DoMunmap(addr, len);
      var y := x.(start := addr, end := Add32(addr, len));
      if fixed || len < TASK_SIZE {
        Unmapped(mmap, y);
        InsertSorted(mmap, y);
        forall a: nat { InsertLookup(mmap, y, a); }
      } else {
        InsertWraps(mmap, y);
      }
      InsertVmStruct(y);
      MergeSegments(x.inode == 0);
    }

    /** Moves every touched area from the list to the free list. */
    method TakeTouched(addr: nat, end: nat) returns (free: seq<Area>)
      requires Sorted(mmap) && addr < end
      modifies this
      ensures Working(old(mmap), mmap, free, addr, end)
    {
      hide Meaning;
      var kept, i := [], 0;
      free := [];
      TakeNone(mmap, addr, end);
      while i < |mmap|
        invariant 0 <= i <= |mmap| && mmap == old(mmap)
        invariant Taking(mmap, i, kept, free, addr, end)
      {
        TakeNext(mmap, i, kept, free, addr, end);
        if Touches(mmap[i], addr, end) {
          free := [mmap[i]] + free;
        } else {
          kept := kept + [mmap[i]];
        }
        i := i + 1;
      }
      assert mmap[..i] == mmap;
      mmap := kept;
    }

    method PutBack(touched: seq<Area>, addr: nat, end: nat, ghost before: seq<Area>)
      requires Working(before, mmap, touched, addr, end) && addr < end
      modifies this
      ensures Sorted(mmap)
      ensures forall a: nat :: Lookup(mmap, a) == if addr <= a < end then Nothing else Lookup(before, a)
    {
      hide Meaning, Sorted, ApartFrom, Apart, InsertAll, Rest;
      var free := touched;
      while free != []
        invariant Working(before, mmap, free, addr, end)
        decreases |free|
      {
        var x := free[0];
        var st := if addr < x.start then x.start else addr;
        var en := if end > x.end then x.end else end;
        FixupMeans(before, mmap, free, addr, end);
        UnmapFixup(x, st, en - st);
        free := free[1..];
      }
      NothingLeft(before, mmap, addr, end);
    }
  }

  lemma NothingLeft(before: seq<Area>, mmap: seq<Area>, addr: nat, end: nat)
    requires Working(before, mmap, [], addr, end)
    ensures forall a: nat :: Lookup(mmap, a) == if addr <= a < end then Nothing else Lookup(before, a)
  {
    forall a: nat
      ensures Lookup(mmap, a) == if addr <= a < end then Nothing else Lookup(before, a)
    {
      assert Meaning(before, mmap, [], addr, end, a);
    }
  }

  lemma TakeNone(areas: seq<Area>, addr: nat, end: nat)
    requires Sorted(areas) && addr < end
    ensures Taking(areas, 0, [], [], addr, end)
  {
    assert areas[..0] == [];
  }

  /** The area x as a mapping of [addr, addr + len). */
  function Over(x: Area, addr: nat, len: nat): Area { x.(start := addr, end := addr + len) }

  predicate Page(b: nat) { b % PAGE_SIZE == 0 }

  /** No area meets [addr, addr + len). */
  predicate RangeFree(areas: seq<Area>, addr: nat, len: nat) {
    forall i :: 0 <= i < |areas| ==> addr >= areas[i].end || addr + len <= areas[i].start
  }

  ghost predicate NoneBelow(areas: seq<Area>, len: nat, addr: nat) {
    forall b: nat :: Page(b) && SHM_RANGE_START <= b < addr ==> !RangeFree(areas, b, len)
  }

  /** What the search promises: the lowest free range in the window, or none if there is none. */
  ghost predicate FoundRight(areas: seq<Area>, len: nat, ok: bool, addr: nat) {
    if ok then
      && Page(addr) && SHM_RANGE_START <= addr && addr + len < SHM_RANGE_END
      && RangeFree(areas, addr, len) && NoneBelow(areas, len, addr)
    else
      forall b: nat :: Page(b) && SHM_RANGE_START <= b && b + len < SHM_RANGE_END ==> !RangeFree(areas, b, len)
  }

  lemma WholeSpace(areas: seq<Area>, addr: nat)
    requires addr == SHM_RANGE_START
    ensures Add32(addr, TASK_SIZE) == 0 && !FoundRight(areas, TASK_SIZE, true, addr)
  {
  }

  /** Every start up to the end of the area that is in the way meets that area. */
  lemma Advance(areas: seq<Area>, len: nat, addr: nat, i: nat)
    requires i < |areas| && AreaOk(areas[i]) && addr < areas[i].end && addr + len > areas[i].start
    requires addr % PAGE_SIZE == 0 && NoneBelow(areas, len, addr)
    ensures addr < PageAlign(areas[i].end) <= TASK_SIZE && NoneBelow(areas, len, PageAlign(areas[i].end))
  {
    var n := PageAlign(areas[i].end);
    forall b: nat | Page(b) && SHM_RANGE_START <= b < n
      ensures !RangeFree(areas, b, len)
    {
      if b >= addr {
        BelowAlign(b, areas[i].end);
        assert !(b >= areas[i].end || b + len <= areas[i].start);
      }
    }
  }

  lemma BelowAlign(b: nat, x: nat)
    requires b % PAGE_SIZE == 0 && b < PageAlign(x)
    ensures b < x
  {
  }

  lemma AlignedSame(len: nat)
    requires len % PAGE_SIZE == 0
    ensures PageAlign(len) == len
  {
  }

  /** Where nothing is mapped an area fits. */
  lemma Unmapped(areas: seq<Area>, y: Area)
    requires Sorted(areas) && y.start < y.end && forall a: nat :: Contains(y, a) ==> Lookup(areas, a) == Nothing
    ensures ApartFrom(areas, y)
  {
    forall i | 0 <= i < |areas|
      ensures Apart(areas[i], y)
    {
      if !Apart(areas[i], y) {
        var a := Max(areas[i].start, y.start);
        InsideMapped(areas, i, a);
      }
    }
  }

  lemma {:induction false} InsideMapped(areas: seq<Area>, i: nat, a: nat)
    requires i < |areas| && Contains(areas[i], a)
    ensures Lookup(areas, a) != Nothing
  {
    if !Contains(areas[0], a) { InsideMapped(areas[1..], i - 1, a); }
  }

  // ---------- merging ----------

  /** The test of merge_segments, with no merge function or with ignoff_mergep for no inode. */
  predicate CanMerge(p: Area, m: Area, ignoreOffsets: bool)
    requires p.start < WORD
  {
    && p.ops == m.ops && p.prot == m.prot && p.inode == m.inode && p.end == m.start && p.share == m.share
    && (if ignoreOffsets then p.inode == 0 else Add32(p.offset, Sub32(p.end, p.start)) == m.offset)
  }

  ghost predicate Merged(areas: seq<Area>, ignoreOffsets: bool) {
    forall i, j :: 0 <= i < j < |areas| && j == i + 1 ==> areas[i].start < WORD && !CanMerge(areas[i], areas[j], ignoreOffsets)
  }

  /** Area p would map the addresses of m, if it went on over them, to what m maps them to. */
  ghost predicate Continues(p: Area, m: Area)
    requires p.start <= m.start
  {
    forall a: nat :: Contains(m, a) ==> At(p.(end := m.end), a) == At(m, a)
  }

  /** What keeps two neighbours from being merged: a gap, a difference in what they map, or the rule about offsets. When
      offsets are ignored areas of files are left alone, and otherwise those of no file whose offsets do not run on. */
  ghost predicate StayApart(p: Area, m: Area, ignoreOffsets: bool)
    requires AreaOk(p) && p.end <= m.start
  {
    || p.end < m.start
    || !Continues(p, m)
    || (if ignoreOffsets then p.inode != 0 else p.inode == 0 && Add32(p.offset, p.end - p.start) != m.offset)
  }

  /** The fields that merge_segments compares decide exactly that. */
  lemma MergeIff(p: Area, m: Area, ignoreOffsets: bool)
    requires AreaOk(p) && AreaOk(m) && p.end <= m.start
    ensures CanMerge(p, m, ignoreOffsets) <==> !StayApart(p, m, ignoreOffsets)
  {
    if p.end == m.start {
      assert Contains(m, m.start);
      if CanMerge(p, m, ignoreOffsets) {
        forall a: nat | Contains(m, a)
          ensures At(p.(end := m.end), a) == At(m, a)
        {
          if !ignoreOffsets { AddMore(p.offset, p.end - p.start, a - m.start); }
        }
      }
    }
  }

  ghost predicate NeighboursApart(areas: seq<Area>, ignoreOffsets: bool)
    requires Sorted(areas)
  {
    forall i, j :: 0 <= i < j < |areas| && j == i + 1 ==> StayApart(areas[i], areas[j], ignoreOffsets)
  }

  lemma MergedApart(areas: seq<Area>, ignoreOffsets: bool)
    requires Sorted(areas) && Merged(areas, ignoreOffsets)
    ensures NeighboursApart(areas, ignoreOffsets)
  {
    hide StayApart, CanMerge;
    forall i, j | 0 <= i < j < |areas| && j == i + 1
      ensures StayApart(areas[i], areas[j], ignoreOffsets)
    {
      MergeIff(areas[i], areas[j], ignoreOffsets);
    }
  }

  ghost predicate Merging(areas: seq<Area>, i: nat, done: seq<Area>, ignoreOffsets: bool)
    requires i <= |areas|
  {
    && Sorted(areas) && Sorted(done) && Merged(done, ignoreOffsets)
    && (done != [] ==> forall j :: i <= j < |areas| ==> done[|done| - 1].end <= areas[j].start)
    && (forall a: nat :: Lookup(done, a) == Lookup(areas[..i], a))
  }

  lemma MergeStart(areas: seq<Area>, ignoreOffsets: bool)
    requires Sorted(areas) && areas != []
    ensures Merging(areas, 1, [areas[0]], ignoreOffsets)
  {
    assert areas[..1] == [areas[0]];
  }

  lemma MergeEnd(areas: seq<Area>, done: seq<Area>, ignoreOffsets: bool)
    requires Merging(areas, |areas|, done, ignoreOffsets)
    ensures forall a: nat :: Lookup(done, a) == Lookup(areas, a)
  {
    assert areas[..|areas|] == areas;
  }

  /** One merged area maps the same addresses to the same places as the two. */
  lemma MergedSame(p: Area, m: Area, ignoreOffsets: bool, a: nat)
    requires AreaOk(p) && AreaOk(m) && CanMerge(p, m, ignoreOffsets)
    ensures Lookup([p.(end := m.end)], a) == Lookup([p, m], a)
  {
    assert [p, m][1..] == [m];
    LookupOne(p.(end := m.end), a);
    LookupOne(m, a);
    if Contains(m, a) && !ignoreOffsets { AddMore(p.offset, p.end - p.start, a - m.start); }
  }

  lemma MergeNext(areas: seq<Area>, i: nat, done: seq<Area>, ignoreOffsets: bool)
    requires i < |areas| && done != [] && Merging(areas, i, done, ignoreOffsets)
    ensures var p, m := done[|done| - 1], areas[i];
            && p.start < WORD
            && (if CanMerge(p, m, ignoreOffsets) then Merging(areas, i + 1, done[..|done| - 1] + [p.(end := m.end)], ignoreOffsets)
                else Merging(areas, i + 1, done + [m], ignoreOffsets))
  {
    var n := |done| - 1;
    var p, m := done[n], areas[i];
    var both := CanMerge(p, m, ignoreOffsets);
    var done' := if both then done[..n] + [p.(end := m.end)] else done + [m];
    MergeShape(areas, i, done, ignoreOffsets, done');
    forall a: nat
      ensures Lookup(done', a) == Lookup(areas[..i + 1], a)
    {
      assert areas[..i + 1] == areas[..i] + [m];
      LookupConcat(areas[..i], [m], a);
      LookupConcat(done, [m], a);
      assert done == done[..n] + [p];
      if both {
        MergedSame(p, m, ignoreOffsets, a);
        assert done + [m] == done[..n] + [p, m];
        LookupConcat(done[..n], [p, m], a);
        LookupConcat(done[..n], [p.(end := m.end)], a);
      }
    }
  }

  lemma MergeShape(areas: seq<Area>, i: nat, done: seq<Area>, ignoreOffsets: bool, done': seq<Area>)
    requires i < |areas| && done != [] && Sorted(areas) && Sorted(done) && Merged(done, ignoreOffsets)
    requires forall j :: i <= j < |areas| ==> done[|done| - 1].end <= areas[j].start
    requires var p, m := done[|done| - 1], areas[i];
             done' == if CanMerge(p, m, ignoreOffsets) then done[..|done| - 1] + [p.(end := m.end)] else done + [m]
    ensures Sorted(done') && Merged(done', ignoreOffsets)
    ensures done' != [] && forall j :: i + 1 <= j < |areas| ==> done'[|done'| - 1].end <= areas[j].start
  {
    hide CanMerge, Merged;
    ShapeMerged(done, areas[i], ignoreOffsets, done');
  }

  lemma ShapeMerged(done: seq<Area>, m: Area, ignoreOffsets: bool, done': seq<Area>)
    requires done != [] && Sorted(done) && Merged(done, ignoreOffsets)
    requires AreaOk(m) && done[|done| - 1].end <= m.start
    requires var p := done[|done| - 1];
             done' == if CanMerge(p, m, ignoreOffsets) then done[..|done| - 1] + [p.(end := m.end)] else done + [m]
    ensures Merged(done', ignoreOffsets)
  {
    var n := |done| - 1;
    assert forall i :: 0 <= i < n ==> done'[i] == done[i];
  }

  /** An area whose end has wrapped to zero, with none that starts at zero after it. */
  predicate WrapsAt(areas: seq<Area>, i: nat)
    requires i < |areas|
  {
    areas[i].end == 0 && forall j :: i < j < |areas| ==> areas[j].start > 0
  }

  predicate Wrapped(areas: seq<Area>) { exists i :: 0 <= i < |areas| && WrapsAt(areas, i) }

  lemma InsertWraps(areas: seq<Area>, y: Area)
    requires Sorted(areas) && y.start < WORD && y.end == 0
    ensures Wrapped(Inserted(areas, y))
    ensures forall i :: 0 <= i < |Inserted(areas, y)| ==> Inserted(areas, y)[i].start < WORD
  {
    var i, r := Place(areas, y), Inserted(areas, y);
    assert forall j :: 0 <= j < |r| ==> r[j] == if j < i then areas[j] else if j == i then y else areas[j - 1];
    assert forall j :: i < j < |areas| ==> areas[i].end <= areas[j].start;
    assert WrapsAt(r, i);
  }

  /** Merging the last area done with the first one to do keeps the wrapped one. */
  lemma MergeWraps(done: seq<Area>, todo: seq<Area>, ignoreOffsets: bool)
    requires done != [] && todo != [] && done[|done| - 1].start < WORD
    ensures var p, m := done[|done| - 1], todo[0];
            var done' := if CanMerge(p, m, ignoreOffsets) then done[..|done| - 1] + [p.(end := m.end)] else done + [m];
            Wrapped(done + todo) ==> Wrapped(done' + todo[1..])
  {
    var n, p, m := |done| - 1, done[|done| - 1], todo[0];
    var both := CanMerge(p, m, ignoreOffsets);
    var done' := if both then done[..n] + [p.(end := m.end)] else done + [m];
    var all, all' := done + todo, done' + todo[1..];
    if Wrapped(all) {
      var k :| 0 <= k < |all| && WrapsAt(all, k);
      if both {
        assert all[n] == p && all[n + 1] == m;
        assert forall j :: 0 <= j < n ==> all'[j] == all[j];
        assert forall j :: n < j < |all'| ==> all'[j] == all[j + 1];
        assert all'[n] == p.(end := m.end);
        var k' := if k <= n then k else k - 1;
        assert WrapsAt(all', k');
      } else {
        assert all' == all;
      }
    }
  }

  function InsertAll(mmap: seq<Area>, rest: seq<Area>): seq<Area>
    decreases |rest|
  {
    if rest == [] then mmap else InsertAll(Inserted(mmap, rest[0]), rest[1..])
  }

  lemma InsertOne(mmap: seq<Area>, x: Area)
    ensures InsertAll(mmap, [x]) == Inserted(mmap, x)
  {
    assert [x][1..] == [];
  }

  lemma InsertTwo(mmap: seq<Area>, x: Area, y: Area)
    ensures InsertAll(mmap, [x, y]) == Inserted(Inserted(mmap, x), y)
  {
    assert [x, y][1..] == [y];
    InsertOne(Inserted(mmap, x), y);
  }

  lemma {:induction false} InsertAllMeans(mmap: seq<Area>, rest: seq<Area>, a: nat)
    requires Sorted(mmap) && forall i :: 0 <= i < |rest| ==> AreaOk(rest[i]) && ApartFrom(mmap, rest[i])
    requires forall i, j :: 0 <= i < j < |rest| ==> Apart(rest[i], rest[j])
    ensures Sorted(InsertAll(mmap, rest))
    ensures Lookup(InsertAll(mmap, rest), a) == if Lookup(rest, a) != Nothing then Lookup(rest, a) else Lookup(mmap, a)
    decreases |rest|
  {
    if rest != [] {
      var m := Inserted(mmap, rest[0]);
      InsertSorted(mmap, rest[0]);
      InsertLookup(mmap, rest[0], a);
      forall i | 0 <= i < |rest[1..]|
        ensures AreaOk(rest[1..][i]) && ApartFrom(m, rest[1..][i])
      {
        InsertApart(mmap, rest[0], rest[i + 1]);
      }
      InsertAllMeans(m, rest[1..], a);
      if Contains(rest[0], a) && Lookup(rest[1..], a) != Nothing {
        var i := LookupSome(rest[1..], a);
      }
    }
  }

  lemma {:induction false} InsertAllApart(mmap: seq<Area>, rest: seq<Area>, y: Area)
    requires ApartFrom(mmap, y) && forall i :: 0 <= i < |rest| ==> Apart(rest[i], y)
    ensures ApartFrom(InsertAll(mmap, rest), y)
    decreases |rest|
  {
    if rest != [] {
      InsertApart(mmap, rest[0], y);
      InsertAllApart(Inserted(mmap, rest[0]), rest[1..], y);
    }
  }

  /** Dealing with the first touched area. */
  lemma FixupMeans(before: seq<Area>, mmap: seq<Area>, free: seq<Area>, addr: nat, end: nat)
    requires Working(before, mmap, free, addr, end) && free != [] && addr < end
    ensures var x := free[0];
            var st, en := Max(addr, x.start), Min(end, x.end);
            && x.start <= st < en <= x.end
            && Working(before, InsertAll(mmap, Rest(x, st, en)), free[1..], addr, end)
  {
    var x := free[0];
    var st, en := Max(addr, x.start), Min(end, x.end);
    var rest, free' := Rest(x, st, en), free[1..];
    var m := InsertAll(mmap, rest);
    RestKeeps(x, st, en, 0);
    RestApart(mmap, x, st, en);
    InsertAllMeans(mmap, rest, 0);
    assert forall i :: 0 <= i < |free'| ==> free'[i] == free[i + 1];
    forall i | 0 <= i < |free'|
      ensures ApartFrom(m, free'[i])
    {
      assert Apart(x, free[i + 1]);
      InsertAllApart(mmap, rest, free'[i]);
    }
    forall a: nat
      ensures Meaning(before, m, free', addr, end, a)
    {
      assert Meaning(before, mmap, free, addr, end, a);
      FixupAt(before, mmap, free, addr, end, st, en, a);
    }
  }

  lemma RestApart(mmap: seq<Area>, x: Area, st: nat, en: nat)
    requires AreaOk(x) && x.start <= st < en <= x.end && ApartFrom(mmap, x)
    ensures forall i :: 0 <= i < |Rest(x, st, en)| ==> ApartFrom(mmap, Rest(x, st, en)[i])
    ensures forall i, j :: 0 <= i < j < |Rest(x, st, en)| ==> Apart(Rest(x, st, en)[i], Rest(x, st, en)[j])
  {
  }

  lemma FixupAt(before: seq<Area>, mmap: seq<Area>, free: seq<Area>, addr: nat, end: nat, st: nat, en: nat, a: nat)
    requires Sorted(mmap) && free != [] && AreaOk(free[0]) && ApartFrom(mmap, free[0])
    requires forall i :: 0 < i < |free| ==> Apart(free[0], free[i])
    requires st == Max(addr, free[0].start) && en == Min(end, free[0].end) && st < en
    requires Meaning(before, mmap, free, addr, end, a)
    ensures Meaning(before, InsertAll(mmap, Rest(free[0], st, en)), free[1..], addr, end, a)
  {
    var x := free[0];
    RestKeeps(x, st, en, a);
    RestApart(mmap, x, st, en);
    InsertAllMeans(mmap, Rest(x, st, en), a);
    DropFirst(free, x, free[1..], a);
    if Contains(x, a) { NotContained(mmap, x, a); }
  }

  /** The first loop of do_munmap after i areas. */
  ghost predicate Taking(areas: seq<Area>, i: nat, kept: seq<Area>, free: seq<Area>, addr: nat, end: nat)
    requires i <= |areas|
  {
    && Sorted(areas) && addr < end
    && Working(areas[..i], kept, free, addr, end)
    && (forall k, j :: 0 <= k < |kept| && i <= j < |areas| ==> kept[k].end <= areas[j].start)
    && (forall k, j :: 0 <= k < |free| && i <= j < |areas| ==> free[k].end <= areas[j].start)
  }

  lemma TakeNext(areas: seq<Area>, i: nat, kept: seq<Area>, free: seq<Area>, addr: nat, end: nat)
    requires i < |areas| && Taking(areas, i, kept, free, addr, end)
    ensures if Touches(areas[i], addr, end) then Taking(areas, i + 1, kept, [areas[i]] + free, addr, end)
            else Taking(areas, i + 1, kept + [areas[i]], free, addr, end)
  {
    hide Meaning, Touches, Working;
    var x := areas[i];
    TouchesIff(x, addr, end);
    var touched := Touches(x, addr, end);
    var before', kept', free' := areas[..i + 1], if touched then kept else kept + [x], if touched then [x] + free else free;
    TakeMeans(areas, i, kept, free, addr, end, before', kept', free');
    if touched {
      WorkingIn(areas[..i], before', kept, free, addr, end, x);
    } else {
      WorkingBy(areas[..i], before', kept, free, addr, end, x);
    }
  }

  lemma TakeMeans(areas: seq<Area>, i: nat, kept: seq<Area>, free: seq<Area>, addr: nat, end: nat,
                  before': seq<Area>, kept': seq<Area>, free': seq<Area>)
    requires i < |areas| && Taking(areas, i, kept, free, addr, end) && before' == areas[..i + 1]
    requires var touched := Touches(areas[i], addr, end);
             && kept' == (if touched then kept else kept + [areas[i]])
             && free' == (if touched then [areas[i]] + free else free)
    ensures forall a: nat :: Meaning(before', kept', free', addr, end, a)
  {
    hide Meaning, Touches;
    forall a: nat
      ensures Meaning(before', kept', free', addr, end, a)
    {
      assert Meaning(areas[..i], kept, free, addr, end, a);
      TakeAt(areas, i, kept, free, addr, end, a);
    }
  }

  /** A touched area above all others joins the free list. */
  lemma WorkingIn(before: seq<Area>, before': seq<Area>, kept: seq<Area>, free: seq<Area>, addr: nat, end: nat, x: Area)
    requires Working(before, kept, free, addr, end) && AreaOk(x) && x.start < end && addr < x.end
    requires forall k :: 0 <= k < |kept| ==> kept[k].end <= x.start
    requires forall k :: 0 <= k < |free| ==> free[k].end <= x.start
    requires forall a: nat :: Meaning(before', kept, [x] + free, addr, end, a)
    ensures Working(before', kept, [x] + free, addr, end)
  {
    hide Meaning;
  }

  /** One that is not touched stays behind the others. */
  lemma WorkingBy(before: seq<Area>, before': seq<Area>, kept: seq<Area>, free: seq<Area>, addr: nat, end: nat, x: Area)
    requires Working(before, kept, free, addr, end) && AreaOk(x)
    requires forall k :: 0 <= k < |kept| ==> kept[k].end <= x.start
    requires forall k :: 0 <= k < |free| ==> free[k].end <= x.start
    requires forall a: nat :: Meaning(before', kept + [x], free, addr, end, a)
    ensures Working(before', kept + [x], free, addr, end)
  {
    hide Meaning;
  }

  lemma TakeAt(areas: seq<Area>, i: nat, kept: seq<Area>, free: seq<Area>, addr: nat, end: nat, a: nat)
    requires i < |areas| && Sorted(areas) && addr < end
    requires Meaning(areas[..i], kept, free, addr, end, a)
    requires forall k :: 0 <= k < |kept| ==> kept[k].end <= areas[i].start
    requires forall k :: 0 <= k < |free| ==> free[k].end <= areas[i].start
    ensures var x := areas[i];
            if Touches(x, addr, end) then Meaning(areas[..i + 1], kept, [x] + free, addr, end, a)
            else Meaning(areas[..i + 1], kept + [x], free, addr, end, a)
  {
    var x := areas[i];
    TouchesIff(x, addr, end);
    assert areas[..i + 1] == areas[..i] + [x];
    LookupConcat(areas[..i], [x], a);
    LookupConcat([x], free, a);
    LookupConcat(kept, [x], a);
    LookupOne(x, a);
    if Contains(x, a) {
      LookupNone(areas[..i], a);
      LookupNone(kept, a);
      LookupNone(free, a);
    }
  }

  lemma NotContained(mmap: seq<Area>, x: Area, a: nat)
    requires ApartFrom(mmap, x) && Contains(x, a)
    ensures Lookup(mmap, a) == Nothing
  {
    forall i | 0 <= i < |mmap|
      ensures !Contains(mmap[i], a)
    {
      assert Apart(mmap[i], x);
    }
    LookupNone(mmap, a);
  }

  lemma {:induction false} PlaceIs(areas: seq<Area>, x: Area, i: nat)
    requires i <= |areas| && (forall j :: 0 <= j < i ==> areas[j].start <= x.start) && (i < |areas| ==> areas[i].start > x.start)
    ensures Place(areas, x) == i
  {
  }
}
