/** The operations of linux/mm/memory.c and linux/mm/swap.c that update page tables and counts in
    place, proved against the steps of CowSwap, and the two allocators beneath them. */
module MemoryManager {
  import opened CowSwap

  /** What holds whatever goes wrong: everything names frames and slots that exist, and locks are held by one task each. */
  ghost predicate Sound(s: State) {
    Sizes(s) && LocksOk(s.locks, s.cells) && forall p :: p in s.cells ==> Fits(s, p)
  }

  class Vm {
    var memMap: seq<nat>
    var frames: seq<Page>
    var swapMap: seq<nat>
    var swap: seq<Page>
    var locks: map<nat, Place>
    var cells: map<Place, Cell>

    ghost function Abs(): State reads this { State(memMap, frames, swapMap, swap, locks, cells) }

    ghost predicate Valid() reads this { Inv(Abs()) }

    constructor (nf: nat, ns: nat)
      ensures Abs() == Init(nf, ns) && Valid()
    {
      memMap, frames := seq(nf, i => 0), seq(nf, i => ZeroPage());
      swapMap, swap := seq(ns, i => 0), seq(ns, i => ZeroPage());
      locks, cells := map[], map[];
      new;
      InitInv(nf, ns);
    }

    /** free_page for the counts: a page that is free already is left alone. */
    method FreeFrameRef(f: nat)
      requires f < |memMap|
      modifies this`memMap
      ensures memMap == FreePage(old(memMap), f)
    {
      if memMap[f] > 0 {
        memMap := memMap[f := memMap[f] - 1];
      }
    }

    /** The body of the inner loop of copy_page_tables. */
    method CopyEntry(parent: nat, child: nat, v: nat)
      requires Possible(Abs(), ForkPage(parent, child, v))
      modifies this
      ensures Abs() == Next(old(Abs()), ForkPage(parent, child, v))
    {
      var from, to := Entry(Addr(parent, v)), Entry(Addr(child, v));
      if from !in cells { return; }
      var pg := cells[from];
      if pg.Swapped? {
        if swapMap[pg.slot] == 0 { return; }
        swapMap := swapMap[pg.slot := swapMap[pg.slot] + 1];
        cells := cells[to := pg];
      } else {
        pg := pg.(rw := false);
        cells := cells[to := pg];
        cells := cells[from := pg];
        memMap := memMap[pg.frame := memMap[pg.frame] + 1];
      }
    }

    /** copy_page_tables over the first n pages: the child sees what the parent sees, and nobody else
        sees a difference. */
    method CopyPageTables(parent: nat, child: nat, n: nat)
      requires Valid() && parent != child
      requires forall v :: 0 <= v < n ==> Entry(Addr(child, v)) !in cells
      modifies this
      ensures Valid()
      ensures forall b :: View(Abs(), b) == if b.space == child && b.page < n then old(View(Abs(), Addr(parent, b.page))) else old(View(Abs(), b))
    {
      hide Inv, View;
      var v := 0;
      while v < n
        invariant v <= n && Valid()
        invariant forall u :: v <= u < n ==> Entry(Addr(child, u)) !in cells
        invariant forall b :: View(Abs(), b) == if b.space == child && b.page < v then old(View(Abs(), Addr(parent, b.page))) else old(View(Abs(), b))
      {
        ghost var s := Abs();
        ghost var l := ForkPage(parent, child, v);
        ForkPossible(s, l);
        StepCorrect(s, l);
        ForkEmpty(s, l);
        CopyEntry(parent, child, v);
        v := v + 1;
      }
    }

    /** rw_swap_page at the end of a write, and the free_page of try_to_swap_out after it. */
    method WriteEnded(w: nat)
      requires Sound(Abs()) && Writer(w) in cells && HasLock(Abs(), Writer(w), cells[Writer(w)].slot)
      modifies this
      ensures Possible(old(Abs()), SwapOutDone(w)) && Abs() == Next(old(Abs()), SwapOutDone(w)) && Sound(Abs())
      ensures old(Valid()) ==> Valid() && forall b :: View(Abs(), b) == old(View(Abs(), b))
    {
      hide Inv, View, OneWriter, LocksOk;
      ghost var s := Abs();
      var c := cells[Writer(w)];
      assert Fits(s, Writer(w));
      WriteSound(s, w);
      if Valid() { StepCorrect(s, SwapOutDone(w)); }
      swap := swap[c.slot := frames[c.frame]];
      locks := locks - {c.slot};
      cells := cells - {Writer(w)};
      FreeFrameRef(c.frame);
    }

    /** swap_in from the end of the transfer on: the lock is given up, and if the entry has not changed the page is put in and
        the slot given up. */
    method SwapInRead(t: nat)
      requires Sound(Abs()) && Sleeper(t) in cells && cells[Sleeper(t)].ReadIn?
      modifies this
      ensures Possible(old(Abs()), ReadDone(t)) && Abs() == Next(old(Abs()), ReadDone(t)) && Sound(Abs())
      ensures old(Valid()) ==> (Valid() <==> Spared(old(Abs()), ReadDone(t)))
      ensures old(Valid()) ==> ((forall b :: View(Abs(), b) == old(View(Abs(), b))) <==> ViewsKept(old(Abs()), ReadDone(t)))
      ensures old(Valid()) && old(Unchanged(Abs(), cells[Sleeper(t)])) ==> Writable(Abs(), old(cells)[Sleeper(t)].a)
    {
      hide Inv, View, OneWriter, LocksOk, Spared, ViewsKept;
      ghost var s := Abs();
      var c := cells[Sleeper(t)];
      assert Fits(s, Sleeper(t));
      ReadSound(s, t);
      if Valid() {
        ReadEnds(s, t);
        if Unchanged(s, c) { FaultServes(s, ReadDone(t), c.a); }
      }
      locks := locks - {c.slot};
      cells := cells - {Sleeper(t)};
      if Entry(c.a) !in cells || cells[Entry(c.a)] != Swapped(c.slot) {
        FreeFrameRef(c.frame);
      } else {
        cells := cells[Entry(c.a) := Present(c.frame, true, true, true)];
        FreeSlotRef(c.slot);
      }
    }

    /** swap_free once it has the lock: a slot that is free already is left alone. */
    method FreeSlotRef(x: nat)
      requires x < |swapMap|
      modifies this`swapMap
      ensures swapMap == FreeSlot(old(swapMap), x)
    {
      if swapMap[x] != 0 {
        swapMap := swapMap[x := swapMap[x] - 1];
      }
    }

    /** The wait in swap_free for the lock of a slot, which whoever reads or writes there holds until the transfer is over. */
    method WaitOnSlot(x: nat)
      requires Sound(Abs())
      modifies this
      ensures Sound(Abs()) && x !in locks
      ensures forall p: Place :: p.Entry? ==> (p in cells <==> p in old(cells))
      ensures forall p :: p in cells && !p.Entry? ==> p in old(cells) && cells[p] == old(cells)[p]
      ensures forall p :: p in old(cells) && old(cells)[p].Releasing? ==> p in cells && cells[p] == old(cells)[p]
      ensures old(Valid() && Calm(Abs())) ==> Valid() && Calm(Abs()) && forall b :: View(Abs(), b) == old(View(Abs(), b))
    {
      hide Inv, View, OneWriter;
      ghost var s := Abs();
      if x in locks {
        var p := locks[x];
        assert Busy(cells, p) && Fits(s, p);
        hide LocksOk, Calm, Sound;
        if cells[p].Writing? {
          WriteEnded(p.task);
        } else {
          SwapInRead(p.task);
          if Inv(s) && Calm(s) { CalmRead(s, p.task); }
        }
        if Calm(s) { CalmLess(s, Abs(), x, p); }
      }
    }

    /** free_one_table for one entry, which is cleared before swap_free waits for the lock of its slot. With no write waiting
        for a lock, as it is with one task in each address space, everything stays in order and nobody else notices. */
    method FreeEntry(t: nat, a: Addr)
      requires Sound(Abs()) && Idle(Abs(), t)
      modifies this
      ensures Sound(Abs()) && Idle(Abs(), t) && Entry(a) !in cells
      ensures forall p: Place :: p.Entry? && p != Entry(a) ==> (p in cells <==> p in old(cells))
      ensures old(Valid() && Calm(Abs())) ==> Valid() && Calm(Abs())
      ensures old(Valid() && Calm(Abs())) ==> forall b :: View(Abs(), b) == if b == a then ZeroPage() else old(View(Abs(), b))
    {
      hide Inv, View, Sound, Calm, Next, Possible;
      ghost var s := Abs();
      if Entry(a) !in cells {
        EmptyReads(s, a);
        return;
      }
      var pg := cells[Entry(a)];
      UnmapSound(s, t, a);
      if Inv(s) && Calm(s) { UnmapFine(s, t, a); }
      cells := cells - {Entry(a)};
      if pg.Present? {
        FreeFrameRef(pg.frame);
      } else if pg.slot !in locks {
        FreeSlotRef(pg.slot);
      } else {
        cells := cells[Sleeper(t) := Releasing(pg.slot)];
        WaitOnSlot(pg.slot);
        SwapFreeAwake(t);
      }
    }

    /** swap_free from the time that it has the lock on. */
    method SwapFreeAwake(t: nat)
      requires Sound(Abs()) && Sleeper(t) in cells && cells[Sleeper(t)].Releasing? && cells[Sleeper(t)].slot !in locks
      modifies this
      ensures Possible(old(Abs()), ReleaseDone(t)) && Abs() == Next(old(Abs()), ReleaseDone(t)) && Sound(Abs())
      ensures cells == old(cells) - {Sleeper(t)}
      ensures old(Valid()) ==> (Valid() <==> Spared(old(Abs()), ReleaseDone(t))) && forall b :: View(Abs(), b) == old(View(Abs(), b))
      ensures old(Valid() && Calm(Abs())) ==> Valid() && Calm(Abs())
    {
      hide Inv, View, LocksOk, Calm;
      ghost var s := Abs();
      assert Fits(s, Sleeper(t));
      ReleaseSound(s, t);
      if Inv(s) {
        StepCorrect(s, ReleaseDone(t));
        if Calm(s) { ReleaseFine(s, t); }
      }
      FreeSlotRef(cells[Sleeper(t)].slot);
      cells := cells - {Sleeper(t)};
    }

    /** free_page_tables: every page of the space is gone, and with no write waiting for a lock no other space notices, and all
        counts still equal the references that remain. */
    method FreePageTables(t: nat, space: nat, n: nat)
      requires Sound(Abs()) && Idle(Abs(), t)
      modifies this
      ensures Sound(Abs()) && Idle(Abs(), t)
      ensures forall v :: 0 <= v < n ==> Entry(Addr(space, v)) !in cells
      ensures old(Valid() && Calm(Abs())) ==> Valid() && Calm(Abs())
      ensures old(Valid() && Calm(Abs())) ==>
                forall b :: View(Abs(), b) == if b.space == space && b.page < n then ZeroPage() else old(View(Abs(), b))
    {
      hide Inv, View, Sound, Calm;
      var v := 0;
      while v < n
        invariant v <= n && Sound(Abs()) && Idle(Abs(), t)
        invariant forall u :: 0 <= u < v ==> Entry(Addr(space, u)) !in cells
        invariant old(Valid() && Calm(Abs())) ==> Valid() && Calm(Abs())
        invariant old(Valid() && Calm(Abs())) ==>
                    forall b :: View(Abs(), b) == if b.space == space && b.page < v then ZeroPage() else old(View(Abs(), b))
      {
        FreeEntry(t, Addr(space, v));
        v := v + 1;
      }
    }

    /** get_empty_page from the return of its allocation on: put_page writes the entry whatever it holds, and the
        memory is in order afterwards if and only if the entry was empty. */
    method PutPage(t: nat)
      requires Valid() && Sleeper(t) in cells && cells[Sleeper(t)].Filling?
      modifies this
      ensures Abs() == Next(old(Abs()), FillDone(t))
      ensures Valid() <==> old(Entry(cells[Sleeper(t)].a) !in cells)
      ensures Valid() ==> forall b :: View(Abs(), b) == old(View(Abs(), b))
      ensures Writable(Abs(), old(cells)[Sleeper(t)].a)
    {
      hide Inv, View;
      ghost var s := Abs();
      StepCorrect(s, FillDone(t));
      FaultServes(s, FillDone(t), cells[Sleeper(t)].a);
      var a, page := cells[Sleeper(t)].a, cells[Sleeper(t)].frame;
      cells := cells - {Sleeper(t)};
      if Entry(a) in cells {
        cells := cells - {Entry(a)};
      }
      cells := cells[Entry(a) := Present(page, true, false, true)];
      assert cells == (s.cells - {Sleeper(t)})[Entry(a) := Present(page, true, false, true)];
    }

    /** do_wp_page: nothing to do, take over an unshared page, or go to sleep allocating a copy
        (f is the frame that allocation returns). */
    method DoWpPage(t: nat, a: Addr, f: nat)
      requires Valid() && Idle(Abs(), t) && FreeFrame(Abs(), f)
      modifies this
      ensures Valid() && forall b :: View(Abs(), b) == old(View(Abs(), b))
      ensures if !old(IsPresent(Abs(), a)) || old(cells)[Entry(a)].rw then Abs() == old(Abs())
              else if Possible(old(Abs()), WpOwn(a)) then Abs() == Next(old(Abs()), WpOwn(a))
              else Possible(old(Abs()), CopyStart(t, a, f)) && Abs() == Next(old(Abs()), CopyStart(t, a, f))
      ensures old(IsPresent(Abs(), a)) ==> Writable(Abs(), a) || (Sleeper(t) in cells && cells[Sleeper(t)] == Copying(a, f))
    {
      hide Inv, View;
      ghost var s := Abs();
      if Entry(a) !in cells { return; }
      if IsPresent(s, a) { PresentFramed(s, a); }
      var page := cells[Entry(a)];
      if !page.Present? || page.rw { return; }
      FrameCounted(s, Entry(a), page.frame);
      if memMap[page.frame] == 1 {
        StepCorrect(s, WpOwn(a));
        FaultServes(s, WpOwn(a), a);
        cells := cells[Entry(a) := page.(rw := true, dirty := true)];
      } else {
        StepCorrect(s, CopyStart(t, a, f));
        memMap := memMap[f := 1];
        cells := cells[Sleeper(t) := Copying(a, f)];
      }
    }

    /** __do_wp_page from the return of its allocation on. */
    method WpPageAllocated(t: nat)
      requires Valid() && Sleeper(t) in cells && cells[Sleeper(t)].Copying?
      modifies this
      ensures Valid() && forall b :: View(Abs(), b) == old(View(Abs(), b))
      ensures Possible(old(Abs()), CopyDone(t)) && Abs() == Next(old(Abs()), CopyDone(t))
      ensures var a := old(cells)[Sleeper(t)].a; old(IsPresent(Abs(), a)) ==> Writable(Abs(), a)
    {
      hide Inv, View;
      ghost var s := Abs();
      CopyPossible(s, t);
      StepCorrect(s, CopyDone(t));
      if IsPresent(s, cells[Sleeper(t)].a) { FaultServes(s, CopyDone(t), cells[Sleeper(t)].a); }
      var a, newPage := cells[Sleeper(t)].a, cells[Sleeper(t)].frame;
      cells := cells - {Sleeper(t)};
      if Entry(a) !in cells || !cells[Entry(a)].Present? || cells[Entry(a)].rw {
        FreeFrameRef(newPage);
        return;
      }
      var oldPage := cells[Entry(a)];
      if memMap[oldPage.frame] != 1 {
        frames := frames[newPage := frames[oldPage.frame]];
        cells := cells[Entry(a) := oldPage.(frame := newPage, rw := true)];
        FreeFrameRef(oldPage.frame);
      } else {
        cells := cells[Entry(a) := oldPage.(rw := true)];
        FreeFrameRef(newPage);
      }
    }

    /** The part of try_to_swap_out that gives a dirty page a swap slot. */
    method SendToSwap(w: nat, a: Addr, x: nat)
      requires Valid() && Possible(Abs(), SwapOut(w, a, x))
      modifies this
      ensures Valid() && Abs() == Next(old(Abs()), SwapOut(w, a, x))
      ensures forall b :: View(Abs(), b) == old(View(Abs(), b))
    {
      hide Inv, View;
      StepCorrect(Abs(), SwapOut(w, a, x));
      var page := cells[Entry(a)];
      swapMap := swapMap[x := 1];
      cells := cells[Entry(a) := Swapped(x)];
      cells := cells[Writer(w) := Writing(x, page.frame)];
      if x !in locks {
        locks := locks[x := Writer(w)];
      }
    }

    /** The part of try_to_swap_out that drops a clean page. */
    method DropClean(a: Addr)
      requires Valid() && Possible(Abs(), Forget(a))
      modifies this
      ensures Valid() && Abs() == Next(old(Abs()), Forget(a))
      ensures forall b :: View(Abs(), b) == old(View(Abs(), b))
    {
      StepCorrect(Abs(), Forget(a));
      var page := cells[Entry(a)];
      cells := cells - {Entry(a)};
      memMap := memMap[page.frame := memMap[page.frame] - 1];
    }

    method ClearAccessed(a: Addr)
      requires Valid() && Possible(Abs(), Age(a))
      modifies this
      ensures Valid() && Abs() == Next(old(Abs()), Age(a))
      ensures forall b :: View(Abs(), b) == old(View(Abs(), b))
    {
      StepCorrect(Abs(), Age(a));
      cells := cells[Entry(a) := cells[Entry(a)].(accessed := false)];
    }

    /** try_to_swap_out, by task w, of the entry at a up to its write; x is the slot that get_swap_page offers, if any, and `recent` the
        frames that were freed last. Whatever it decides, no process sees a difference. */
    method TryToSwapOut(w: nat, a: Addr, x: nat, haveSlot: bool, recent: set<nat>) returns (freed: bool)
      requires Valid() && Writer(w) !in cells && (haveSlot ==> x < |swapMap| && swapMap[x] == 0)
      modifies this
      ensures Valid() && forall b :: View(Abs(), b) == old(View(Abs(), b))
      ensures freed <==>
                && old(Entry(a) in cells && cells[Entry(a)].Present? && cells[Entry(a)].frame !in recent)
                && (Possible(old(Abs()), Forget(a)) || (haveSlot && Possible(old(Abs()), SwapOut(w, a, x))))
    {
      freed := false;
      if Entry(a) !in cells || !cells[Entry(a)].Present? { return; }
      var page := cells[Entry(a)];
      FrameCounted(Abs(), Entry(a), page.frame);
      if page.accessed {
        ClearAccessed(a);
      } else if page.frame in recent {
        return;
      } else if page.dirty {
        if memMap[page.frame] != 1 || !haveSlot { return; }
        SendToSwap(w, a, x);
        freed := true;
      } else {
        DropClean(a);
        freed := true;
      }
    }
  }

  lemma ForkPossible(s: State, l: Step)
    requires Inv(s) && l.ForkPage? && l.parent != l.child && Entry(Addr(l.child, l.page)) !in s.cells
    ensures Possible(s, l)
  {
    var p := Entry(Addr(l.parent, l.page));
    if p in s.cells {
      if s.cells[p].Present? { FrameCounted(s, p, s.cells[p].frame); }
    }
  }

  lemma UnmapPossible(s: State, t: nat, a: Addr)
    requires Inv(s) && Idle(s, t)
    ensures Possible(s, Unmap(t, a))
  {
    if Entry(a) in s.cells { PlaceRight(s, Entry(a)); }
    if IsPresent(s, a) { FrameCounted(s, Entry(a), s.cells[Entry(a)].frame); }
  }

  lemma EmptyReads(s: State, a: Addr)
    requires Entry(a) !in s.cells
    ensures View(s, a) == ZeroPage()
  {
  }

  /** A place that keeps its cell, or an entry that gets a page, still names what exists. */
  lemma FitsLess(s: State, s': State)
    requires Sizes(s) && forall p :: p in s.cells ==> Fits(s, p)
    requires |s'.memMap| == |s.memMap| && |s'.frames| == |s.frames| && |s'.swapMap| == |s.swapMap| && |s'.swap| == |s.swap|
    requires forall p :: p in s'.cells ==> (p in s.cells && s'.cells[p] == s.cells[p]) || (p.Entry? && s'.cells[p].Present? && s'.cells[p].frame < |s.memMap|)
    ensures Sizes(s') && forall p :: p in s'.cells ==> Fits(s', p)
  {
    forall p | p in s'.cells
      ensures Fits(s', p)
    {
      if p in s.cells { assert Fits(s, p); }
    }
  }

  lemma WriteSound(s: State, w: nat)
    requires Sound(s) && Possible(s, SwapOutDone(w))
    ensures Sound(Next(s, SwapOutDone(w)))
  {
    hide LocksOk;
    WriterLeaves(s.locks, s.cells, Writer(w));
    FitsLess(s, Next(s, SwapOutDone(w)));
  }

  lemma ReadSound(s: State, t: nat)
    requires Sound(s) && Possible(s, ReadDone(t))
    ensures Sound(Next(s, ReadDone(t)))
  {
    hide LocksOk;
    ReaderLeaves(s.locks, s.cells, Sleeper(t), Next(s, ReadDone(t)).cells);
    FitsLess(s, Next(s, ReadDone(t)));
  }

  lemma ReleaseSound(s: State, t: nat)
    requires Sound(s) && Possible(s, ReleaseDone(t))
    ensures Sound(Next(s, ReleaseDone(t)))
  {
    hide LocksOk;
    LocksKept(s.locks, s.cells, s.cells - {Sleeper(t)});
    FitsLess(s, Next(s, ReleaseDone(t)));
  }

  /** Clearing an entry, with what it named given up or somebody asleep who will. */
  lemma UnmapSound(s: State, t: nat, a: Addr)
    requires Sound(s) && Idle(s, t) && Entry(a) in s.cells
    ensures var c, cells := s.cells[Entry(a)], s.cells - {Entry(a)};
            && (c.Present? || c.Swapped?) && (c.Present? ==> c.frame < |s.memMap|) && (c.Swapped? ==> c.slot < |s.swapMap|)
            && (c.Present? ==> Sound(s.(memMap := FreePage(s.memMap, c.frame), cells := cells)))
            && (c.Swapped? ==> Sound(s.(swapMap := FreeSlot(s.swapMap, c.slot), cells := cells)))
            && (c.Swapped? ==> Sound(s.(cells := cells[Sleeper(t) := Releasing(c.slot)])))
  {
    hide LocksOk;
    var c, cells := s.cells[Entry(a)], s.cells - {Entry(a)};
    assert Fits(s, Entry(a));
    LocksKept(s.locks, s.cells, cells);
    var s1 := s.(cells := cells);
    FitsLess(s, s1);
    if c.Present? { FitsLess(s, s.(memMap := FreePage(s.memMap, c.frame), cells := cells)); }
    if c.Swapped? {
      FitsLess(s, s.(swapMap := FreeSlot(s.swapMap, c.slot), cells := cells));
      SleeperSound(s1, t, c.slot);
    }
  }

  lemma SleeperSound(s: State, t: nat, x: nat)
    requires Sound(s) && Idle(s, t) && x < |s.swapMap|
    ensures Sound(s.(cells := s.cells[Sleeper(t) := Releasing(x)]))
  {
    hide LocksOk;
    var s' := s.(cells := s.cells[Sleeper(t) := Releasing(x)]);
    LocksKept(s.locks, s.cells, s'.cells);
    forall p | p in s'.cells
      ensures Fits(s', p)
    {
      if p in s.cells { assert Fits(s, p); }
    }
  }

  /** So does a read from it, with the effect that StepCorrect states. */
  lemma ReadEnds(s: State, t: nat)
    requires Inv(s) && Sleeper(t) in s.cells && s.cells[Sleeper(t)].ReadIn?
    ensures Possible(s, ReadDone(t)) && (Inv(Next(s, ReadDone(t))) <==> Spared(s, ReadDone(t)))
    ensures (forall b :: View(Next(s, ReadDone(t)), b) == View(s, b)) <==> ViewsKept(s, ReadDone(t))
  {
    hide View, Inv;
    PlaceRight(s, Sleeper(t));
    StepCorrect(s, ReadDone(t));
    assert Refines(s, ReadDone(t), Next(s, ReadDone(t))) <==> SameViews(s, Next(s, ReadDone(t)));
  }

  /** While somebody reads from a slot, no write to it is to come if no write waits. */
  lemma CalmRead(s: State, t: nat)
    requires Inv(s) && Calm(s) && Possible(s, ReadDone(t))
    ensures Spared(s, ReadDone(t)) && ViewsKept(s, ReadDone(t))
  {
    hide View;
    var x := s.cells[Sleeper(t)].slot;
    forall p | p in s.cells
      ensures !Writes(s.cells[p], x)
    {
      assert WritesAt(s, p) ==> s.cells[p].slot in s.locks && s.locks[s.cells[p].slot] == p;
    }
  }

  /** The holder of a lock leaves. */
  lemma CalmLess(s: State, s': State, x: nat, p: Place)
    requires Calm(s) && HasLock(s, p, x) && s'.locks == s.locks - {x}
    requires forall q :: WritesAt(s', q) ==> q != p && WritesAt(s, q) && s'.cells[q] == s.cells[q]
    ensures Calm(s')
  {
  }

  lemma CalmSame(s: State, s': State)
    requires Calm(s) && s'.locks == s.locks && forall q :: WritesAt(s', q) ==> WritesAt(s, q) && s'.cells[q] == s.cells[q]
    ensures Calm(s')
  {
  }

  /** Everything is in order, and nobody but the process at a notices. */
  ghost predicate Emptied(s: State, s': State, a: Addr) {
    Inv(s') && Calm(s') && forall b :: View(s', b) == if b == a then ZeroPage() else View(s, b)
  }

  lemma UnmapFine(s: State, t: nat, a: Addr)
    requires Inv(s) && Calm(s) && Idle(s, t) && Entry(a) in s.cells
    ensures var c, cells := s.cells[Entry(a)], s.cells - {Entry(a)};
            && (c.Present? ==> c.frame < |s.memMap| && Emptied(s, s.(memMap := FreePage(s.memMap, c.frame), cells := cells), a))
            && (c.Swapped? ==> c.slot < |s.swapMap|)
            && (c.Swapped? && c.slot !in s.locks ==> Emptied(s, s.(swapMap := FreeSlot(s.swapMap, c.slot), cells := cells), a))
            && (c.Swapped? && c.slot in s.locks ==> Emptied(s, s.(cells := cells[Sleeper(t) := Releasing(c.slot)]), a))
  {
    hide Inv, View, Calm;
    UnmapPossible(s, t, a);
    StepCorrect(s, Unmap(t, a));
    if IsSwapped(s, a) { CalmFree(s, s.cells[Entry(a)].slot); }
    CalmSame(s, Next(s, Unmap(t, a)));
  }

  lemma ReleaseFine(s: State, t: nat)
    requires Inv(s) && Calm(s) && Possible(s, ReleaseDone(t))
    ensures Inv(Next(s, ReleaseDone(t))) && Calm(Next(s, ReleaseDone(t)))
    ensures forall b :: View(Next(s, ReleaseDone(t)), b) == View(s, b)
  {
    hide Inv, View, Calm;
    StepCorrect(s, ReleaseDone(t));
    CalmFree(s, s.cells[Sleeper(t)].slot);
    CalmSame(s, Next(s, ReleaseDone(t)));
  }

  lemma CopyPossible(s: State, t: nat)
    requires Inv(s) && Sleeper(t) in s.cells && s.cells[Sleeper(t)].Copying?
    ensures Possible(s, CopyDone(t))
  {
    var c := s.cells[Sleeper(t)];
    assert LocalOk(s, Sleeper(t));
    if IsPresent(s, c.a) { FrameCounted(s, Entry(c.a), s.cells[Entry(c.a)].frame); }
  }

  /** Copying one entry disturbs no other entry of the child. */
  lemma ForkEmpty(s: State, l: Step)
    requires Inv(s) && l.ForkPage? && Possible(s, l)
    ensures forall a :: a != Addr(l.child, l.page) && Entry(a) !in s.cells ==> Entry(a) !in Next(s, l).cells
  {
  }

  // ---------- swap slots ----------

  function FreeSlots(m: seq<nat>): nat {
    if m == [] then 0 else (if m[0] == 0 then 1 else 0) + FreeSlots(m[1..])
  }

  lemma {:induction false} FreeSlotsUpdate(m: seq<nat>, i: nat, v: nat)
    requires i < |m|
    ensures FreeSlots(m[i := v]) == FreeSlots(m) - (if m[i] == 0 then 1 else 0) + (if v == 0 then 1 else 0)
  {
    if i > 0 {
      assert m[i := v][1..] == m[1..][i - 1 := v];
      FreeSlotsUpdate(m[1..], i - 1, v);
    } else {
      assert m[i := v][1..] == m[1..];
    }
  }

  /** One swap area: swap_map with the bounds that speed up the search. Slot 0 is never handed out. */
  class SwapArea {
    var swapMap: array<nat>
    var lowestBit: int
    var highestBit: int
    var nrSwapPages: int

    ghost predicate Valid()
      reads this, swapMap
    {
      && 0 <= lowestBit && highestBit < swapMap.Length
      && (forall i :: 0 <= i < swapMap.Length && swapMap[i] == 0 ==> lowestBit <= i <= highestBit)
      && nrSwapPages == FreeSlots(swapMap[..])
    }

    /** sys_swapon: slots marked bad (and slot 0) hold 0x80. */
    constructor (good: seq<bool>)
      requires good != []
      ensures Valid() && fresh(swapMap) && swapMap.Length == |good|
      ensures forall i :: 0 <= i < |good| ==> swapMap[i] == if i > 0 && good[i] then 0 else 0x80
    {
      var map' := new nat[|good|](i requires 0 <= i < |good| => if i > 0 && good[i] then 0 else 0x80);
      var lo, hi := 0, 0;
      var i := 1;
      while i < |good|
        invariant 1 <= i <= |good| && 0 <= lo <= hi < i
        invariant forall k :: 0 < k < i && good[k] ==> 0 < lo <= k <= hi
        invariant forall k :: 0 <= k < |good| ==> map'[k] == if k > 0 && good[k] then 0 else 0x80
      {
        if good[i] {
          if lo == 0 { lo := i; }
          hi := i;
        }
        i := i + 1;
      }
      swapMap, lowestBit, highestBit := map', lo, hi;
      nrSwapPages := FreeSlots(map'[..]);
    }

    /** get_swap_page: the lowest free slot, and failure only when there is none. */
    method GetSwapPage() returns (slot: int)
      requires Valid()
      modifies this, swapMap
      ensures Valid() && swapMap == old(swapMap)
      ensures slot < 0 <==> forall i :: 0 <= i < swapMap.Length ==> old(swapMap[i]) != 0
      ensures slot < 0 ==> swapMap[..] == old(swapMap[..])
      ensures slot >= 0 ==>
                && slot < swapMap.Length && old(swapMap[slot]) == 0
                && (forall i :: 0 <= i < slot ==> old(swapMap[i]) != 0)
                && swapMap[..] == old(swapMap[..])[slot := 1]
                && nrSwapPages == old(nrSwapPages) - 1
    {
      var offset := lowestBit;
      while offset <= highestBit
        invariant lowestBit <= offset
        invariant forall i :: lowestBit <= i < offset && i < swapMap.Length ==> swapMap[i] != 0
        invariant Valid() && swapMap == old(swapMap) && swapMap[..] == old(swapMap[..])
        invariant lowestBit == old(lowestBit) && highestBit == old(highestBit) && nrSwapPages == old(nrSwapPages)
      {
        if swapMap[offset] == 0 {
          FreeSlotsUpdate(swapMap[..], offset, 1);
          swapMap[offset] := 1;
          assert swapMap[..] == old(swapMap[..])[offset := 1];
          nrSwapPages := nrSwapPages - 1;
          if offset == highestBit { highestBit := highestBit - 1; }
          lowestBit := offset;
          return offset;
        }
        offset := offset + 1;
      }
      return -1;
    }

    /** swap_duplicate; a slot that is out of range or free is refused. */
    method SwapDuplicate(offset: nat) returns (ok: bool)
      requires Valid()
      modifies swapMap
      ensures Valid() && (ok <==> offset < swapMap.Length && old(swapMap[..])[offset] != 0)
      ensures swapMap[..] == if ok then old(swapMap[..])[offset := old(swapMap[offset]) + 1] else old(swapMap[..])
    {
      if offset >= swapMap.Length || swapMap[offset] == 0 { return false; }
      FreeSlotsUpdate(swapMap[..], offset, swapMap[offset] + 1);
      ghost var was := swapMap[..];
      swapMap[offset] := swapMap[offset] + 1;
      assert swapMap[..] == was[offset := was[offset] + 1];
      return true;
    }

    /** swap_free: the bounds widen to the slot, and its count drops unless it was already free. */
    method SwapFree(offset: nat)
      requires Valid()
      modifies this, swapMap
      ensures Valid() && swapMap == old(swapMap)
      ensures swapMap[..] == if offset < swapMap.Length && old(swapMap[..])[offset] > 0
                             then old(swapMap[..])[offset := old(swapMap[offset]) - 1] else old(swapMap[..])
    {
      if offset >= swapMap.Length { return; }
      if offset < lowestBit { lowestBit := offset; }
      if offset > highestBit { highestBit := offset; }
      if swapMap[offset] != 0 {
        ghost var was := swapMap[..];
        FreeSlotsUpdate(was, offset, was[offset] - 1);
        swapMap[offset] := swapMap[offset] - 1;
        assert swapMap[..] == was[offset := was[offset] - 1];
        if swapMap[offset] == 0 { nrSwapPages := nrSwapPages + 1; }
      }
    }
  }

  // ---------- page frames ----------

  const MAX_SECONDARY_PAGES: nat := 20
  const MAP_PAGE_RESERVED: nat := 0x8000

  ghost predicate Distinct(s: seq<nat>) { forall i, j :: 0 <= i < j < |s| ==> s[i] != s[j] }

  lemma Popped(s: seq<nat>)
    requires Distinct(s) && s != []
    ensures Distinct(s[1..]) && s[0] !in s[1..] && forall f :: f in s <==> f == s[0] || f in s[1..]
  {
    assert s == [s[0]] + s[1..];
  }

  /** The frame allocator: mem_map and the two lists of free frames, last freed first. */
  class FrameLists {
    var memMap: array<nat>
    var freeList: seq<nat>
    var secondary: seq<nat>

    /** A frame is on a list exactly when nobody counts it, and then on one list, once. */
    ghost predicate Valid()
      reads this, memMap
    {
      && Distinct(freeList) && Distinct(secondary)
      && (forall f :: f in freeList ==> f < memMap.Length && memMap[f] == 0 && f !in secondary)
      && (forall f :: f in secondary ==> f < memMap.Length && memMap[f] == 0)
      && (forall f :: 0 <= f < memMap.Length && memMap[f] == 0 ==> f in freeList || f in secondary)
      && |secondary| <= MAX_SECONDARY_PAGES
    }

    /** free_page; reserved frames and frames outside memory are left alone. */
    method FreePage(f: nat)
      requires Valid()
      modifies this, memMap
      ensures Valid() && memMap == old(memMap)
      ensures memMap[..] == if f < memMap.Length && 0 < old(memMap[..])[f] < MAP_PAGE_RESERVED
                            then old(memMap[..])[f := old(memMap[f]) - 1] else old(memMap[..])
      ensures |freeList| + |secondary| == old(|freeList| + |secondary|) +
              (if f < memMap.Length && old(memMap[..])[f] == 1 then 1 else 0)
    {
      if f < memMap.Length && memMap[f] != 0 && memMap[f] < MAP_PAGE_RESERVED {
        memMap[f] := memMap[f] - 1;
        if memMap[f] == 0 {
          if |secondary| < MAX_SECONDARY_PAGES {
            secondary := [f] + secondary;
          } else {
            freeList := [f] + freeList;
          }
        }
      }
    }

    /** __get_free_page without reclaiming: the ordinary list first, the reserve only when `mayUseReserve`. */
    method GetFreePage(mayUseReserve: bool) returns (frame: int)
      requires Valid()
      modifies this, memMap
      ensures Valid() && memMap == old(memMap)
      ensures frame < 0 <==> old(freeList) == [] && (mayUseReserve ==> old(secondary) == [])
      ensures frame < 0 ==> memMap[..] == old(memMap[..])
      ensures frame >= 0 ==> frame < memMap.Length && old(memMap[frame]) == 0 && memMap[..] == old(memMap[..])[frame := 1]
    {
      if freeList != [] {
        frame := freeList[0];
        Popped(freeList);
        freeList := freeList[1..];
      } else if mayUseReserve && secondary != [] {
        frame := secondary[0];
        Popped(secondary);
        secondary := secondary[1..];
      } else {
        return -1;
      }
      memMap[frame] := 1;
    }
  }
}
