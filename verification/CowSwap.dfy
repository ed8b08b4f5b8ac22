/** Anonymous private memory of linux/mm/memory.c and linux/mm/swap.c: page tables, the reference
    counts mem_map and swap_map, copy-on-write faults and swapping, as steps between the points
    where the kernel can sleep. */
module CowSwap {

  type Page = seq<nat>

  const PAGE_SIZE: nat := 4096

  function ZeroPage(): Page { seq(PAGE_SIZE, i => 0) }

  function Poke(p: Page, off: nat, b: nat): Page { if off < |p| then p[off := b] else p }

  /** A page of one address space. */
  datatype Addr = Addr(space: nat, page: nat)

  /** Everything that can name a page frame or a swap slot: a page-table entry, a task whose write to swap is not
      finished, and a task asleep in a fault or in swap_free. */
  datatype Place = Entry(a: Addr) | Writer(task: nat) | Sleeper(task: nat)

  datatype Cell =
    | Present(frame: nat, rw: bool, dirty: bool, accessed: bool)
    | Swapped(slot: nat)
    | Writing(slot: nat, frame: nat)
    | Filling(a: Addr, frame: nat)
    | Copying(a: Addr, frame: nat)
    | Reading(a: Addr, slot: nat, frame: nat)
    | ReadIn(a: Addr, slot: nat, frame: nat)
    | Releasing(slot: nat)

  /** A missing Entry is an empty page-table entry; `locks` is swap_lockmap, with who holds each lock. */
  datatype State = State(memMap: seq<nat>, frames: seq<Page>, swapMap: seq<nat>, swap: seq<Page>,
                         locks: map<nat, Place>, cells: map<Place, Cell>)

  predicate NamesFrame(c: Cell, f: nat) {
    match c
    case Present(g, _, _, _) => g == f
    case Writing(_, g) => g == f
    case Filling(_, g) => g == f
    case Copying(_, g) => g == f
    case Reading(_, _, g) => g == f
    case ReadIn(_, _, g) => g == f
    case _ => false
  }

  predicate NamesSlot(c: Cell, x: nat) {
    match c
    case Swapped(y) => y == x
    case Releasing(y) => y == x
    case _ => false
  }

  predicate HasFrame(c: Cell) { !c.Swapped? && !c.Releasing? }

  // ---------- steps ----------

  datatype Step =
    | UserRead(a: Addr)
    | UserWrite(a: Addr, off: nat, b: nat)
    | FillStart(t: nat, a: Addr, f: nat)
    | FillDone(t: nat)
    | WpOwn(a: Addr)
    | CopyStart(t: nat, a: Addr, f: nat)
    | CopyDone(t: nat)
    | ReadStart(t: nat, a: Addr, f: nat)
    | ReadData(t: nat)
    | ReadDone(t: nat)
    | Age(a: Addr)
    | SwapOut(w: nat, a: Addr, x: nat)
    | WriteStart(w: nat)
    | SwapOutDone(w: nat)
    | Forget(a: Addr)
    | Unmap(t: nat, a: Addr)
    | ReleaseDone(t: nat)
    | ForkPage(parent: nat, child: nat, page: nat)

  predicate IsPresent(s: State, a: Addr) { Entry(a) in s.cells && s.cells[Entry(a)].Present? }
  predicate IsSwapped(s: State, a: Addr) { Entry(a) in s.cells && s.cells[Entry(a)].Swapped? }
  predicate Idle(s: State, t: nat) { Sleeper(t) !in s.cells }
  predicate FreeFrame(s: State, f: nat) { f < |s.memMap| && f < |s.frames| && s.memMap[f] == 0 }

  /** The code reaches the step: what it tests, and what the hardware or the caller gives it. */
  predicate Possible(s: State, l: Step) {
    match l
    case UserRead(a) => IsPresent(s, a) && Framed(s, a)
    case UserWrite(a, _, _) => IsPresent(s, a) && Framed(s, a) && s.cells[Entry(a)].rw
    case FillStart(t, a, f) => Idle(s, t) && Entry(a) !in s.cells && FreeFrame(s, f)
    case FillDone(t) => Sleeper(t) in s.cells && s.cells[Sleeper(t)].Filling?
    case WpOwn(a) => IsPresent(s, a) && Framed(s, a) && !s.cells[Entry(a)].rw && s.memMap[s.cells[Entry(a)].frame] == 1
    case CopyStart(t, a, f) =>
      Idle(s, t) && IsPresent(s, a) && Framed(s, a) && !s.cells[Entry(a)].rw
      && s.memMap[s.cells[Entry(a)].frame] != 1 && FreeFrame(s, f)
    case CopyDone(t) =>
      && Sleeper(t) in s.cells && s.cells[Sleeper(t)].Copying?
      && var f := s.cells[Sleeper(t)].frame;
      var a := s.cells[Sleeper(t)].a;
      f < |s.memMap| && f < |s.frames| && s.memMap[f] > 0 && (IsPresent(s, a) ==> Framed(s, a))
    case ReadStart(t, a, f) => Idle(s, t) && IsSwapped(s, a) && FreeFrame(s, f)
    case ReadData(t) =>
      && Sleeper(t) in s.cells && s.cells[Sleeper(t)].Reading?
      && var c := s.cells[Sleeper(t)];
      c.slot !in s.locks && c.slot < |s.swap| && c.frame < |s.frames|
    case ReadDone(t) =>
      && Sleeper(t) in s.cells && s.cells[Sleeper(t)].ReadIn?
      && var f := s.cells[Sleeper(t)].frame;
      f < |s.memMap| && f < |s.frames| && s.cells[Sleeper(t)].slot < |s.swapMap|
    case Age(a) => IsPresent(s, a) && Framed(s, a)
    case SwapOut(w, a, x) =>
      && Writer(w) !in s.cells && IsPresent(s, a) && Framed(s, a) && !s.cells[Entry(a)].accessed && s.cells[Entry(a)].dirty
      && s.memMap[s.cells[Entry(a)].frame] == 1 && x < |s.swapMap| && x < |s.swap| && s.swapMap[x] == 0
    case WriteStart(w) => Writer(w) in s.cells && s.cells[Writer(w)].Writing? && s.cells[Writer(w)].slot !in s.locks
    case SwapOutDone(w) =>
      && Writer(w) in s.cells && s.cells[Writer(w)].Writing?
      && var x, f := s.cells[Writer(w)].slot, s.cells[Writer(w)].frame;
      x in s.locks && s.locks[x] == Writer(w) && x < |s.swap| && f < |s.memMap| && f < |s.frames|
    case Forget(a) => IsPresent(s, a) && Framed(s, a) && !s.cells[Entry(a)].accessed && !s.cells[Entry(a)].dirty
    case Unmap(t, a) =>
      && Idle(s, t) && (IsPresent(s, a) ==> Framed(s, a)) && (IsSwapped(s, a) ==> s.cells[Entry(a)].slot < |s.swapMap|)
      && (Entry(a) in s.cells ==> IsPresent(s, a) || IsSwapped(s, a))
    case ReleaseDone(t) =>
      && Sleeper(t) in s.cells && s.cells[Sleeper(t)].Releasing?
      && var x := s.cells[Sleeper(t)].slot;
      x !in s.locks && x < |s.swapMap|
    case ForkPage(p, c, v) =>
      && p != c && Entry(Addr(c, v)) !in s.cells
      && (IsPresent(s, Addr(p, v)) ==> Framed(s, Addr(p, v)))
      && (IsSwapped(s, Addr(p, v)) ==> s.cells[Entry(Addr(p, v))].slot < |s.swapMap|)
      && (Entry(Addr(p, v)) in s.cells ==> IsPresent(s, Addr(p, v)) || IsSwapped(s, Addr(p, v)))
  }

  /** The entry names a frame that exists and is counted. */
  predicate Framed(s: State, a: Addr)
    requires IsPresent(s, a)
  {
    var f := s.cells[Entry(a)].frame;
    f < |s.memMap| && f < |s.frames| && s.memMap[f] > 0
  }

  /** The entry still names the slot that swap_in started with. */
  predicate Unchanged(s: State, c: Cell)
    requires c.ReadIn?
  {
    Entry(c.a) in s.cells && s.cells[Entry(c.a)] == Swapped(c.slot)
  }

  /** free_page: a page that is free already is left alone. */
  function FreePage(m: seq<nat>, f: nat): seq<nat>
    requires f < |m|
  {
    if m[f] == 0 then m else m[f := m[f] - 1]
  }

  /** swap_free once it has the lock: it drops one reference, if there is any. */
  function FreeSlot(m: seq<nat>, x: nat): seq<nat>
    requires x < |m|
  {
    if m[x] == 0 then m else m[x := m[x] - 1]
  }

  function Next(s: State, l: Step): State
    requires Possible(s, l)
  {
    match l
    case UserRead(a) => s.(cells := s.cells[Entry(a) := s.cells[Entry(a)].(accessed := true)])
    case UserWrite(a, off, b) =>
      var c := s.cells[Entry(a)];
      s.(cells := s.cells[Entry(a) := c.(accessed := true, dirty := true)],
         frames := s.frames[c.frame := Poke(s.frames[c.frame], off, b)])
    case FillStart(t, a, f) =>
      s.(memMap := s.memMap[f := 1], frames := s.frames[f := ZeroPage()], cells := s.cells[Sleeper(t) := Filling(a, f)])
    case FillDone(t) =>
      var c := s.cells[Sleeper(t)];
      s.(cells := (s.cells - {Sleeper(t)})[Entry(c.a) := Present(c.frame, true, false, true)])
    case WpOwn(a) => s.(cells := s.cells[Entry(a) := s.cells[Entry(a)].(rw := true, dirty := true)])
    case CopyStart(t, a, f) => s.(memMap := s.memMap[f := 1], cells := s.cells[Sleeper(t) := Copying(a, f)])
    case CopyDone(t) => CopyDoneState(s, t)
    case ReadStart(t, a, f) =>
      s.(memMap := s.memMap[f := 1], frames := s.frames[f := ZeroPage()],
         cells := s.cells[Sleeper(t) := Reading(a, s.cells[Entry(a)].slot, f)])
    case ReadData(t) =>
      var c := s.cells[Sleeper(t)];
      s.(frames := s.frames[c.frame := s.swap[c.slot]], locks := s.locks[c.slot := Sleeper(t)],
         cells := s.cells[Sleeper(t) := ReadIn(c.a, c.slot, c.frame)])
    case ReadDone(t) =>
      var c := s.cells[Sleeper(t)];
      if Unchanged(s, c) then
        s.(swapMap := FreeSlot(s.swapMap, c.slot), locks := s.locks - {c.slot},
           cells := (s.cells - {Sleeper(t)})[Entry(c.a) := Present(c.frame, true, true, true)])
      else s.(memMap := FreePage(s.memMap, c.frame), locks := s.locks - {c.slot}, cells := s.cells - {Sleeper(t)})
    case Age(a) => s.(cells := s.cells[Entry(a) := s.cells[Entry(a)].(accessed := false)])
    case SwapOut(w, a, x) =>
      s.(swapMap := s.swapMap[x := 1], locks := if x in s.locks then s.locks else s.locks[x := Writer(w)],
         cells := s.cells[Entry(a) := Swapped(x)][Writer(w) := Writing(x, s.cells[Entry(a)].frame)])
    case WriteStart(w) => s.(locks := s.locks[s.cells[Writer(w)].slot := Writer(w)])
    case SwapOutDone(w) =>
      var x, f := s.cells[Writer(w)].slot, s.cells[Writer(w)].frame;
      s.(swap := s.swap[x := s.frames[f]], memMap := FreePage(s.memMap, f), locks := s.locks - {x}, cells := s.cells - {Writer(w)})
    case Forget(a) =>
      s.(memMap := FreePage(s.memMap, s.cells[Entry(a)].frame), cells := s.cells - {Entry(a)})
    case Unmap(t, a) =>
      if Entry(a) !in s.cells then s
      else if s.cells[Entry(a)].Present? then
        s.(memMap := FreePage(s.memMap, s.cells[Entry(a)].frame), cells := s.cells - {Entry(a)})
      else
        var x := s.cells[Entry(a)].slot;
        if x in s.locks then s.(cells := (s.cells - {Entry(a)})[Sleeper(t) := Releasing(x)])
        else s.(swapMap := FreeSlot(s.swapMap, x), cells := s.cells - {Entry(a)})
    case ReleaseDone(t) =>
      s.(swapMap := FreeSlot(s.swapMap, s.cells[Sleeper(t)].slot), cells := s.cells - {Sleeper(t)})
    case ForkPage(p, c, v) =>
      var from, to := Entry(Addr(p, v)), Entry(Addr(c, v));
      if from !in s.cells then s
      else if s.cells[from].Swapped? then
        var x := s.cells[from].slot;
        if s.swapMap[x] == 0 then s
        else s.(swapMap := s.swapMap[x := s.swapMap[x] + 1], cells := s.cells[to := s.cells[from]])
      else
        var pg := s.cells[from].(rw := false);
        s.(memMap := s.memMap[pg.frame := s.memMap[pg.frame] + 1], cells := s.cells[to := pg][from := pg])
  }

  /** __do_wp_page after its page allocation: every test is made again. */
  function CopyDoneState(s: State, t: nat): State
    requires Possible(s, CopyDone(t))
  {
    var c := s.cells[Sleeper(t)];
    var awake := s.(cells := s.cells - {Sleeper(t)});
    if !IsPresent(s, c.a) || s.cells[Entry(c.a)].rw then
      awake.(memMap := FreePage(s.memMap, c.frame))
    else
      var pg := s.cells[Entry(c.a)];
      if s.memMap[pg.frame] != 1 then
        awake.(frames := s.frames[c.frame := s.frames[pg.frame]],
               memMap := FreePage(s.memMap, pg.frame),
               cells := awake.cells[Entry(c.a) := pg.(frame := c.frame, rw := true)])
      else
        awake.(memMap := FreePage(s.memMap, c.frame),
               cells := awake.cells[Entry(c.a) := pg.(rw := true)])
  }

  // ---------- what a process sees ----------

  predicate Writes(c: Cell, x: nat) { c.Writing? && c.slot == x }

  /** Somebody has still to write to the slot, or is writing. */
  ghost predicate Outstanding(s: State, x: nat) { exists p :: p in s.cells && Writes(s.cells[p], x) }

  /** What an entry that names the slot stands for: the page that is to be written there, or what is there. */
  ghost function Stored(s: State, x: nat): Page {
    if Outstanding(s, x) then
      var p :| p in s.cells && Writes(s.cells[p], x);
      FrameAt(s, s.cells[p].frame)
    else if x < |s.swap| then s.swap[x]
    else ZeroPage()
  }

  ghost function View(s: State, a: Addr): Page {
    if Entry(a) !in s.cells then ZeroPage()
    else match s.cells[Entry(a)]
      case Present(f, _, _, _) => FrameAt(s, f)
      case Swapped(x) => Stored(s, x)
      case _ => ZeroPage()
  }

  function FrameAt(s: State, f: nat): Page { if f < |s.frames| then s.frames[f] else ZeroPage() }

  /** The reference: a separate flat memory for each address space, which only stores, unmapping
      and fork change. */
  function FlatNext(m: Addr -> Page, l: Step): Addr -> Page {
    match l
    case UserWrite(a, off, v) => b => if b == a then Poke(m(a), off, v) else m(b)
    case Unmap(_, a) => b => if b == a then ZeroPage() else m(b)
    case ForkPage(p, c, v) => b => if b == Addr(c, v) then m(Addr(p, v)) else m(b)
    case _ => m
  }

  // ---------- the invariant ----------

  ghost function Holders(cells: map<Place, Cell>, f: nat): set<Place> {
    set p | p in cells && NamesFrame(cells[p], f)
  }

  ghost function SlotHolders(cells: map<Place, Cell>, x: nat): set<Place> {
    set p | p in cells && NamesSlot(cells[p], x)
  }

  ghost predicate Counts(cells: map<Place, Cell>, memMap: seq<nat>, swapMap: seq<nat>) {
    && (forall f :: 0 <= f < |memMap| ==> memMap[f] == |Holders(cells, f)|)
    && (forall x :: 0 <= x < |swapMap| ==> swapMap[x] == |SlotHolders(cells, x)|)
  }

  predicate InRange(c: Cell, nf: nat, ns: nat) {
    match c
    case Swapped(x) => x < ns
    case Releasing(x) => x < ns
    case Writing(x, f) => x < ns && f < nf
    case Reading(_, x, f) => x < ns && f < nf
    case ReadIn(_, x, f) => x < ns && f < nf
    case _ => c.frame < nf
  }

  predicate RightPlace(p: Place, c: Cell) {
    match p
    case Entry(_) => c.Present? || c.Swapped?
    case Writer(_) => c.Writing?
    case Sleeper(_) => c.Filling? || c.Copying? || c.Reading? || c.ReadIn? || c.Releasing?
  }

  /** What each place may rely on. */
  ghost predicate LocalOk(s: State, p: Place) {
    p in s.cells && Fits(s, p) &&
    match s.cells[p]
    case Present(f, rw, dirty, _) => (rw ==> s.memMap[f] == 1) && (!dirty ==> s.frames[f] == ZeroPage())
    case Writing(x, f) => s.memMap[f] == 1 && s.swapMap[x] >= 1
    case Filling(_, f) => s.memMap[f] == 1 && s.frames[f] == ZeroPage()
    case Copying(_, f) => s.memMap[f] == 1
    case Reading(_, _, f) => s.memMap[f] == 1
    case ReadIn(_, x, f) => s.memMap[f] == 1 && s.frames[f] == s.swap[x]
    case _ => true
  }

  ghost predicate Fits(s: State, p: Place)
    requires p in s.cells
  {
    Sizes(s) && InRange(s.cells[p], |s.memMap|, |s.swapMap|) && RightPlace(p, s.cells[p])
  }

  predicate Sizes(s: State) { |s.frames| == |s.memMap| && |s.swap| == |s.swapMap| }

  predicate Busy(cells: map<Place, Cell>, p: Place) { p in cells && (cells[p].Writing? || cells[p].ReadIn?) }

  /** A lock is held by a task that writes to the slot or has read from it, and every such reader holds it. */
  ghost predicate LocksOk(locks: map<nat, Place>, cells: map<Place, Cell>) {
    && (forall x :: x in locks ==> Busy(cells, locks[x]) && cells[locks[x]].slot == x)
    && (forall p :: p in cells && cells[p].ReadIn? ==> cells[p].slot in locks && locks[cells[p].slot] == p)
  }

  ghost predicate OneWriter(cells: map<Place, Cell>) {
    forall p, q :: p in cells && q in cells && cells[p].Writing? && cells[q].Writing? && cells[p].slot == cells[q].slot ==> p == q
  }

  ghost predicate Inv(s: State) {
    && Sizes(s) && LocksOk(s.locks, s.cells) && OneWriter(s.cells)
    && Counts(s.cells, s.memMap, s.swapMap)
    && (forall p :: p in s.cells ==> LocalOk(s, p))
  }

  // ---------- counting ----------

  lemma HoldersPut(cells: map<Place, Cell>, p: Place, c: Cell, n: nat)
    ensures Holders(cells[p := c], n) == if NamesFrame(c, n) then Holders(cells, n) + {p} else Holders(cells, n) - {p}
    ensures SlotHolders(cells[p := c], n) == if NamesSlot(c, n) then SlotHolders(cells, n) + {p} else SlotHolders(cells, n) - {p}
  {
  }

  lemma HoldersDel(cells: map<Place, Cell>, p: Place, n: nat)
    ensures Holders(cells - {p}, n) == Holders(cells, n) - {p}
    ensures SlotHolders(cells - {p}, n) == SlotHolders(cells, n) - {p}
  {
  }

  function Frames(cells: map<Place, Cell>, p: Place, n: nat): int { if p in cells && NamesFrame(cells[p], n) then 1 else 0 }
  function SlotsAt(cells: map<Place, Cell>, p: Place, n: nat): int { if p in cells && NamesSlot(cells[p], n) then 1 else 0 }

  lemma PutCounts(cells: map<Place, Cell>, m: seq<nat>, w: seq<nat>, p: Place, c: Cell, m': seq<nat>, w': seq<nat>)
    requires Counts(cells, m, w) && |m'| == |m| && |w'| == |w|
    requires forall f :: 0 <= f < |m| ==> m'[f] == m[f] - Frames(cells, p, f) + (if NamesFrame(c, f) then 1 else 0)
    requires forall x :: 0 <= x < |w| ==> w'[x] == w[x] - SlotsAt(cells, p, x) + (if NamesSlot(c, x) then 1 else 0)
    ensures Counts(cells[p := c], m', w')
  {
    hide NamesFrame, NamesSlot, Holders, SlotHolders;
    forall n: nat
      ensures n < |m| ==> m'[n] == |Holders(cells[p := c], n)|
      ensures n < |w| ==> w'[n] == |SlotHolders(cells[p := c], n)|
    {
      PutSizes(cells, p, c, n);
    }
  }

  lemma PutSizes(cells: map<Place, Cell>, p: Place, c: Cell, n: nat)
    ensures |Holders(cells[p := c], n)| == |Holders(cells, n)| - Frames(cells, p, n) + (if NamesFrame(c, n) then 1 else 0)
    ensures |SlotHolders(cells[p := c], n)| == |SlotHolders(cells, n)| - SlotsAt(cells, p, n) + (if NamesSlot(c, n) then 1 else 0)
  {
    hide NamesFrame, NamesSlot;
    HoldersPut(cells, p, c, n);
  }

  lemma DelCounts(cells: map<Place, Cell>, m: seq<nat>, w: seq<nat>, p: Place, m': seq<nat>, w': seq<nat>)
    requires Counts(cells, m, w) && |m'| == |m| && |w'| == |w|
    requires forall f :: 0 <= f < |m| ==> m'[f] == m[f] - Frames(cells, p, f)
    requires forall x :: 0 <= x < |w| ==> w'[x] == w[x] - SlotsAt(cells, p, x)
    ensures Counts(cells - {p}, m', w')
  {
    hide NamesFrame, NamesSlot;
    forall n: nat
      ensures n < |m| ==> m'[n] == |Holders(cells - {p}, n)|
      ensures n < |w| ==> w'[n] == |SlotHolders(cells - {p}, n)|
    {
      HoldersDel(cells, p, n);
    }
  }

  /** A frame counted once is named in one place; one counted zero times, nowhere. */
  lemma Sole(s: State, p: Place, f: nat)
    requires Inv(s) && f < |s.memMap| && s.memMap[f] == 1
    requires p in s.cells && NamesFrame(s.cells[p], f)
    ensures forall q :: q in s.cells && NamesFrame(s.cells[q], f) ==> q == p
  {
    var h := Holders(s.cells, f);
    assert p in h;
    assert |h - {p}| == 0;
    assert h - {p} == {};
    forall q | q in s.cells && NamesFrame(s.cells[q], f)
      ensures q == p
    {
      assert q in h;
    }
  }

  lemma Unnamed(s: State, f: nat)
    requires Inv(s) && f < |s.memMap| && s.memMap[f] == 0
    ensures forall q :: q in s.cells ==> !NamesFrame(s.cells[q], f)
  {
    var h := Holders(s.cells, f);
    assert h == {};
    forall q | q in s.cells
      ensures !NamesFrame(s.cells[q], f)
    {
      assert q !in h;
    }
  }

  /** A slot that is not counted is named nowhere, and nobody has to write to it. */
  lemma SlotUnnamed(s: State, x: nat)
    requires Inv(s) && x < |s.swapMap| && s.swapMap[x] == 0
    ensures forall q :: q in s.cells ==> !NamesSlot(s.cells[q], x) && !Writes(s.cells[q], x)
  {
    var h := SlotHolders(s.cells, x);
    assert h == {};
    forall q | q in s.cells
      ensures !NamesSlot(s.cells[q], x) && !Writes(s.cells[q], x)
    {
      assert q !in h;
      assert LocalOk(s, q);
    }
  }

  // ---------- writes to come ----------

  lemma StoredBy(s: State, p: Place)
    requires OneWriter(s.cells) && p in s.cells && s.cells[p].Writing?
    ensures Stored(s, s.cells[p].slot) == FrameAt(s, s.cells[p].frame)
  {
    assert Writes(s.cells[p], s.cells[p].slot);
  }

  predicate WritesAt(s: State, p: Place) { p in s.cells && s.cells[p].Writing? }

  /** The same writes are to come. */
  ghost predicate SameWrites(s: State, s': State) {
    && s'.swap == s.swap
    && (forall p :: WritesAt(s, p) <==> WritesAt(s', p))
    && (forall p :: WritesAt(s, p) ==> s'.cells[p] == s.cells[p] && FrameAt(s', s.cells[p].frame) == FrameAt(s, s.cells[p].frame))
  }

  lemma StoredKept(s: State, s': State)
    requires OneWriter(s.cells) && SameWrites(s, s')
    ensures forall x :: Stored(s', x) == Stored(s, x)
  {
    forall x: nat
      ensures Stored(s', x) == Stored(s, x)
    {
      if Outstanding(s, x) {
        var p :| p in s.cells && Writes(s.cells[p], x);
        StillOne(s, s');
        assert WritesAt(s, p) && Writes(s'.cells[p], x);
        StoredBy(s, p);
        StoredBy(s', p);
      } else {
        forall p | p in s'.cells
          ensures !Writes(s'.cells[p], x)
        {
          if WritesAt(s', p) { assert WritesAt(s, p); }
        }
      }
    }
  }

  lemma StillOne(s: State, s': State)
    requires OneWriter(s.cells) && SameWrites(s, s')
    ensures OneWriter(s'.cells)
  {
    forall p, q | p in s'.cells && q in s'.cells && s'.cells[p].Writing? && s'.cells[q].Writing? && s'.cells[p].slot == s'.cells[q].slot
      ensures p == q
    {
      assert WritesAt(s', p) && WritesAt(s', q);
    }
  }

  /** Locks and their holders are the same. */
  ghost predicate SameBusy(cells: map<Place, Cell>, cells': map<Place, Cell>) {
    forall p :: (Busy(cells, p) <==> Busy(cells', p)) && (Busy(cells, p) ==> cells'[p] == cells[p])
  }

  lemma OrderKept(locks: map<nat, Place>, cells: map<Place, Cell>, cells': map<Place, Cell>)
    requires LocksOk(locks, cells) && OneWriter(cells) && SameBusy(cells, cells')
    ensures LocksOk(locks, cells') && OneWriter(cells')
  {
    LocksKept(locks, cells, cells');
    forall p | p in cells' && cells'[p].Writing?
      ensures p in cells && cells[p] == cells'[p]
    {
      assert Busy(cells', p);
    }
  }

  lemma LocksKept(locks: map<nat, Place>, cells: map<Place, Cell>, cells': map<Place, Cell>)
    requires LocksOk(locks, cells) && SameBusy(cells, cells')
    ensures LocksOk(locks, cells')
  {
    forall p | p in cells' && cells'[p].ReadIn?
      ensures p in cells && cells[p] == cells'[p]
    {
      assert Busy(cells', p);
    }
  }

  // ---------- the effect of each kind of update ----------

  ghost predicate SameViews(s: State, s': State) {
    forall b :: View(s', b) == View(s, b)
  }

  /** Only flags of an entry change: read access, ageing, taking over an unshared page. */
  lemma SetFlags(s: State, a: Addr, c: Cell, s': State)
    requires Inv(s) && IsPresent(s, a)
    requires c.Present? && c.frame == s.cells[Entry(a)].frame && (s.cells[Entry(a)].dirty ==> c.dirty)
    requires c.rw ==> s.memMap[c.frame] == 1
    requires s' == s.(cells := s.cells[Entry(a) := c])
    ensures Inv(s') && SameViews(s, s')
  {
    hide Counts, Stored, OneWriter, LocksOk;
    PutCounts(s.cells, s.memMap, s.swapMap, Entry(a), c, s.memMap, s.swapMap);
    OrderKept(s.locks, s.cells, s'.cells);
    StoredKept(s, s');
    assert LocalOk(s, Entry(a));
    forall p | p in s'.cells
      ensures LocalOk(s', p)
    {
      assert LocalOk(s, p);
    }
  }

  /** A store through a writable entry, with the dirty bit the hardware sets. */
  lemma Store(s: State, a: Addr, off: nat, b: nat, s': State)
    requires Inv(s) && IsPresent(s, a) && s.cells[Entry(a)].rw
    requires var c := s.cells[Entry(a)];
             s' == s.(cells := s.cells[Entry(a) := c.(accessed := true, dirty := true)],
                      frames := s.frames[c.frame := Poke(s.frames[c.frame], off, b)])
    ensures Inv(s')
  {
    var f := s.cells[Entry(a)].frame;
    assert LocalOk(s, Entry(a));
    Sole(s, Entry(a), f);
    hide Counts, OneWriter, LocksOk, Poke;
    PutCounts(s.cells, s.memMap, s.swapMap, Entry(a), s'.cells[Entry(a)], s.memMap, s.swapMap);
    OrderKept(s.locks, s.cells, s'.cells);
    forall p | p in s'.cells
      ensures LocalOk(s', p)
    {
      assert LocalOk(s, p);
    }
  }

  lemma StoreViews(s: State, a: Addr, off: nat, b: nat, s': State)
    requires Inv(s) && IsPresent(s, a) && s.cells[Entry(a)].rw
    requires var c := s.cells[Entry(a)];
             s' == s.(cells := s.cells[Entry(a) := c.(accessed := true, dirty := true)],
                      frames := s.frames[c.frame := Poke(s.frames[c.frame], off, b)])
    ensures forall b' :: View(s', b') == if b' == a then Poke(View(s, a), off, b) else View(s, b')
  {
    var f := s.cells[Entry(a)].frame;
    assert LocalOk(s, Entry(a));
    Sole(s, Entry(a), f);
    hide Counts, Stored, OneWriter, LocksOk, LocalOk, Poke;
    StoredKept(s, s');
  }

  /** A sleeping task acquires a free frame. */
  lemma Acquire(s: State, t: nat, c: Cell, pg: Page, s': State)
    requires Inv(s) && Idle(s, t) && (c.Filling? || c.Copying? || c.Reading?)
    requires FreeFrame(s, c.frame)
    requires c.Filling? ==> pg == ZeroPage()
    requires c.Reading? ==> c.slot < |s.swapMap|
    requires s' == s.(memMap := s.memMap[c.frame := 1], frames := s.frames[c.frame := pg], cells := s.cells[Sleeper(t) := c])
    ensures Inv(s')
  {
    hide OneWriter, LocksOk, ZeroPage;
    Unnamed(s, c.frame);
    AcquireCounts(s, t, c);
    hide Counts;
    OrderKept(s.locks, s.cells, s'.cells);
    forall p | p in s'.cells
      ensures LocalOk(s', p)
    {
      if p != Sleeper(t) {
        assert LocalOk(s, p);
      }
    }
  }

  lemma AcquireCounts(s: State, t: nat, c: Cell)
    requires Inv(s) && Idle(s, t) && (c.Filling? || c.Copying? || c.Reading?) && FreeFrame(s, c.frame)
    ensures Counts(s.cells[Sleeper(t) := c], s.memMap[c.frame := 1], s.swapMap)
  {
    hide Counts, OneWriter, LocksOk, LocalOk;
    PutCounts(s.cells, s.memMap, s.swapMap, Sleeper(t), c, s.memMap[c.frame := 1], s.swapMap);
  }

  lemma AcquireViews(s: State, t: nat, c: Cell, pg: Page, s': State)
    requires Inv(s) && Idle(s, t) && (c.Filling? || c.Copying? || c.Reading?) && FreeFrame(s, c.frame)
    requires s' == s.(memMap := s.memMap[c.frame := 1], frames := s.frames[c.frame := pg], cells := s.cells[Sleeper(t) := c])
    ensures SameViews(s, s')
  {
    Unnamed(s, c.frame);
    hide Counts, Stored, OneWriter, LocksOk, LocalOk;
    StoredKept(s, s');
  }

  /** A lock is given up by the task that held it to read, which is done. */
  lemma ReaderLeaves(locks: map<nat, Place>, cells: map<Place, Cell>, p: Place, cells': map<Place, Cell>)
    requires LocksOk(locks, cells) && p in cells && cells[p].ReadIn? && SameBusy(cells - {p}, cells')
    ensures LocksOk(locks - {cells[p].slot}, cells') && (OneWriter(cells) ==> OneWriter(cells'))
  {
    var rest := cells - {p};
    forall q | q in rest && rest[q].ReadIn?
      ensures rest[q].slot != cells[p].slot
    {
      assert cells[q].ReadIn?;
    }
    assert LocksOk(locks - {cells[p].slot}, rest);
    if OneWriter(cells) { OrderKept(locks - {cells[p].slot}, rest, cells'); } else { LocksKept(locks - {cells[p].slot}, rest, cells'); }
  }

  /** A sleeping task gives its frame back, and the lock that it holds if it has read from swap. */
  lemma GiveBack(s: State, t: nat, s': State)
    requires Inv(s) && Sleeper(t) in s.cells && HasFrame(s.cells[Sleeper(t)])
    requires s.memMap[s.cells[Sleeper(t)].frame] > 0
    requires var c := s.cells[Sleeper(t)];
             s' == s.(memMap := FreePage(s.memMap, c.frame), locks := if c.ReadIn? then s.locks - {c.slot} else s.locks,
                      cells := s.cells - {Sleeper(t)})
    ensures Inv(s')
  {
    hide Counts, OneWriter, LocksOk, LocalOk;
    var c := s.cells[Sleeper(t)];
    PlaceRight(s, Sleeper(t));
    if c.ReadIn? {
      ReaderLeaves(s.locks, s.cells, Sleeper(t), s'.cells);
    } else {
      OrderKept(s.locks, s.cells, s'.cells);
    }
    DelCounts(s.cells, s.memMap, s.swapMap, Sleeper(t), s'.memMap, s.swapMap);
    SleeperLocals(s, Sleeper(t), s');
  }

  /** A task that has a frame for itself goes: nobody else relies on its frame. */
  lemma SleeperLocals(s: State, p: Place, s': State)
    requires Inv(s) && p in s.cells && !p.Entry? && HasFrame(s.cells[p]) && s.cells[p].frame < |s.memMap| && s.memMap[s.cells[p].frame] > 0
    requires s'.cells == s.cells - {p} && s'.frames == s.frames && s'.swapMap == s.swapMap && s'.swap == s.swap
    requires s'.memMap == FreePage(s.memMap, s.cells[p].frame)
    ensures forall q :: q in s'.cells ==> LocalOk(s', q)
  {
    OnlyFrame(s, p);
    hide Counts, OneWriter, LocksOk;
    forall q | q in s'.cells
      ensures LocalOk(s', q)
    {
      assert LocalOk(s, q);
    }
  }

  lemma GiveBackViews(s: State, t: nat, s': State)
    requires Inv(s) && Sleeper(t) in s.cells && s'.frames == s.frames && s'.swap == s.swap && s'.cells == s.cells - {Sleeper(t)}
    ensures SameViews(s, s')
  {
    hide Counts, Stored, OneWriter, LocksOk, LocalOk;
    PlaceRight(s, Sleeper(t));
    StoredKept(s, s');
  }

  /** put_page into an entry that is still empty. */
  lemma Install(s: State, t: nat, s': State)
    requires Inv(s) && Sleeper(t) in s.cells && s.cells[Sleeper(t)].Filling?
    requires var c := s.cells[Sleeper(t)];
             s' == s.(cells := (s.cells - {Sleeper(t)})[Entry(c.a) := Present(c.frame, true, false, true)])
    requires Entry(s.cells[Sleeper(t)].a) !in s.cells
    ensures Inv(s') && SameViews(s, s')
  {
    hide Counts, Stored, OneWriter, LocksOk;
    var c := s.cells[Sleeper(t)];
    assert LocalOk(s, Sleeper(t));
    var cells1 := s.cells - {Sleeper(t)};
    InstallCounts(s, t);
    OrderKept(s.locks, s.cells, s'.cells);
    StoredKept(s, s');
    forall p | p in s'.cells
      ensures LocalOk(s', p)
    {
      assert p != Entry(c.a) ==> LocalOk(s, p);
    }
  }

  lemma InstallCounts(s: State, t: nat)
    requires Inv(s) && Sleeper(t) in s.cells && s.cells[Sleeper(t)].Filling? && Entry(s.cells[Sleeper(t)].a) !in s.cells
    ensures var c := s.cells[Sleeper(t)];
            Counts((s.cells - {Sleeper(t)})[Entry(c.a) := Present(c.frame, true, false, true)], s.memMap, s.swapMap)
  {
    hide Counts, OneWriter, LocksOk;
    var c := s.cells[Sleeper(t)];
    assert LocalOk(s, Sleeper(t));
    var m1 := s.memMap[c.frame := 0];
    DelCounts(s.cells, s.memMap, s.swapMap, Sleeper(t), m1, s.swapMap);
    PutCounts(s.cells - {Sleeper(t)}, m1, s.swapMap, Entry(c.a), Present(c.frame, true, false, true), s.memMap, s.swapMap);
  }

  /** The faulting task gets its own copy of a shared page. */
  lemma TakeCopy(s: State, t: nat, s': State)
    requires Inv(s) && Sleeper(t) in s.cells && s.cells[Sleeper(t)].Copying?
    requires IsPresent(s, s.cells[Sleeper(t)].a)
    requires s.memMap[s.cells[Entry(s.cells[Sleeper(t)].a)].frame] > 1
    requires var c := s.cells[Sleeper(t)];
             var pg := s.cells[Entry(c.a)];
             s' == s.(frames := s.frames[c.frame := s.frames[pg.frame]],
                      memMap := FreePage(s.memMap, pg.frame),
                      cells := (s.cells - {Sleeper(t)})[Entry(c.a) := pg.(frame := c.frame, rw := true)])
    ensures Inv(s')
  {
    var c := s.cells[Sleeper(t)];
    var pg := s.cells[Entry(c.a)];
    hide Counts, OneWriter, LocksOk, LocalOk;
    PlaceRight(s, Sleeper(t));
    TakeCounts(s, t, c, pg);
    OrderKept(s.locks, s.cells, s'.cells);
    TakeLocals(s, t, s');
  }

  lemma TakeLocals(s: State, t: nat, s': State)
    requires Inv(s) && Sleeper(t) in s.cells && s.cells[Sleeper(t)].Copying?
    requires IsPresent(s, s.cells[Sleeper(t)].a)
    requires s.memMap[s.cells[Entry(s.cells[Sleeper(t)].a)].frame] > 1
    requires var c := s.cells[Sleeper(t)];
             var pg := s.cells[Entry(c.a)];
             s' == s.(frames := s.frames[c.frame := s.frames[pg.frame]],
                      memMap := FreePage(s.memMap, pg.frame),
                      cells := (s.cells - {Sleeper(t)})[Entry(c.a) := pg.(frame := c.frame, rw := true)])
    ensures forall p :: p in s'.cells ==> LocalOk(s', p)
  {
    var c := s.cells[Sleeper(t)];
    OnlyFrame(s, Sleeper(t));
    hide Counts, OneWriter, LocksOk;
    assert LocalOk(s, Sleeper(t)) && LocalOk(s, Entry(c.a));
    forall p | p in s'.cells
      ensures LocalOk(s', p)
    {
      assert p != Entry(c.a) ==> LocalOk(s, p);
    }
  }

  lemma TakeCounts(s: State, t: nat, c: Cell, pg: Cell)
    requires Inv(s) && Sleeper(t) in s.cells && c == s.cells[Sleeper(t)] && c.Copying? && IsPresent(s, c.a) && pg == s.cells[Entry(c.a)]
    requires s.memMap[pg.frame] > 1
    ensures Counts((s.cells - {Sleeper(t)})[Entry(c.a) := pg.(frame := c.frame, rw := true)], FreePage(s.memMap, pg.frame), s.swapMap)
  {
    assert LocalOk(s, Sleeper(t));
    hide Counts, OneWriter, LocksOk, LocalOk;
    var m1 := s.memMap[c.frame := 0];
    DelCounts(s.cells, s.memMap, s.swapMap, Sleeper(t), m1, s.swapMap);
    PutCounts(s.cells - {Sleeper(t)}, m1, s.swapMap, Entry(c.a), pg.(frame := c.frame, rw := true), FreePage(s.memMap, pg.frame), s.swapMap);
  }

  lemma TakeCopyViews(s: State, t: nat, s': State)
    requires Inv(s) && Sleeper(t) in s.cells && s.cells[Sleeper(t)].Copying?
    requires IsPresent(s, s.cells[Sleeper(t)].a)
    requires s.memMap[s.cells[Entry(s.cells[Sleeper(t)].a)].frame] > 1
    requires var c := s.cells[Sleeper(t)];
             var pg := s.cells[Entry(c.a)];
             s' == s.(frames := s.frames[c.frame := s.frames[pg.frame]],
                      memMap := FreePage(s.memMap, pg.frame),
                      cells := (s.cells - {Sleeper(t)})[Entry(c.a) := pg.(frame := c.frame, rw := true)])
    ensures SameViews(s, s')
  {
    var c := s.cells[Sleeper(t)];
    assert LocalOk(s, Sleeper(t));
    Sole(s, Sleeper(t), c.frame);
    hide Counts, Stored, OneWriter, LocksOk, LocalOk;
    StoredKept(s, s');
  }

  /** put_page over an entry that is not empty: what it named stays counted, and nothing names it. */
  lemma Overwrite(s: State, t: nat, s': State)
    requires Inv(s) && Sleeper(t) in s.cells && s.cells[Sleeper(t)].Filling?
    requires var c := s.cells[Sleeper(t)];
             s' == s.(cells := (s.cells - {Sleeper(t)})[Entry(c.a) := Present(c.frame, true, false, true)])
    requires Entry(s.cells[Sleeper(t)].a) in s.cells
    ensures !Counts(s'.cells, s'.memMap, s'.swapMap)
  {
    hide OneWriter, LocksOk;
    var c := s.cells[Sleeper(t)];
    var e := s.cells[Entry(c.a)];
    assert LocalOk(s, Sleeper(t));
    Sole(s, Sleeper(t), c.frame);
    assert RightPlace(Entry(c.a), e);
    var n := if e.Present? then e.frame else e.slot;
    var d := Present(c.frame, true, false, true);
    HoldersDel(s.cells, Sleeper(t), n);
    HoldersPut(s.cells - {Sleeper(t)}, Entry(c.a), d, n);
    if e.Present? {
      assert Holders(s'.cells, n) == Holders(s.cells, n) - {Entry(c.a)};
      assert Entry(c.a) in Holders(s.cells, n);
    } else {
      assert SlotHolders(s'.cells, n) == SlotHolders(s.cells, n) - {Entry(c.a)};
      assert Entry(c.a) in SlotHolders(s.cells, n);
    }
  }

  /** What put_page does to views: the page of the entry is zero, and no other changes. */
  lemma OverwriteViews(s: State, t: nat, s': State)
    requires Inv(s) && Sleeper(t) in s.cells && s.cells[Sleeper(t)].Filling?
    requires var c := s.cells[Sleeper(t)];
             s' == s.(cells := (s.cells - {Sleeper(t)})[Entry(c.a) := Present(c.frame, true, false, true)])
    ensures forall b :: View(s', b) == if b == s.cells[Sleeper(t)].a then ZeroPage() else View(s, b)
  {
    hide Counts, Stored, OneWriter, LocksOk;
    assert LocalOk(s, Sleeper(t));
    StoredKept(s, s');
  }

  /** The task has the lock of the slot, and the page has been read into the frame. */
  lemma ReadInto(s: State, t: nat, s': State)
    requires Inv(s) && Possible(s, ReadData(t)) && s' == Next(s, ReadData(t))
    ensures Inv(s')
  {
    hide Counts, OneWriter, LocksOk, LocalOk;
    var c := s.cells[Sleeper(t)];
    ReaderComes(s.locks, s.cells, Sleeper(t), ReadIn(c.a, c.slot, c.frame));
    PutCounts(s.cells, s.memMap, s.swapMap, Sleeper(t), s'.cells[Sleeper(t)], s.memMap, s.swapMap);
    ReadLocals(s, t, c, s');
  }

  lemma ReadLocals(s: State, t: nat, c: Cell, s': State)
    requires Inv(s) && Sleeper(t) in s.cells && c == s.cells[Sleeper(t)] && c.Reading? && c.slot < |s.swap| && c.frame < |s.frames|
    requires s'.memMap == s.memMap && s'.swapMap == s.swapMap && s'.swap == s.swap
    requires s'.cells == s.cells[Sleeper(t) := ReadIn(c.a, c.slot, c.frame)] && s'.frames == s.frames[c.frame := s.swap[c.slot]]
    ensures forall p :: p in s'.cells ==> LocalOk(s', p)
  {
    OnlyFrame(s, Sleeper(t));
    hide Counts, OneWriter, LocksOk;
    forall p | p in s'.cells
      ensures LocalOk(s', p)
    {
      assert LocalOk(s, p);
    }
  }

  lemma ReadIntoViews(s: State, t: nat, c: Cell, s': State)
    requires Inv(s) && Sleeper(t) in s.cells && c == s.cells[Sleeper(t)] && c.Reading? && c.slot < |s.swap| && c.frame < |s.frames|
    requires s'.swap == s.swap && s'.cells == s.cells[Sleeper(t) := ReadIn(c.a, c.slot, c.frame)]
    requires s'.frames == s.frames[c.frame := s.swap[c.slot]]
    ensures SameViews(s, s')
  {
    OnlyFrame(s, Sleeper(t));
    hide Counts, Stored, OneWriter, LocksOk, LocalOk;
    StoredKept(s, s');
  }

  lemma OnlyFrame(s: State, p: Place)
    requires Inv(s) && p in s.cells && !p.Entry? && HasFrame(s.cells[p])
    ensures Fits(s, p) && forall q :: q in s.cells && NamesFrame(s.cells[q], s.cells[p].frame) ==> q == p
  {
    hide OneWriter, LocksOk;
    assert LocalOk(s, p);
    Sole(s, p, s.cells[p].frame);
  }

  lemma ReaderComes(locks: map<nat, Place>, cells: map<Place, Cell>, p: Place, c: Cell)
    requires LocksOk(locks, cells) && OneWriter(cells) && p in cells && !Busy(cells, p) && c.ReadIn? && c.slot !in locks
    ensures LocksOk(locks[c.slot := p], cells[p := c]) && OneWriter(cells[p := c])
  {
  }

  /** swap_in when the entry still names the slot: the page is put in and the slot given up. The counts are right
      unless that was the last reference and a write to the slot is still to come. */
  lemma BringIn(s: State, t: nat, s': State)
    requires Inv(s) && Sleeper(t) in s.cells && s.cells[Sleeper(t)].ReadIn? && Unchanged(s, s.cells[Sleeper(t)])
    requires var c := s.cells[Sleeper(t)];
             s' == s.(swapMap := FreeSlot(s.swapMap, c.slot), locks := s.locks - {c.slot},
                      cells := (s.cells - {Sleeper(t)})[Entry(c.a) := Present(c.frame, true, true, true)])
    ensures Inv(s') <==> MayFree(s, s.cells[Sleeper(t)].slot)
  {
    hide Counts, OneWriter, LocalOk;
    var c := s.cells[Sleeper(t)];
    BringCounts(s, t, c);
    ReaderLeaves(s.locks, s.cells, Sleeper(t), s'.cells);
    SlotCounted(s, Entry(c.a), c.slot);
    hide LocksOk;
    BringLocals(s, t, c, s');
  }

  lemma BringLocals(s: State, t: nat, c: Cell, s': State)
    requires Inv(s) && Sleeper(t) in s.cells && c == s.cells[Sleeper(t)] && c.ReadIn? && Unchanged(s, c)
    requires c.slot < |s.swapMap| && s.swapMap[c.slot] > 0 && s'.cells == (s.cells - {Sleeper(t)})[Entry(c.a) := Present(c.frame, true, true, true)]
    requires s'.memMap == s.memMap && s'.frames == s.frames && s'.swap == s.swap && s'.swapMap == FreeSlot(s.swapMap, c.slot)
    ensures (forall q :: q in s'.cells ==> LocalOk(s', q)) <==> MayFree(s, c.slot)
  {
    hide Counts, OneWriter, LocksOk;
    assert LocalOk(s, Sleeper(t));
    if MayFree(s, c.slot) {
      forall q | q in s'.cells
        ensures LocalOk(s', q)
      {
        assert q != Entry(c.a) ==> LocalOk(s, q);
      }
    } else {
      var q :| q in s.cells && Writes(s.cells[q], c.slot);
      assert q in s'.cells && !LocalOk(s', q);
    }
  }

  /** Giving up one reference to the slot leaves another, or nobody has still to write to it. */
  ghost predicate MayFree(s: State, x: nat)
    requires x < |s.swapMap|
  {
    s.swapMap[x] > 1 || !Outstanding(s, x)
  }

  lemma BringCounts(s: State, t: nat, c: Cell)
    requires Inv(s) && Sleeper(t) in s.cells && c == s.cells[Sleeper(t)] && c.ReadIn? && Unchanged(s, c)
    ensures Counts((s.cells - {Sleeper(t)})[Entry(c.a) := Present(c.frame, true, true, true)], s.memMap, FreeSlot(s.swapMap, c.slot))
  {
    SlotCounted(s, Entry(c.a), c.slot);
    assert LocalOk(s, Sleeper(t));
    Sole(s, Sleeper(t), c.frame);
    hide LocalOk, Counts, OneWriter, LocksOk;
    var m1 := s.memMap[c.frame := 0];
    DelCounts(s.cells, s.memMap, s.swapMap, Sleeper(t), m1, s.swapMap);
    PutCounts(s.cells - {Sleeper(t)}, m1, s.swapMap, Entry(c.a), Present(c.frame, true, true, true), s.memMap, FreeSlot(s.swapMap, c.slot));
  }

  lemma BringViews(s: State, t: nat, s': State)
    requires Inv(s) && Sleeper(t) in s.cells && s.cells[Sleeper(t)].ReadIn? && Unchanged(s, s.cells[Sleeper(t)])
    requires var c := s.cells[Sleeper(t)];
             s' == s.(swapMap := FreeSlot(s.swapMap, c.slot), locks := s.locks - {c.slot},
                      cells := (s.cells - {Sleeper(t)})[Entry(c.a) := Present(c.frame, true, true, true)])
    ensures var c := s.cells[Sleeper(t)];
            forall b :: View(s', b) == if b == c.a then s.swap[c.slot] else View(s, b)
  {
    hide Counts, Stored, OneWriter, LocksOk;
    assert LocalOk(s, Sleeper(t));
    StoredKept(s, s');
  }

  /** try_to_swap_out of a dirty page: the entry names the slot before the write has happened. */
  lemma SendOut(s: State, w: nat, a: Addr, x: nat, s': State)
    requires Inv(s) && IsPresent(s, a) && s.memMap[s.cells[Entry(a)].frame] == 1 && Writer(w) !in s.cells
    requires x < |s.swapMap| && s.swapMap[x] == 0
    requires s' == s.(swapMap := s.swapMap[x := 1], locks := if x in s.locks then s.locks else s.locks[x := Writer(w)],
                      cells := s.cells[Entry(a) := Swapped(x)][Writer(w) := Writing(x, s.cells[Entry(a)].frame)])
    ensures Inv(s')
  {
    var f := s.cells[Entry(a)].frame;
    SlotUnnamed(s, x);
    hide Counts, OneWriter, LocksOk, LocalOk;
    WriterComes(s.locks, s.cells, a, Writer(w), x, f);
    SendCounts(s, w, a, x, f);
    SendLocals(s, w, a, x, f, s');
  }

  lemma SendLocals(s: State, w: nat, a: Addr, x: nat, f: nat, s': State)
    requires Inv(s) && IsPresent(s, a) && f == s.cells[Entry(a)].frame && s.memMap[f] == 1 && Writer(w) !in s.cells
    requires x < |s.swapMap| && s.swapMap[x] == 0 && s'.memMap == s.memMap && s'.frames == s.frames && s'.swap == s.swap
    requires s'.swapMap == s.swapMap[x := 1] && s'.cells == s.cells[Entry(a) := Swapped(x)][Writer(w) := Writing(x, f)]
    ensures forall p :: p in s'.cells ==> LocalOk(s', p)
  {
    hide Counts, OneWriter, LocksOk;
    forall p | p in s'.cells
      ensures LocalOk(s', p)
    {
      if p in s.cells { assert LocalOk(s, p); }
    }
  }

  lemma SendCounts(s: State, w: nat, a: Addr, x: nat, f: nat)
    requires Inv(s) && IsPresent(s, a) && f == s.cells[Entry(a)].frame && s.memMap[f] == 1 && Writer(w) !in s.cells
    requires x < |s.swapMap| && s.swapMap[x] == 0
    ensures Counts(s.cells[Entry(a) := Swapped(x)][Writer(w) := Writing(x, f)], s.memMap, s.swapMap[x := 1])
  {
    hide Counts, OneWriter, LocksOk, LocalOk;
    PlaceRight(s, Entry(a));
    var m1, w1 := s.memMap[f := 0], s.swapMap[x := 1];
    PutCounts(s.cells, s.memMap, s.swapMap, Entry(a), Swapped(x), m1, w1);
    PutCounts(s.cells[Entry(a) := Swapped(x)], m1, w1, Writer(w), Writing(x, f), s.memMap, w1);
  }

  lemma WriterComes(locks: map<nat, Place>, cells: map<Place, Cell>, a: Addr, p: Place, x: nat, f: nat)
    requires LocksOk(locks, cells) && OneWriter(cells) && p !in cells && p.Writer?
    requires Entry(a) in cells && cells[Entry(a)].Present? && forall q :: q in cells ==> !Writes(cells[q], x)
    ensures var cells' := cells[Entry(a) := Swapped(x)][p := Writing(x, f)];
            LocksOk(if x in locks then locks else locks[x := p], cells') && OneWriter(cells')
  {
    var cells' := cells[Entry(a) := Swapped(x)][p := Writing(x, f)];
    assert forall q :: q != p && q in cells' && cells'[q].Writing? ==> q in cells && cells[q] == cells'[q] && !Writes(cells[q], x);
  }

  lemma SendOutViews(s: State, w: nat, a: Addr, x: nat, s': State)
    requires Inv(s) && IsPresent(s, a) && s.memMap[s.cells[Entry(a)].frame] == 1 && Writer(w) !in s.cells
    requires x < |s.swapMap| && s.swapMap[x] == 0
    requires s' == s.(swapMap := s.swapMap[x := 1], locks := if x in s.locks then s.locks else s.locks[x := Writer(w)],
                      cells := s.cells[Entry(a) := Swapped(x)][Writer(w) := Writing(x, s.cells[Entry(a)].frame)])
    ensures SameViews(s, s')
  {
    hide Stored;
    SlotUnnamed(s, x);
    WriterComes(s.locks, s.cells, a, Writer(w), x, s.cells[Entry(a)].frame);
    hide Counts, OneWriter, LocksOk, LocalOk;
    StoredBy(s', Writer(w));
    forall y: nat | y != x
      ensures Stored(s', y) == Stored(s, y)
    {
      OthersStored(s, s', Writer(w), y);
    }
  }

  /** The write of one task does not concern other slots. */
  lemma OthersStored(s: State, s': State, p: Place, y: nat)
    requires OneWriter(s.cells) && OneWriter(s'.cells) && s'.frames == s.frames && |s'.swap| == |s.swap|
    requires forall q :: q != p ==> (WritesAt(s, q) <==> WritesAt(s', q)) && (WritesAt(s, q) ==> s'.cells[q] == s.cells[q])
    requires (p in s.cells ==> !Writes(s.cells[p], y)) && (p in s'.cells ==> !Writes(s'.cells[p], y))
    requires y < |s.swap| ==> s'.swap[y] == s.swap[y]
    ensures Stored(s', y) == Stored(s, y)
  {
    if Outstanding(s, y) {
      var q :| q in s.cells && Writes(s.cells[q], y);
      assert WritesAt(s, q) && Writes(s'.cells[q], y);
      StoredBy(s, q);
      StoredBy(s', q);
    } else {
      forall q | q in s'.cells
        ensures !Writes(s'.cells[q], y)
      {
        if WritesAt(s', q) && q != p { assert WritesAt(s, q); }
      }
    }
  }

  /** A writer that waited gets the lock. */
  lemma LockTaken(s: State, w: nat, s': State)
    requires Inv(s) && Writer(w) in s.cells && s.cells[Writer(w)].Writing? && s.cells[Writer(w)].slot !in s.locks
    requires s' == s.(locks := s.locks[s.cells[Writer(w)].slot := Writer(w)])
    ensures Inv(s') && SameViews(s, s')
  {
    hide Counts, Stored;
    StoredKept(s, s');
    forall p | p in s'.cells
      ensures LocalOk(s', p)
    {
      assert LocalOk(s, p);
    }
  }

  /** The write to the swap slot has finished. */
  lemma WriteOut(s: State, w: nat, s': State)
    requires Inv(s) && Possible(s, SwapOutDone(w)) && s' == Next(s, SwapOutDone(w))
    ensures Inv(s')
  {
    hide LocalOk, Counts, OneWriter;
    FrameCounted(s, Writer(w), s.cells[Writer(w)].frame);
    WriterLeaves(s.locks, s.cells, Writer(w));
    hide LocksOk;
    DelCounts(s.cells, s.memMap, s.swapMap, Writer(w), s'.memMap, s.swapMap);
    WriteLocals(s, w, s');
  }

  lemma WriteLocals(s: State, w: nat, s': State)
    requires Inv(s) && Possible(s, SwapOutDone(w)) && s' == Next(s, SwapOutDone(w))
    ensures forall p :: p in s'.cells ==> LocalOk(s', p)
  {
    hide Counts, OneWriter;
    var x, f := s.cells[Writer(w)].slot, s.cells[Writer(w)].frame;
    FrameCounted(s, Writer(w), f);
    NotRead(s, Writer(w), x);
    hide LocksOk;
    var s1 := s'.(swap := s.swap);
    SleeperLocals(s, Writer(w), s1);
    forall p | p in s'.cells
      ensures LocalOk(s', p)
    {
      assert LocalOk(s1, p);
    }
  }

  /** Whoever has read from a slot holds its lock, so nobody else does. */
  lemma NotRead(s: State, q: Place, x: nat)
    requires LocksOk(s.locks, s.cells) && x in s.locks && s.locks[x] == q && q in s.cells && !s.cells[q].ReadIn?
    ensures forall p :: p in s.cells && s.cells[p].ReadIn? ==> s.cells[p].slot != x
  {
  }

  lemma WriterLeaves(locks: map<nat, Place>, cells: map<Place, Cell>, p: Place)
    requires LocksOk(locks, cells) && p in cells && cells[p].Writing? && cells[p].slot in locks && locks[cells[p].slot] == p
    ensures LocksOk(locks - {cells[p].slot}, cells - {p}) && (OneWriter(cells) ==> OneWriter(cells - {p}))
  {
  }

  lemma WriteOutViews(s: State, w: nat, s': State)
    requires Inv(s) && Possible(s, SwapOutDone(w)) && s' == Next(s, SwapOutDone(w))
    ensures SameViews(s, s')
  {
    hide Stored, Counts, LocalOk;
    var x := s.cells[Writer(w)].slot;
    StoredBy(s, Writer(w));
    NoneLeft(s, Writer(w), s');
    WriterLeaves(s.locks, s.cells, Writer(w));
    hide OneWriter, LocksOk;
    forall y: nat | y != x
      ensures Stored(s', y) == Stored(s, y)
    {
      OthersStored(s, s', Writer(w), y);
    }
  }

  lemma NoneLeft(s: State, p: Place, s': State)
    requires OneWriter(s.cells) && p in s.cells && s.cells[p].Writing? && s'.cells == s.cells - {p} && s.cells[p].slot < |s'.swap|
    ensures Stored(s', s.cells[p].slot) == s'.swap[s.cells[p].slot]
  {
    assert forall q :: q in s'.cells ==> !Writes(s'.cells[q], s.cells[p].slot);
  }

  /** An entry of a present page is cleared: exit, unmapping, or forgetting a clean page. */
  lemma ClearEntry(s: State, a: Addr, s': State)
    requires Inv(s) && IsPresent(s, a) && s.memMap[s.cells[Entry(a)].frame] > 0
    requires s' == s.(memMap := FreePage(s.memMap, s.cells[Entry(a)].frame), cells := s.cells - {Entry(a)})
    ensures Inv(s')
    ensures forall b :: View(s', b) == if b == a then ZeroPage() else View(s, b)
  {
    hide Counts, Stored, OneWriter, LocksOk;
    var f := s.cells[Entry(a)].frame;
    DelCounts(s.cells, s.memMap, s.swapMap, Entry(a), s'.memMap, s.swapMap);
    OrderKept(s.locks, s.cells, s'.cells);
    StoredKept(s, s');
    forall p | p in s'.cells
      ensures LocalOk(s', p)
    {
      assert LocalOk(s, p);
      if NamesFrame(s.cells[p], f) && s.memMap[f] == 1 {
        Sole(s, p, f);
      }
    }
  }

  /** An entry of a swapped page is cleared; the slot is still counted until swap_free gets its lock. */
  lemma ClearSwapped(s: State, t: nat, a: Addr, s': State)
    requires Inv(s) && IsSwapped(s, a) && Idle(s, t)
    requires s' == s.(cells := (s.cells - {Entry(a)})[Sleeper(t) := Releasing(s.cells[Entry(a)].slot)])
    ensures Inv(s')
  {
    hide Counts, OneWriter, LocksOk, LocalOk;
    var x := s.cells[Entry(a)].slot;
    ClearCounts(s, t, a, x);
    OrderKept(s.locks, s.cells, s'.cells);
    ClearLocals(s, t, a, x, s');
  }

  lemma ClearLocals(s: State, t: nat, a: Addr, x: nat, s': State)
    requires Inv(s) && Entry(a) in s.cells && s.cells[Entry(a)] == Swapped(x) && Idle(s, t)
    requires s' == s.(cells := (s.cells - {Entry(a)})[Sleeper(t) := Releasing(x)])
    ensures forall p :: p in s'.cells ==> LocalOk(s', p)
  {
    hide Counts, OneWriter, LocksOk;
    assert LocalOk(s, Entry(a));
    forall p | p in s'.cells
      ensures LocalOk(s', p)
    {
      assert p != Sleeper(t) ==> LocalOk(s, p);
    }
  }

  lemma ClearCounts(s: State, t: nat, a: Addr, x: nat)
    requires Inv(s) && Entry(a) in s.cells && s.cells[Entry(a)] == Swapped(x) && Idle(s, t)
    ensures Counts((s.cells - {Entry(a)})[Sleeper(t) := Releasing(x)], s.memMap, s.swapMap)
  {
    hide OneWriter, LocksOk, LocalOk;
    SlotCounted(s, Entry(a), x);
    hide Counts;
    var w1 := s.swapMap[x := s.swapMap[x] - 1];
    DelCounts(s.cells, s.memMap, s.swapMap, Entry(a), s.memMap, w1);
    PutCounts(s.cells - {Entry(a)}, s.memMap, w1, Sleeper(t), Releasing(x), s.memMap, s.swapMap);
  }

  lemma ClearViews(s: State, t: nat, a: Addr, s': State)
    requires Inv(s) && IsSwapped(s, a) && Idle(s, t)
    requires s' == s.(cells := (s.cells - {Entry(a)})[Sleeper(t) := Releasing(s.cells[Entry(a)].slot)])
    ensures forall b :: View(s', b) == if b == a then ZeroPage() else View(s, b)
  {
    hide Counts, Stored, OneWriter, LocksOk, LocalOk;
    StoredKept(s, s');
  }

  lemma SlotCounted(s: State, p: Place, x: nat)
    requires Inv(s) && p in s.cells && NamesSlot(s.cells[p], x)
    ensures x < |s.swapMap| && s.swapMap[x] > 0
  {
    assert p in SlotHolders(s.cells, x);
  }

  lemma FrameCounted(s: State, p: Place, f: nat)
    requires Inv(s) && p in s.cells && NamesFrame(s.cells[p], f)
    ensures f < |s.memMap| && s.memMap[f] > 0
  {
    assert p in Holders(s.cells, f);
  }

  /** swap_free when it has the lock, by a task that was waiting for it or by an entry being cleared. */
  lemma ReleaseSlot(s: State, p: Place, s': State)
    requires Inv(s) && p in s.cells && (s.cells[p].Releasing? || s.cells[p].Swapped?)
    requires s' == s.(swapMap := FreeSlot(s.swapMap, s.cells[p].slot), cells := s.cells - {p})
    ensures Inv(s') <==> MayFree(s, s.cells[p].slot)
  {
    hide OneWriter, LocksOk;
    var x := s.cells[p].slot;
    SlotCounted(s, p, x);
    hide Counts;
    DelCounts(s.cells, s.memMap, s.swapMap, p, s.memMap, s'.swapMap);
    OrderKept(s.locks, s.cells, s'.cells);
    FreeLocals(s, p, x, s');
  }

  lemma FreeLocals(s: State, p: Place, x: nat, s': State)
    requires Inv(s) && p in s.cells && NamesSlot(s.cells[p], x) && x < |s.swapMap| && s.swapMap[x] > 0 && s'.cells == s.cells - {p}
    requires s'.memMap == s.memMap && s'.frames == s.frames && s'.swap == s.swap && s'.swapMap == FreeSlot(s.swapMap, x)
    ensures (forall q :: q in s'.cells ==> LocalOk(s', q)) <==> MayFree(s, x)
  {
    hide Counts, OneWriter, LocksOk;
    if MayFree(s, x) {
      forall q | q in s'.cells
        ensures LocalOk(s', q)
      {
        assert LocalOk(s, q);
      }
    } else {
      var q :| q in s.cells && Writes(s.cells[q], x);
      assert q in s'.cells && !LocalOk(s', q);
    }
  }

  lemma ReleaseViews(s: State, p: Place, s': State)
    requires Inv(s) && p in s.cells && (s.cells[p].Releasing? || s.cells[p].Swapped?)
    requires s' == s.(swapMap := FreeSlot(s.swapMap, s.cells[p].slot), cells := s.cells - {p})
    ensures forall b :: View(s', b) == if Entry(b) == p then ZeroPage() else View(s, b)
  {
    hide Counts, Stored, OneWriter, LocksOk, LocalOk;
    PlaceRight(s, p);
    StoredKept(s, s');
  }

  /** Fork copies a swapped entry. */
  lemma ShareSlot(s: State, a: Addr, b: Addr, s': State)
    requires Inv(s) && IsSwapped(s, a) && Entry(b) !in s.cells
    requires var x := s.cells[Entry(a)].slot;
             s' == s.(swapMap := s.swapMap[x := s.swapMap[x] + 1], cells := s.cells[Entry(b) := s.cells[Entry(a)]])
    ensures Inv(s')
    ensures forall b' :: View(s', b') == if b' == b then View(s, a) else View(s, b')
  {
    hide Counts, Stored, OneWriter, LocksOk;
    PutCounts(s.cells, s.memMap, s.swapMap, Entry(b), s.cells[Entry(a)], s.memMap, s'.swapMap);
    OrderKept(s.locks, s.cells, s'.cells);
    StoredKept(s, s');
    forall p | p in s'.cells
      ensures LocalOk(s', p)
    {
      assert p != Entry(b) ==> LocalOk(s, p);
    }
  }

  /** Fork shares a present page: both entries lose write access. */
  lemma ShareFrame(s: State, a: Addr, b: Addr, s': State)
    requires Inv(s) && IsPresent(s, a) && Entry(b) !in s.cells
    requires var pg := s.cells[Entry(a)].(rw := false);
             s' == s.(memMap := s.memMap[pg.frame := s.memMap[pg.frame] + 1],
                      cells := s.cells[Entry(b) := pg][Entry(a) := pg])
    ensures Inv(s')
  {
    var pg := s.cells[Entry(a)].(rw := false);
    hide Counts, OneWriter, LocksOk, LocalOk;
    ShareCounts(s, a, b, pg);
    PlaceRight(s, Entry(a));
    OrderKept(s.locks, s.cells, s'.cells);
    ShareLocals(s, a, b, pg, s');
  }

  lemma ShareLocals(s: State, a: Addr, b: Addr, pg: Cell, s': State)
    requires Inv(s) && IsPresent(s, a) && Entry(b) !in s.cells && pg == s.cells[Entry(a)].(rw := false) && pg.frame < |s.memMap|
    requires s' == s.(memMap := s.memMap[pg.frame := s.memMap[pg.frame] + 1], cells := s.cells[Entry(b) := pg][Entry(a) := pg])
    ensures forall p :: p in s'.cells ==> LocalOk(s', p)
  {
    hide OneWriter, LocksOk;
    assert LocalOk(s, Entry(a));
    hide Counts;
    forall p | p in s'.cells
      ensures LocalOk(s', p)
    {
      if p != Entry(b) && p != Entry(a) {
        assert LocalOk(s, p);
        if NamesFrame(s.cells[p], pg.frame) && s.memMap[pg.frame] == 1 {
          Sole(s, Entry(a), pg.frame);
        }
      }
    }
  }

  lemma ShareCounts(s: State, a: Addr, b: Addr, pg: Cell)
    requires Inv(s) && IsPresent(s, a) && Entry(b) !in s.cells && pg == s.cells[Entry(a)].(rw := false)
    ensures Counts(s.cells[Entry(b) := pg][Entry(a) := pg], s.memMap[pg.frame := s.memMap[pg.frame] + 1], s.swapMap)
  {
    hide Counts, OneWriter, LocksOk, LocalOk;
    PlaceRight(s, Entry(a));
    var m1 := s.memMap[pg.frame := s.memMap[pg.frame] + 1];
    PutCounts(s.cells, s.memMap, s.swapMap, Entry(b), pg, m1, s.swapMap);
    PutCounts(s.cells[Entry(b) := pg], m1, s.swapMap, Entry(a), pg, m1, s.swapMap);
  }

  lemma ShareFrameViews(s: State, a: Addr, b: Addr, s': State)
    requires Inv(s) && IsPresent(s, a) && Entry(b) !in s.cells
    requires var pg := s.cells[Entry(a)].(rw := false);
             s' == s.(memMap := s.memMap[pg.frame := s.memMap[pg.frame] + 1],
                      cells := s.cells[Entry(b) := pg][Entry(a) := pg])
    ensures forall b' :: View(s', b') == if b' == b then View(s, a) else View(s, b')
  {
    hide Counts, Stored, OneWriter, LocksOk;
    StoredKept(s, s');
  }

  // ---------- every step ----------

  ghost function ViewOf(s: State): Addr -> Page { a => View(s, a) }

  ghost predicate Refines(s: State, l: Step, s': State) {
    forall b :: View(s', b) == FlatNext(ViewOf(s), l)(b)
  }

  lemma AccessStep(s: State, l: Step)
    requires Inv(s) && Possible(s, l) && (l.UserRead? || l.UserWrite? || l.Age? || l.WpOwn?)
    ensures Inv(Next(s, l)) && Refines(s, l, Next(s, l))
  {
    var s' := Next(s, l);
    assert LocalOk(s, Entry(l.a));
    if l.UserWrite? {
      Store(s, l.a, l.off, l.b, s');
      StoreViews(s, l.a, l.off, l.b, s');
    } else {
      SetFlags(s, l.a, s'.cells[Entry(l.a)], s');
    }
  }

  lemma StartStep(s: State, l: Step)
    requires Inv(s) && Possible(s, l) && (l.FillStart? || l.CopyStart? || l.ReadStart?)
    ensures Inv(Next(s, l)) && Refines(s, l, Next(s, l))
  {
    var s' := Next(s, l);
    var c := s'.cells[Sleeper(l.t)];
    Acquire(s, l.t, c, s'.frames[l.f], s');
    AcquireViews(s, l.t, c, s'.frames[l.f], s');
  }

  lemma FillStep(s: State, t: nat)
    requires Inv(s) && Possible(s, FillDone(t))
    ensures Inv(Next(s, FillDone(t))) <==> Vacant(s, FillDone(t))
    ensures SameViews(s, Next(s, FillDone(t))) <==> ViewsKept(s, FillDone(t))
  {
    hide Counts, Stored, OneWriter, LocksOk;
    var s', c := Next(s, FillDone(t)), s.cells[Sleeper(t)];
    OverwriteViews(s, t, s');
    if Entry(c.a) in s.cells {
      Overwrite(s, t, s');
      assert View(s', c.a) == ZeroPage();
    } else {
      Install(s, t, s');
    }
  }

  lemma CopyStep(s: State, t: nat)
    requires Inv(s) && Possible(s, CopyDone(t))
    ensures Inv(CopyDoneState(s, t)) && SameViews(s, CopyDoneState(s, t))
  {
    hide Counts, Stored, OneWriter, LocksOk, LocalOk;
    var c, s' := s.cells[Sleeper(t)], CopyDoneState(s, t);
    if !IsPresent(s, c.a) || s.cells[Entry(c.a)].rw {
      GiveBack(s, t, s');
      GiveBackViews(s, t, s');
    } else {
      var pg := s.cells[Entry(c.a)];
      FrameCounted(s, Entry(c.a), pg.frame);
      if s.memMap[pg.frame] != 1 {
        TakeCopy(s, t, s');
        TakeCopyViews(s, t, s');
      } else {
        var s1 := s.(cells := s.cells[Entry(c.a) := pg.(rw := true)]);
        SetFlags(s, c.a, pg.(rw := true), s1);
        assert s1.cells - {Sleeper(t)} == (s.cells - {Sleeper(t)})[Entry(c.a) := pg.(rw := true)];
        GiveBack(s1, t, s');
        GiveBackViews(s1, t, s');
      }
    }
  }

  lemma ReadStep(s: State, t: nat)
    requires Inv(s) && Possible(s, ReadDone(t))
    ensures Inv(Next(s, ReadDone(t))) <==> Spared(s, ReadDone(t))
    ensures SameViews(s, Next(s, ReadDone(t))) <==> ViewsKept(s, ReadDone(t))
  {
    var s', c := Next(s, ReadDone(t)), s.cells[Sleeper(t)];
    hide Counts, Stored, OneWriter, LocksOk;
    if Unchanged(s, c) {
      BringIn(s, t, s');
      BringViews(s, t, s');
      SameBytes(s, c.slot);
      assert View(s', c.a) == s.swap[c.slot] && View(s, c.a) == Stored(s, c.slot);
    } else {
      FrameCounted(s, Sleeper(t), c.frame);
      GiveBack(s, t, s');
      GiveBackViews(s, t, s');
    }
  }

  /** The slot holds what it stands for exactly if no other bytes have still to be written to it. */
  lemma SameBytes(s: State, x: nat)
    requires Inv(s) && x < |s.swap|
    ensures Stored(s, x) == s.swap[x] <==> !Overwritten(s, x)
  {
    hide Counts;
    forall p | p in s.cells && Writes(s.cells[p], x)
      ensures Stored(s, x) == s.frames[s.cells[p].frame]
    {
      StoredBy(s, p);
    }
  }

  lemma OutStep(s: State, l: Step)
    requires Inv(s) && Possible(s, l) && (l.SwapOut? || l.WriteStart? || l.SwapOutDone? || l.Forget?)
    ensures Inv(Next(s, l)) && SameViews(s, Next(s, l))
  {
    hide Counts, Stored, OneWriter, LocksOk;
    var s' := Next(s, l);
    match l {
      case SwapOut(w, a, x) =>
        SendOut(s, w, a, x, s');
        SendOutViews(s, w, a, x, s');
      case WriteStart(w) =>
        LockTaken(s, w, s');
      case SwapOutDone(w) =>
        WriteOut(s, w, s');
        WriteOutViews(s, w, s');
      case Forget(a) =>
        assert LocalOk(s, Entry(a));
        ClearEntry(s, a, s');
    }
  }

  lemma FreeStep(s: State, l: Step)
    requires Inv(s) && Possible(s, l) && (l.Unmap? || l.ReleaseDone?)
    ensures Inv(Next(s, l)) <==> Spared(s, l)
    ensures Refines(s, l, Next(s, l))
  {
    hide Counts, LocalOk, Stored, OneWriter, LocksOk;
    var s' := Next(s, l);
    match l {
      case Unmap(t, a) =>
        if IsPresent(s, a) {
          ClearEntry(s, a, s');
        } else if IsSwapped(s, a) {
          if s.cells[Entry(a)].slot in s.locks {
            ClearSwapped(s, t, a, s');
            ClearViews(s, t, a, s');
          } else {
            ReleaseSlot(s, Entry(a), s');
            ReleaseViews(s, Entry(a), s');
          }
        }
      case ReleaseDone(t) =>
        ReleaseSlot(s, Sleeper(t), s');
        ReleaseViews(s, Sleeper(t), s');
    }
  }

  lemma ForkStep(s: State, l: Step)
    requires Inv(s) && Possible(s, l) && l.ForkPage?
    ensures Inv(Next(s, l)) && Refines(s, l, Next(s, l))
  {
    var s', p, c := Next(s, l), Addr(l.parent, l.page), Addr(l.child, l.page);
    if IsPresent(s, p) {
      ShareFrame(s, p, c, s');
      ShareFrameViews(s, p, c, s');
    } else if IsSwapped(s, p) {
      SlotCounted(s, Entry(p), s.cells[Entry(p)].slot);
      ShareSlot(s, p, c, s');
    }
  }

  /** The test of put_page: the entry is still empty when the fault ends. */
  predicate Vacant(s: State, l: Step)
    requires Possible(s, l)
  {
    l.FillDone? ==> Entry(s.cells[Sleeper(l.t)].a) !in s.cells
  }

  /** The slot to which the step gives up a reference, if it does: swap_free with the lock, at the end of swap_in, or when
      an entry is cleared, or later by a task that had to wait. */
  function Freed(s: State, l: Step): set<nat>
    requires Possible(s, l)
  {
    match l
    case ReadDone(t) => if Unchanged(s, s.cells[Sleeper(t)]) then {s.cells[Sleeper(t)].slot} else {}
    case Unmap(t, a) => if IsSwapped(s, a) && s.cells[Entry(a)].slot !in s.locks then {s.cells[Entry(a)].slot} else {}
    case ReleaseDone(t) => {s.cells[Sleeper(t)].slot}
    case _ => {}
  }

  /** No slot loses its last reference while somebody has still to write to it. */
  ghost predicate Spared(s: State, l: Step)
    requires Possible(s, l)
  {
    forall x :: x in Freed(s, l) && x < |s.swapMap| ==> MayFree(s, x)
  }

  /** Bytes other than those in the slot have still to be written to it. */
  ghost predicate Overwritten(s: State, x: nat)
    requires x < |s.swap|
  {
    exists p :: p in s.cells && Writes(s.cells[p], x) && FrameAt(s, s.cells[p].frame) != s.swap[x]
  }

  /** A fault ends on an entry that is empty, or at least still reads as zero; and swap_in does not find its entry
      unchanged while other bytes wait to be written to the slot that it has read. */
  ghost predicate ViewsKept(s: State, l: Step)
    requires Possible(s, l)
  {
    match l
    case FillDone(t) => Vacant(s, l) || View(s, s.cells[Sleeper(t)].a) == ZeroPage()
    case ReadDone(t) =>
      var c := s.cells[Sleeper(t)];
      Unchanged(s, c) && c.slot < |s.swap| ==> !Overwritten(s, c.slot)
    case _ => true
  }

  /** For every step, whichever tasks share address spaces: the counts, the sharing discipline, the zero pages and the
      order of reads and writes are kept exactly when put_page finds the entry empty and no slot loses its last
      reference under a write, and what every process sees changes as if it owned a separate flat memory exactly
      when ViewsKept. */
  lemma StepCorrect(s: State, l: Step)
    requires Inv(s) && Possible(s, l)
    ensures Inv(Next(s, l)) <==> Vacant(s, l) && Spared(s, l)
    ensures Refines(s, l, Next(s, l)) <==> ViewsKept(s, l)
  {
    hide Inv, Stored;
    match l {
      case FillDone(t) => FillStep(s, t);
      case CopyDone(t) => CopyStep(s, t);
      case ReadData(t) =>
        ReadInto(s, t, Next(s, l));
        ReadIntoViews(s, t, s.cells[Sleeper(t)], Next(s, l));
      case ReadDone(t) => ReadStep(s, t);
      case UserRead(_) => AccessStep(s, l);
      case UserWrite(_, _, _) => AccessStep(s, l);
      case Age(_) => AccessStep(s, l);
      case WpOwn(_) => AccessStep(s, l);
      case FillStart(_, _, _) => StartStep(s, l);
      case CopyStart(_, _, _) => StartStep(s, l);
      case ReadStart(_, _, _) => StartStep(s, l);
      case Unmap(_, _) => FreeStep(s, l);
      case ReleaseDone(_) => FreeStep(s, l);
      case ForkPage(_, _, _) => ForkStep(s, l);
      case _ => OutStep(s, l);
    }
  }

  // ---------- every run ----------

  function Init(nf: nat, ns: nat): State {
    State(seq(nf, i => 0), seq(nf, i => ZeroPage()), seq(ns, i => 0), seq(ns, i => ZeroPage()), map[], map[])
  }

  lemma InitInv(nf: nat, ns: nat)
    ensures Inv(Init(nf, ns)) && Solo(Init(nf, ns))
    ensures forall a :: View(Init(nf, ns), a) == ZeroPage()
  {
    var s := Init(nf, ns);
    forall n: nat
      ensures Holders(s.cells, n) == {} && SlotHolders(s.cells, n) == {}
    {
    }
  }

  predicate IsRun(s: State, ls: seq<Step>)
    decreases |ls|
  {
    ls == [] || (Possible(s, ls[0]) && IsRun(Next(s, ls[0]), ls[1..]))
  }

  function Run(s: State, ls: seq<Step>): State
    requires IsRun(s, ls)
    decreases |ls|
  {
    if ls == [] then s else Run(Next(s, ls[0]), ls[1..])
  }

  /** No fault of the run ends on an entry that is no longer empty, no slot loses its last reference under a write, and
      no swap_in finds its entry unchanged while other bytes wait to be written to the slot. */
  ghost predicate Smooth(s: State, ls: seq<Step>)
    requires IsRun(s, ls)
    decreases |ls|
  {
    ls == [] || (Vacant(s, ls[0]) && Spared(s, ls[0]) && ViewsKept(s, ls[0]) && Smooth(Next(s, ls[0]), ls[1..]))
  }

  ghost function FlatRun(m: Addr -> Page, ls: seq<Step>): Addr -> Page
    decreases |ls|
  {
    if ls == [] then m else FlatRun(FlatNext(m, ls[0]), ls[1..])
  }

  /** Flat memories that agree everywhere stay in agreement. */
  lemma {:induction false} FlatRunAgrees(m: Addr -> Page, m': Addr -> Page, ls: seq<Step>)
    requires forall a :: m(a) == m'(a)
    ensures forall a :: FlatRun(m, ls)(a) == FlatRun(m', ls)(a)
    decreases |ls|
  {
    if ls != [] {
      FlatRunAgrees(FlatNext(m, ls[0]), FlatNext(m', ls[0]), ls[1..]);
    }
  }

  /** Every smooth run, whichever tasks share address spaces, refines separate flat memories. */
  lemma {:induction false} RunRefines(s: State, ls: seq<Step>)
    requires Inv(s) && IsRun(s, ls) && Smooth(s, ls)
    ensures Inv(Run(s, ls))
    ensures forall a :: View(Run(s, ls), a) == FlatRun(ViewOf(s), ls)(a)
    decreases |ls|
  {
    if ls != [] {
      var s1 := Next(s, ls[0]);
      StepCorrect(s, ls[0]);
      RunRefines(s1, ls[1..]);
      FlatRunAgrees(ViewOf(s1), FlatNext(ViewOf(s), ls[0]), ls[1..]);
    }
  }

  // ---------- one task for each address space ----------

  predicate Faulting(c: Cell) { c.Filling? || c.Reading? || c.ReadIn? }

  predicate Faults(c: Cell, a: Addr) { Faulting(c) && c.a == a }

  /** No task is asleep filling or reading in this page. */
  ghost predicate Quiet(s: State, a: Addr) {
    forall p :: p in s.cells ==> !Faults(s.cells[p], a)
  }

  /** What one task for each address space guarantees: nobody starts a fault on a page, unmaps it or forks into it
      while somebody is asleep in a fault on it. */
  ghost predicate Alone(s: State, l: Step) {
    match l
    case FillStart(_, a, _) => Quiet(s, a)
    case ReadStart(_, a, _) => Quiet(s, a)
    case Unmap(_, a) => Quiet(s, a)
    case ForkPage(p, c, v) => Quiet(s, Addr(c, v))
    case _ => true
  }

  ghost predicate OneTaskRun(s: State, ls: seq<Step>)
    requires IsRun(s, ls)
    decreases |ls|
  {
    ls == [] || (Alone(s, ls[0]) && OneTaskRun(Next(s, ls[0]), ls[1..]))
  }

  /** A task asleep in a fault finds the entry as it left it, and nobody has to write to the slot that it has read. */
  ghost predicate Owned(s: State, c: Cell) {
    match c
    case Filling(a, _) => Entry(a) !in s.cells
    case Reading(a, x, _) => Entry(a) in s.cells && s.cells[Entry(a)] == Swapped(x)
    case ReadIn(a, x, f) => Entry(a) in s.cells && s.cells[Entry(a)] == Swapped(x) && !Outstanding(s, x)
    case _ => true
  }

  /** No write waits: whoever has to write to a slot holds its lock. */
  ghost predicate Calm(s: State) {
    forall p :: WritesAt(s, p) ==> s.cells[p].slot in s.locks && s.locks[s.cells[p].slot] == p
  }

  ghost predicate Solo(s: State) {
    && Calm(s)
    && (forall p :: p in s.cells ==> Owned(s, s.cells[p]))
    && (forall p, q :: p in s.cells && q in s.cells && Faulting(s.cells[p]) && Faults(s.cells[q], s.cells[p].a) ==> p == q)
  }

  lemma SoloSmooth(s: State, l: Step)
    requires Inv(s) && Solo(s) && Possible(s, l)
    ensures Vacant(s, l) && Spared(s, l) && ViewsKept(s, l)
  {
    hide Inv, Stored;
    match l {
      case ReadDone(t) => OwnedAt(s, Sleeper(t));
      case FillDone(t) => OwnedAt(s, Sleeper(t));
      case Unmap(t, a) => if IsSwapped(s, a) { CalmFree(s, s.cells[Entry(a)].slot); }
      case ReleaseDone(t) => CalmFree(s, s.cells[Sleeper(t)].slot);
      case _ =>
    }
  }

  lemma CalmFree(s: State, x: nat)
    requires Calm(s)
    ensures x !in s.locks ==> !Outstanding(s, x)
  {
    if x !in s.locks {
      forall p | p in s.cells
        ensures !Writes(s.cells[p], x)
      {
        assert WritesAt(s, p) ==> s.cells[p].slot in s.locks;
      }
    }
  }

  /** A slot that an entry names is not handed out. */
  lemma SlotTaken(s: State, a: Addr, x: nat)
    requires Inv(s) && x < |s.swapMap| && s.swapMap[x] == 0
    ensures Entry(a) in s.cells ==> s.cells[Entry(a)] != Swapped(x)
  {
    SlotUnnamed(s, x);
  }

  /** Nobody else changes what a task asleep in a fault relies on. */
  lemma OwnedStays(s: State, l: Step, p: Place)
    requires Inv(s) && Solo(s) && Possible(s, l) && Alone(s, l) && p in s.cells && Faulting(s.cells[p])
    requires p in Next(s, l).cells && Next(s, l).cells[p] == s.cells[p]
    ensures Owned(Next(s, l), s.cells[p])
  {
    hide Inv, Solo;
    assert Owned(s, s.cells[p]) by { OwnedAt(s, p); }
    EntryStays(s, l, p);
    if s.cells[p].ReadIn? {
      ReadInStays(s, l, p);
    }
  }

  lemma OwnedAt(s: State, p: Place)
    requires Solo(s) && p in s.cells
    ensures Owned(s, s.cells[p]) && Calm(s)
    ensures Faulting(s.cells[p]) ==> forall q :: q in s.cells && Faults(s.cells[q], s.cells[p].a) ==> p == q
  {
  }

  lemma EntryStays(s: State, l: Step, p: Place)
    requires Inv(s) && Solo(s) && Possible(s, l) && Alone(s, l) && p in s.cells && Faulting(s.cells[p])
    requires p in Next(s, l).cells && Next(s, l).cells[p] == s.cells[p]
    ensures var e, s' := Entry(s.cells[p].a), Next(s, l);
            (e in s'.cells <==> e in s.cells) && (e in s.cells ==> s'.cells[e] == s.cells[e])
  {
    hide Inv, Solo, ViewsKept;
    OwnedAt(s, p);
    PlaceRight(s, p);
    if l.FillDone? { assert Faults(s.cells[Sleeper(l.t)], s.cells[Sleeper(l.t)].a); }
    if l.ReadDone? { assert Faults(s.cells[Sleeper(l.t)], s.cells[Sleeper(l.t)].a); }
  }

  lemma PlaceRight(s: State, p: Place)
    requires Inv(s) && p in s.cells
    ensures RightPlace(p, s.cells[p]) && InRange(s.cells[p], |s.memMap|, |s.swapMap|)
    ensures |s.frames| == |s.memMap| && |s.swap| == |s.swapMap|
  {
  }

  /** Nobody gets the slot that an entry names, to write to it. */
  lemma ReadInStays(s: State, l: Step, p: Place)
    requires Inv(s) && Possible(s, l) && p in s.cells && s.cells[p].ReadIn? && Owned(s, s.cells[p])
    requires p in Next(s, l).cells && Next(s, l).cells[p] == s.cells[p]
    ensures !Outstanding(Next(s, l), s.cells[p].slot)
  {
    hide Inv, Stored;
    var c, s' := s.cells[p], Next(s, l);
    if l.SwapOut? { SlotTaken(s, c.a, l.x); }
    forall q | q in s'.cells
      ensures !Writes(s'.cells[q], c.slot)
    {
      if q in s.cells { assert !Writes(s.cells[q], c.slot); }
    }
  }

  lemma CalmStep(s: State, l: Step)
    requires Inv(s) && Solo(s) && Possible(s, l)
    ensures Calm(Next(s, l))
  {
    hide Counts, LocalOk, Stored;
    if l.SwapOut? { CalmOut(s, l.x); }
    var s' := Next(s, l);
    forall p | WritesAt(s', p)
      ensures s'.cells[p].slot in s'.locks && s'.locks[s'.cells[p].slot] == p
    {
      WriterFrom(s, l, p);
      if WritesAt(s, p) { CalmStays(s, l, p); }
    }
  }

  lemma WriterFrom(s: State, l: Step, p: Place)
    requires Possible(s, l) && WritesAt(Next(s, l), p)
    ensures (WritesAt(s, p) && Next(s, l).cells[p] == s.cells[p]) || (l.SwapOut? && p == Writer(l.w))
  {
  }

  lemma CalmStays(s: State, l: Step, p: Place)
    requires Possible(s, l) && LocksOk(s.locks, s.cells) && WritesAt(s, p) && WritesAt(Next(s, l), p)
    requires s.cells[p].slot in s.locks && s.locks[s.cells[p].slot] == p
    ensures s.cells[p].slot in Next(s, l).locks && Next(s, l).locks[s.cells[p].slot] == p
  {
  }

  /** The lock of a slot that is given out is free. */
  lemma CalmOut(s: State, x: nat)
    requires Inv(s) && Solo(s) && x < |s.swapMap| && s.swapMap[x] == 0
    ensures x !in s.locks
  {
    hide Counts, Stored;
    SlotUnnamed(s, x);
    if x in s.locks {
      var p := s.locks[x];
      assert Busy(s.cells, p) && !Writes(s.cells[p], x);
      OwnedAt(s, p);
    }
  }

  lemma OwnedStep(s: State, l: Step, p: Place)
    requires Inv(s) && Solo(s) && Possible(s, l) && Alone(s, l) && p in Next(s, l).cells
    ensures Owned(Next(s, l), Next(s, l).cells[p])
  {
    hide Inv, Solo;
    var s' := Next(s, l);
    var c := s'.cells[p];
    if Faulting(c) {
      if p in s.cells && s.cells[p] == c {
        OwnedStays(s, l, p);
      } else {
        OwnedStarts(s, l, p);
      }
    }
  }

  /** The start of a fault and the end of the transfer. */
  lemma OwnedStarts(s: State, l: Step, p: Place)
    requires Inv(s) && Solo(s) && Possible(s, l) && p in Next(s, l).cells && Faulting(Next(s, l).cells[p])
    requires p !in s.cells || s.cells[p] != Next(s, l).cells[p]
    ensures Owned(Next(s, l), Next(s, l).cells[p])
  {
    hide Inv, Solo;
    if l.ReadData? {
      OwnedAt(s, Sleeper(l.t));
      CalmFree(s, s.cells[Sleeper(l.t)].slot);
      var c, s' := s.cells[Sleeper(l.t)], Next(s, l);
      assert forall q :: q in s'.cells && Writes(s'.cells[q], c.slot) ==> q in s.cells && Writes(s.cells[q], c.slot);
    }
  }

  lemma SoloStep(s: State, l: Step)
    requires Inv(s) && Solo(s) && Possible(s, l) && Alone(s, l)
    ensures Solo(Next(s, l))
  {
    var s' := Next(s, l);
    forall p | p in s'.cells
      ensures Owned(s', s'.cells[p])
    {
      OwnedStep(s, l, p);
    }
    SoloFaults(s, l);
    CalmStep(s, l);
  }

  /** A fault in progress was in progress before, or has just been started. */
  lemma FaultFrom(s: State, l: Step, p: Place)
    requires Inv(s) && Possible(s, l) && p in Next(s, l).cells && Faulting(Next(s, l).cells[p])
    ensures || (p in s.cells && Faults(s.cells[p], Next(s, l).cells[p].a))
            || ((l.FillStart? || l.ReadStart?) && p == Sleeper(l.t) && Next(s, l).cells[p].a == l.a)
  {
    hide Inv;
    if p in s.cells { PlaceRight(s, p); }
  }

  lemma SoloFaults(s: State, l: Step)
    requires Inv(s) && Solo(s) && Possible(s, l) && Alone(s, l)
    ensures var s' := Next(s, l);
            forall p, q :: p in s'.cells && q in s'.cells && Faulting(s'.cells[p]) && Faults(s'.cells[q], s'.cells[p].a) ==> p == q
  {
    hide Inv, Owned, Calm, Next, Possible;
    var s' := Next(s, l);
    forall p, q | p in s'.cells && q in s'.cells && Faulting(s'.cells[p]) && Faults(s'.cells[q], s'.cells[p].a)
      ensures p == q
    {
      FaultFrom(s, l, p);
      FaultFrom(s, l, q);
    }
  }

  lemma {:induction false} OneTaskSmooth(s: State, ls: seq<Step>)
    requires Inv(s) && Solo(s) && IsRun(s, ls) && OneTaskRun(s, ls)
    ensures Smooth(s, ls)
    decreases |ls|
  {
    hide Inv, Solo, Possible, Alone, Vacant, Spared, ViewsKept, Refines;
    if ls != [] {
      SoloSmooth(s, ls[0]);
      SoloStep(s, ls[0]);
      StepCorrect(s, ls[0]);
      OneTaskSmooth(Next(s, ls[0]), ls[1..]);
    }
  }

  /** With one task for each address space, over every run of faults, stores, swapping, fork and exit, interleaved
      at every sleep: a load through a present entry yields what the process's own flat memory holds, and a page
      that is shared or counted more than once is never writable. */
  lemma PrivateMemory(nf: nat, ns: nat, ls: seq<Step>, a: Addr)
    requires IsRun(Init(nf, ns), ls) && OneTaskRun(Init(nf, ns), ls)
    ensures var s := Run(Init(nf, ns), ls);
            var flat := FlatRun(b => ZeroPage(), ls);
            && View(s, a) == flat(a)
            && (IsPresent(s, a) ==>
                  && Framed(s, a)
                  && s.frames[s.cells[Entry(a)].frame] == flat(a)
                  && (s.cells[Entry(a)].rw ==> Holders(s.cells, s.cells[Entry(a)].frame) == {Entry(a)})
                  && (!s.cells[Entry(a)].dirty ==> flat(a) == ZeroPage()))
  {
    hide OneTaskRun, Smooth;
    var s0 := Init(nf, ns);
    InitInv(nf, ns);
    OneTaskSmooth(s0, ls);
    RunRefines(s0, ls);
    FlatRunAgrees(ViewOf(s0), b => ZeroPage(), ls);
    PresentReads(Run(s0, ls), a);
  }

  lemma PresentReads(s: State, a: Addr)
    requires Inv(s)
    ensures IsPresent(s, a) ==>
              && Framed(s, a)
              && s.frames[s.cells[Entry(a)].frame] == View(s, a)
              && (s.cells[Entry(a)].rw ==> Holders(s.cells, s.cells[Entry(a)].frame) == {Entry(a)})
              && (!s.cells[Entry(a)].dirty ==> View(s, a) == ZeroPage())
  {
    if IsPresent(s, a) {
      var f := s.cells[Entry(a)].frame;
      assert LocalOk(s, Entry(a));
      FrameCounted(s, Entry(a), f);
      if s.cells[Entry(a)].rw {
        Sole(s, Entry(a), f);
        assert Entry(a) in Holders(s.cells, f);
      }
    }
  }

  // ---------- what a fault achieves ----------

  /** A page-table entry that allows stores. */
  predicate Writable(s: State, a: Addr) { IsPresent(s, a) && Framed(s, a) && s.cells[Entry(a)].rw }

  /** Every way in which a fault ends lets the store that caused it go on: an unshared page that is taken over, a page that is
      copied or taken over after the allocation, an empty page that is filled, and a page that is brought in. */
  lemma FaultServes(s: State, l: Step, a: Addr)
    requires Inv(s) && Possible(s, l)
    requires match l
             case WpOwn(b) => a == b
             case CopyDone(t) => a == s.cells[Sleeper(t)].a && IsPresent(s, a)
             case FillDone(t) => a == s.cells[Sleeper(t)].a
             case ReadDone(t) => a == s.cells[Sleeper(t)].a && Unchanged(s, s.cells[Sleeper(t)])
             case _ => false
    ensures Writable(Next(s, l), a) && forall off, v :: Possible(Next(s, l), UserWrite(a, off, v))
    ensures l.FillDone? || l.ReadDone? ==> Next(s, l).cells[Entry(a)].accessed
  {
    hide Counts, OneWriter, LocksOk;
    if l.CopyDone? {
      CopyServes(s, l.t, a);
    } else if !l.WpOwn? {
      assert LocalOk(s, Sleeper(l.t));
    }
  }

  lemma CopyServes(s: State, t: nat, a: Addr)
    requires Inv(s) && Possible(s, CopyDone(t)) && a == s.cells[Sleeper(t)].a && IsPresent(s, a)
    ensures Writable(CopyDoneState(s, t), a)
  {
    var c, pg := s.cells[Sleeper(t)], s.cells[Entry(a)];
    assert LocalOk(s, Sleeper(t)) && LocalOk(s, Entry(a));
    Sole(s, Sleeper(t), c.frame);
    FrameCounted(s, Entry(a), pg.frame);
  }

  /** An access to a page goes on, or a fault can start on it, whatever the state of its entry. */
  lemma FaultStarts(s: State, t: nat, a: Addr, f: nat, off: nat, v: nat)
    requires Inv(s) && Idle(s, t) && FreeFrame(s, f)
    ensures Possible(s, UserWrite(a, off, v)) || Possible(s, FillStart(t, a, f)) || Possible(s, WpOwn(a))
            || Possible(s, CopyStart(t, a, f)) || Possible(s, ReadStart(t, a, f))
    ensures Possible(s, UserRead(a)) || Possible(s, FillStart(t, a, f)) || Possible(s, ReadStart(t, a, f))
  {
    hide Counts, OneWriter, LocksOk;
    if Entry(a) in s.cells {
      assert LocalOk(s, Entry(a));
    }
    if IsPresent(s, a) { PresentFramed(s, a); }
  }

  lemma PresentFramed(s: State, a: Addr)
    requires Inv(s) && IsPresent(s, a)
    ensures Framed(s, a)
  {
    assert LocalOk(s, Entry(a));
    FrameCounted(s, Entry(a), s.cells[Entry(a)].frame);
  }

  /** A page that is used is marked so, and cannot be taken away before it has been aged. */
  lemma UseMarks(s: State, l: Step, w: nat, x: nat)
    requires Inv(s) && Possible(s, l) && (l.UserRead? || l.UserWrite?)
    ensures Next(s, l).cells[Entry(l.a)].accessed && Possible(Next(s, l), Age(l.a))
    ensures !Possible(Next(s, l), SwapOut(w, l.a, x)) && !Possible(Next(s, l), Forget(l.a))
  {
    hide Counts, OneWriter, LocksOk;
  }

  /** Once it has, it can be if it is clean, or unshared and there is a free slot. */
  lemma AgeFrees(s: State, a: Addr, w: nat, x: nat)
    requires Inv(s) && Possible(s, Age(a)) && Writer(w) !in s.cells && x < |s.swapMap| && s.swapMap[x] == 0
    ensures var s', c := Next(s, Age(a)), s.cells[Entry(a)];
            if c.dirty then Possible(s', SwapOut(w, a, x)) <==> s.memMap[c.frame] == 1 else Possible(s', Forget(a))
  {
    hide Counts, OneWriter, LocksOk;
  }

  // ---------- nobody sleeps for ever ----------

  /** The step with which the task at a place goes on, and the slot whose lock it may have to wait for. */
  function Wakeup(p: Place, c: Cell, locked: bool): Step
    requires !p.Entry? && RightPlace(p, c)
  {
    match c
    case Writing(_, _) => if locked then SwapOutDone(p.task) else WriteStart(p.task)
    case Filling(_, _) => FillDone(p.task)
    case Copying(_, _) => CopyDone(p.task)
    case Reading(_, _, _) => ReadData(p.task)
    case ReadIn(_, _, _) => ReadDone(p.task)
    case _ => ReleaseDone(p.task)
  }

  predicate HasLock(s: State, p: Place, x: nat) { x in s.locks && s.locks[x] == p }

  /** The step of a task that sleeps. */
  function WakeupAt(s: State, p: Place): Step
    requires p in s.cells && !p.Entry? && RightPlace(p, s.cells[p])
  {
    Wakeup(p, s.cells[p], s.cells[p].Writing? && HasLock(s, p, s.cells[p].slot))
  }

  /** No task sleeps for ever: it can go on, or it waits for the lock of a slot whose holder can. */
  lemma Wakes(s: State, p: Place)
    requires Inv(s) && p in s.cells && !p.Entry?
    ensures RightPlace(p, s.cells[p])
    ensures || Possible(s, WakeupAt(s, p))
            || (&& (s.cells[p].Reading? || s.cells[p].Releasing? || s.cells[p].Writing?) && s.cells[p].slot in s.locks
                && var q := s.locks[s.cells[p].slot];
                q != p && q in s.cells && !q.Entry? && RightPlace(q, s.cells[q]) && Possible(s, WakeupAt(s, q)))
  {
    hide Counts, OneWriter;
    var c := s.cells[p];
    assert LocalOk(s, p);
    if c.Copying? && IsPresent(s, c.a) {
      FrameCounted(s, Entry(c.a), s.cells[Entry(c.a)].frame);
    }
    if (c.Reading? || c.Releasing? || c.Writing?) && c.slot in s.locks && s.locks[c.slot] != p {
      assert Busy(s.cells, s.locks[c.slot]) && LocalOk(s, s.locks[c.slot]);
    }
  }
}
