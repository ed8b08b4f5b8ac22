/** The kernel allocator of linux/mm/kmalloc.c: pages cut into blocks of eight sizes, a free list
    threaded through each page, and for each size a list of the pages that have a free block. */
module Kmalloc {
  import opened Bits
  import opened HashChains

  const PAGE_SIZE: nat := 4096
  const ORDERS: nat := 8
  const HEADER: nat := 8             // sizeof (struct block_header)
  const DESCRIPTOR: nat := 16        // sizeof (struct page_descriptor)
  const MAX_KMALLOC: nat := 4096
  const MAX_GET_FREE_PAGE_TRIES: nat := 4

  function BlockSize(order: nat): nat
    requires order < ORDERS
  {
    match order case 0 => 32 case 1 => 64 case 2 => 128 case 3 => 252 case 4 => 508 case 5 => 1020 case 6 => 2040 case _ => 4080
  }

  function NBlocks(order: nat): (n: nat)
    requires order < ORDERS
    ensures n > 0
  {
    match order case 0 => 127 case 1 => 63 case 2 => 31 case 3 => 16 case 4 => 8 case 5 => 4 case 6 => 2 case _ => 1
  }

  /** The address of block i of page p (pages are named by their number). */
  function BlockAt(p: nat, order: nat, i: nat): nat
    requires order < ORDERS
  {
    p * PAGE_SIZE + DESCRIPTOR + i * BlockSize(order)
  }

  predicate IsBlock(p: nat, order: nat, b: nat)
    requires order < ORDERS
  {
    exists i :: 0 <= i < NBlocks(order) && b == BlockAt(p, order, i)
  }

  /** `free` is the free list of the page; `used` gives the requested length of each block in use. */
  datatype Page = Page(order: nat, nfree: nat, free: seq<nat>, used: map<nat, nat>)

  datatype Heap = Heap(pages: map<nat, Page>, lists: seq<seq<nat>>)

  // ---------- the steps that run with interrupts off ----------

  /** Takes the first free block of the first page of the list. */
  function Take(h: Heap, order: nat, size: nat): Heap
    requires order < |h.lists| && h.lists[order] != [] && h.lists[order][0] in h.pages && h.pages[h.lists[order][0]].free != []
    requires h.pages[h.lists[order][0]].nfree > 0
  {
    var p := h.lists[order][0];
    var g := h.pages[p];
    var g' := Page(g.order, g.nfree - 1, g.free[1..], g.used[g.free[0] := size]);
    Heap(h.pages[p := g'], if g'.nfree == 0 then h.lists[order := h.lists[order][1..]] else h.lists)
  }

  function Fresh(p: nat, order: nat): Page
    requires order < ORDERS
  {
    Page(order, NBlocks(order), seq(NBlocks(order), i requires i >= 0 => BlockAt(p, order, i)), map[])
  }

  function AddPage(h: Heap, order: nat, p: nat): Heap
    requires order < |h.lists| && order < ORDERS
  {
    Heap(h.pages[p := Fresh(p, order)], h.lists[order := [p] + h.lists[order]])
  }

  /** Gives block b back, and its page when that was the last block in use. */
  function Free(h: Heap, p: nat, b: nat): Heap
    requires p in h.pages && h.pages[p].order < ORDERS && h.pages[p].order < |h.lists|
  {
    var g := h.pages[p];
    var g' := Page(g.order, g.nfree + 1, [b] + g.free, g.used - {b});
    var list := if g'.nfree == 1 then [p] + h.lists[g.order] else h.lists[g.order];
    if g'.nfree == NBlocks(g.order) then Heap(h.pages - {p}, h.lists[g.order := Without(list, p)])
    else Heap(h.pages[p := g'], h.lists[g.order := list])
  }

  // ---------- the invariant ----------

  /** The free list and the used blocks partition the blocks of the page. */
  ghost predicate PageOk(p: nat, g: Page) {
    && g.order < ORDERS && g.nfree == |g.free| && NoRepeat(g.free)
    && |g.free| + |g.used| == NBlocks(g.order)
    && (forall b :: b in g.free || b in g.used <==> IsBlock(p, g.order, b))
    && (forall b :: b in g.used ==> b !in g.free && g.used[b] + HEADER <= BlockSize(g.order))
  }

  /** A page is on the list of its size exactly when it has a free block. */
  ghost predicate ListOk(pages: map<nat, Page>, list: seq<nat>, order: nat) {
    NoRepeat(list) && forall p :: p in list <==> p in pages && pages[p].order == order && pages[p].nfree > 0
  }

  ghost predicate Inv(h: Heap) {
    && |h.lists| == ORDERS
    && (forall p :: p in h.pages ==> PageOk(p, h.pages[p]))
    && (forall o :: 0 <= o < ORDERS ==> ListOk(h.pages, h.lists[o], o))
  }

  lemma InitOk()
    ensures Inv(Heap(map[], seq(ORDERS, i => [])))
  {
  }

  // ---------- blocks do not overlap ----------

  lemma BlocksApart(p: nat, order: nat, i: nat, j: nat)
    requires order < ORDERS && i < j < NBlocks(order)
    ensures BlockAt(p, order, i) + BlockSize(order) <= BlockAt(p, order, j)
  {
    match order case 0 => case 1 => case 2 => case 3 => case 4 => case 5 => case 6 => case _ =>
  }

  lemma BlockInPage(p: nat, order: nat, i: nat)
    requires order < ORDERS && i < NBlocks(order)
    ensures p * PAGE_SIZE + DESCRIPTOR <= BlockAt(p, order, i) && BlockAt(p, order, i) + BlockSize(order) <= p * PAGE_SIZE + PAGE_SIZE
  {
    match order case 0 => case 1 => case 2 => case 3 => case 4 => case 5 => case 6 => case _ =>
  }

  /** A page holds as many blocks as fit behind its descriptor, and from 252 bytes up no block could be a word longer. */
  lemma BlocksFill(order: nat)
    requires order < ORDERS
    ensures DESCRIPTOR + NBlocks(order) * BlockSize(order) <= PAGE_SIZE < DESCRIPTOR + (NBlocks(order) + 1) * BlockSize(order)
    ensures order < 3 ==> BlockSize(order) == 32 * Pow2(order)
    ensures order >= 3 ==> NBlocks(order) == Pow2(7 - order) && BlockSize(order) % 4 == 0 &&
                           DESCRIPTOR + NBlocks(order) * (BlockSize(order) + 4) > PAGE_SIZE
  {
    Powers();
    hide Pow2;
    match order case 0 => case 1 => case 2 => case 3 => case 4 => case 5 => case 6 => case _ =>
  }

  /** A live block: one that kmalloc returned and nobody has freed. */
  predicate Live(h: Heap, p: nat, b: nat) { p in h.pages && b in h.pages[p].used }

  /** The bytes of a live block lie within its page, behind the descriptor, and are as many as asked. */
  lemma LiveInside(h: Heap, p: nat, b: nat)
    requires Inv(h) && Live(h, p, b)
    ensures p * PAGE_SIZE + DESCRIPTOR + HEADER <= b + HEADER
    ensures b + HEADER + h.pages[p].used[b] <= b + BlockSize(h.pages[p].order) <= p * PAGE_SIZE + PAGE_SIZE
  {
    var g := h.pages[p];
    assert PageOk(p, g) && IsBlock(p, g.order, b);
    var i :| 0 <= i < NBlocks(g.order) && b == BlockAt(p, g.order, i);
    BlockInPage(p, g.order, i);
  }

  lemma LiveDisjoint(h: Heap, p: nat, b: nat, q: nat, c: nat)
    requires Inv(h) && Live(h, p, b) && Live(h, q, c) && b != c
    ensures b + BlockSize(h.pages[p].order) <= c || c + BlockSize(h.pages[q].order) <= b
  {
    LiveInside(h, p, b);
    LiveInside(h, q, c);
    if p == q {
      var g := h.pages[p];
      assert PageOk(p, g) && IsBlock(p, g.order, b) && IsBlock(p, g.order, c);
      var i :| 0 <= i < NBlocks(g.order) && b == BlockAt(p, g.order, i);
      var j :| 0 <= j < NBlocks(g.order) && c == BlockAt(p, g.order, j);
      if i < j { BlocksApart(p, g.order, i, j); }
      if j < i { BlocksApart(p, g.order, j, i); }
    } else {
      PagesApart(p, q);
    }
  }

  lemma PagesApart(p: nat, q: nat)
    requires p != q
    ensures p * PAGE_SIZE + PAGE_SIZE <= q * PAGE_SIZE || q * PAGE_SIZE + PAGE_SIZE <= p * PAGE_SIZE
  {
  }

  // ---------- what every step keeps ----------

  predicate CanTake(h: Heap, order: nat, size: nat) {
    order < ORDERS && order < |h.lists| && h.lists[order] != [] && size + HEADER <= BlockSize(order)
  }

  lemma TakePage(p: nat, g: Page, size: nat, g': Page)
    requires PageOk(p, g) && g.nfree > 0 && size + HEADER <= BlockSize(g.order)
    requires g' == Page(g.order, g.nfree - 1, g.free[1..], g.used[g.free[0] := size])
    ensures PageOk(p, g') && g.free[0] !in g.used
  {
    var b := g.free[0];
    assert g.free == [b] + g.free[1..] && b !in g.free[1..];
    assert b in g.free;
    assert |g'.used| == |g.used| + 1;
    hide IsBlock, BlockSize, NBlocks;
  }

  lemma TakeInv(h: Heap, order: nat, size: nat)
    requires Inv(h) && CanTake(h, order, size)
    ensures var p := h.lists[order][0];
            && p in h.pages && h.pages[p].nfree > 0 && h.pages[p].free != [] && h.pages[p].order == order
            && Inv(Take(h, order, size))
            && !Live(h, p, h.pages[p].free[0])
  {
    var p := h.lists[order][0];
    var h1 := h.lists[order];
    assert ListOk(h.pages, h1, order) && p in h1;
    var g := h.pages[p];
    assert PageOk(p, g);
    var g' := Page(g.order, g.nfree - 1, g.free[1..], g.used[g.free[0] := size]);
    TakePage(p, g, size, g');
    assert h1 == [p] + h1[1..] && p !in h1[1..];
    TakeLists(h, order, p, g', Take(h, order, size));
    hide PageOk, ListOk;
  }

  lemma TakeLists(h: Heap, order: nat, p: nat, g': Page, h': Heap)
    requires |h.lists| == ORDERS && order < ORDERS && p in h.pages && h.pages[p].order == g'.order == order && h.pages[p].nfree > 0
    requires forall o :: 0 <= o < ORDERS ==> ListOk(h.pages, h.lists[o], o)
    requires h.lists[order] != [] && h.lists[order] == [p] + h.lists[order][1..] && p !in h.lists[order][1..]
    requires h' == Heap(h.pages[p := g'], if g'.nfree == 0 then h.lists[order := h.lists[order][1..]] else h.lists)
    ensures forall o :: 0 <= o < ORDERS ==> ListOk(h'.pages, h'.lists[o], o)
  {
    var old', new' := h.lists[order], h.lists[order][1..];
    assert forall q :: q in old' <==> q == p || q in new';
    forall o | 0 <= o < ORDERS
      ensures ListOk(h'.pages, h'.lists[o], o)
    {
      assert ListOk(h.pages, h.lists[o], o);
    }
  }

  lemma AddInv(h: Heap, order: nat, p: nat)
    requires Inv(h) && order < ORDERS && p !in h.pages
    ensures Inv(AddPage(h, order, p))
  {
    FreshOk(p, order);
    var h' := AddPage(h, order, p);
    hide PageOk, Fresh, NBlocks;
    forall o | 0 <= o < ORDERS
      ensures ListOk(h'.pages, h'.lists[o], o)
    {
      assert ListOk(h.pages, h.lists[o], o);
      assert o == order ==> forall q :: q in h'.lists[o] <==> q == p || q in h.lists[o];
    }
  }

  lemma FreshOk(p: nat, order: nat)
    requires order < ORDERS
    ensures PageOk(p, Fresh(p, order)) && Fresh(p, order).nfree > 0 && Fresh(p, order).order == order
  {
    var g := Fresh(p, order);
    forall i, j | 0 <= i < j < |g.free|
      ensures g.free[i] != g.free[j]
    {
      BlocksApart(p, order, i, j);
      assert BlockSize(order) > 0;
    }
    forall b: nat
      ensures b in g.free <==> IsBlock(p, order, b)
    {
      if IsBlock(p, order, b) {
        var i :| 0 <= i < NBlocks(order) && b == BlockAt(p, order, i);
        assert g.free[i] == b;
      }
    }
  }

  lemma FreePage(p: nat, g: Page, b: nat, g': Page)
    requires PageOk(p, g) && b in g.used
    requires g' == Page(g.order, g.nfree + 1, [b] + g.free, g.used - {b})
    ensures PageOk(p, g') && (g'.nfree == NBlocks(g.order) <==> g'.used == map[])
  {
    assert |g'.used| == |g.used| - 1 by {
      assert g.used.Keys == g'.used.Keys + {b};
    }
    assert forall c :: c in g'.free <==> c == b || c in g.free;
    hide IsBlock, BlockSize, NBlocks;
  }

  /** Freeing a live block keeps everything, and removes its page exactly when no other block of the
      page is in use. */
  lemma FreeInv(h: Heap, p: nat, b: nat)
    requires Inv(h) && Live(h, p, b)
    ensures h.pages[p].order < ORDERS && Inv(Free(h, p, b))
    ensures p in Free(h, p, b).pages <==> h.pages[p].used - {b} != map[]
  {
    hide PageOk, ListOk, NBlocks;
    var g := h.pages[p];
    PageOrder(h, p);
    var g' := Page(g.order, g.nfree + 1, [b] + g.free, g.used - {b});
    FreePage(p, g, b, g');
    var list := if g'.nfree == 1 then [p] + h.lists[g.order] else h.lists[g.order];
    FreeLists(h, p, g', list, Free(h, p, b));
  }

  lemma PageOrder(h: Heap, p: nat)
    requires Inv(h) && p in h.pages
    ensures PageOk(p, h.pages[p]) && h.pages[p].order < ORDERS == |h.lists|
  {
  }

  lemma FreeLists(h: Heap, p: nat, g': Page, list: seq<nat>, h': Heap)
    requires |h.lists| == ORDERS && p in h.pages && g'.order == h.pages[p].order < ORDERS && g'.nfree == h.pages[p].nfree + 1
    requires forall o :: 0 <= o < ORDERS ==> ListOk(h.pages, h.lists[o], o)
    requires list == if g'.nfree == 1 then [p] + h.lists[g'.order] else h.lists[g'.order]
    requires h' == if g'.nfree == NBlocks(g'.order) then Heap(h.pages - {p}, h.lists[g'.order := Without(list, p)])
                   else Heap(h.pages[p := g'], h.lists[g'.order := list])
    ensures forall o :: 0 <= o < ORDERS ==> ListOk(h'.pages, h'.lists[o], o)
  {
    var was := h.lists[g'.order];
    assert ListOk(h.pages, was, g'.order);
    assert forall q :: q in list <==> q == p || q in was;
    assert NoRepeat(list);
    WithoutKeeps(list, p);
    forall o | 0 <= o < ORDERS
      ensures ListOk(h'.pages, h'.lists[o], o)
    {
      assert ListOk(h.pages, h.lists[o], o);
    }
  }

  // ---------- every run ----------

  /** The sections that run with interrupts off, in any interleaving of any number of callers. */
  datatype Step = TakeBlock(order: nat, size: nat) | GivePage(order: nat, page: nat) | FreeBlock(page: nat, block: nat)

  ghost predicate Possible(h: Heap, st: Step) {
    match st
    case TakeBlock(o, n) => CanTake(h, o, n) && h.lists[o][0] in h.pages && h.pages[h.lists[o][0]].free != [] && h.pages[h.lists[o][0]].nfree > 0
    case GivePage(o, p) => o < ORDERS && o < |h.lists| && p !in h.pages
    case FreeBlock(p, b) => Live(h, p, b) && h.pages[p].order < ORDERS && h.pages[p].order < |h.lists|
  }

  ghost function Next(h: Heap, st: Step): Heap
    requires Possible(h, st)
  {
    match st
    case TakeBlock(o, n) => Take(h, o, n)
    case GivePage(o, p) => AddPage(h, o, p)
    case FreeBlock(p, b) => Free(h, p, b)
  }

  ghost predicate Run(h: Heap, steps: seq<Step>)
    decreases |steps|
  {
    steps == [] || (Possible(h, steps[0]) && Run(Next(h, steps[0]), steps[1..]))
  }

  ghost function RunHeap(h: Heap, steps: seq<Step>): Heap
    requires Run(h, steps)
    decreases |steps|
  {
    if steps == [] then h else RunHeap(Next(h, steps[0]), steps[1..])
  }

  lemma {:induction false} RunInv(h: Heap, steps: seq<Step>)
    requires Inv(h) && Run(h, steps)
    ensures Inv(RunHeap(h, steps))
    decreases |steps|
  {
    hide Inv, Take, AddPage, Free;
    if steps != [] {
      match steps[0] {
        case TakeBlock(o, n) => TakeInv(h, o, n);
        case GivePage(o, p) => AddInv(h, o, p);
        case FreeBlock(p, b) => FreeInv(h, p, b);
      }
      RunInv(Next(h, steps[0]), steps[1..]);
    }
  }

  /** In every state that the allocator reaches, two live blocks never share a byte. */
  lemma RunSafe(steps: seq<Step>, p: nat, b: nat, q: nat, c: nat)
    requires Run(Heap(map[], seq(ORDERS, i => [])), steps)
    requires var h := RunHeap(Heap(map[], seq(ORDERS, i => [])), steps); Live(h, p, b) && Live(h, q, c) && b != c
    ensures var h := RunHeap(Heap(map[], seq(ORDERS, i => [])), steps);
            b + HEADER + h.pages[p].used[b] <= c || c + HEADER + h.pages[q].used[c] <= b
  {
    var h := RunHeap(Heap(map[], seq(ORDERS, i => [])), steps);
    InitOk();
    RunInv(Heap(map[], seq(ORDERS, i => [])), steps);
    LiveInside(h, p, b);
    LiveInside(h, q, c);
    LiveDisjoint(h, p, b, q, c);
  }

  /** Taking a block leaves every live block as it was. */
  lemma TakeKeepsLive(h: Heap, order: nat, size: nat, p: nat, b: nat)
    requires Inv(h) && CanTake(h, order, size) && Live(h, p, b)
    ensures Possible(h, TakeBlock(order, size))
    ensures Live(Take(h, order, size), p, b) && Take(h, order, size).pages[p].used[b] == h.pages[p].used[b]
  {
    hide Inv;
    TakeInv(h, order, size);
  }

  // ---------- the routines ----------

  /** The smallest size class that holds the block and its header. */
  method GetOrder(size: nat) returns (order: int)
    ensures order == -1 || 0 <= order < ORDERS
    ensures order >= 0 ==> size + HEADER <= BlockSize(order) && forall o :: 0 <= o < order ==> size + HEADER > BlockSize(o)
    ensures order == -1 <==> size + HEADER > 4080
  {
    order := 0;
    while order < ORDERS
      invariant 0 <= order <= ORDERS && forall o :: 0 <= o < order ==> size + HEADER > BlockSize(o)
    {
      if size + HEADER <= BlockSize(order) {
        assert BlockSize(7) == 4080;
        return;
      }
      order := order + 1;
    }
    assert BlockSize(7) == 4080;
    order := -1;
  }

  class Allocator {
    var heap: Heap

    constructor ()
      ensures Inv(heap)
    {
      heap := Heap(map[], seq(ORDERS, i => []));
      InitOk();
    }

    /** `offered` is what __get_free_page returns at each try, 0 for none. */
    method Kmalloc(size: nat, offered: seq<nat>) returns (ptr: nat)
      requires Inv(heap) && |offered| == MAX_GET_FREE_PAGE_TRIES
      requires forall i :: 0 <= i < |offered| ==> offered[i] !in heap.pages
      modifies this
      ensures Inv(heap)
      ensures ptr != 0 ==> Allocated(old(heap), heap, size, ptr)
      ensures ptr == 0 <==> size + HEADER > 4080 || (old(heap).lists[OrderOf(size)] == [] && offered[0] == 0)
      ensures ptr == 0 ==> heap == old(heap)
    {
      hide PageOk, ListOk, Allocated, Fresh, NBlocks;
      ptr := 0;
      if size > MAX_KMALLOC {
        return;
      }
      var o := GetOrder(size);
      if o < 0 {
        return;
      }
      var order: nat := o;
      OrderIs(size, order);
      var tries := 0;
      while tries < MAX_GET_FREE_PAGE_TRIES
        invariant 0 <= tries <= 1 && Inv(heap)
        invariant tries == 0 ==> heap == old(heap)
        invariant tries == 1 ==> old(heap).lists[order] == [] && offered[0] != 0 && heap == AddPage(old(heap), order, offered[0])
        decreases MAX_GET_FREE_PAGE_TRIES - tries
      {
        if heap.lists[order] != [] {
          TakeInv(heap, order, size);
          var p := heap.lists[order][0];
          var b := heap.pages[p].free[0];
          TakeIs(old(heap), heap, order, size, offered[0]);
          BlockPositive(heap, p, b);
          heap := Take(heap, order, size);
          return b + HEADER;
        }
        if offered[tries] == 0 {
          return;
        }
        AddInv(heap, order, offered[tries]);
        heap := AddPage(heap, order, offered[tries]);
        tries := tries + 1;
      }
    }

    /** Frees the block that kmalloc returned as ptr; size 0 means any. */
    method KfreeS(ptr: nat, size: nat) returns (ok: bool)
      requires Inv(heap) && ptr >= HEADER && PageOf(ptr - HEADER) in heap.pages
      modifies this
      ensures Inv(heap)
      ensures ok <==> Live(old(heap), PageOf(ptr - HEADER), ptr - HEADER) &&
                      (size == 0 || size == old(heap).pages[PageOf(ptr - HEADER)].used[ptr - HEADER])
      ensures !ok ==> heap == old(heap)
      ensures ok ==> forall q, c :: Live(heap, q, c) <==> Live(old(heap), q, c) && !(q == PageOf(ptr - HEADER) && c == ptr - HEADER)
      ensures ok ==> (PageOf(ptr - HEADER) in heap.pages <==> old(heap).pages[PageOf(ptr - HEADER)].used - {ptr - HEADER} != map[])
    {
      var b := ptr - HEADER;
      var p := PageOf(b);
      if b !in heap.pages[p].used {
        return false;
      }
      if size != 0 && size != heap.pages[p].used[b] {
        return false;
      }
      FreeInv(heap, p, b);
      FreeLive(heap, p, b);
      heap := Free(heap, p, b);
      return true;
    }
  }

  /** PAGE_DESC: the page that holds an address. */
  function PageOf(a: nat): nat { a / PAGE_SIZE }

  lemma FreeLive(h: Heap, p: nat, b: nat)
    requires Inv(h) && Live(h, p, b) && h.pages[p].order < ORDERS
    ensures forall q, c :: Live(Free(h, p, b), q, c) <==> Live(h, q, c) && !(q == p && c == b)
  {
    hide Inv, NBlocks, Without;
    var g := h.pages[p];
    PageOrder(h, p);
    FreeInv(h, p, b);
    if p !in Free(h, p, b).pages {
      assert forall c :: c in g.used && c != b ==> c in g.used - {b};
    }
  }

  /** The smallest order for a size. */
  function OrderOf(size: nat): (o: nat)
    requires size + HEADER <= 4080
    ensures o < ORDERS && size + HEADER <= BlockSize(o) && forall i :: 0 <= i < o ==> size + HEADER > BlockSize(i)
  {
    if size + 8 <= 32 then 0 else if size + 8 <= 64 then 1 else if size + 8 <= 128 then 2 else if size + 8 <= 252 then 3
    else if size + 8 <= 508 then 4 else if size + 8 <= 1020 then 5 else if size + 8 <= 2040 then 6 else 7
  }

  lemma OrderIs(size: nat, order: nat)
    requires order < ORDERS && size + HEADER <= BlockSize(order) && forall o :: 0 <= o < order ==> size + HEADER > BlockSize(o)
    ensures size + HEADER <= 4080 && order == OrderOf(size)
  {
  }

  /** ptr is a new block of at least size bytes, of the smallest size class that has them; every block that was live still is. */
  ghost predicate Allocated(h: Heap, h': Heap, size: nat, ptr: nat) {
    exists p :: AllocatedIn(h, h', size, ptr, p)
  }

  ghost predicate AllocatedIn(h: Heap, h': Heap, size: nat, ptr: nat, p: nat) {
    && size + HEADER <= 4080 && p in h'.pages && h'.pages[p].order == OrderOf(size)
    && ptr >= HEADER && !Live(h, p, ptr - HEADER) && Live(h', p, ptr - HEADER) && h'.pages[p].used[ptr - HEADER] == size
    && (forall q, c :: Live(h, q, c) ==> Live(h', q, c) && h'.pages[q].used[c] == h.pages[q].used[c])
    && (forall q, c :: Live(h', q, c) && !(q == p && c == ptr - HEADER) ==> Live(h, q, c))
  }

  lemma BlockPositive(h: Heap, p: nat, b: nat)
    requires Inv(h) && p in h.pages && b in h.pages[p].free
    ensures b > 0
  {
    assert PageOk(p, h.pages[p]);
    assert IsBlock(p, h.pages[p].order, b);
  }

  lemma ListedOrder(h: Heap, order: nat)
    requires Inv(h) && order < ORDERS && order < |h.lists| && h.lists[order] != [] && h.lists[order][0] in h.pages
    ensures h.pages[h.lists[order][0]].order == order
  {
    assert ListOk(h.pages, h.lists[order], order);
    assert h.lists[order][0] in h.lists[order];
  }

  lemma TakeIs(before: Heap, h: Heap, order: nat, size: nat, page: nat)
    requires Inv(h) && CanTake(h, order, size) && size + HEADER <= 4080 && order == OrderOf(size)
    requires h == before || (order < |before.lists| && page !in before.pages && h == AddPage(before, order, page))
    requires h.lists[order][0] in h.pages && h.pages[h.lists[order][0]].free != [] && h.pages[h.lists[order][0]].nfree > 0
    requires !Live(h, h.lists[order][0], h.pages[h.lists[order][0]].free[0])
    ensures Allocated(before, Take(h, order, size), size, h.pages[h.lists[order][0]].free[0] + HEADER)
  {
    hide Inv;
    ListedOrder(h, order);
    assert AllocatedIn(before, Take(h, order, size), size, h.pages[h.lists[order][0]].free[0] + HEADER, h.lists[order][0]);
  }
}
