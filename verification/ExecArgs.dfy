/** How exec hands over its strings (linux/fs/exec.c): they are copied backwards into the argument pages,
    and pointers to them are put on the new stack. */
module ExecArgs {
  const PAGE_SIZE: nat := 4096
  const MAX_ARG_PAGES: nat := 32

  /** A C string: its bytes before the terminating zero. */
  predicate IsString(s: seq<nat>) { forall i :: 0 <= i < |s| ==> s[i] != 0 }

  predicate AllStrings(strs: seq<seq<nat>>) { forall i :: 0 <= i < |strs| ==> IsString(strs[i]) }

  /** The strings one after another, each with its zero. */
  function Joined(strs: seq<seq<nat>>): seq<nat> {
    if strs == [] then [] else strs[0] + [0] + Joined(strs[1..])
  }

  lemma {:induction false} JoinedConcat(a: seq<seq<nat>>, b: seq<seq<nat>>)
    ensures Joined(a + b) == Joined(a) + Joined(b)
  {
    if a == [] {
      assert a + b == b;
    } else {
      JoinedConcat(a[1..], b);
      assert (a + b)[0] == a[0] && (a + b)[1..] == a[1..] + b;
      assert a[0] + [0] + (Joined(a[1..]) + Joined(b)) == a[0] + [0] + Joined(a[1..]) + Joined(b);
    }
  }

  lemma JoinedOne(s: seq<nat>)
    ensures Joined([s]) == s + [0]
  {
    assert [s][1..] == [];
  }

  /** Where string i begins among the joined strings. */
  function OffsetOf(strs: seq<seq<nat>>, i: nat): nat
    requires i <= |strs|
  {
    |Joined(strs[..i])|
  }

  lemma JoinedAt(strs: seq<seq<nat>>, i: nat)
    requires i < |strs|
    ensures OffsetOf(strs, i + 1) == OffsetOf(strs, i) + |strs[i]| + 1 <= |Joined(strs)|
    ensures Joined(strs)[OffsetOf(strs, i)..OffsetOf(strs, i + 1)] == strs[i] + [0]
  {
    assert strs == strs[..i] + (strs[i..i + 1] + strs[i + 1..]);
    assert strs[i..i + 1] == [strs[i]];
    assert strs[..i + 1] == strs[..i] + [strs[i]];
    JoinedOne(strs[i]);
    JoinedConcat(strs[..i], [strs[i]]);
    JoinedConcat([strs[i]], strs[i + 1..]);
    JoinedConcat(strs[..i], [strs[i]] + strs[i + 1..]);
  }

  // ---------- copy_strings ----------

  /** An argument page, if it has been allocated; a new page is zero. */
  datatype Slot = NoPage | Page(bytes: seq<nat>)

  predicate SlotsOk(pages: seq<Slot>) {
    |pages| == MAX_ARG_PAGES && forall i :: 0 <= i < |pages| && pages[i].Page? ==> |pages[i].bytes| == PAGE_SIZE
  }

  /** Byte a of the argument area. */
  function ByteAt(pages: seq<Slot>, a: nat): nat
    requires SlotsOk(pages) && a < MAX_ARG_PAGES * PAGE_SIZE
  {
    if pages[a / PAGE_SIZE].NoPage? then 0 else pages[a / PAGE_SIZE].bytes[a % PAGE_SIZE]
  }

  function Allocated(pages: seq<Slot>): nat {
    if pages == [] then 0 else Allocated(pages[..|pages| - 1]) + if pages[|pages| - 1].Page? then 1 else 0
  }

  lemma {:induction false} AllocatedSet(pages: seq<Slot>, i: nat, x: Slot)
    requires i < |pages| && x.Page?
    ensures Allocated(pages[i := x]) == Allocated(pages) + if pages[i].Page? then 0 else 1
    ensures Allocated(pages) <= |pages| && (pages[i].NoPage? ==> Allocated(pages) < |pages|)
  {
    var n := |pages| - 1;
    if i < n {
      AllocatedSet(pages[..n], i, x);
      assert pages[i := x][..n] == pages[..n][i := x];
    } else {
      AllocatedBound(pages[..n]);
      assert pages[i := x][..n] == pages[..n];
    }
  }

  lemma {:induction false} AllocatedBound(pages: seq<Slot>)
    ensures Allocated(pages) <= |pages|
  {
    if pages != [] { AllocatedBound(pages[..|pages| - 1]); }
  }

  lemma {:induction false} NoneAllocated(n: nat)
    ensures Allocated(seq(n, i => NoPage)) == 0
  {
    if n > 0 {
      NoneAllocated(n - 1);
      assert seq(n, i => NoPage)[..n - 1] == seq(n - 1, i => NoPage);
    }
  }

  function Zeros(): seq<nat> { seq(PAGE_SIZE, i => 0) }

  /** The area from p on holds exactly the bytes s, and elsewhere it is as before. */
  ghost predicate Written(before: seq<Slot>, pages: seq<Slot>, p: nat, s: seq<nat>)
    requires SlotsOk(before) && SlotsOk(pages)
  {
    && p + |s| <= MAX_ARG_PAGES * PAGE_SIZE
    && (forall a :: 0 <= a < MAX_ARG_PAGES * PAGE_SIZE ==> ByteAt(pages, a) == if p <= a < p + |s| then s[a - p] else ByteAt(before, a))
  }

  function SetByte(pages: seq<Slot>, pg: nat, off: nat, b: nat): seq<Slot>
    requires SlotsOk(pages) && pg < MAX_ARG_PAGES && off < PAGE_SIZE && pages[pg].Page?
  {
    pages[pg := Page(pages[pg].bytes[off := b])]
  }

  lemma SetByteAt(pages: seq<Slot>, p: nat, b: nat)
    requires SlotsOk(pages) && p < MAX_ARG_PAGES * PAGE_SIZE && pages[p / PAGE_SIZE].Page?
    ensures var pages' := SetByte(pages, p / PAGE_SIZE, p % PAGE_SIZE, b);
            && SlotsOk(pages')
            && (forall a :: 0 <= a < MAX_ARG_PAGES * PAGE_SIZE ==> ByteAt(pages', a) == if a == p then b else ByteAt(pages, a))
  {
    var pages' := SetByte(pages, p / PAGE_SIZE, p % PAGE_SIZE, b);
    forall a | 0 <= a < MAX_ARG_PAGES * PAGE_SIZE
      ensures ByteAt(pages', a) == if a == p then b else ByteAt(pages, a)
    {
      if a / PAGE_SIZE == p / PAGE_SIZE && a % PAGE_SIZE == p % PAGE_SIZE { SamePlace(a, p); }
    }
  }

  lemma SamePlace(a: nat, p: nat)
    requires a / PAGE_SIZE == p / PAGE_SIZE && a % PAGE_SIZE == p % PAGE_SIZE
    ensures a == p
  {
    assert a == a / PAGE_SIZE * PAGE_SIZE + a % PAGE_SIZE;
    assert p == p / PAGE_SIZE * PAGE_SIZE + p % PAGE_SIZE;
  }

  lemma NewPageSame(pages: seq<Slot>, pg: nat)
    requires SlotsOk(pages) && pg < MAX_ARG_PAGES && pages[pg].NoPage?
    ensures var pages' := pages[pg := Page(Zeros())];
            SlotsOk(pages') && forall a :: 0 <= a < MAX_ARG_PAGES * PAGE_SIZE ==> ByteAt(pages', a) == ByteAt(pages, a)
  {
  }

  /** One byte below what is written so far. */
  lemma WrittenMore(before: seq<Slot>, pages: seq<Slot>, pages': seq<Slot>, p: nat, b: nat, s: seq<nat>)
    requires SlotsOk(before) && SlotsOk(pages) && SlotsOk(pages') && p > 0 && Written(before, pages, p, s)
    requires forall a :: 0 <= a < MAX_ARG_PAGES * PAGE_SIZE ==> ByteAt(pages', a) == if a == p - 1 then b else ByteAt(pages, a)
    ensures Written(before, pages', p - 1, [b] + s)
  {
  }

  class ArgPages {
    var pages: seq<Slot>
    var freePages: nat      // how many more pages get_free_page will give

    constructor (free: nat)
      ensures SlotsOk(pages) && freePages == free && Allocated(pages) == 0 && forall a :: 0 <= a < MAX_ARG_PAGES * PAGE_SIZE ==> ByteAt(pages, a) == 0
    {
      pages, freePages := seq(MAX_ARG_PAGES, i => NoPage), free;
      NoneAllocated(MAX_ARG_PAGES);
    }

    /** Copies the strings, the last first and each from its end, and returns where they begin, or 0. */
    method CopyStrings(strs: seq<seq<nat>>, p0: nat) returns (p: nat)
      requires SlotsOk(pages) && AllStrings(strs) && p0 < MAX_ARG_PAGES * PAGE_SIZE
      modifies this
      ensures SlotsOk(pages) && freePages + Allocated(pages) == old(freePages) + Allocated(old(pages))
      ensures p != 0 ==> p + |Joined(strs)| == p0 && Written(old(pages), pages, p, Joined(strs))
      ensures p == 0 ==> p0 <= |Joined(strs)| || NoMemory(pages, freePages)
    {
      hide Written, Joined;
      p := p0;
      if p == 0 {
        return;
      }
      WrittenNothing(pages, p0);
      NoneJoined();
      ghost var before := pages;
      var offset, pg := 0, 0;
      var argc := |strs|;
      assert strs[argc..] == [];
      while argc > 0
        invariant 0 <= argc <= |strs| && SlotsOk(pages) && freePages + Allocated(pages) == old(freePages) + Allocated(old(pages))
        invariant p + |Joined(strs[argc..])| == p0 && Written(before, pages, p, Joined(strs[argc..]))
        invariant Cached(pages, offset, pg, p)
      {
        argc := argc - 1;
        ghost var done := Joined(strs[argc + 1..]);
        JoinedTail(strs, argc);
        if p < |strs[argc]| + 1 {
          TailBound(strs, argc);
          return 0;
        }
        var ok;
        ok, p, offset, pg := CopyString(strs[argc], p, offset, pg, before, done);
        if !ok {
          return 0;
        }
      }
      assert strs[0..] == strs;
    }

    /** Copies one string and its zero from the end. */
    method CopyString(s: seq<nat>, p0: nat, offset0: int, pg0: nat, ghost before: seq<Slot>, ghost done: seq<nat>)
      returns (ok: bool, p: nat, offset: int, pg: nat)
      requires SlotsOk(pages) && SlotsOk(before) && |s| + 1 <= p0 < MAX_ARG_PAGES * PAGE_SIZE && Cached(pages, offset0, pg0, p0)
      requires Written(before, pages, p0, done)
      modifies this
      ensures SlotsOk(pages) && freePages + Allocated(pages) == old(freePages) + Allocated(old(pages))
      ensures ok ==> p + |s| + 1 == p0 && Cached(pages, offset, pg, p) && Written(before, pages, p, Ended(s) + done)
      ensures !ok ==> NoMemory(pages, freePages)
    {
      hide Written, NoMemory;
      ok, p, offset, pg := true, p0, offset0, pg0;
      var len := |s| + 1;
      assert Ended(s)[len..] + done == done;
      while len > 0
        invariant SlotsOk(pages) && freePages + Allocated(pages) == old(freePages) + Allocated(old(pages))
        invariant 0 <= len <= |s| + 1 && p == p0 - (|s| + 1) + len
        invariant Written(before, pages, p, Ended(s)[len..] + done)
        invariant Cached(pages, offset, pg, p)
      {
        ghost var was := pages;
        ok, offset, pg := NextPlace(p, offset, pg);
        if !ok {
          return;
        }
        p := p - 1;
        len := len - 1;
        var b := if len < |s| then s[len] else 0;
        SetByteAt(pages, p, b);
        AllocatedSet(pages, pg, Page(pages[pg].bytes[offset := b]));
        WrittenMore(before, was, SetByte(pages, pg, offset, b), p + 1, b, Ended(s)[len + 1..] + done);
        assert Ended(s)[len..] + done == [b] + (Ended(s)[len + 1..] + done);
        pages := SetByte(pages, pg, offset, b);
      }
      assert Ended(s)[0..] == Ended(s);
    }

    /** Steps the place down by one byte, looking the page up again when it leaves one. */
    method NextPlace(p: nat, offset0: int, pg0: nat) returns (ok: bool, offset: int, pg: nat)
      requires SlotsOk(pages) && 0 < p < MAX_ARG_PAGES * PAGE_SIZE && Cached(pages, offset0, pg0, p)
      modifies this
      ensures SlotsOk(pages) && freePages + Allocated(pages) == old(freePages) + Allocated(old(pages))
      ensures forall a :: 0 <= a < MAX_ARG_PAGES * PAGE_SIZE ==> ByteAt(pages, a) == ByteAt(old(pages), a)
      ensures ok ==> offset == (p - 1) % PAGE_SIZE && pg == (p - 1) / PAGE_SIZE && pages[pg].Page?
      ensures !ok ==> NoMemory(pages, freePages)
    {
      offset, pg := offset0 - 1, pg0;
      if offset < 0 {
        offset := (p - 1) % PAGE_SIZE;
        pg := (p - 1) / PAGE_SIZE;
        if pages[pg].NoPage? {
          AllocatedSet(pages, pg, Page(Zeros()));
          if freePages == 0 {
            return false, offset, pg;
          }
          freePages := freePages - 1;
          NewPageSame(pages, pg);
          pages := pages[pg := Page(Zeros())];
        }
      } else {
        OneBelow(p, pg, offset);
      }
      return true, offset, pg;
    }
  }

  /** A page is missing and none is to be had. */
  predicate NoMemory(pages: seq<Slot>, freePages: nat) { freePages == 0 && Allocated(pages) < MAX_ARG_PAGES }

  lemma WrittenNothing(pages: seq<Slot>, p: nat)
    requires SlotsOk(pages) && p <= MAX_ARG_PAGES * PAGE_SIZE
    ensures Written(pages, pages, p, [])
  {
  }

  lemma NoneJoined()
    ensures Joined([]) == []
  {
  }

  function Ended(s: seq<nat>): seq<nat> { s + [0] }

  /** Either nothing is cached, or the page and place of byte p. */
  predicate Cached(pages: seq<Slot>, offset: int, pg: nat, p: nat)
    requires |pages| == MAX_ARG_PAGES
  {
    offset == 0 || (offset == p % PAGE_SIZE && pg == p / PAGE_SIZE && pg < MAX_ARG_PAGES && pages[pg].Page?)
  }

  lemma OneBelow(p: nat, pg: nat, offset: int)
    requires p > 0 && offset >= 0 && offset + 1 == p % PAGE_SIZE && pg == p / PAGE_SIZE
    ensures offset == (p - 1) % PAGE_SIZE && pg == (p - 1) / PAGE_SIZE
  {
  }

  lemma JoinedTail(strs: seq<seq<nat>>, i: nat)
    requires i < |strs|
    ensures Joined(strs[i..]) == Ended(strs[i]) + Joined(strs[i + 1..])
  {
    assert strs[i..][0] == strs[i] && strs[i..][1..] == strs[i + 1..];
  }

  lemma TailBound(strs: seq<seq<nat>>, i: nat)
    requires i <= |strs|
    ensures |Joined(strs[i..])| <= |Joined(strs)|
  {
    JoinedConcat(strs[..i], strs[i..]);
    assert strs[..i] + strs[i..] == strs;
  }

  // ---------- create_tables ----------

  /** The area holds the bytes s from p on. */
  ghost predicate Holds(pages: seq<Slot>, p: nat, s: seq<nat>)
    requires SlotsOk(pages)
  {
    p + |s| <= MAX_ARG_PAGES * PAGE_SIZE && forall i :: 0 <= i < |s| ==> ByteAt(pages, p + i) == s[i]
  }

  /** What a pointer to p gives a C program. */
  ghost predicate StringAt(pages: seq<Slot>, p: nat, s: seq<nat>)
    requires SlotsOk(pages)
  {
    IsString(s) && Holds(pages, p, Ended(s))
  }

  lemma HoldsSplit(pages: seq<Slot>, p: nat, a: seq<nat>, b: seq<nat>)
    requires SlotsOk(pages)
    ensures Holds(pages, p, a + b) <==> Holds(pages, p, a) && Holds(pages, p + |a|, b)
  {
    var s := a + b;
    if Holds(pages, p, a) && Holds(pages, p + |a|, b) {
      forall i | 0 <= i < |s|
        ensures ByteAt(pages, p + i) == s[i]
      {
        if i >= |a| { assert ByteAt(pages, p + |a| + (i - |a|)) == b[i - |a|]; }
      }
    }
    if Holds(pages, p, s) {
      forall i | 0 <= i < |a|
        ensures ByteAt(pages, p + i) == a[i]
      {
        assert s[i] == a[i];
      }
      forall i | 0 <= i < |b|
        ensures ByteAt(pages, p + |a| + i) == b[i]
      {
        assert s[|a| + i] == b[i];
        assert ByteAt(pages, p + (|a| + i)) == s[|a| + i];
      }
    }
  }

  /** Words `table`, `table + 4`, ... point to the strings, and a null word ends the table. */
  ghost predicate TableOf(words: map<nat, nat>, table: nat, base: nat, pages: seq<Slot>, strs: seq<seq<nat>>)
    requires SlotsOk(pages)
  {
    && (forall i :: 0 <= i < |strs| ==> EntryOf(words, table, base, pages, strs, i))
    && table + 4 * |strs| in words && words[table + 4 * |strs|] == 0
  }

  ghost predicate EntryOf(words: map<nat, nat>, table: nat, base: nat, pages: seq<Slot>, strs: seq<seq<nat>>, i: nat)
    requires SlotsOk(pages) && i < |strs|
  {
    table + 4 * i in words && words[table + 4 * i] >= base && StringAt(pages, words[table + 4 * i] - base, strs[i])
  }

  /** A word of a table of n words. */
  predicate InTable(a: nat, table: nat, n: nat) { table <= a < table + 4 * n && (a - table) % 4 == 0 }

  /** Skips one string and its zero. */
  method SkipString(pages: seq<Slot>, q0: nat, ghost s: seq<nat>) returns (q: nat)
    requires SlotsOk(pages) && StringAt(pages, q0, s)
    ensures q == q0 + |s| + 1
  {
    q := q0;
    ghost var i := 0;
    assert ByteAt(pages, q0 + |s|) == Ended(s)[|s|];
    while ByteAt(pages, q) != 0
      invariant 0 <= i <= |s| && q == q0 + i
      decreases |s| - i
    {
      assert ByteAt(pages, q0 + i) == Ended(s)[i];
      q, i := q + 1, i + 1;
    }
    assert ByteAt(pages, q0 + i) == Ended(s)[i];
    q := q + 1;
  }

  /** Writes one pointer table, walking over the strings from q0 on. */
  method FillTable(pages: seq<Slot>, base: nat, table: nat, n: nat, q0: nat, words0: map<nat, nat>, ghost strs: seq<seq<nat>>)
    returns (words: map<nat, nat>, q: nat)
    requires SlotsOk(pages) && |strs| == n && AllStrings(strs) && Holds(pages, q0, Joined(strs))
    ensures q == q0 + |Joined(strs)| && TableOf(words, table, base, pages, strs)
    ensures forall a :: a in words <==> a in words0 || InTable(a, table, n + 1)
    ensures forall a :: a in words0 && !InTable(a, table, n + 1) ==> words[a] == words0[a]
  {
    hide Joined, Holds;
    words, q := words0, q0;
    var i := 0;
    assert strs[..0] == [];
    NoneJoined();
    while i < n
      invariant 0 <= i <= n && q == q0 + OffsetOf(strs, i)
      invariant forall j :: 0 <= j < i ==> EntryOf(words, table, base, pages, strs, j)
      invariant forall a :: a in words <==> a in words0 || InTable(a, table, i)
      invariant forall a :: a in words0 && !InTable(a, table, i) ==> words[a] == words0[a]
    {
      StringInPlace(pages, q0, strs, i);
      ghost var was := words;
      words := words[table + 4 * i := base + q];
      forall j | 0 <= j < i
        ensures EntryOf(words, table, base, pages, strs, j)
      {
        assert EntryOf(was, table, base, pages, strs, j);
      }
      q := SkipString(pages, q, strs[i]);
      i := i + 1;
    }
    assert strs[..n] == strs;
    ghost var was := words;
    words := words[table + 4 * n := 0];
    forall j | 0 <= j < n
      ensures EntryOf(words, table, base, pages, strs, j)
    {
      assert EntryOf(was, table, base, pages, strs, j);
    }
  }

  lemma StringInPlace(pages: seq<Slot>, q0: nat, strs: seq<seq<nat>>, i: nat)
    requires SlotsOk(pages) && i < |strs| && AllStrings(strs) && Holds(pages, q0, Joined(strs))
    ensures StringAt(pages, q0 + OffsetOf(strs, i), strs[i])
    ensures OffsetOf(strs, i + 1) == OffsetOf(strs, i) + |strs[i]| + 1
  {
    hide Joined, OffsetOf, SlotsOk, Holds;
    JoinedAt(strs, i);
    HoldsPart(pages, q0, Joined(strs), OffsetOf(strs, i), OffsetOf(strs, i + 1));
  }

  lemma HoldsPart(pages: seq<Slot>, q0: nat, s: seq<nat>, lo: nat, hi: nat)
    requires SlotsOk(pages) && lo <= hi <= |s| && Holds(pages, q0, s)
    ensures Holds(pages, q0 + lo, s[lo..hi])
  {
    hide SlotsOk, ByteAt;
    forall k | 0 <= k < hi - lo
      ensures ByteAt(pages, q0 + lo + k) == s[lo..hi][k]
    {
      assert ByteAt(pages, q0 + (lo + k)) == s[lo + k];
    }
  }

  /** The stack pointer and the words below the strings. */
  method CreateTables(pages: seq<Slot>, base: nat, p: nat, argc: nat, envc: nat, ibcs: bool, ghost args: seq<seq<nat>>, ghost envs: seq<seq<nat>>)
    returns (sp: nat, words: map<nat, nat>)
    requires SlotsOk(pages) && |args| == argc && |envs| == envc && AllStrings(args) && AllStrings(envs)
    requires Holds(pages, p, Joined(args) + Joined(envs)) && base + p >= 4 * (argc + envc + 6)
    ensures sp % 4 == 0 && sp in words && words[sp] == argc
    ensures var argv := if ibcs then sp + 4 else sp + 12;
            && TableOf(words, argv, base, pages, args) && TableOf(words, argv + 4 * (argc + 1), base, pages, envs)
            && (!ibcs ==> sp + 4 in words && words[sp + 4] == argv && sp + 8 in words && words[sp + 8] == argv + 4 * (argc + 1))
    ensures forall a :: a in words ==> a % 4 == 0 && sp <= a && a + 4 <= base + p
  {
    hide Joined, Holds, TableOf;
    HoldsSplit(pages, p, Joined(args), Joined(envs));
    sp := (base + p) - (base + p) % 4;
    ghost var top := sp;
    sp := sp - 4 * (envc + 1);
    var envp := sp;
    sp := sp - 4 * (argc + 1);
    var argv := sp;
    sp, words := PutHeader(argv, envp, argc, ibcs);
    ghost var header := words;
    var q;
    words, q := FillTable(pages, base, argv, argc, p, words, args);
    ghost var was := words;
    words, q := FillTable(pages, base, envp, envc, q, words, envs);
    TableStays(was, words, argv, argc, envp, envc, base, pages, args);
    HeaderStays(header, was, words, sp, argv, argc, envp, envc, top);
  }

  /** The words below the tables: the count, and pointers to the tables unless for iBCS programs. */
  method PutHeader(argv: nat, envp: nat, argc: nat, ibcs: bool) returns (sp: nat, words: map<nat, nat>)
    requires argv >= 12 && argv % 4 == 0
    ensures sp == if ibcs then argv - 4 else argv - 12
    ensures sp in words && words[sp] == argc
    ensures !ibcs ==> sp + 4 in words && words[sp + 4] == argv && sp + 8 in words && words[sp + 8] == envp
    ensures forall a :: a in words ==> a % 4 == 0 && sp <= a < argv
  {
    words := map[];
    sp := argv;
    if !ibcs {
      sp := sp - 4;
      words := words[sp := envp];
      sp := sp - 4;
      words := words[sp := argv];
    }
    sp := sp - 4;
    words := words[sp := argc];
  }

  lemma HeaderStays(header: map<nat, nat>, was: map<nat, nat>, words: map<nat, nat>, sp: nat, argv: nat, argc: nat, envp: nat, envc: nat, top: nat)
    requires argv % 4 == 0 && sp <= argv && envp == argv + 4 * (argc + 1) && top == envp + 4 * (envc + 1)
    requires forall a :: a in header ==> a % 4 == 0 && sp <= a < argv
    requires forall a :: a in was <==> a in header || InTable(a, argv, argc + 1)
    requires forall a :: a in header && !InTable(a, argv, argc + 1) ==> was[a] == header[a]
    requires forall a :: a in words <==> a in was || InTable(a, envp, envc + 1)
    requires forall a :: a in was && !InTable(a, envp, envc + 1) ==> words[a] == was[a]
    ensures forall a :: a in header ==> a in words && words[a] == header[a]
    ensures forall a :: a in words ==> a % 4 == 0 && sp <= a && a + 4 <= top
  {
    forall a | a in words
      ensures a % 4 == 0 && sp <= a && a + 4 <= top
    {
      if InTable(a, envp, envc + 1) {
        WordFits(a, envp, envc + 1);
      } else if InTable(a, argv, argc + 1) {
        WordFits(a, argv, argc + 1);
      } else {
        WordFits(a, argv, argc + 1);
      }
    }
  }

  lemma WordFits(a: nat, table: nat, n: nat)
    requires table % 4 == 0 && (a % 4 == 0 || InTable(a, table, n))
    ensures a % 4 == 0
    ensures a < table ==> a + 4 <= table
    ensures InTable(a, table, n) ==> a + 4 <= table + 4 * n
  {
  }

  lemma TableStays(was: map<nat, nat>, words: map<nat, nat>, table: nat, n: nat, next: nat, m: nat, base: nat, pages: seq<Slot>, strs: seq<seq<nat>>)
    requires SlotsOk(pages) && TableOf(was, table, base, pages, strs) && |strs| == n && next == table + 4 * (n + 1)
    requires forall a :: a in was ==> a in words
    requires forall a :: a in was && !InTable(a, next, m + 1) ==> words[a] == was[a]
    ensures TableOf(words, table, base, pages, strs)
  {
    hide StringAt;
    forall i | 0 <= i < n
      ensures EntryOf(words, table, base, pages, strs, i)
    {
      assert EntryOf(was, table, base, pages, strs, i);
      assert !InTable(table + 4 * i, next, m + 1);
    }
    assert !InTable(table + 4 * n, next, m + 1);
  }

  /** exec: copies the environment and then the arguments, and builds the tables. The strings end at p0 and begin at
      p; every word on the stack lies below them. */
  method PassArguments(args: seq<seq<nat>>, envs: seq<seq<nat>>, p0: nat, base: nat, free: nat, ibcs: bool)
    returns (ok: bool, sp: nat, p: nat, words: map<nat, nat>, pages: seq<Slot>)
    requires AllStrings(args) && AllStrings(envs) && 0 < p0 < MAX_ARG_PAGES * PAGE_SIZE && base >= 4 * (|args| + |envs| + 6)
    ensures |Joined(args)| + |Joined(envs)| < p0 && free >= MAX_ARG_PAGES ==> ok
    ensures ok ==> SlotsOk(pages) && p + |Joined(args)| + |Joined(envs)| == p0 && Holds(pages, p, Joined(args) + Joined(envs))
    ensures ok ==> sp % 4 == 0 && sp in words && words[sp] == |args|
    ensures ok ==> var argv := if ibcs then sp + 4 else sp + 12;
                   && TableOf(words, argv, base, pages, args) && TableOf(words, argv + 4 * (|args| + 1), base, pages, envs)
                   && (!ibcs ==> sp + 4 in words && words[sp + 4] == argv && sp + 8 in words && words[sp + 8] == argv + 4 * (|args| + 1))
    ensures ok ==> forall a :: a in words ==> a % 4 == 0 && sp <= a && a + 4 <= base + p
  {
    hide Joined, Holds, TableOf, Written;
    var area := new ArgPages(free);
    ok, sp, p, words, pages := false, 0, 0, map[], area.pages;
    ghost var start := pages;
    p := area.CopyStrings(envs, p0);
    if p == 0 {
      return;
    }
    ghost var first := area.pages;
    ghost var end := p;
    p := area.CopyStrings(args, p);
    if p == 0 {
      return;
    }
    pages := area.pages;
    WrittenHolds(start, first, end, Joined(envs));
    BothHeld(first, pages, p, end, Joined(args), Joined(envs));
    sp, words := CreateTables(pages, base, p, |args|, |envs|, ibcs, args, envs);
    ok := true;
  }

  lemma WrittenHolds(before: seq<Slot>, pages: seq<Slot>, p: nat, s: seq<nat>)
    requires SlotsOk(before) && SlotsOk(pages) && Written(before, pages, p, s)
    ensures Holds(pages, p, s)
  {
  }

  lemma BothHeld(first: seq<Slot>, pages: seq<Slot>, p: nat, end: nat, a: seq<nat>, b: seq<nat>)
    requires SlotsOk(first) && SlotsOk(pages) && p + |a| == end
    requires Written(first, pages, p, a) && Holds(first, end, b)
    ensures Holds(pages, p, a + b)
  {
    HoldsSplit(pages, p, a, b);
  }
}
