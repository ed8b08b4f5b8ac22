/** Refused calls over whole runs of the lock table, and the runs that show what a wrapped sum can lead to. */
module RecordLockRuns {
  import opened RecordLocks
  import opened RecordLockTable
  import opened RecordLockRefusals
  import opened RecordLockStatus

  lemma LockItRefusalIff(list: seq<Lock>, free: seq<nat>, req: Request)
    requires AllWeak(list) && ValidRequest(req)
    ensures var o := LockIt(list, free, req);
            && (o.status != Ok && o.list != list <==> free == [] && Spoils(OwnEntries(list, req.owner), req))
            && (o.status != Ok ==> o.free == free)
  {
    hide LockOwn, Spoils;
    var a := FirstOwn(list, req.owner);
    var b := OwnEnd(list, req.owner, a);
    var own := list[a..b];
    RefusalIff(own, free, req);
    var r := LockOwn(own, free, req).list;
    assert list == list[..a] + own + list[b..];
    if list[..a] + r + list[b..] == list {
      assert |r| == |own|;
      assert r == (list[..a] + r + list[b..])[a..b];
    }
  }

  /** Over every sequence of set, unlock and close calls: a call is refused after it has changed the table if and
      only if it meets no conflict, no entry is free, and the scan of the caller's entries rewrites one of them
      before it meets one that it would have to split. */
  lemma RunRefusalIff(files: nat, cs: seq<Call>, ino: nat, req: Request)
    requires ValidCalls(Init(files), cs) && ino < files && ValidRequest(req)
    ensures var t := DoAll(Init(files), cs);
            (SetLock(t, ino, req).1 != Ok && SetLock(t, ino, req).0 != t) <==>
            !Blocked(t.lists[ino], req) && t.free == [] && Spoils(OwnEntries(t.lists[ino], req.owner), req)
  {
    hide LockIt, Spoils, OwnEntries, Blocked, DoAll, Init;
    RunSafe(files, cs);
    var t := DoAll(Init(files), cs);
    InitFiles(files);
    ListWeak(t, ino);
    LockItRefusalIff(t.lists[ino], t.free, req);
    var o := LockIt(t.lists[ino], t.free, req);
    if o.list == t.lists[ino] {
      assert t.lists[ino := o.list] == t.lists;
    } else {
      assert t.lists[ino := o.list][ino] != t.lists[ino];
    }
  }

  /** Over every sequence of set, unlock and close calls: the answer to the next call is fixed by the bytes that others
      hold, the entries of the caller, and the number of free entries; along a run in which no sum wraps past a
      merge it is fixed by bytes and free entries alone. */
  lemma RunAnswers(files: nat, cs: seq<Call>, ino: nat, req: Request)
    requires ValidCalls(Init(files), cs) && ino < files && ValidRequest(req)
    ensures var t := DoAll(Init(files), cs);
            && Answers(t.lists[ino], t.free, req, SetLock(t, ino, req).1)
            && (NeverWraps(Init(files), cs) ==> AnswersInOrder(t.lists[ino], t.free, req, SetLock(t, ino, req).1))
  {
    hide LockIt, Answers, AnswersInOrder, Blocked, DoAll, Init, NeverWraps, SetLock;
    RunSafe(files, cs);
    var t := DoAll(Init(files), cs);
    InitFiles(files);
    ListWeak(t, ino);
    SetLockAnswers(t, ino, req);
    if NeverWraps(Init(files), cs) {
      InitOrdered(files);
      RunOrdered(Init(files), cs);
    }
  }

  lemma InitOrdered(files: nat)
    ensures AllWellFormed(Init(files))
  {
  }

  lemma InitFiles(files: nat)
    ensures |Init(files).lists| == files
  {
  }

  lemma ListWeak(t: Table, ino: nat)
    requires TableInv(t) && ino < |t.lists|
    ensures AllWeak(t.lists[ino])
  {
    assert ListInv(t.lists[ino]);
  }

  // ---------- a refused call that has changed the list ----------

  const Caller: Owner := Owner(1, 3)

  /** Read locks by n owners on the second file, each of which takes an entry. */
  function Fills(k: nat, n: nat): seq<Call>
    decreases n
  {
    if n == 0 then [] else [Set(1, Request(Owner(2, k), ReadLock, 0, 0))] + Fills(k + 1, n - 1)
  }

  ghost predicate Filled(list: seq<Lock>, k: nat) {
    forall l :: l in list ==> l.kind == ReadLock && l.owner.task == 2 && l.owner.fd < k
  }

  lemma FillStep(t: Table, k: nat)
    requires |t.lists| == 2 && t.free != [] && Filled(t.lists[1], k)
    ensures var t' := Do(t, Set(1, Request(Owner(2, k), ReadLock, 0, 0)));
            |t'.lists| == 2 && t'.lists[0] == t.lists[0] && Filled(t'.lists[1], k + 1) && t'.free == t.free[1..]
  {
    var list, req := t.lists[1], Request(Owner(2, k), ReadLock, 0, 0);
    assert forall i :: 0 <= i < |list| ==> list[i] in list;
    assert FirstOwn(list, req.owner) == |list|;
    assert list[|list|..|list|] == [];
    var s := Start([], t.free, req);
    assert Run(s) == Advance(s) == s.(halt := true);
    assert LockIt(list, t.free, req).list == list + [Lock(t.free[0], req.owner, ReadLock, 0, 0)];
  }

  lemma {:induction false} FillRun(t: Table, k: nat, n: nat)
    requires |t.lists| == 2 && n <= |t.free| && Filled(t.lists[1], k)
    ensures ValidCalls(t, Fills(k, n))
    ensures var t' := DoAll(t, Fills(k, n)); |t'.lists| == 2 && t'.lists[0] == t.lists[0] && t'.free == t.free[n..]
    decreases n
  {
    hide Do, Filled;
    if n > 0 {
      var c := Set(1, Request(Owner(2, k), ReadLock, 0, 0));
      FillStep(t, k);
      FillRun(Do(t, c), k + 1, n - 1);
      assert Fills(k, n)[0] == c && Fills(k, n)[1..] == Fills(k + 1, n - 1);
    }
  }

  function Entry(slot: nat, kind: Kind, start: int, end: int): Lock { Lock(slot, Caller, kind, start, end) }

  function Ask(kind: Kind, start: int, end: int): Request { Request(Caller, kind, start, end) }

  lemma SoleOwner(list: seq<Lock>, free: seq<nat>, req: Request)
    requires req.owner == Caller && forall i :: 0 <= i < |list| ==> list[i].owner == Caller
    ensures LockIt(list, free, req) == LockOwn(list, free, req)
    ensures !Blocked(list, req)
  {
    assert FirstOwn(list, Caller) == 0;
    assert OwnEnd(list, Caller, 0) == |list|;
    assert list[0..|list|] == list && list[..0] == [] && list[|list|..] == [];
  }

  lemma FirstCall(a: nat, x: int, f: seq<nat>)
    ensures LockOwn([], [a] + f, Ask(ReadLock, x, 59)) == Outcome(Ok, [Entry(a, ReadLock, x, 59)], f)
  {
    var s := Start([], [a] + f, Ask(ReadLock, x, 59));
    assert Run(s) == Advance(s) == s.(halt := true);
    assert ([a] + f)[1..] == f;
  }

  /** The sum wraps, and the new entry comes before the one that it should have merged with. */
  lemma SecondCall(a: nat, b: nat, x: nat, f: seq<nat>)
    ensures LockOwn([Entry(a, ReadLock, x, 59)], [b] + f, Ask(ReadLock, 50, OFFSET_MAX)) ==
            Outcome(Ok, [Entry(b, ReadLock, 50, OFFSET_MAX), Entry(a, ReadLock, x, 59)], f)
  {
    var s := Start([Entry(a, ReadLock, x, 59)], [b] + f, Ask(ReadLock, 50, OFFSET_MAX));
    assert Run(s) == Advance(s) == s.(halt := true);
    assert ([b] + f)[1..] == f;
  }

  lemma ThirdCall(a: nat, b: nat, x: nat, f: seq<nat>)
    ensures LockOwn([Entry(b, ReadLock, 50, OFFSET_MAX), Entry(a, ReadLock, x, 59)], f, Ask(Unlock, 60, OFFSET_MAX)) ==
            Outcome(Ok, [Entry(b, ReadLock, 50, 59), Entry(a, ReadLock, x, 59)], f)
  {
    var e, e' := Entry(b, ReadLock, 50, OFFSET_MAX), Entry(a, ReadLock, x, 59);
    var s := Start([e, e'], f, Ask(Unlock, 60, OFFSET_MAX));
    var s1 := Advance(s);
    assert s1 == s.(done := [e], rest := [e'], added := true, left := 0);
    var s2 := Advance(s1);
    assert s2 == s1.(done := [e, e'], rest := []);
    assert Run(s) == Run(s1) == Run(s2) == s2.(halt := true);
  }

  lemma FourthCall(a: nat, b: nat, c: nat, f: seq<nat>)
    ensures LockOwn([Entry(b, ReadLock, 50, 59), Entry(a, ReadLock, 0, 59)], [c] + f, Ask(Unlock, 55, 57)) ==
            Outcome(Ok, [Entry(c, ReadLock, 50, 54), Entry(b, ReadLock, 58, 59), Entry(a, ReadLock, 0, 59)], f)
  {
    var s := Start([Entry(b, ReadLock, 50, 59), Entry(a, ReadLock, 0, 59)], [c] + f, Ask(Unlock, 55, 57));
    assert Run(s) == Advance(s) == s.(added := true, left := 0, right := true, halt := true);
    assert ([c] + f)[1..] == f;
  }

  lemma FifthCall(a: nat, b: nat, c: nat, f: seq<nat>)
    ensures LockOwn([Entry(c, ReadLock, 50, 54), Entry(b, ReadLock, 58, 59), Entry(a, ReadLock, 0, 59)], f, Ask(Unlock, 58, 59)) ==
            Outcome(Ok, [Entry(c, ReadLock, 50, 54), Entry(a, ReadLock, 0, 57)], [b] + f)
  {
    var e, e', e'' := Entry(c, ReadLock, 50, 54), Entry(b, ReadLock, 58, 59), Entry(a, ReadLock, 0, 59);
    var s := Start([e, e', e''], f, Ask(Unlock, 58, 59));
    var s1 := Advance(s);
    assert s1 == s.(done := [e], rest := [e', e'']);
    var s2 := Advance(s1);
    assert s2 == s1.(rest := [e''], added := true, free := [b] + f);
    var s3 := Advance(s2);
    assert s3 == s2.(done := [e, e''], rest := [], left := 1);
    assert Run(s) == Run(s1) == Run(s2) == Run(s3) == s3.(halt := true);
  }

  lemma LastCall(a: nat, c: nat)
    ensures LockOwn([Entry(c, ReadLock, 50, 54), Entry(a, ReadLock, 0, 57)], [], Ask(WriteLock, 50, 54)) ==
            Outcome(ENOLCK, [Entry(c, WriteLock, 50, 54), Entry(a, ReadLock, 0, 57)], [])
  {
    var e, e' := Entry(c, ReadLock, 50, 54), Entry(a, ReadLock, 0, 57);
    var s := Start([e, e'], [], Ask(WriteLock, 50, 54));
    var s1 := Advance(s);
    assert s1 == Replace(s) && s1.done == [Entry(c, WriteLock, 50, 54)] && s1.rest == [e'];
    assert Advance(s1) == s1.(left := 1, right := true, halt := true);
    assert Run(s) == Run(s1) == Advance(s1);
  }

  /** The calls that bring the list out of order, and those that use up the table. */
  function Disorder(): seq<Call> {
    [Set(0, Ask(ReadLock, 0, 59)), Set(0, Ask(ReadLock, 50, OFFSET_MAX)), Set(0, Ask(Unlock, 60, OFFSET_MAX)),
     Set(0, Ask(Unlock, 55, 57)), Set(0, Ask(Unlock, 58, 59))]
  }

  lemma SoleCall(t: Table, req: Request, o: Outcome)
    requires |t.lists| == 2 && req.owner == Caller && forall i :: 0 <= i < |t.lists[0]| ==> t.lists[0][i].owner == Caller
    requires o == LockOwn(t.lists[0], t.free, req)
    ensures SetLock(t, 0, req) == (Table([o.list, t.lists[1]], o.free), o.status)
  {
    hide LockOwn, LockIt, Blocked;
    SoleOwner(t.lists[0], t.free, req);
    assert t.lists[0 := o.list] == [o.list, t.lists[1]];
  }

  lemma DisorderRun(a: nat, b: nat, c: nat, f: seq<nat>)
    ensures var t := Table([[], []], [a, b, c] + f);
            && ValidCalls(t, Disorder())
            && DoAll(t, Disorder()) ==
               Table([[Entry(c, ReadLock, 50, 54), Entry(a, ReadLock, 0, 57)], []], [b] + f)
  {
    hide LockOwn, SetLock;
    var t0 := Table([[], []], [a, b, c] + f);
    assert [a, b, c] + f == [a] + ([b, c] + f) && [b, c] + f == [b] + ([c] + f);
    FirstCall(a, 0, [b, c] + f);
    SoleCall(t0, Ask(ReadLock, 0, 59), Outcome(Ok, [Entry(a, ReadLock, 0, 59)], [b, c] + f));
    var t1 := Table([[Entry(a, ReadLock, 0, 59)], []], [b, c] + f);
    SecondCall(a, b, 0, [c] + f);
    SoleCall(t1, Ask(ReadLock, 50, OFFSET_MAX), Outcome(Ok, [Entry(b, ReadLock, 50, OFFSET_MAX), Entry(a, ReadLock, 0, 59)], [c] + f));
    var t2 := Table([[Entry(b, ReadLock, 50, OFFSET_MAX), Entry(a, ReadLock, 0, 59)], []], [c] + f);
    ThirdCall(a, b, 0, [c] + f);
    SoleCall(t2, Ask(Unlock, 60, OFFSET_MAX), Outcome(Ok, [Entry(b, ReadLock, 50, 59), Entry(a, ReadLock, 0, 59)], [c] + f));
    var t3 := Table([[Entry(b, ReadLock, 50, 59), Entry(a, ReadLock, 0, 59)], []], [c] + f);
    FourthCall(a, b, c, f);
    var l4 := [Entry(c, ReadLock, 50, 54), Entry(b, ReadLock, 58, 59), Entry(a, ReadLock, 0, 59)];
    SoleCall(t3, Ask(Unlock, 55, 57), Outcome(Ok, l4, f));
    FifthCall(a, b, c, f);
    SoleCall(Table([l4, []], f), Ask(Unlock, 58, 59), Outcome(Ok, [Entry(c, ReadLock, 50, 54), Entry(a, ReadLock, 0, 57)], [b] + f));
    FiveCalls(t0, Disorder());
  }

  // ---------- an entry without a byte that blocks others ----------

  lemma CutBefore(a: nat, b: nat, c: nat, f: seq<nat>)
    ensures LockOwn([Entry(b, ReadLock, 50, 59), Entry(a, ReadLock, 10, 59)], [c] + f, Ask(WriteLock, 50, 51)) ==
            Outcome(Ok, [Entry(c, WriteLock, 50, 51), Entry(b, ReadLock, 52, 59), Entry(a, ReadLock, 10, 59)], f)
  {
    var s := Start([Entry(b, ReadLock, 50, 59), Entry(a, ReadLock, 10, 59)], [c] + f, Ask(WriteLock, 50, 51));
    assert Run(s) == Advance(s) == s.(right := true, halt := true);
    assert ([c] + f)[1..] == f;
  }

  /** The entry to be cut off is passed before the merges lower the caller's start below its own. */
  lemma CutBelow(a: nat, b: nat, c: nat, f: seq<nat>)
    ensures LockOwn([Entry(c, WriteLock, 50, 51), Entry(b, ReadLock, 52, 59), Entry(a, ReadLock, 10, 59)], f, Ask(ReadLock, 51, 55)) ==
            Outcome(Ok, [Entry(c, WriteLock, 50, 9), Entry(b, ReadLock, 10, 59)], [a] + f)
  {
    var e, e', e'' := Entry(c, WriteLock, 50, 51), Entry(b, ReadLock, 52, 59), Entry(a, ReadLock, 10, 59);
    var s := Start([e, e', e''], f, Ask(ReadLock, 51, 55));
    var s1 := Advance(s);
    assert s1 == s.(done := [e], rest := [e', e''], left := 0);
    var s2 := Advance(s1);
    assert s2 == s1.(done := [e, Entry(b, ReadLock, 51, 59)], rest := [e''], req := Ask(ReadLock, 51, 59), added := true, at := 1);
    var s3 := Advance(s2);
    assert s3 == s2.(done := [e, Entry(b, ReadLock, 10, 59)], rest := [], req := Ask(ReadLock, 10, 59), free := [a] + f);
    assert Run(s) == Run(s1) == Run(s2) == Run(s3) == s3.(halt := true);
  }

  function Cuts(): seq<Call> {
    [Set(0, Ask(ReadLock, 10, 59)), Set(0, Ask(ReadLock, 50, OFFSET_MAX)), Set(0, Ask(Unlock, 60, OFFSET_MAX)),
     Set(0, Ask(WriteLock, 50, 51)), Set(0, Ask(ReadLock, 51, 55))]
  }

  lemma CutsRun(a: nat, b: nat, c: nat, f: seq<nat>)
    ensures var t := Table([[], []], [a, b, c] + f);
            && ValidCalls(t, Cuts())
            && DoAll(t, Cuts()) == Table([[Entry(c, WriteLock, 50, 9), Entry(b, ReadLock, 10, 59)], []], [a] + f)
  {
    hide LockOwn, SetLock;
    var t0 := Table([[], []], [a, b, c] + f);
    assert [a, b, c] + f == [a] + ([b, c] + f) && [b, c] + f == [b] + ([c] + f);
    FirstCall(a, 10, [b, c] + f);
    SoleCall(t0, Ask(ReadLock, 10, 59), Outcome(Ok, [Entry(a, ReadLock, 10, 59)], [b, c] + f));
    var t1 := Table([[Entry(a, ReadLock, 10, 59)], []], [b, c] + f);
    SecondCall(a, b, 10, [c] + f);
    SoleCall(t1, Ask(ReadLock, 50, OFFSET_MAX), Outcome(Ok, [Entry(b, ReadLock, 50, OFFSET_MAX), Entry(a, ReadLock, 10, 59)], [c] + f));
    var t2 := Table([[Entry(b, ReadLock, 50, OFFSET_MAX), Entry(a, ReadLock, 10, 59)], []], [c] + f);
    ThirdCall(a, b, 10, [c] + f);
    SoleCall(t2, Ask(Unlock, 60, OFFSET_MAX), Outcome(Ok, [Entry(b, ReadLock, 50, 59), Entry(a, ReadLock, 10, 59)], [c] + f));
    var t3 := Table([[Entry(b, ReadLock, 50, 59), Entry(a, ReadLock, 10, 59)], []], [c] + f);
    CutBefore(a, b, c, f);
    var l4 := [Entry(c, WriteLock, 50, 51), Entry(b, ReadLock, 52, 59), Entry(a, ReadLock, 10, 59)];
    SoleCall(t3, Ask(WriteLock, 50, 51), Outcome(Ok, l4, f));
    CutBelow(a, b, c, f);
    SoleCall(Table([l4, []], f), Ask(ReadLock, 51, 55), Outcome(Ok, [Entry(c, WriteLock, 50, 9), Entry(b, ReadLock, 10, 59)], [a] + f));
    FiveCalls(t0, Cuts());
  }

  /** From an empty table: a wrapped sum brings the caller's entries out of order, and a later merge then cuts a
      write lock off below its own start. It covers no byte, yet it keeps another task from reading bytes 0 to 60,
      of which no one holds any for writing. */
  lemma PhantomWitness()
    ensures ValidCalls(Init(2), Cuts())
    ensures var t, req := DoAll(Init(2), Cuts()), Request(Owner(2, 3), ReadLock, 0, 60);
            && t.lists[0] == [Entry(2, WriteLock, 50, 9), Entry(1, ReadLock, 10, 59)]
            && SetLock(t, 0, req).1 == EAGAIN
            && !Contended(t.lists[0], req) && Phantom(t.lists[0], req)
  {
    hide LockOwn, DoAll, Cuts;
    var f := seq(NR_FILE_LOCKS - 3, i => i + 3);
    assert Init(2) == Table([[], []], [0, 1, 2] + f);
    CutsRun(0, 1, 2, f);
    var t, req := DoAll(Init(2), Cuts()), Request(Owner(2, 3), ReadLock, 0, 60);
    var list := t.lists[0];
    assert list == [Entry(2, WriteLock, 50, 9), Entry(1, ReadLock, 10, 59)];
    assert PhantomEntry(list[0], req) && Conflict(req, list[0]);
    forall o, k, x
      ensures !ContendedAt(list, req, o, k, x)
    {
    }
  }

  lemma OneCall(t: Table, cs: seq<Call>)
    requires cs != [] && ValidCalls(t, cs)
    ensures ValidCalls(Do(t, cs[0]), cs[1..]) && DoAll(t, cs) == DoAll(Do(t, cs[0]), cs[1..])
  {
    hide LockIt, Blocked;
  }

  lemma FiveCalls(t: Table, cs: seq<Call>)
    requires |cs| == 5 && ValidCalls(t, cs)
    ensures ValidCalls(Do(t, cs[0]), cs[1..])
    ensures ValidCalls(Do(Do(t, cs[0]), cs[1]), cs[2..])
    ensures ValidCalls(Do(Do(Do(t, cs[0]), cs[1]), cs[2]), cs[3..])
    ensures ValidCalls(Do(Do(Do(Do(t, cs[0]), cs[1]), cs[2]), cs[3]), cs[4..])
    ensures DoAll(t, cs) == Do(Do(Do(Do(Do(t, cs[0]), cs[1]), cs[2]), cs[3]), cs[4])
  {
    hide Do;
    assert cs[1..][1..] == cs[2..] && cs[2..][1..] == cs[3..] && cs[3..][1..] == cs[4..] && cs[4..][1..] == [];
    OneCall(t, cs);
    var t1 := Do(t, cs[0]);
    OneCall(t1, cs[1..]);
    var t2 := Do(t1, cs[1]);
    OneCall(t2, cs[2..]);
    var t3 := Do(t2, cs[2]);
    OneCall(t3, cs[3..]);
    OneCall(Do(t3, cs[3]), cs[4..]);
  }

  lemma {:induction false} DoAllConcat(t: Table, cs: seq<Call>, ds: seq<Call>)
    requires ValidCalls(t, cs) && ValidCalls(DoAll(t, cs), ds)
    ensures ValidCalls(t, cs + ds) && DoAll(t, cs + ds) == DoAll(DoAll(t, cs), ds)
    decreases |cs|
  {
    hide Do;
    if cs == [] {
      assert cs + ds == ds;
    } else {
      OneCall(t, cs);
      DoAllConcat(Do(t, cs[0]), cs[1..], ds);
      assert (cs + ds)[0] == cs[0] && (cs + ds)[1..] == cs[1..] + ds;
      SameFiles(t, cs, ds);
      OneCall(t, cs + ds);
    }
  }

  lemma SameFiles(t: Table, cs: seq<Call>, ds: seq<Call>)
    requires ValidCalls(t, cs) && ValidCalls(DoAll(t, cs), ds)
    ensures ValidCalls(t, cs + ds)
  {
    hide DoAll;
    assert |DoAll(t, cs).lists| == |t.lists|;
    forall i | 0 <= i < |cs + ds|
      ensures ValidCall(t, (cs + ds)[i])
    {
      if i >= |cs| {
        assert ValidCall(DoAll(t, cs), ds[i - |cs|]);
      }
    }
  }

  /** From an empty table: after a wrapped sum has brought the caller's entries out of order and the table is
      used up, a request for bytes 50 to 54 is refused with ENOLCK, and its first entry has changed its kind. */
  lemma RefusalWitness()
    ensures ValidCalls(Init(2), Disorder() + Fills(0, NR_FILE_LOCKS - 2))
    ensures var t := DoAll(Init(2), Disorder() + Fills(0, NR_FILE_LOCKS - 2));
            && t.lists[0] == [Entry(2, ReadLock, 50, 54), Entry(0, ReadLock, 0, 57)] && t.free == []
            && SetLock(t, 0, Ask(WriteLock, 50, 54)).1 == ENOLCK
            && SetLock(t, 0, Ask(WriteLock, 50, 54)).0.lists[0] == [Entry(2, WriteLock, 50, 54), Entry(0, ReadLock, 0, 57)]
  {
    hide LockOwn, SetLock, Disorder, DoAll, Fills;
    var f := seq(NR_FILE_LOCKS - 3, i => i + 3);
    assert Init(2) == Table([[], []], [0, 1, 2] + f);
    DisorderRun(0, 1, 2, f);
    var t := DoAll(Init(2), Disorder());
    FillRun(t, 0, NR_FILE_LOCKS - 2);
    DoAllConcat(Init(2), Disorder(), Fills(0, NR_FILE_LOCKS - 2));
    var t' := DoAll(t, Fills(0, NR_FILE_LOCKS - 2));
    LastCall(0, 2);
    SoleCall(t', Ask(WriteLock, 50, 54), Outcome(ENOLCK, [Entry(2, WriteLock, 50, 54), Entry(0, ReadLock, 0, 57)], []));
  }
}
