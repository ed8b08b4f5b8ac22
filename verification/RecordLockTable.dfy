/** The whole lock table of linux/fs/locks.c: every file's list, the free list, and the
    system calls that set, query and drop locks, over every sequence of calls. */
module RecordLockTable {
  import opened RecordLocks
  import opened RecordLockRefusals
  import opened RecordLockStatus

  // ---------- one file's list ----------

  /** The owner's entries are exactly the block that lock_it works on. */
  lemma OwnBlock(list: seq<Lock>, owner: Owner)
    requires Contiguous(list)
    ensures var a := FirstOwn(list, owner);
            var b := OwnEnd(list, owner, a);
            forall i :: 0 <= i < |list| ==> (list[i].owner == owner <==> a <= i < b)
  {
    var a := FirstOwn(list, owner);
    var b := OwnEnd(list, owner, a);
    forall i | b <= i < |list|
      ensures list[i].owner != owner
    {
      assert a < b ==> list[a].owner == owner;
      assert a == b ==> a == |list|;
    }
  }

  /** Exchanging the owner's block for other entries of the same owner keeps every owner's entries together. */
  lemma BlockContiguous(list: seq<Lock>, owner: Owner, a: nat, b: nat, own: seq<Lock>)
    requires Contiguous(list) && a <= b <= |list|
    requires forall i :: 0 <= i < |list| ==> (list[i].owner == owner <==> a <= i < b)
    requires a == b ==> b == |list|
    requires forall l :: l in own ==> l.owner == owner
    ensures Contiguous(list[..a] + own + list[b..])
  {
    var r := list[..a] + own + list[b..];
    var d := |own| - (b - a);
    assert a < b ==> list[a].owner == owner;
    forall i, j, k | 0 <= i < j < k < |r| && r[i].owner == r[k].owner
      ensures r[j].owner == r[i].owner
    {
      var e := a + |own|;
      assert forall t :: a <= t < e ==> r[t] in own;
      assert forall t :: e <= t < |r| ==> r[t] == list[t - d];
      if k < a {
        assert list[j].owner == list[i].owner;
      } else if i >= e {
        assert list[j - d].owner == list[i - d].owner;
      }
    }
  }

  lemma BlockSorted(list: seq<Lock>, owner: Owner, a: nat, b: nat, own: seq<Lock>)
    requires Sorted(list) && a <= b <= |list|
    requires forall i :: 0 <= i < |list| ==> (list[i].owner == owner <==> a <= i < b)
    requires OwnSorted(own, owner)
    ensures Sorted(list[..a] + own + list[b..])
  {
    var r := list[..a] + own + list[b..];
    var d := |own| - (b - a);
    var e := a + |own|;
    assert forall t :: a <= t < e ==> r[t] == own[t - a];
    assert forall t :: e <= t < |r| ==> r[t] == list[t - d];
    forall i, j | 0 <= i < j < |r| && r[i].owner == r[j].owner
      ensures Before(r[i], r[j])
    {
    }
  }

  lemma WellFormedBlock(list: seq<Lock>, owner: Owner)
    requires WellFormed(list)
    ensures var a := FirstOwn(list, owner); OwnSorted(list[a..OwnEnd(list, owner, a)], owner)
  {
  }

  /** The owner's bytes are those of its block; another owner's are untouched by an exchange of it. */
  lemma BlockHolds(list: seq<Lock>, owner: Owner, a: nat, b: nat, own: seq<Lock>, o: Owner, k: Kind, x: int)
    requires a <= b <= |list|
    requires forall i :: 0 <= i < |list| ==> (list[i].owner == owner <==> a <= i < b)
    requires forall l :: l in own ==> l.owner == owner
    ensures Holds(list[..a] + own + list[b..], o, k, x) <==>
            if o == owner then Covered(own, k, x) else Holds(list, o, k, x)
  {
    hide Holds, Covered;
    if o == owner {
      BlockOwn(list, owner, a, b, own, k, x);
    } else {
      BlockOthers(list, owner, a, b, own, o, k, x);
    }
  }

  lemma BlockOwn(list: seq<Lock>, owner: Owner, a: nat, b: nat, own: seq<Lock>, k: Kind, x: int)
    requires a <= b <= |list|
    requires forall i :: 0 <= i < |list| ==> (list[i].owner == owner <==> a <= i < b)
    requires forall l :: l in own ==> l.owner == owner
    ensures Holds(list[..a] + own + list[b..], owner, k, x) <==> Covered(own, k, x)
  {
    var r := list[..a] + own + list[b..];
    var e := a + |own|;
    assert forall t :: a <= t < e ==> r[t] == own[t - a];
    assert forall t :: e <= t < |r| ==> r[t] == list[t - e + b];
    assert forall t :: 0 <= t < |own| ==> r[a + t] == own[t] && own[t] in own;
    if Covered(own, k, x) {
      var i :| 0 <= i < |own| && own[i].kind == k && own[i].start <= x <= own[i].end;
      assert Covers(r[a + i], owner, k, x);
    }
  }

  lemma BlockOthers(list: seq<Lock>, owner: Owner, a: nat, b: nat, own: seq<Lock>, o: Owner, k: Kind, x: int)
    requires a <= b <= |list| && o != owner
    requires forall i :: 0 <= i < |list| ==> (list[i].owner == owner <==> a <= i < b)
    requires forall l :: l in own ==> l.owner == owner
    ensures Holds(list[..a] + own + list[b..], o, k, x) <==> Holds(list, o, k, x)
  {
    var r := list[..a] + own + list[b..];
    var d := |own| - (b - a);
    var e := a + |own|;
    assert forall t :: a <= t < e ==> r[t] == own[t - a] && own[t - a] in own;
    assert forall t :: e <= t < |r| ==> r[t] == list[t - d];
    assert forall t :: b <= t < |list| ==> r[t + d] == list[t];
    if Holds(list, o, k, x) {
      var i :| 0 <= i < |list| && Covers(list[i], o, k, x);
      assert Covers(r[if i < a then i else i + d], o, k, x);
    }
  }

  /** The caller's bytes of the range, and nobody's others, have changed to the requested kind. */
  ghost predicate HoldsSet(list: seq<Lock>, list': seq<Lock>, req: Request) {
    forall o, k, x :: Holds(list', o, k, x) <==>
                      if o == req.owner && req.start <= x <= req.end then k == req.kind && k != Unlock
                      else Holds(list, o, k, x)
  }

  /** lock_it on a file's list in order, for every request: on success exactly the caller's bytes of the range
      change, to the requested kind, if and only if no sum wraps over an entry of another kind, and the list
      stays in order if and only if no sum wraps past a merge; a refused call changes nothing. */
  lemma LockItCorrect(list: seq<Lock>, free: seq<nat>, req: Request)
    requires WellFormed(list) && ValidRequest(req)
    ensures LockIt(list, free, req).status == Ok ==>
              (HoldsSet(list, LockIt(list, free, req).list, req) <==> !WrapsOver(list, req))
    ensures LockIt(list, free, req).status == Ok ==>
              (WellFormed(LockIt(list, free, req).list) <==> !WrapsPastMerge(list, req))
    ensures LockIt(list, free, req).status != Ok ==>
              LockIt(list, free, req).list == list && LockIt(list, free, req).free == free
  {
    hide LockOwn, OwnSorted, BytesSet, HoldsSet, NoneMet, WrapsPastMerge, WrapsOver, FirstOwn, OwnEnd, WellFormed;
    var a := FirstOwn(list, req.owner);
    var b := OwnEnd(list, req.owner, a);
    var own := list[a..b];
    OrderedBlock(list, req.owner);
    WellFormedBlock(list, req.owner);
    BlockWraps(list, req);
    LockOwnCorrect(own, free, req);
    var r := LockOwn(own, free, req);
    if r.status == Ok {
      OwnedResult(own, free, req);
      BlockBytes(list, req, a, b, r.list);
      if OwnSorted(r.list, req.owner) {
        BlockWellFormed(list, req.owner, a, b, r.list);
      } else {
        NotSorted(list[..a], r.list, list[b..], req.owner);
      }
    } else {
      assert list == list[..a] + own + list[b..];
    }
  }

  lemma OrderedBlock(list: seq<Lock>, owner: Owner)
    requires WellFormed(list)
    ensures Contiguous(list)
    ensures var a := FirstOwn(list, owner);
            var b := OwnEnd(list, owner, a);
            && (forall i :: 0 <= i < |list| ==> (list[i].owner == owner <==> a <= i < b))
            && (a == b ==> b == |list|)
  {
    OwnBlock(list, owner);
  }

  lemma OwnedResult(own: seq<Lock>, free: seq<nat>, req: Request)
    requires OwnSorted(own, req.owner) && ValidRequest(req)
    ensures forall l :: l in LockOwn(own, free, req).list ==> l.owner == req.owner
  {
    LockOwnSound(own, free, req);
  }

  /** What the list says about bytes is what the owner's block says, and what it said about the others. */
  lemma BlockBytes(list: seq<Lock>, req: Request, a: nat, b: nat, own: seq<Lock>)
    requires a <= b <= |list|
    requires forall i :: 0 <= i < |list| ==> (list[i].owner == req.owner <==> a <= i < b)
    requires forall l :: l in own ==> l.owner == req.owner
    ensures HoldsSet(list, list[..a] + own + list[b..], req) <==> BytesSet(list[a..b], own, req)
  {
    hide Holds, Covered;
    var list' := list[..a] + own + list[b..];
    assert list == list[..a] + list[a..b] + list[b..];
    assert forall l :: l in list[a..b] ==> l.owner == req.owner;
    forall o, k, x
      ensures Holds(list', o, k, x) <==> if o == req.owner then Covered(own, k, x) else Holds(list, o, k, x)
      ensures Holds(list, o, k, x) <==> if o == req.owner then Covered(list[a..b], k, x) else Holds(list, o, k, x)
    {
      BlockHolds(list, req.owner, a, b, own, o, k, x);
      BlockHolds(list, req.owner, a, b, list[a..b], o, k, x);
    }
    if HoldsSet(list, list', req) {
      forall k, x
        ensures Covered(own, k, x) <==>
                if req.start <= x <= req.end then k == req.kind && k != Unlock else Covered(list[a..b], k, x)
      {
        assert Holds(list', req.owner, k, x) <==> Covered(own, k, x);
      }
    }
  }

  lemma BlockWellFormed(list: seq<Lock>, owner: Owner, a: nat, b: nat, own: seq<Lock>)
    requires WellFormed(list) && a <= b <= |list|
    requires forall i :: 0 <= i < |list| ==> (list[i].owner == owner <==> a <= i < b)
    requires a == b ==> b == |list|
    requires OwnSorted(own, owner)
    ensures WellFormed(list[..a] + own + list[b..])
  {
    BlockContiguous(list, owner, a, b, own);
    BlockSorted(list, owner, a, b, own);
  }

  lemma BlockWraps(list: seq<Lock>, req: Request)
    requires Contiguous(list)
    ensures var a := FirstOwn(list, req.owner);
            && (WrapsPastMerge(list[a..OwnEnd(list, req.owner, a)], req) <==> WrapsPastMerge(list, req))
            && (WrapsOver(list[a..OwnEnd(list, req.owner, a)], req) <==> WrapsOver(list, req))
  {
    hide Contiguous, WrapsPastMerge, WrapsOver, FirstOwn, OwnEnd;
    OwnBlock(list, req.owner);
    var a := FirstOwn(list, req.owner);
    BlockWrapsPast(list, req, a, OwnEnd(list, req.owner, a));
    BlockWrapsOver(list, req, a, OwnEnd(list, req.owner, a));
  }

  lemma BlockWrapsPast(list: seq<Lock>, req: Request, a: nat, b: nat)
    requires a <= b <= |list|
    requires forall i :: 0 <= i < |list| ==> (list[i].owner == req.owner <==> a <= i < b)
    ensures WrapsPastMerge(list[a..b], req) <==> WrapsPastMerge(list, req)
  {
    var own := list[a..b];
    if i :| 0 <= i < |list| && list[i].owner == req.owner && list[i].kind == req.kind && list[i].end >= req.start - 1 {
      assert own[i - a] == list[i];
    }
  }

  lemma BlockWrapsOver(list: seq<Lock>, req: Request, a: nat, b: nat)
    requires a <= b <= |list|
    requires forall i :: 0 <= i < |list| ==> (list[i].owner == req.owner <==> a <= i < b)
    ensures WrapsOver(list[a..b], req) <==> WrapsOver(list, req)
  {
    var own := list[a..b];
    if WrapsOver(list, req) {
      var i, j :| 0 <= i < j < |list| && list[i].owner == list[j].owner == req.owner
                  && list[i].kind == req.kind && list[i].end >= req.start - 1 && list[j].kind != req.kind;
      assert own[i - a] == list[i] && own[j - a] == list[j];
    }
    if WrapsOver(own, req) {
      var i, j :| 0 <= i < j < |own| && own[i].owner == own[j].owner == req.owner
                  && own[i].kind == req.kind && own[i].end >= req.start - 1 && own[j].kind != req.kind;
      assert own[i] == list[a + i] && own[j] == list[a + j];
    }
  }

  lemma NotSorted(p: seq<Lock>, own: seq<Lock>, q: seq<Lock>, o: Owner)
    requires forall l :: l in own ==> l.owner == o
    requires !OwnSorted(own, o)
    ensures !WellFormed(p + own + q)
  {
    hide ValidLock, Before, Contiguous;
    var r := p + own + q;
    assert forall i :: 0 <= i < |own| ==> r[|p| + i] == own[i] && own[i] in own;
    if i :| 0 <= i < |own| && !ValidLock(own[i]) {
      assert !ValidLock(r[|p| + i]);
    } else {
      var i, j :| 0 <= i < j < |own| && !Before(own[i], own[j]);
      assert !Before(r[|p| + i], r[|p| + j]);
    }
  }

  // ---------- the table and its calls ----------

  /** Every file's list of entries, and the list of free entries of the static table. */
  datatype Table = Table(lists: seq<seq<Lock>>, free: seq<nat>)

  datatype Call = Set(ino: nat, req: Request) | Close(ino: nat, owner: Owner)

  /** F_SETLK. */
  function SetLock(t: Table, ino: nat, req: Request): (Table, Status)
    requires ino < |t.lists|
  {
    if Blocked(t.lists[ino], req) then (t, EAGAIN)
    else
      var r := LockIt(t.lists[ino], t.free, req);
      (Table(t.lists[ino := r.list], r.free), r.status)
  }

  function PushAll(free: seq<nat>, own: seq<Lock>): seq<nat>
    decreases |own|
  {
    if own == [] then free else PushAll([own[0].slot] + free, own[1..])
  }

  /** Closing a descriptor drops the run of its entries. */
  function CloseFile(t: Table, ino: nat, owner: Owner): Table
    requires ino < |t.lists|
  {
    var list := t.lists[ino];
    var a := FirstOwn(list, owner);
    var b := OwnEnd(list, owner, a);
    Table(t.lists[ino := list[..a] + list[b..]], PushAll(t.free, list[a..b]))
  }

  predicate ValidCall(t: Table, c: Call) {
    c.ino < |t.lists| && (c.Set? ==> ValidRequest(c.req))
  }

  function Do(t: Table, c: Call): Table
    requires ValidCall(t, c)
  {
    match c
    case Set(ino, req) => SetLock(t, ino, req).0
    case Close(ino, owner) => CloseFile(t, ino, owner)
  }

  predicate ValidCalls(t: Table, cs: seq<Call>) {
    forall i :: 0 <= i < |cs| ==> ValidCall(t, cs[i])
  }

  function DoAll(t: Table, cs: seq<Call>): (t': Table)
    requires ValidCalls(t, cs)
    ensures |t'.lists| == |t.lists|
    decreases |cs|
  {
    if cs == [] then t else DoAll(Do(t, cs[0]), cs[1..])
  }

  function Init(files: nat): Table {
    Table(seq(files, i => []), seq(NR_FILE_LOCKS, i => i))
  }

  // ---------- what a call answers ----------

  /** F_SETLK answers by the bytes that others hold, the bytes that the caller holds, and the number of free entries. */
  lemma SetLockAnswers(t: Table, ino: nat, req: Request)
    requires ino < |t.lists| && ValidRequest(req) && AllWeak(t.lists[ino])
    ensures Answers(t.lists[ino], t.free, req, SetLock(t, ino, req).1)
    ensures WellFormed(t.lists[ino]) ==> AnswersInOrder(t.lists[ino], t.free, req, SetLock(t, ino, req).1)
  {
    hide LockOwn, Blocked, Needed, Meets, Contended, Phantom, WellFormed, WrapsPastMerge, FirstOwn, OwnEnd, AnswersInOrder;
    var list := t.lists[ino];
    var own := OwnEntries(list, req.owner);
    assert forall l :: l in own ==> l in list;
    BlockedIff(list, req);
    StatusIs(own, t.free, req);
    if WellFormed(list) { InOrder(list, t.free, req, SetLock(t, ino, req).1); }
  }

  lemma BlockerHolds(list: seq<Lock>, i: nat, req: Request)
    requires ValidRequest(req) && WellFormed(list) && i < |list| && Conflict(req, list[i])
    ensures exists x :: ContendedAt([list[i]], req, list[i].owner, list[i].kind, x)
  {
    var x := Max(list[i].start, req.start);
    assert Covers([list[i]][0], list[i].owner, list[i].kind, x);
    assert ContendedAt([list[i]], req, list[i].owner, list[i].kind, x);
  }

  lemma InOrder(list: seq<Lock>, free: seq<nat>, req: Request, status: Status)
    requires WellFormed(list) && ValidRequest(req) && Answers(list, free, req, status)
    ensures AnswersInOrder(list, free, req, status)
  {
    hide Needed, Meets, Contended, Phantom, WellFormed, WrapsPastMerge, FirstOwn, OwnEnd, OwnSorted, OwnByte, OwnTaken, OwnHeld;
    NoPhantom(list, req);
    OrderedBlock(list, req.owner);
    WellFormedBlock(list, req.owner);
    BlockWraps(list, req);
    var own := OwnEntries(list, req.owner);
    MeetsBytes(own, req);
    OwnBytes(list, req);
    OwnOnes(list, req);
    if !WrapsPastMerge(list, req) { NeededInOrder(own, req); }
  }

  lemma OwnBytes(list: seq<Lock>, req: Request)
    requires WellFormed(list)
    ensures OwnByte(list, req) <==> HoldsSome(OwnEntries(list, req.owner), req)
  {
    hide WellFormed, FirstOwn, OwnEnd, Holds, Covered;
    var a := FirstOwn(list, req.owner);
    var b := OwnEnd(list, req.owner, a);
    var own := list[a..b];
    OrderedBlock(list, req.owner);
    assert list == list[..a] + own + list[b..];
    assert forall l :: l in own ==> l.owner == req.owner;
    forall k, x
      ensures Holds(list, req.owner, k, x) <==> Covered(own, k, x)
    {
      BlockOwn(list, req.owner, a, b, own, k, x);
    }
  }

  lemma OwnOnes(list: seq<Lock>, req: Request)
    requires WellFormed(list)
    ensures OwnTaken(list, req) <==> SomeTaken(OwnEntries(list, req.owner), req)
    ensures OwnHeld(list, req) <==> SomeHeld(OwnEntries(list, req.owner), req)
  {
    hide WellFormed, FirstOwn, OwnEnd, Taken, Held;
    var a := FirstOwn(list, req.owner);
    var b := OwnEnd(list, req.owner, a);
    OrderedBlock(list, req.owner);
    assert forall i :: 0 <= i < b - a ==> list[a..b][i] == list[a + i];
    assert forall i :: a <= i < b ==> list[i] == list[a..b][i - a];
  }

  // ---------- entries are neither lost nor duplicated ----------

  /** How often entry n occurs on a file's list, on a free list, in the whole table. */
  function Uses(list: seq<Lock>, n: nat): nat {
    if list == [] then 0 else (if list[0].slot == n then 1 else 0) + Uses(list[1..], n)
  }

  function FreeUses(free: seq<nat>, n: nat): nat {
    if free == [] then 0 else (if free[0] == n then 1 else 0) + FreeUses(free[1..], n)
  }

  function ListUses(lists: seq<seq<Lock>>, n: nat): nat {
    if lists == [] then 0 else Uses(lists[0], n) + ListUses(lists[1..], n)
  }

  function Total(t: Table, n: nat): nat { ListUses(t.lists, n) + FreeUses(t.free, n) }

  lemma {:induction false} UsesConcat(a: seq<Lock>, b: seq<Lock>, n: nat)
    ensures Uses(a + b, n) == Uses(a, n) + Uses(b, n)
  {
    if a == [] {
      assert a + b == b;
    } else {
      assert (a + b)[1..] == a[1..] + b;
      UsesConcat(a[1..], b, n);
    }
  }

  lemma UsesUpdate(list: seq<Lock>, i: nat, l: Lock, n: nat)
    requires i < |list| && l.slot == list[i].slot
    ensures Uses(list[i := l], n) == Uses(list, n)
  {
    assert list == list[..i] + ([list[i]] + list[i + 1..]);
    assert list[i := l] == list[..i] + ([l] + list[i + 1..]);
    UsesConcat(list[..i], [list[i]] + list[i + 1..], n);
    UsesConcat(list[..i], [l] + list[i + 1..], n);
  }

  function ScanUses(s: Scan, n: nat): nat { Uses(s.done, n) + Uses(s.rest, n) + FreeUses(s.free, n) }

  lemma MoveConserves(s: Scan, l: Lock, n: nat)
    requires s.rest != [] && l.slot == s.rest[0].slot
    ensures Uses(s.done + [l], n) + Uses(s.rest[1..], n) == Uses(s.done, n) + Uses(s.rest, n)
  {
    UsesConcat(s.done, [l], n);
  }

  lemma DropConserves(s: Scan, n: nat)
    requires s.rest != []
    ensures ScanUses(Drop(s), n) == ScanUses(s, n)
  {
    assert ([s.rest[0].slot] + s.free)[1..] == s.free;
  }

  lemma MergeConserves(s: Scan, n: nat)
    requires s.rest != []
    ensures ScanUses(Merge(s), n) == ScanUses(s, n)
  {
    var fl, t := s.rest[0], Merge(s);
    if !s.added {
      MoveConserves(s, fl.(start := t.req.start, end := t.req.end), n);
    } else if 0 <= s.at < |s.done| {
      UsesUpdate(s.done, s.at, s.done[s.at].(start := t.req.start, end := t.req.end), n);
      assert ([fl.slot] + s.free)[1..] == s.free;
    } else {
      assert ([fl.slot] + s.free)[1..] == s.free;
    }
  }

  /** What one pass can do to the entries: nothing, merge, move one past the cursor, or free one. */
  lemma AdvanceCases(s: Scan)
    requires s.rest != []
    ensures var t := Advance(s);
            || t == Merge(s)
            || (t.done == s.done && t.rest == s.rest && t.free == s.free)
            || (t.done == s.done && t.rest == s.rest[1..] && t.free == [s.rest[0].slot] + s.free)
            || (t.done == s.done + [s.rest[0]] && t.rest == s.rest[1..] && t.free == s.free)
            || (t.done == s.done + [s.rest[0].(start := s.req.start, end := s.req.end, kind := s.req.kind)]
                && t.rest == s.rest[1..] && t.free == s.free)
  {
  }

  lemma AdvanceConserves(s: Scan, n: nat)
    ensures ScanUses(Advance(s), n) == ScanUses(s, n)
  {
    if s.rest != [] {
      var t := Advance(s);
      AdvanceCases(s);
      if t == Merge(s) {
        MergeConserves(s, n);
      } else if |t.done| > |s.done| {
        MoveConserves(s, t.done[|s.done|], n);
      } else {
        DropConserves(s, n);
      }
    }
  }

  lemma {:induction false} RunConserves(s: Scan, n: nat)
    ensures ScanUses(Run(s), n) == ScanUses(s, n)
    decreases !s.halt, |s.rest|
  {
    if !s.halt {
      AdvanceConserves(s, n);
      RunConserves(Advance(s), n);
    }
  }

  lemma TrimConserves(s: Scan, n: nat)
    ensures Uses(TrimLeft(s), n) == Uses(s.done, n)
    ensures Uses(TrimRight(s), n) == Uses(s.rest, n)
  {
    if 0 <= s.left < |s.done| {
      UsesUpdate(s.done, s.left, s.done[s.left].(end := s.req.start - 1), n);
    }
  }

  lemma FinishConserves(s: Scan, n: nat)
    ensures Uses(Finish(s).list, n) + FreeUses(Finish(s).free, n) == ScanUses(s, n)
  {
    hide TrimLeft, TrimRight, Uses;
    UsesConcat(s.done, s.rest, n);
    if s.added || s.free != [] {
      if !Splits(s) {
        PlainConserves(s, n);
      } else {
        SplitConserves(s, n);
      }
    }
  }

  lemma PlainConserves(s: Scan, n: nat)
    requires (s.added || s.free != []) && !Splits(s)
    ensures Uses(Finish(s).list, n) + FreeUses(Finish(s).free, n) == ScanUses(s, n)
  {
    hide TrimLeft, TrimRight;
    var node := if s.added then [] else [Lock(s.free[0], s.req.owner, s.req.kind, s.req.start, s.req.end)];
    UsesConcat(s.done, s.rest, n);
    TrimConserves(s, n);
    UsesConcat(TrimLeft(s) + node, TrimRight(s), n);
    UsesConcat(TrimLeft(s), node, n);
  }

  lemma SplitConserves(s: Scan, n: nat)
    requires (s.added || s.free != []) && Splits(s)
    ensures Uses(Finish(s).list, n) + FreeUses(Finish(s).free, n) == ScanUses(s, n)
  {
    hide TrimLeft, TrimRight;
    var req := s.req;
    var node := if s.added then [] else [Lock(s.free[0], req.owner, req.kind, req.start, req.end)];
    var free := if s.added then s.free else s.free[1..];
    UsesConcat(s.done, s.rest, n);
    TrimConserves(s, n);
    if free != [] {
      var lower := s.rest[0].(slot := free[0], owner := req.owner, end := req.start - 1);
      UsesConcat(s.done + [lower] + node, TrimRight(s), n);
      UsesConcat(s.done + [lower], node, n);
      UsesConcat(s.done, [lower], n);
      assert Uses([lower], n) + FreeUses(free[1..], n) == FreeUses(free, n);
    }
  }

  lemma LockItConserves(list: seq<Lock>, free: seq<nat>, req: Request, n: nat)
    ensures Uses(LockIt(list, free, req).list, n) + FreeUses(LockIt(list, free, req).free, n) == Uses(list, n) + FreeUses(free, n)
  {
    var a := FirstOwn(list, req.owner);
    var b := OwnEnd(list, req.owner, a);
    var s := Start(list[a..b], free, req);
    RunConserves(s, n);
    FinishConserves(Run(s), n);
    ThreeParts(list, a, b, LockOwn(list[a..b], free, req).list, n);
  }

  lemma ThreeParts(list: seq<Lock>, a: nat, b: nat, own: seq<Lock>, n: nat)
    requires a <= b <= |list|
    ensures Uses(list, n) == Uses(list[..a], n) + Uses(list[a..b], n) + Uses(list[b..], n)
    ensures Uses(list[..a] + own + list[b..], n) == Uses(list[..a], n) + Uses(own, n) + Uses(list[b..], n)
  {
    assert list == list[..a] + list[a..b] + list[b..];
    UsesConcat(list[..a] + list[a..b], list[b..], n);
    UsesConcat(list[..a], list[a..b], n);
    UsesConcat(list[..a] + own, list[b..], n);
    UsesConcat(list[..a], own, n);
  }

  lemma {:induction false} PushAllUses(free: seq<nat>, own: seq<Lock>, n: nat)
    ensures FreeUses(PushAll(free, own), n) == FreeUses(free, n) + Uses(own, n)
    decreases |own|
  {
    if own != [] {
      PushAllUses([own[0].slot] + free, own[1..], n);
      assert ([own[0].slot] + free)[1..] == free;
    }
  }

  lemma {:induction false} ListUsesUpdate(lists: seq<seq<Lock>>, i: nat, list: seq<Lock>, n: nat)
    requires i < |lists|
    ensures ListUses(lists[i := list], n) + Uses(lists[i], n) == ListUses(lists, n) + Uses(list, n)
  {
    if i > 0 {
      assert lists[i := list][1..] == lists[1..][i - 1 := list];
      ListUsesUpdate(lists[1..], i - 1, list, n);
    } else {
      assert lists[i := list][1..] == lists[1..];
    }
  }

  lemma DoConserves(t: Table, c: Call, n: nat)
    requires ValidCall(t, c)
    ensures Total(Do(t, c), n) == Total(t, n)
  {
    var list := t.lists[c.ino];
    match c
    case Set(ino, req) =>
      LockItConserves(list, t.free, req, n);
      ListUsesUpdate(t.lists, ino, LockIt(list, t.free, req).list, n);
    case Close(ino, owner) =>
      var a := FirstOwn(list, owner);
      var b := OwnEnd(list, owner, a);
      ThreeParts(list, a, b, [], n);
      assert list[..a] + [] + list[b..] == list[..a] + list[b..];
      PushAllUses(t.free, list[a..b], n);
      ListUsesUpdate(t.lists, ino, list[..a] + list[b..], n);
  }

  // ---------- exclusion, over every run ----------

  /** Two entries of different owners share a byte only if both are read locks. */
  predicate ClashFree(l: Lock, m: Lock) {
    l.owner != m.owner && Max(l.start, m.start) <= Min(l.end, m.end) ==> l.kind == ReadLock && m.kind == ReadLock
  }

  ghost predicate Exclusive(list: seq<Lock>) {
    forall l, m :: l in list && m in list ==> ClashFree(l, m)
  }

  ghost predicate ListInv(list: seq<Lock>) {
    AllWeak(list) && Contiguous(list) && Exclusive(list)
  }

  ghost predicate TableInv(t: Table) {
    && (forall i :: 0 <= i < |t.lists| ==> ListInv(t.lists[i]))
    && (forall n: nat :: Total(t, n) == if n < NR_FILE_LOCKS then 1 else 0)
  }

  /** An entry that covers only allowed bytes clashes with nobody, once no conflict was found. */
  lemma AllowedClashFree(list: seq<Lock>, own: seq<Lock>, req: Request, l: Lock, m: Lock)
    requires Exclusive(list) && m in list && !Conflict(req, m) && m.owner != req.owner && req.kind != Unlock
    requires forall e :: e in own ==> e in list && e.owner == req.owner
    requires OnlyAllowed(own, req, l)
    ensures ClashFree(l, m)
  {
    var x := Max(l.start, m.start);
    if x <= Min(l.end, m.end) {
      assert Allowed(own, req, l.kind, x);
      if !(l.kind == req.kind && req.start <= x <= req.end) {
        var i :| 0 <= i < |own| && own[i].kind == l.kind && own[i].start <= x <= own[i].end;
        assert ClashFree(own[i], m);
      }
    }
  }

  lemma SetKeepsList(list: seq<Lock>, free: seq<nat>, req: Request)
    requires ListInv(list) && ValidRequest(req) && !Blocked(list, req)
    ensures ListInv(LockIt(list, free, req).list)
  {
    hide LockOwn, FirstOwn, OwnEnd, Blocked, Exclusive, Contiguous;
    var a := FirstOwn(list, req.owner);
    var b := OwnEnd(list, req.owner, a);
    var own := list[a..b];
    var own' := LockOwn(own, free, req).list;
    OwnBlock(list, req.owner);
    LockOwnSound(own, free, req);
    BlockContiguous(list, req.owner, a, b, own');
    var r := list[..a] + own' + list[b..];
    assert forall l :: l in r ==> l in own' || (l in list && l.owner != req.owner);
    SetExclusive(list, own, own', req, r);
  }

  lemma SetExclusive(list: seq<Lock>, own: seq<Lock>, own': seq<Lock>, req: Request, r: seq<Lock>)
    requires Exclusive(list) && !Blocked(list, req)
    requires forall e :: e in own ==> e in list && e.owner == req.owner
    requires forall l :: l in own' ==> OnlyAllowed(own, req, l)
    requires forall l :: l in r ==> l in own' || (l in list && l.owner != req.owner)
    ensures Exclusive(r)
  {
    forall l, m | l in r && m in r
      ensures ClashFree(l, m)
    {
      if l in own' && m !in own' {
        SetClashFree(list, own, req, l, m);
      } else if m in own' && l !in own' {
        SetClashFree(list, own, req, m, l);
      }
    }
  }

  lemma SetClashFree(list: seq<Lock>, own: seq<Lock>, req: Request, l: Lock, m: Lock)
    requires Exclusive(list) && m in list && !Blocked(list, req) && m.owner != req.owner
    requires forall e :: e in own ==> e in list && e.owner == req.owner
    requires OnlyAllowed(own, req, l)
    ensures ClashFree(l, m)
  {
    if req.kind != Unlock {
      AllowedClashFree(list, own, req, l, m);
    } else {
      var x := Max(l.start, m.start);
      if x <= Min(l.end, m.end) {
        assert Allowed(own, req, l.kind, x);
        var i :| 0 <= i < |own| && own[i].kind == l.kind && own[i].start <= x <= own[i].end;
        assert ClashFree(own[i], m);
      }
    }
  }

  lemma CloseKeepsList(list: seq<Lock>, owner: Owner)
    requires ListInv(list)
    ensures var a := FirstOwn(list, owner);
            var r := list[..a] + list[OwnEnd(list, owner, a)..];
            ListInv(r) && forall l :: l in r ==> l.owner != owner
  {
    var a := FirstOwn(list, owner);
    var b := OwnEnd(list, owner, a);
    OwnBlock(list, owner);
    BlockContiguous(list, owner, a, b, []);
    assert list[..a] + [] + list[b..] == list[..a] + list[b..];
  }

  lemma DoKeepsInv(t: Table, c: Call)
    requires ValidCall(t, c) && TableInv(t)
    ensures TableInv(Do(t, c))
  {
    var list := t.lists[c.ino];
    match c {
      case Set(ino, req) =>
        if !Blocked(list, req) { SetKeepsList(list, t.free, req); }
      case Close(ino, owner) =>
        CloseKeepsList(list, owner);
    }
    forall n: nat
      ensures Total(Do(t, c), n) == if n < NR_FILE_LOCKS then 1 else 0
    {
      DoConserves(t, c, n);
    }
  }

  lemma {:induction false} DoAllKeepsInv(t: Table, cs: seq<Call>)
    requires ValidCalls(t, cs) && TableInv(t)
    ensures TableInv(DoAll(t, cs))
    decreases |cs|
  {
    if cs != [] {
      DoKeepsInv(t, cs[0]);
      DoAllKeepsInv(Do(t, cs[0]), cs[1..]);
    }
  }

  lemma {:induction false} FreeRange(free: seq<nat>, base: nat, n: nat)
    requires forall i :: 0 <= i < |free| ==> free[i] == base + i
    ensures FreeUses(free, n) == if base <= n < base + |free| then 1 else 0
  {
    if free != [] {
      FreeRange(free[1..], base + 1, n);
    }
  }

  lemma {:induction false} NoUses(lists: seq<seq<Lock>>, n: nat)
    requires forall i :: 0 <= i < |lists| ==> lists[i] == []
    ensures ListUses(lists, n) == 0
  {
    if lists != [] {
      NoUses(lists[1..], n);
    }
  }

  lemma InitInv(files: nat)
    ensures TableInv(Init(files))
  {
    forall n: nat
      ensures Total(Init(files), n) == if n < NR_FILE_LOCKS then 1 else 0
    {
      FreeRange(Init(files).free, 0, n);
      NoUses(Init(files).lists, n);
    }
  }

  /** Over every sequence of set, unlock and close calls, wrapping sums included: no byte is
      write-locked by one (task, descriptor) while another holds any lock on it, and each of the
      NR_FILE_LOCKS entries is in exactly one place, once. */
  lemma RunSafe(files: nat, cs: seq<Call>)
    requires ValidCalls(Init(files), cs)
    ensures TableInv(DoAll(Init(files), cs))
    ensures var t := DoAll(Init(files), cs);
            forall f, o, o', k, x :: 0 <= f < |t.lists| && o != o' && Holds(t.lists[f], o, WriteLock, x) ==>
                                     !Holds(t.lists[f], o', k, x)
    ensures var t := DoAll(Init(files), cs);
            forall n: nat :: Total(t, n) == if n < NR_FILE_LOCKS then 1 else 0
  {
    InitInv(files);
    DoAllKeepsInv(Init(files), cs);
    var t := DoAll(Init(files), cs);
    forall f, o, o', k, x | 0 <= f < |t.lists| && o != o' && Holds(t.lists[f], o, WriteLock, x)
      ensures !Holds(t.lists[f], o', k, x)
    {
      NoClash(t.lists[f], o, o', k, x);
    }
  }

  lemma NoClash(list: seq<Lock>, o: Owner, o': Owner, k: Kind, x: int)
    requires Exclusive(list) && o != o' && Holds(list, o, WriteLock, x)
    ensures !Holds(list, o', k, x)
  {
    var i :| 0 <= i < |list| && Covers(list[i], o, WriteLock, x);
    assert forall j :: 0 <= j < |list| ==> ClashFree(list[i], list[j]);
  }

  /** Along the run, no accepted request makes the sum wrap past an entry to merge. */
  ghost predicate NeverWraps(t: Table, cs: seq<Call>)
    requires ValidCalls(t, cs)
    decreases |cs|
  {
    cs != [] ==>
      && (cs[0].Set? && !Blocked(t.lists[cs[0].ino], cs[0].req) ==> !WrapsPastMerge(t.lists[cs[0].ino], cs[0].req))
      && NeverWraps(Do(t, cs[0]), cs[1..])
  }

  ghost predicate AllWellFormed(t: Table) {
    forall i :: 0 <= i < |t.lists| ==> WellFormed(t.lists[i])
  }

  /** Without such a wrap every list stays in order, so every call along the run has the exact
      effect that LockItCorrect states. */
  lemma {:induction false} RunOrdered(t: Table, cs: seq<Call>)
    requires ValidCalls(t, cs) && AllWellFormed(t) && NeverWraps(t, cs)
    ensures AllWellFormed(DoAll(t, cs))
    decreases |cs|
  {
    if cs != [] {
      DoOrdered(t, cs[0]);
      RunOrdered(Do(t, cs[0]), cs[1..]);
    }
  }

  lemma DoOrdered(t: Table, c: Call)
    requires ValidCall(t, c) && AllWellFormed(t)
    requires c.Set? && !Blocked(t.lists[c.ino], c.req) ==> !WrapsPastMerge(t.lists[c.ino], c.req)
    ensures AllWellFormed(Do(t, c))
  {
    var list := t.lists[c.ino];
    match c {
      case Set(ino, req) =>
        if !Blocked(list, req) { LockItCorrect(list, t.free, req); }
      case Close(ino, owner) =>
        var a := FirstOwn(list, owner);
        var b := OwnEnd(list, owner, a);
        OwnBlock(list, owner);
        BlockWellFormed(list, owner, a, b, []);
        assert list[..a] + [] + list[b..] == list[..a] + list[b..];
    }
  }

  /** Closing removes all of the owner's locks on the file and touches no other byte. */
  lemma CloseEffect(t: Table, ino: nat, owner: Owner)
    requires TableInv(t) && ino < |t.lists|
    ensures forall o, k, x :: Holds(CloseFile(t, ino, owner).lists[ino], o, k, x) <==>
                              o != owner && Holds(t.lists[ino], o, k, x)
    ensures forall i :: 0 <= i < |t.lists| && i != ino ==> CloseFile(t, ino, owner).lists[i] == t.lists[i]
  {
    var list := t.lists[ino];
    var a := FirstOwn(list, owner);
    var b := OwnEnd(list, owner, a);
    OwnBlock(list, owner);
    assert list[..a] + [] + list[b..] == list[..a] + list[b..];
    forall o, k, x
      ensures Holds(list[..a] + list[b..], o, k, x) <==> o != owner && Holds(list, o, k, x)
    {
      BlockHolds(list, owner, a, b, [], o, k, x);
    }
  }

  // ---------- the table in place ----------

  /** The loop of lock_it over the caller's entries. */
  method ScanEntries(own: seq<Lock>, free0: seq<nat>, req: Request) returns (s: Scan)
    ensures s == Run(Start(own, free0, req))
  {
    var done: seq<Lock>, rest, free := [], own, free0;
    var caller, added, at, left, right := req, false, -1, -1, false;
    ghost var t := Start(own, free0, req);
    while rest != []
      invariant t == Scan(done, rest, free, caller, added, at, left, right, false) && !right
      invariant Run(t) == Run(Start(own, free0, req))
      decreases |rest|
    {
      var fl := rest[0];
      t := Advance(t);
      if caller.kind == fl.kind {
        if fl.end < caller.start - 1 {
          done, rest := done + [fl], rest[1..];
        } else if fl.start > OffT(caller.end + 1) {
          break;
        } else {
          caller := caller.(start := Min(fl.start, caller.start), end := Max(fl.end, caller.end));
          if added {
            if 0 <= at < |done| { done := done[at := done[at].(start := caller.start, end := caller.end)]; }
            rest, free := rest[1..], [fl.slot] + free;
          } else {
            at, added := |done|, true;
            done, rest := done + [fl.(start := caller.start, end := caller.end)], rest[1..];
          }
        }
      } else if fl.end < caller.start {
        done, rest := done + [fl], rest[1..];
      } else if fl.start > caller.end {
        break;
      } else {
        if caller.kind == Unlock { added := true; }
        if fl.start < caller.start { left := |done|; }
        if fl.end > caller.end {
          right := true;
          break;
        }
        if fl.start < caller.start {
          done, rest := done + [fl], rest[1..];
        } else if added {
          rest, free := rest[1..], [fl.slot] + free;
        } else {
          at, added := |done|, true;
          done, rest := done + [fl.(start := caller.start, end := caller.end, kind := caller.kind)], rest[1..];
        }
      }
    }
    s := Scan(done, rest, free, caller, added, at, left, right, true);
  }

  /** The end of lock_it: allocate the caller's entry and a lower remainder, then trim. */
  method Conclude(s: Scan) returns (status: Status, list: seq<Lock>, free: seq<nat>)
    ensures Outcome(status, list, free) == Finish(s)
  {
    var node: seq<Lock>, lower: seq<Lock> := [], [];
    status, list, free := Ok, s.done + s.rest, s.free;
    if !s.added {
      if s.req.kind == Unlock { return EINVAL, list, free; }
      if free == [] { return ENOLCK, list, free; }
      node, free := [Lock(free[0], s.req.owner, s.req.kind, s.req.start, s.req.end)], free[1..];
    }
    var done, rest := s.done, s.rest;
    if s.right && rest != [] {
      if s.left == |done| {
        if free == [] { return ENOLCK, list, s.free; }
        lower, free := [rest[0].(slot := free[0], owner := s.req.owner, end := s.req.start - 1)], free[1..];
      }
      rest := [rest[0].(start := s.req.end + 1)] + rest[1..];
    }
    if 0 <= s.left < |done| {
      done := done[s.left := done[s.left].(end := s.req.start - 1)];
    }
    list := done + lower + node + rest;
  }

  class LockTable {
    var lists: seq<seq<Lock>>
    var free: seq<nat>

    function State(): Table reads this { Table(lists, free) }

    constructor (files: nat)
      ensures State() == Init(files)
    {
      lists := seq(files, i => []);
      free := seq(NR_FILE_LOCKS, i => i);
    }

    /** fcntl_remove_locks. */
    method RemoveLocks(ino: nat, owner: Owner)
      requires ino < |lists|
      modifies this
      ensures State() == CloseFile(old(State()), ino, owner)
    {
      var list := lists[ino];
      ghost var a := FirstOwn(list, owner);
      ghost var b := OwnEnd(list, owner, a);
      var before := 0;
      while before < |list| && list[before].owner != owner
        invariant 0 <= before <= a
      {
        before := before + 1;
      }
      var fl := before;
      while fl < |list| && list[fl].owner == owner
        invariant a == before <= fl <= b && lists == old(lists)
        invariant PushAll(free, list[fl..b]) == PushAll(old(free), list[a..b])
      {
        assert list[fl..b][1..] == list[fl + 1..b];
        free := [list[fl].slot] + free;
        fl := fl + 1;
      }
      lists := lists[ino := list[..before] + list[fl..]];
    }

    /** lock_it: skip the entries of others, rework the caller's, allocate what is still missing. */
    method LockRange(ino: nat, req: Request) returns (status: Status)
      requires ino < |lists|
      modifies this
      ensures var r := LockIt(old(lists)[ino], old(free), req);
              status == r.status && lists == old(lists)[ino := r.list] && free == r.free
    {
      var list := lists[ino];
      var before := 0;
      while before < |list| && list[before].owner != req.owner
        invariant 0 <= before <= FirstOwn(list, req.owner)
      {
        before := before + 1;
      }
      var after := before;
      while after < |list| && list[after].owner == req.owner
        invariant before <= after <= OwnEnd(list, req.owner, before)
      {
        after := after + 1;
      }
      var s := ScanEntries(list[before..after], free, req);
      var own, left;
      status, own, left := Conclude(s);
      lists, free := lists[ino := list[..before] + own + list[after..]], left;
    }

    /** F_SETLK. */
    method SetLk(ino: nat, req: Request) returns (status: Status)
      requires ino < |lists|
      modifies this
      ensures (State(), status) == SetLock(old(State()), ino, req)
      ensures ValidRequest(req) && AllWeak(old(lists[ino])) ==> Answers(old(lists[ino]), old(free), req, status)
      ensures ValidRequest(req) && WellFormed(old(lists[ino])) ==> AnswersInOrder(old(lists[ino]), old(free), req, status)
    {
      hide LockIt, Answers, AnswersInOrder, WellFormed;
      ghost var before := State();
      if ValidRequest(req) && WellFormed(lists[ino]) { NoPhantom(lists[ino], req); }
      if ValidRequest(req) && AllWeak(lists[ino]) { SetLockAnswers(before, ino, req); }
      var i := 0;
      if req.kind != Unlock {
        while i < |lists[ino]|
          invariant 0 <= i <= |lists[ino]|
          invariant State() == old(State())
          invariant forall j :: 0 <= j < i ==> !Conflict(req, lists[ino][j])
        {
          if Conflict(req, lists[ino][i]) { return EAGAIN; }
          i := i + 1;
        }
      }
      status := LockRange(ino, req);
    }

    /** The entry that F_GETLK reports: the first one that would block the request. */
    method GetLock(ino: nat, req: Request) returns (blocker: seq<Lock>)
      requires ino < |lists|
      ensures blocker == [] <==> !Blocked(lists[ino], req)
      ensures blocker != [] ==> |blocker| == 1 && blocker[0] in lists[ino] && Conflict(req, blocker[0])
      ensures ValidRequest(req) && AllWeak(lists[ino]) ==>
                (blocker != [] <==> req.kind != Unlock && (Contended(lists[ino], req) || Phantom(lists[ino], req)))
      ensures ValidRequest(req) && WellFormed(lists[ino]) ==> (blocker != [] <==> req.kind != Unlock && Contended(lists[ino], req))
      ensures ValidRequest(req) && blocker != [] && WellFormed(lists[ino]) ==>
                exists x :: ContendedAt(blocker, req, blocker[0].owner, blocker[0].kind, x)
    {
      hide WellFormed, Contended, Phantom;
      if ValidRequest(req) && WellFormed(lists[ino]) { NoPhantom(lists[ino], req); }
      if ValidRequest(req) && AllWeak(lists[ino]) { BlockedIff(lists[ino], req); }
      var i := 0;
      while i < |lists[ino]|
        invariant 0 <= i <= |lists[ino]|
        invariant forall j :: 0 <= j < i ==> !Conflict(req, lists[ino][j])
      {
        if Conflict(req, lists[ino][i]) {
          if ValidRequest(req) && WellFormed(lists[ino]) { BlockerHolds(lists[ino], i, req); }
          return [lists[ino][i]];
        }
        i := i + 1;
      }
      return [];
    }
  }
}
