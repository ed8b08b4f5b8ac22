/** What a call of fcntl_setlk answers, said through the bytes held and the free entries: when another owner's lock
    is in the way, when an unlock finds nothing, and how many free entries a call needs. */
module RecordLockStatus {
  import opened RecordLocks
  import opened RecordLockRefusals

  // ---------- another owner's lock is in the way ----------

  /** Another owner holds a byte of the range, and one of the two locks is a write lock. */
  ghost predicate Contended(list: seq<Lock>, req: Request) {
    exists o, k, x :: ContendedAt(list, req, o, k, x)
  }

  ghost predicate ContendedAt(list: seq<Lock>, req: Request, o: Owner, k: Kind, x: int) {
    && o != req.owner && req.start <= x <= req.end && Holds(list, o, k, x)
    && (k == WriteLock || req.kind == WriteLock)
  }

  /** Another owner's entry covers no byte at all, its end having been cut off below its start, but its start is
      not past the range and its end not before it. */
  ghost predicate Phantom(list: seq<Lock>, req: Request) {
    exists i :: 0 <= i < |list| && PhantomEntry(list[i], req)
  }

  predicate PhantomEntry(l: Lock, req: Request) {
    && l.owner != req.owner && l.end < l.start && l.start <= req.end && req.start <= l.end
    && (l.kind == WriteLock || req.kind == WriteLock)
  }

  /** On every list that can come about, a lock is blocked if and only if another owner holds a byte of its range and
      one of the two is a write lock, or an entry without a byte lies inside it. An unlock is never blocked. */
  lemma BlockedIff(list: seq<Lock>, req: Request)
    requires AllWeak(list) && ValidRequest(req)
    ensures Blocked(list, req) <==> req.kind != Unlock && (Contended(list, req) || Phantom(list, req))
  {
    if Blocked(list, req) {
      var l :| l in list && Conflict(req, l);
      var i :| 0 <= i < |list| && list[i] == l;
      if l.start <= l.end {
        var x := Max(l.start, req.start);
        assert Covers(list[i], l.owner, l.kind, x);
        assert ContendedAt(list, req, l.owner, l.kind, x);
      } else {
        assert PhantomEntry(list[i], req);
      }
    }
    if req.kind != Unlock {
      if o, k, x :| ContendedAt(list, req, o, k, x) {
        var i :| 0 <= i < |list| && Covers(list[i], o, k, x);
        assert Conflict(req, list[i]);
      }
      if i :| 0 <= i < |list| && PhantomEntry(list[i], req) {
        assert Conflict(req, list[i]);
      }
    }
  }

  lemma NoPhantom(list: seq<Lock>, req: Request)
    requires WellFormed(list)
    ensures AllWeak(list) && !Phantom(list, req)
  {
  }

  // ---------- how many free entries a call needs ----------

  /** Entry i is the first that is not passed over, and the caller takes it. */
  ghost predicate TakesAt(own: seq<Lock>, req: Request, i: int) {
    0 <= i < |own| && PassedAll(own, 0, i, req) && Taken(own[i], req)
  }

  /** Entry j is the first from lo on that is not passed over, and has to be split. */
  ghost predicate SplitsAt(own: seq<Lock>, r: Request, lo: int, j: int) {
    0 <= lo <= j < |own| && PassedAll(own, lo, j, r) && Held(own[j], r)
  }

  ghost predicate SplitsAfter(own: seq<Lock>, req: Request, i: int, j: int) {
    TakesAt(own, req, i) && SplitsAt(own, Hull(own[i], req), i + 1, j)
  }

  /** The free entries that lock_it needs: one for the lock unless it takes over an old entry,
      and one for the lower part of an entry that is split. */
  ghost function Needed(own: seq<Lock>, req: Request): nat {
    if req.kind == Unlock then (if exists j :: SplitsAt(own, req, 0, j) then 1 else 0)
    else if exists j :: SplitsAt(own, req, 0, j) then 2
    else if !exists i :: TakesAt(own, req, i) then 1
    else if exists i, j :: SplitsAfter(own, req, i, j) then 1
    else 0
  }

  /** The scan reaches an entry that has a place in common with the range. */
  ghost predicate Meets(own: seq<Lock>, req: Request) {
    exists i :: MeetsAt(own, req, i)
  }

  ghost predicate MeetsAt(own: seq<Lock>, req: Request, i: int) {
    && 0 <= i < |own| && own[i].end >= req.start && own[i].start <= req.end
    && forall a :: 0 <= a < i ==> own[a].end < req.start
  }

  lemma TakenNotSplit(own: seq<Lock>, req: Request, i: int)
    requires ValidRequest(req) && TakesAt(own, req, i)
    ensures !exists j :: SplitsAt(own, req, 0, j)
  {
    forall j
      ensures !SplitsAt(own, req, 0, j)
    {
      if 0 <= j < i {
        assert Passed(own[j], req);
      } else if i < j < |own| {
        assert !Passed(own[i], req);
      }
    }
  }

  lemma CleanStatus(own: seq<Lock>, free: seq<nat>, req: Request, s: Scan, q: int)
    requires Where(own, s, q) && s.halt && Clean(own, free, req, s, q) && req.kind != Unlock && ValidRequest(req)
    ensures Finish(s).status == if |free| < Needed(own, req) then ENOLCK else Ok
  {
    forall i
      ensures !TakesAt(own, req, i)
    {
    }
    forall j
      ensures SplitsAt(own, req, 0, j) ==> j == q
    {
    }
    if q < |own| && Held(own[q], req) {
      assert SplitsAt(own, req, 0, q);
    }
  }

  lemma OnceStatus(own: seq<Lock>, free: seq<nat>, req: Request, s: Scan, q: int, i: int)
    requires Where(own, s, q) && s.halt && Once(own, free, req, s, q, i) && req.kind != Unlock && ValidRequest(req)
    ensures Finish(s).status == if |free| < Needed(own, req) then ENOLCK else Ok
  {
    assert TakesAt(own, req, i);
    TakenNotSplit(own, req, i);
    forall i', j
      ensures SplitsAfter(own, req, i', j) ==> i' == i && j == q
    {
      if SplitsAfter(own, req, i', j) { FirstTaken(own, req, i, i'); }
    }
    if q < |own| && Held(own[q], s.req) {
      assert SplitsAfter(own, req, i, q);
    }
  }

  lemma TwiceStatus(own: seq<Lock>, free: seq<nat>, req: Request, s: Scan, i: int, d: int)
    requires Twice(own, req, s, i, d) && req.kind != Unlock && ValidRequest(req)
    ensures Finish(s).status == Ok && Needed(own, req) == 0
  {
    assert TakesAt(own, req, i);
    TakenNotSplit(own, req, i);
    forall i', j
      ensures !SplitsAfter(own, req, i', j)
    {
      if SplitsAfter(own, req, i', j) {
        FirstTaken(own, req, i, i');
      }
    }
  }

  // ---------- the scan for an unlock ----------

  ghost predicate NotMet(own: seq<Lock>, req: Request, s: Scan, q: int)
    requires 0 <= q <= |own|
  {
    && !s.added && (forall a :: 0 <= a < q ==> own[a].end < req.start)
    && (s.halt && q < |own| ==> own[q].end >= req.start && own[q].start > req.end)
  }

  /** Nothing met yet; or met and nothing dropped; or the entry at d dropped. */
  ghost predicate UnlockStage(own: seq<Lock>, free: seq<nat>, req: Request, s: Scan, q: int)
    requires 0 <= q <= |own|
  {
    && s.req == req
    && (|| (NotMet(own, req, s, q) && s.free == free)
        || (s.added && Meets(own, req) && s.free == free && PassedAll(own, 0, q, req))
        || (s.added && Meets(own, req) && s.free != [] && exists d :: TakesAt(own, req, d)))
  }

  lemma UnlockStep(own: seq<Lock>, free: seq<nat>, req: Request, s: Scan, q: int)
    requires AllWeak(own) && ValidRequest(req) && req.kind == Unlock
    requires Where(own, s, q) && !s.halt && UnlockStage(own, free, req, s, q)
    ensures var t := Advance(s);
            if t.halt then UnlockStage(own, free, req, t, q) else q < |own| && UnlockStage(own, free, req, t, q + 1)
  {
    if q < |own| {
      assert s.rest[0] == own[q] && forall a :: 0 <= a < |own| ==> own[a] in own;
      if !s.added { assert PassedAll(own, 0, q, req); }
      if !s.added && own[q].end >= req.start && own[q].start <= req.end { assert MeetsAt(own, req, q); }
      if PassedAll(own, 0, q, req) && Taken(own[q], req) { assert TakesAt(own, req, q); }
    }
  }

  lemma {:induction false} UnlockRun(own: seq<Lock>, free: seq<nat>, req: Request, s: Scan, q: int) returns (q': int)
    requires AllWeak(own) && ValidRequest(req) && req.kind == Unlock
    requires Where(own, s, q) && UnlockStage(own, free, req, s, q)
    ensures Where(own, Run(s), q') && UnlockStage(own, free, req, Run(s), q')
    decreases !s.halt, |s.rest|
  {
    hide Where, Advance, UnlockStage;
    q' := q;
    if !s.halt {
      WhereStep(own, s, q);
      WhereBounds(own, s, q);
      UnlockStep(own, free, req, s, q);
      var t := Advance(s);
      q' := UnlockRun(own, free, req, t, if t.halt then q else q + 1);
    }
  }

  lemma UnlockStatus(own: seq<Lock>, free: seq<nat>, req: Request, s: Scan, q: int)
    requires ValidRequest(req) && AllWeak(own) && req.kind == Unlock
    requires Where(own, s, q) && s.halt && UnlockStage(own, free, req, s, q)
    ensures Finish(s).status == if !Meets(own, req) then EINVAL else if |free| < Needed(own, req) then ENOLCK else Ok
  {
    if NotMet(own, req, s, q) {
      NothingMet(own, req, s, q);
    } else if s.free == free && PassedAll(own, 0, q, req) {
      forall j
        ensures SplitsAt(own, req, 0, j) ==> j == q
      {
        if 0 <= j < q { assert Passed(own[j], req); }
      }
      if q < |own| && Held(own[q], req) { assert SplitsAt(own, req, 0, q); }
    } else {
      var d :| TakesAt(own, req, d);
      TakenNotSplit(own, req, d);
    }
  }

  lemma NothingMet(own: seq<Lock>, req: Request, s: Scan, q: int)
    requires ValidRequest(req) && 0 <= q <= |own| && s.halt && NotMet(own, req, s, q)
    ensures !Meets(own, req)
  {
    forall i
      ensures !MeetsAt(own, req, i)
    {
    }
  }

  /** What lock_it answers, on entries in any order. */
  lemma StatusIs(own: seq<Lock>, free: seq<nat>, req: Request)
    requires AllWeak(own) && ValidRequest(req)
    ensures LockOwn(own, free, req).status ==
            if req.kind == Unlock && !Meets(own, req) then EINVAL
            else if |free| < Needed(own, req) then ENOLCK else Ok
  {
    hide Needed, Meets, Where, Finish, Run, Clean, Once, Twice, UnlockStage;
    var s := Start(own, free, req);
    StartClean(own, free, req);
    if req.kind == Unlock {
      StartUnlock(own, free, req);
      var q := UnlockRun(own, free, req, s, 0);
      WhereBounds(own, Run(s), q);
      UnlockStatus(own, free, req, Run(s), q);
    } else {
      var q := StageRun(own, free, req, s, 0);
      LockStatus(own, free, req, Run(s), q);
    }
  }

  lemma StartUnlock(own: seq<Lock>, free: seq<nat>, req: Request)
    ensures UnlockStage(own, free, req, Start(own, free, req), 0)
  {
  }

  lemma LockStatus(own: seq<Lock>, free: seq<nat>, req: Request, s: Scan, q: int)
    requires Where(own, s, q) && Stage(own, free, req, s, q) && s.halt && req.kind != Unlock && ValidRequest(req)
    ensures Finish(s).status == if |free| < Needed(own, req) then ENOLCK else Ok
  {
    hide Needed, Clean, Once, Twice, Where, Finish;
    WhereBounds(own, s, q);
    if Clean(own, free, req, s, q) {
      CleanStatus(own, free, req, s, q);
    } else if i :| Once(own, free, req, s, q, i) {
      OnceStatus(own, free, req, s, q, i);
    } else {
      var i, d :| Twice(own, req, s, i, d);
      TwiceStatus(own, free, req, s, i, d);
    }
  }

  // ---------- on a list in order ----------

  /** The caller holds a byte of the range. */
  ghost predicate HoldsSome(own: seq<Lock>, req: Request) {
    exists k, x :: req.start <= x <= req.end && Covered(own, k, x)
  }

  lemma MeetsBytes(own: seq<Lock>, req: Request)
    requires OwnSorted(own, req.owner) && ValidRequest(req)
    ensures Meets(own, req) <==> HoldsSome(own, req)
  {
    if i :| MeetsAt(own, req, i) {
      var x := Max(own[i].start, req.start);
      assert Covered(own, own[i].kind, x);
    }
    if k, x :| req.start <= x <= req.end && Covered(own, k, x) {
      var i :| 0 <= i < |own| && own[i].kind == k && own[i].start <= x <= own[i].end;
      FirstMet(own, req, i);
    }
  }

  lemma {:induction false} FirstMet(own: seq<Lock>, req: Request, i: int)
    requires OwnSorted(own, req.owner) && 0 <= i < |own| && own[i].end >= req.start && own[i].start <= req.end
    ensures Meets(own, req)
    decreases i
  {
    if j :| 0 <= j < i && own[j].end >= req.start {
      assert Before(own[j], own[i]);
      FirstMet(own, req, j);
    } else {
      assert MeetsAt(own, req, i);
    }
  }

  ghost predicate SomeTaken(own: seq<Lock>, req: Request) {
    exists i :: 0 <= i < |own| && Taken(own[i], req)
  }

  ghost predicate SomeHeld(own: seq<Lock>, req: Request) {
    exists i :: 0 <= i < |own| && Held(own[i], req)
  }

  lemma HeldAlone(own: seq<Lock>, req: Request, i: int)
    requires OwnSorted(own, req.owner) && ValidRequest(req) && 0 <= i < |own| && Held(own[i], req)
    ensures SplitsAt(own, req, 0, i) && !SomeTaken(own, req)
  {
    forall a | 0 <= a < i
      ensures Passed(own[a], req)
    {
      assert Before(own[a], own[i]);
    }
    forall a | 0 <= a < |own|
      ensures !Taken(own[a], req)
    {
      assert a > i ==> Before(own[i], own[a]);
      assert a < i ==> Passed(own[a], req);
    }
  }

  lemma {:induction false} FirstTakenAt(own: seq<Lock>, req: Request, i: int) returns (f: int)
    requires OwnSorted(own, req.owner) && ValidRequest(req) && !WrapsPastMerge(own, req)
    requires 0 <= i < |own| && Taken(own[i], req)
    ensures TakesAt(own, req, f)
    decreases i
  {
    if j :| 0 <= j < i && Taken(own[j], req) {
      f := FirstTakenAt(own, req, j);
    } else {
      f := i;
      forall a | 0 <= a < i
        ensures Passed(own[a], req)
      {
        assert Before(own[a], own[i]) && !Taken(own[a], req);
      }
    }
  }

  lemma NeverAfter(own: seq<Lock>, req: Request, i: int, j: int)
    requires OwnSorted(own, req.owner)
    ensures !SplitsAfter(own, req, i, j)
  {
    assert 0 <= i < j < |own| ==> Before(own[i], own[j]);
  }

  /** On entries in order, when no sum wraps past a merge: one entry for a lock that no entry can be given to,
      and one for an entry with room on both sides of the range. */
  lemma NeededInOrder(own: seq<Lock>, req: Request)
    requires OwnSorted(own, req.owner) && ValidRequest(req) && !WrapsPastMerge(own, req)
    ensures Needed(own, req) == (if req.kind == Unlock || SomeTaken(own, req) then 0 else 1) + (if SomeHeld(own, req) then 1 else 0)
  {
    forall i, j
      ensures !SplitsAfter(own, req, i, j)
    {
      NeverAfter(own, req, i, j);
    }
    if i :| 0 <= i < |own| && Held(own[i], req) {
      HeldAlone(own, req, i);
    } else if i :| 0 <= i < |own| && Taken(own[i], req) {
      var f := FirstTakenAt(own, req, i);
    }
  }

  // ---------- on a file's whole list ----------

  /** The answer to a call on any list that can come about. */
  ghost predicate Answers(list: seq<Lock>, free: seq<nat>, req: Request, status: Status) {
    var own := OwnEntries(list, req.owner);
    if req.kind != Unlock && (Contended(list, req) || Phantom(list, req)) then status == EAGAIN
    else if req.kind == Unlock && !Meets(own, req) then status == EINVAL
    else status == if |free| < Needed(own, req) then ENOLCK else Ok
  }

  ghost predicate OwnByte(list: seq<Lock>, req: Request) {
    exists k, x :: req.start <= x <= req.end && Holds(list, req.owner, k, x)
  }

  ghost predicate OwnTaken(list: seq<Lock>, req: Request) {
    exists i :: 0 <= i < |list| && list[i].owner == req.owner && Taken(list[i], req)
  }

  ghost predicate OwnHeld(list: seq<Lock>, req: Request) {
    exists i :: 0 <= i < |list| && list[i].owner == req.owner && Held(list[i], req)
  }

  /** The answer to a call on a list in order: EAGAIN if another owner's lock on a byte of the range excludes this
      one, EINVAL if an unlock finds no byte of the caller's, ENOLCK if too few entries are free. */
  ghost predicate AnswersInOrder(list: seq<Lock>, free: seq<nat>, req: Request, status: Status) {
    if req.kind != Unlock && Contended(list, req) then status == EAGAIN
    else if req.kind == Unlock && !OwnByte(list, req) then status == EINVAL
    else
      && (status == Ok || status == ENOLCK)
      && (!WrapsPastMerge(list, req) ==>
            var needed := (if req.kind == Unlock || OwnTaken(list, req) then 0 else 1) + (if OwnHeld(list, req) then 1 else 0);
            status == if |free| < needed then ENOLCK else Ok)
  }
}
