/** What a successful call of lock_it does to the bytes of the requested kind, for lists in any order. */
module RecordLockCover {
  import opened RecordLocks
  import opened RecordLockTable
  import opened RecordLockRuns

  /** Byte x is in the caller's range, as far as it has grown. */
  predicate InRange(r: Request, x: int) { r.start <= x <= r.end }

  /** No byte of the kind is lost between the entries done, those to do, and the caller's range; the caller's entry, once it
      is on the list, covers the range; and the entries to be trimmed are of another kind. */
  ghost predicate CoverInv(own: seq<Lock>, req: Request, s: Scan) {
    && s.req.kind == req.kind && s.req.owner == req.owner && s.req.start <= req.start && req.end <= s.req.end
    && s.at < |s.done| && (s.added <==> 0 <= s.at)
    && (s.added ==> s.done[s.at].kind == req.kind && s.done[s.at].start == s.req.start && s.req.end == s.done[s.at].end)
    && (0 <= s.left < |s.done| ==> s.done[s.left].kind != req.kind)
    && (s.right ==> s.rest != [] && s.rest[0].kind != req.kind)
    && (forall x :: Covered(own, req.kind, x) ==> Covered(s.done, req.kind, x) || Covered(s.rest, req.kind, x) || InRange(s.req, x))
  }

  lemma CoveredMore(l: Lock, rest: seq<Lock>, done: seq<Lock>, k: Kind, x: int)
    ensures Covered([l] + rest, k, x) <==> (l.kind == k && l.start <= x <= l.end) || Covered(rest, k, x)
    ensures Covered(done + [l], k, x) <==> Covered(done, k, x) || (l.kind == k && l.start <= x <= l.end)
  {
    CoveredConcat([l], rest, k, x);
    CoveredConcat(done, [l], k, x);
    assert [l][0] == l;
    assert Covered([l], k, x) <==> (l.kind == k && l.start <= x <= l.end);
  }

  /** An entry of the kind that grows covers no less; one of another kind covers nothing. */
  lemma CoveredSet(done: seq<Lock>, i: nat, l: Lock, k: Kind, x: int)
    requires i < |done| && Covered(done, k, x)
    requires done[i].kind == k ==> l.kind == k && l.start <= done[i].start && done[i].end <= l.end
    ensures Covered(done[i := l], k, x)
  {
    var j :| 0 <= j < |done| && done[j].kind == k && done[j].start <= x <= done[j].end;
    assert done[i := l][j] == if i == j then l else done[j];
  }

  lemma CoverStep(own: seq<Lock>, req: Request, s: Scan)
    requires CoverInv(own, req, s) && !s.halt && !s.right && s.left < |s.done| && req.kind != Unlock
    ensures CoverInv(own, req, Advance(s)) && (!Advance(s).halt ==> !Advance(s).right && Advance(s).left < |Advance(s).done|)
  {
    if s.rest != [] {
      var fl, t := s.rest[0], Advance(s);
      assert s.rest == [fl] + s.rest[1..];
      forall x | Covered(own, req.kind, x)
        ensures Covered(t.done, req.kind, x) || Covered(t.rest, req.kind, x) || InRange(t.req, x)
      {
        StepAt(own, req, s, x);
      }
    }
  }

  lemma StepAt(own: seq<Lock>, req: Request, s: Scan, x: int)
    requires CoverInv(own, req, s) && s.rest != [] && req.kind != Unlock && Covered(own, req.kind, x)
    ensures var t := Advance(s); Covered(t.done, req.kind, x) || Covered(t.rest, req.kind, x) || InRange(t.req, x)
  {
    var fl := s.rest[0];
    assert s.rest == [fl] + s.rest[1..];
    CoveredMore(fl, s.rest[1..], s.done, req.kind, x);
    if Covered(s.done, req.kind, x) {
      if s.added {
        var lo, hi := Min(fl.start, s.req.start), Max(fl.end, s.req.end);
        var l := s.done[s.at].(start := lo, end := hi);
        if x < s.done[s.at].start || x > s.done[s.at].end { OthersCover(s.done, s.at, l, req.kind, x); }
      }
      CoveredMore(fl.(start := Min(fl.start, s.req.start), end := Max(fl.end, s.req.end)), [], s.done, req.kind, x);
      CoveredMore(fl.(start := s.req.start, end := s.req.end, kind := s.req.kind), [], s.done, req.kind, x);
    }
  }

  lemma OthersCover(done: seq<Lock>, i: nat, l: Lock, k: Kind, x: int)
    requires i < |done| && Covered(done, k, x) && !(done[i].start <= x <= done[i].end)
    ensures Covered(done[i := l], k, x)
  {
    var j :| 0 <= j < |done| && done[j].kind == k && done[j].start <= x <= done[j].end;
    assert done[i := l][j] == done[j];
  }

  lemma {:induction false} CoverRun(own: seq<Lock>, req: Request, s: Scan)
    requires CoverInv(own, req, s) && (!s.halt ==> !s.right && s.left < |s.done|) && req.kind != Unlock
    ensures CoverInv(own, req, Run(s))
    decreases !s.halt, |s.rest|
  {
    hide CoverInv, Advance;
    if !s.halt {
      CoverStep(own, req, s);
      CoverRun(own, req, Advance(s));
    }
  }

  lemma CoverFinish(own: seq<Lock>, req: Request, s: Scan, x: int)
    requires CoverInv(own, req, s) && Finish(s).status == Ok && req.kind != Unlock
    requires InRange(req, x) || Covered(own, req.kind, x)
    ensures Covered(Finish(s).list, req.kind, x)
  {
    TrimsCover(s, req.kind, x);
    var node := if s.added then [] else [Lock(s.free[0], s.req.owner, s.req.kind, s.req.start, s.req.end)];
    if InRange(s.req, x) {
      if s.added {
        assert s.done[s.at].start <= x <= s.done[s.at].end;
        assert Covered(s.done, req.kind, x);
      } else {
        assert node[0].start <= x <= node[0].end;
        assert Covered(node, req.kind, x);
      }
    }
    CoveredConcat(TrimLeft(s) + node, TrimRight(s), req.kind, x);
    CoveredConcat(TrimLeft(s), node, req.kind, x);
    if Splits(s) {
      var free := if s.added then s.free else s.free[1..];
      var lower := s.rest[0].(slot := free[0], owner := s.req.owner, end := s.req.start - 1);
      CoveredConcat(s.done + [lower] + node, TrimRight(s), req.kind, x);
      CoveredConcat(s.done + [lower], node, req.kind, x);
      CoveredConcat(s.done, [lower], req.kind, x);
    }
  }

  lemma TrimsCover(s: Scan, k: Kind, x: int)
    requires (0 <= s.left < |s.done| ==> s.done[s.left].kind != k) && (s.right ==> s.rest != [] && s.rest[0].kind != k)
    ensures Covered(s.done, k, x) ==> Covered(TrimLeft(s), k, x)
    ensures Covered(s.rest, k, x) ==> Covered(TrimRight(s), k, x)
  {
    if 0 <= s.left < |s.done| && Covered(s.done, k, x) {
      CoveredSet(s.done, s.left, s.done[s.left].(end := s.req.start - 1), k, x);
    }
    if s.right && Covered(s.rest, k, x) {
      CoveredSet(s.rest, 0, s.rest[0].(start := s.req.end + 1), k, x);
      assert s.rest[0 := s.rest[0].(start := s.req.end + 1)] == TrimRight(s);
    }
  }

  /** On one owner's entries in any order, a successful lock gives the owner exactly the bytes of the requested kind that it
      had and the ones that it asked for. */
  lemma LockOwnExact(own: seq<Lock>, free: seq<nat>, req: Request, x: int)
    requires AllWeak(own) && ValidRequest(req) && req.kind != Unlock && LockOwn(own, free, req).status == Ok
    requires forall l :: l in own ==> l.owner == req.owner
    ensures Covered(LockOwn(own, free, req).list, req.kind, x) <==> InRange(req, x) || Covered(own, req.kind, x)
  {
    hide Run, Finish, CoverInv;
    var s := Start(own, free, req);
    StartCovers(own, free, req);
    CoverRun(own, req, s);
    if InRange(req, x) || Covered(own, req.kind, x) {
      CoverFinish(own, req, Run(s), x);
    }
    LockOwnSound(own, free, req);
    var r := LockOwn(own, free, req).list;
    if Covered(r, req.kind, x) {
      var i :| 0 <= i < |r| && r[i].kind == req.kind && r[i].start <= x <= r[i].end;
      assert r[i] in r && Allowed(own, req, r[i].kind, x);
    }
  }

  lemma StartCovers(own: seq<Lock>, free: seq<nat>, req: Request)
    ensures CoverInv(own, req, Start(own, free, req))
  {
  }

  // ---------- over every run ----------

  /** Nobody else's bytes change, and of the requested kind the caller has the bytes that it had and those that it asked
      for. */
  ghost predicate HoldsAsked(list: seq<Lock>, list': seq<Lock>, req: Request) {
    forall o, k, x :: o != req.owner || k == req.kind ==>
      (Holds(list', o, k, x) <==> Holds(list, o, k, x) || (o == req.owner && InRange(req, x)))
  }

  lemma HoldsParts(p: seq<Lock>, q: seq<Lock>, r: seq<Lock>, o: Owner, k: Kind, x: int)
    ensures Holds(p + q + r, o, k, x) <==> Holds(p, o, k, x) || Holds(q, o, k, x) || Holds(r, o, k, x)
  {
    var l := p + q + r;
    assert forall i :: 0 <= i < |p| ==> l[i] == p[i];
    assert forall i :: 0 <= i < |q| ==> l[|p| + i] == q[i];
    assert forall i :: 0 <= i < |r| ==> l[|p| + |q| + i] == r[i];
  }

  lemma OwnHolds(own: seq<Lock>, owner: Owner, o: Owner, k: Kind, x: int)
    requires forall l :: l in own ==> l.owner == owner
    ensures Holds(own, o, k, x) <==> o == owner && Covered(own, k, x)
  {
    assert forall i :: 0 <= i < |own| ==> own[i] in own;
  }

  lemma LockItExact(list: seq<Lock>, free: seq<nat>, req: Request)
    requires AllWeak(list) && ValidRequest(req) && req.kind != Unlock && LockIt(list, free, req).status == Ok
    ensures HoldsAsked(list, LockIt(list, free, req).list, req)
  {
    hide LockOwn, Holds, Covered;
    var a := FirstOwn(list, req.owner);
    var b := OwnEnd(list, req.owner, a);
    var own, r := list[a..b], LockOwn(list[a..b], free, req).list;
    assert list == list[..a] + own + list[b..];
    assert forall i :: 0 <= i < |own| ==> own[i] == list[a + i];
    LockOwnSound(own, free, req);
    forall o, k, x | o != req.owner || k == req.kind
      ensures Holds(list[..a] + r + list[b..], o, k, x) <==> Holds(list, o, k, x) || (o == req.owner && InRange(req, x))
    {
      HoldsParts(list[..a], own, list[b..], o, k, x);
      HoldsParts(list[..a], r, list[b..], o, k, x);
      OwnHolds(own, req.owner, o, k, x);
      OwnHolds(r, req.owner, o, k, x);
      if k == req.kind { LockOwnExact(own, free, req, x); }
    }
  }

  /** In every state that any sequence of set, unlock and close calls reaches, wrapping sums and lists out of order included:
      a lock that is granted gives the caller exactly the bytes of the requested kind that it had and those that it asked
      for, and nobody else's bytes change. */
  lemma RunGrants(files: nat, cs: seq<Call>, ino: nat, req: Request)
    requires ValidCalls(Init(files), cs) && ino < files && ValidRequest(req) && req.kind != Unlock
    ensures var t := DoAll(Init(files), cs);
            |t.lists| == |SetLock(t, ino, req).0.lists| == files &&
            (SetLock(t, ino, req).1 == Ok ==> HoldsAsked(t.lists[ino], SetLock(t, ino, req).0.lists[ino], req))
  {
    hide LockIt, Blocked, DoAll, Init, HoldsAsked;
    RunSafe(files, cs);
    var t := DoAll(Init(files), cs);
    InitFiles(files);
    ListWeak(t, ino);
    if LockIt(t.lists[ino], t.free, req).status == Ok { LockItExact(t.lists[ino], t.free, req); }
  }
}
