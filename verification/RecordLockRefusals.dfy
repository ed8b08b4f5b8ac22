/** When a call of lock_it that is refused has already changed the list: exactly when the scan has rewritten one
    entry and then meets another that must be split while no entry is free. Lists may be in any order. */
module RecordLockRefusals {
  import opened RecordLocks

  // ---------- what the scan does with one entry ----------

  /** The scan leaves the entry as it is and goes on (one that straddles the start is only trimmed at the end). */
  predicate Passed(l: Lock, r: Request) {
    if l.kind == r.kind then l.end < r.start - 1
    else l.end < r.start || (l.start < r.start && l.start <= r.end && l.end <= r.end)
  }

  /** The first such entry becomes the caller's: merged with it, or replaced by it. */
  predicate Taken(l: Lock, r: Request) {
    if l.kind == r.kind then l.end >= r.start - 1 && l.start <= OffT(r.end + 1)
    else l.end >= r.start && r.start <= l.start <= r.end && l.end <= r.end
  }

  /** The caller's range once the entry is taken, and the entry then. */
  function Hull(l: Lock, r: Request): Request {
    if l.kind == r.kind then r.(start := Min(l.start, r.start), end := Max(l.end, r.end)) else r
  }

  function Rewritten(l: Lock, r: Request): Lock {
    l.(kind := r.kind, start := Hull(l, r).start, end := Hull(l, r).end)
  }

  /** The entry has room on both sides of the range, and must be split. */
  predicate Held(l: Lock, r: Request) {
    l.kind != r.kind && l.start < r.start && l.end > r.end
  }

  predicate Stops(l: Lock, r: Request) {
    !Passed(l, r) && !Taken(l, r)
  }

  ghost predicate PassedAll(own: seq<Lock>, lo: int, hi: int, r: Request)
    requires 0 <= lo && hi <= |own|
  {
    forall a :: lo <= a < hi ==> Passed(own[a], r)
  }

  /** Some entry is the first one taken and comes out different, and the next one that is not passed has
      room on both sides of the range that the caller then has. */
  ghost predicate Spoils(own: seq<Lock>, req: Request) {
    req.kind != Unlock && exists i, j :: SpoilsAt(own, req, i, j)
  }

  ghost predicate SpoilsAt(own: seq<Lock>, req: Request, i: int, j: int) {
    && 0 <= i < j < |own|
    && PassedAll(own, 0, i, req) && Taken(own[i], req) && Rewritten(own[i], req) != own[i]
    && PassedAll(own, i + 1, j, Hull(own[i], req)) && Held(own[j], Hull(own[i], req))
  }

  // ---------- the scan for a lock ----------

  /** Nothing taken yet. */
  ghost predicate Clean(own: seq<Lock>, free: seq<nat>, req: Request, s: Scan, q: int)
    requires 0 <= q <= |own|
  {
    && !s.added && s.at == -1 && s.req == req && s.free == free
    && s.done == own[..q] && PassedAll(own, 0, q, req)
  }

  /** Entry i is taken, the others are as they were. */
  ghost predicate Once(own: seq<Lock>, free: seq<nat>, req: Request, s: Scan, q: int, i: int)
    requires 0 <= q <= |own|
  {
    && 0 <= i < q && s.added && s.at == i && s.req == Hull(own[i], req) && s.free == free
    && s.done == own[..q][i := Rewritten(own[i], req)]
    && PassedAll(own, 0, i, req) && Taken(own[i], req) && PassedAll(own, i + 1, q, s.req)
  }

  /** After entry i another one, d, was taken, and its table entry became free. */
  ghost predicate Twice(own: seq<Lock>, req: Request, s: Scan, i: int, d: int) {
    && 0 <= i < d < |own| && s.added && s.free != []
    && PassedAll(own, 0, i, req) && Taken(own[i], req)
    && PassedAll(own, i + 1, d, Hull(own[i], req)) && Taken(own[d], Hull(own[i], req))
  }

  ghost predicate Stage(own: seq<Lock>, free: seq<nat>, req: Request, s: Scan, q: int)
    requires 0 <= q <= |own|
  {
    || Clean(own, free, req, s, q)
    || (exists i :: Once(own, free, req, s, q, i))
    || (exists i, d :: Twice(own, req, s, i, d))
  }

  /** Where the scan has stopped, and that it splits an entry exactly if that has room on both sides. */
  ghost predicate Where(own: seq<Lock>, s: Scan, q: int) {
    && 0 <= q <= |own| && s.rest == own[q..]
    && s.req.start <= s.req.end && s.at < |s.done|
    && (!s.halt ==> !s.right && s.left < |s.done|)
    && (s.halt ==> q == |own| || Stops(own[q], s.req))
    && (s.halt ==> (Splits(s) <==> q < |own| && Held(own[q], s.req)))
  }

  lemma WhereStep(own: seq<Lock>, s: Scan, q: int)
    requires Where(own, s, q) && !s.halt
    ensures var t := Advance(s);
            if t.halt then Where(own, t, q) else q < |own| && Where(own, t, q + 1)
  {
    if q < |own| {
      assert s.rest[0] == own[q] && s.rest[1..] == own[q + 1..];
    }
  }

  lemma CleanStep(own: seq<Lock>, free: seq<nat>, req: Request, s: Scan, q: int)
    requires Where(own, s, q) && !s.halt && Clean(own, free, req, s, q) && req.kind != Unlock
    ensures var t := Advance(s);
            if t.halt then Clean(own, free, req, t, q)
            else q < |own| && (Clean(own, free, req, t, q + 1) || Once(own, free, req, t, q + 1, q))
  {
    if q < |own| {
      assert s.rest[0] == own[q] && own[..q] + [own[q]] == own[..q + 1];
      assert own[..q] + [Rewritten(own[q], req)] == own[..q + 1][q := Rewritten(own[q], req)];
    }
  }

  lemma OnceStep(own: seq<Lock>, free: seq<nat>, req: Request, s: Scan, q: int, i: int)
    requires Where(own, s, q) && !s.halt && Once(own, free, req, s, q, i) && req.kind != Unlock
    ensures var t := Advance(s);
            if t.halt then Once(own, free, req, t, q, i)
            else q < |own| && (Once(own, free, req, t, q + 1, i) || Twice(own, req, t, i, q))
  {
    if q < |own| {
      var e := Rewritten(own[i], req);
      assert s.rest[0] == own[q];
      assert own[..q][i := e] + [own[q]] == own[..q + 1][i := e];
    }
  }

  lemma TwiceStep(own: seq<Lock>, req: Request, s: Scan, i: int, d: int)
    requires Twice(own, req, s, i, d)
    ensures Twice(own, req, Advance(s), i, d)
  {
  }

  lemma {:induction false} StageRun(own: seq<Lock>, free: seq<nat>, req: Request, s: Scan, q: int) returns (q': int)
    requires Where(own, s, q) && Stage(own, free, req, s, q) && req.kind != Unlock
    ensures Where(own, Run(s), q') && Stage(own, free, req, Run(s), q')
    decreases !s.halt, |s.rest|
  {
    hide Where, Advance, Clean, Once, Twice;
    WhereBounds(own, s, q);
    q' := q;
    if !s.halt {
      WhereStep(own, s, q);
      var t := Advance(s);
      q' := if t.halt then q else q + 1;
      if Clean(own, free, req, s, q) {
        CleanStep(own, free, req, s, q);
      } else if i :| Once(own, free, req, s, q, i) {
        OnceStep(own, free, req, s, q, i);
      } else {
        var i, d :| Twice(own, req, s, i, d);
        TwiceStep(own, req, s, i, d);
      }
      q' := StageRun(own, free, req, t, q');
    }
  }

  lemma WhereBounds(own: seq<Lock>, s: Scan, q: int)
    requires Where(own, s, q)
    ensures 0 <= q <= |own|
  {
  }

  // ---------- what a refused call leaves ----------

  /** The call is refused, and has changed the list. */
  predicate Spoilt(own: seq<Lock>, o: Outcome) { o.status != Ok && o.list != own }

  lemma CleanEnd(own: seq<Lock>, free: seq<nat>, req: Request, s: Scan, q: int)
    requires Where(own, s, q) && s.halt && Clean(own, free, req, s, q)
    ensures Finish(s).status != Ok ==> Finish(s).list == own && Finish(s).free == free
    ensures !Spoils(own, req)
  {
    assert own == own[..q] + own[q..];
    forall i, j
      ensures !SpoilsAt(own, req, i, j)
    {
    }
  }

  lemma OnceEnd(own: seq<Lock>, free: seq<nat>, req: Request, s: Scan, q: int, i: int)
    requires Where(own, s, q) && s.halt && Once(own, free, req, s, q, i) && req.kind != Unlock
    ensures Spoilt(own, Finish(s)) <==> free == [] && Spoils(own, req)
    ensures Finish(s).status != Ok ==> Finish(s).list == own[i := Rewritten(own[i], req)] && Finish(s).free == free
  {
    var e := Rewritten(own[i], req);
    assert own[..q][i := e] + own[q..] == own[i := e];
    if Splits(s) && e != own[i] {
      assert SpoilsAt(own, req, i, q);
    }
    if i', j :| SpoilsAt(own, req, i', j) {
      FirstTaken(own, req, i, i');
      assert own[i := e][i] != own[i];
      assert j == q;
    }
  }

  lemma FirstTaken(own: seq<Lock>, req: Request, i: int, j: int)
    requires 0 <= i < |own| && PassedAll(own, 0, i, req) && Taken(own[i], req)
    requires 0 <= j < |own| && PassedAll(own, 0, j, req) && Taken(own[j], req)
    ensures i == j
  {
    assert i < j ==> Passed(own[i], req);
    assert j < i ==> Passed(own[j], req);
  }

  lemma NotTwice(own: seq<Lock>, req: Request, i: int, d: int, i': int, j: int)
    requires 0 <= i < d < |own| && PassedAll(own, 0, i, req) && Taken(own[i], req)
    requires PassedAll(own, i + 1, d, Hull(own[i], req)) && Taken(own[d], Hull(own[i], req))
    ensures !SpoilsAt(own, req, i', j)
  {
  }

  lemma TwiceEnd(own: seq<Lock>, req: Request, s: Scan, i: int, d: int)
    requires Twice(own, req, s, i, d)
    ensures Finish(s).status == Ok && !Spoils(own, req)
  {
    forall i', j
      ensures !SpoilsAt(own, req, i', j)
    {
      NotTwice(own, req, i, d, i', j);
    }
  }

  // ---------- the scan for an unlock ----------

  /** Entries are only dropped, and then one is free. */
  ghost predicate Dropping(own: seq<Lock>, free: seq<nat>, s: Scan) {
    s.req.kind == Unlock && ((s.done + s.rest == own && s.free == free) || (s.added && s.free != []))
  }

  lemma DroppingStep(own: seq<Lock>, free: seq<nat>, s: Scan)
    requires Dropping(own, free, s) && AllWeak(s.rest)
    ensures Dropping(own, free, Advance(s)) && AllWeak(Advance(s).rest)
  {
    if s.rest != [] {
      assert s.rest[0] in s.rest;
      assert s.done + [s.rest[0]] + s.rest[1..] == s.done + s.rest;
    }
  }

  lemma {:induction false} DroppingRun(own: seq<Lock>, free: seq<nat>, s: Scan)
    requires Dropping(own, free, s) && AllWeak(s.rest)
    ensures Dropping(own, free, Run(s))
    decreases !s.halt, |s.rest|
  {
    if !s.halt {
      DroppingStep(own, free, s);
      DroppingRun(own, free, Advance(s));
    }
  }

  /** For entries in any order: a call is refused after it has changed the list if and only if no entry is free
      and the scan rewrites one entry before it meets one that it would have to split. The free list is
      never changed by a refused call. */
  lemma RefusalIff(own: seq<Lock>, free: seq<nat>, req: Request)
    requires AllWeak(own) && ValidRequest(req)
    ensures Spoilt(own, LockOwn(own, free, req)) <==> free == [] && Spoils(own, req)
    ensures LockOwn(own, free, req).status != Ok ==> LockOwn(own, free, req).free == free
  {
    hide Spoils, Clean, Once, Twice, Where, Finish, Run;
    var s := Start(own, free, req);
    if req.kind == Unlock {
      UnlockEnd(own, free, req);
    } else {
      StartClean(own, free, req);
      var q := StageRun(own, free, req, s, 0);
      StageEnd(own, free, req, Run(s), q);
    }
  }

  lemma UnlockEnd(own: seq<Lock>, free: seq<nat>, req: Request)
    requires AllWeak(own) && req.kind == Unlock
    ensures var o := LockOwn(own, free, req); o.status != Ok ==> o.list == own && o.free == free
    ensures !Spoils(own, req)
  {
    var s := Start(own, free, req);
    assert s.done + s.rest == own;
    DroppingRun(own, free, s);
  }

  lemma StartClean(own: seq<Lock>, free: seq<nat>, req: Request)
    requires ValidRequest(req)
    ensures Where(own, Start(own, free, req), 0) && Clean(own, free, req, Start(own, free, req), 0)
  {
  }

  lemma StageEnd(own: seq<Lock>, free: seq<nat>, req: Request, s: Scan, q: int)
    requires Where(own, s, q) && Stage(own, free, req, s, q) && s.halt && req.kind != Unlock
    ensures Spoilt(own, Finish(s)) <==> free == [] && Spoils(own, req)
    ensures Finish(s).status != Ok ==> Finish(s).free == free
  {
    hide Spoils, Clean, Once, Twice, Where, Finish;
    WhereBounds(own, s, q);
    if Clean(own, free, req, s, q) {
      CleanEnd(own, free, req, s, q);
    } else if i :| Once(own, free, req, s, q, i) {
      OnceEnd(own, free, req, s, q, i);
    } else {
      var i, d :| Twice(own, req, s, i, d);
      TwiceEnd(own, req, s, i, d);
    }
  }
}
