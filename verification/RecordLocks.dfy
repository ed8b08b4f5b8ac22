/** Record locks of linux/fs/locks.c: the per-inode lock list, the fixed table of
    lock entries, and `lock_it`, which merges, splits and replaces entries in one pass. */
module RecordLocks {

  const OFFSET_MAX: int := 0x7fff_ffff
  const NR_FILE_LOCKS: nat := 64

  /** The value an `off_t` (32 bits, two's complement) holds after a sum of two of them. */
  function OffT(x: int): int {
    if x > OFFSET_MAX then x - 0x1_0000_0000
    else if x < -OFFSET_MAX - 1 then x + 0x1_0000_0000
    else x
  }

  datatype Kind = ReadLock | WriteLock | Unlock

  /** Locks belong to a task and one of its file descriptors. */
  datatype Owner = Owner(task: nat, fd: nat)

  /** An entry of the static lock table, identified by its slot, while it is on a file's list. */
  datatype Lock = Lock(slot: nat, owner: Owner, kind: Kind, start: int, end: int)

  datatype Request = Request(owner: Owner, kind: Kind, start: int, end: int)

  datatype Status = Ok | EINVAL | ENOLCK | EAGAIN

  predicate Conflict(req: Request, l: Lock) {
    && l.owner != req.owner
    && req.end >= l.start && l.end >= req.start
    && match req.kind
       case ReadLock => l.kind != ReadLock
       case WriteLock => true
       case Unlock => false
  }

  predicate Blocked(list: seq<Lock>, req: Request) {
    exists l :: l in list && Conflict(req, l)
  }

  // ---------- lock_it as a value ----------

  /** The variables of the scan loop. `done` is the part of the owner's entries before
      the cursor, `rest` the part from the cursor on. `at` is the index of the list entry that `caller`
      aliases (-1 while it is still the caller's own record); `left` is an index or -1. */
  datatype Scan = Scan(done: seq<Lock>, rest: seq<Lock>, free: seq<nat>, req: Request,
                       added: bool, at: int, left: int, right: bool, halt: bool)

  datatype Outcome = Outcome(status: Status, list: seq<Lock>, free: seq<nat>)

  function FirstOwn(list: seq<Lock>, owner: Owner): (k: nat)
    ensures k <= |list|
    ensures forall i :: 0 <= i < k ==> list[i].owner != owner
    ensures k < |list| ==> list[k].owner == owner
  {
    if list == [] || list[0].owner == owner then 0 else 1 + FirstOwn(list[1..], owner)
  }

  /** The end of the run of the owner's entries that starts at k. */
  function OwnEnd(list: seq<Lock>, owner: Owner, k: nat): (e: nat)
    requires k <= |list|
    ensures k <= e <= |list|
    ensures forall i :: k <= i < e ==> list[i].owner == owner
    ensures e < |list| ==> list[e].owner != owner
    decreases |list| - k
  {
    if k < |list| && list[k].owner == owner then OwnEnd(list, owner, k + 1) else k
  }

  /** The entries that lock_it works on. */
  function OwnEntries(list: seq<Lock>, owner: Owner): seq<Lock> {
    var a := FirstOwn(list, owner);
    list[a..OwnEnd(list, owner, a)]
  }

  function Keep(s: Scan): Scan
    requires s.rest != []
  {
    s.(done := s.done + [s.rest[0]], rest := s.rest[1..])
  }

  function Drop(s: Scan): Scan
    requires s.rest != []
  {
    s.(rest := s.rest[1..], free := [s.rest[0].slot] + s.free)
  }

  function Min(a: int, b: int): int { if a > b then b else a }
  function Max(a: int, b: int): int { if a < b then b else a }

  /** The entry at the cursor and the caller become their common hull. */
  function Merge(s: Scan): Scan
    requires s.rest != []
  {
    var lo, hi := Min(s.rest[0].start, s.req.start), Max(s.rest[0].end, s.req.end);
    var r := s.req.(start := lo, end := hi);
    if s.added then
      Drop(s.(req := r, done := if 0 <= s.at < |s.done| then s.done[s.at := s.done[s.at].(start := lo, end := hi)] else s.done))
    else
      s.(done := s.done + [s.rest[0].(start := lo, end := hi)], rest := s.rest[1..],
      req := r, added := true, at := |s.done|)
  }

  /** The entry at the cursor takes over the caller's range and kind. */
  function Replace(s: Scan): Scan
    requires s.rest != []
  {
    s.(done := s.done + [s.rest[0].(start := s.req.start, end := s.req.end, kind := s.req.kind)],
    rest := s.rest[1..], added := true, at := |s.done|)
  }

  /** One pass through the body of the loop of `lock_it`. */
  function Advance(s: Scan): (t: Scan)
    ensures t.halt || |t.rest| < |s.rest|
  {
    if s.rest == [] then s.(halt := true)
    else
      var fl := s.rest[0];
      if fl.kind == s.req.kind then
        if fl.end < s.req.start - 1 then Keep(s)
        else if fl.start > OffT(s.req.end + 1) then s.(halt := true)
        else Merge(s)
      else if fl.end < s.req.start then Keep(s)
      else if fl.start > s.req.end then s.(halt := true)
      else
        var s1 := s.(added := s.added || s.req.kind == Unlock,
                     left := if fl.start < s.req.start then |s.done| else s.left);
        if fl.end > s.req.end then s1.(right := true, halt := true)
        else if fl.start >= s.req.start then
          if s1.added then Drop(s1) else Replace(s1)
        else Keep(s1)
  }

  function Run(s: Scan): (t: Scan)
    ensures t.halt
    decreases !s.halt, |s.rest|
  {
    if s.halt then s else Run(Advance(s))
  }

  /** The entries before the cursor, with the one at `left` cut off below the caller's range. */
  function TrimLeft(s: Scan): seq<Lock> {
    if 0 <= s.left < |s.done| then s.done[s.left := s.done[s.left].(end := s.req.start - 1)] else s.done
  }

  /** The entries from the cursor on, with the first cut off above the caller's range if it is `right`. */
  function TrimRight(s: Scan): seq<Lock> {
    if s.right && s.rest != [] then [s.rest[0].(start := s.req.end + 1)] + s.rest[1..] else s.rest
  }

  /** The old entry contains the caller's range with room on both sides (`left == right`). */
  predicate Splits(s: Scan) { s.right && s.rest != [] && s.left == |s.done| }

  /** What `lock_it` does after the loop. */
  function Finish(s: Scan): Outcome {
    if !s.added && s.req.kind == Unlock then Outcome(EINVAL, s.done + s.rest, s.free)
    else if !s.added && s.free == [] then Outcome(ENOLCK, s.done + s.rest, s.free)
    else
      var node := if s.added then [] else [Lock(s.free[0], s.req.owner, s.req.kind, s.req.start, s.req.end)];
      var free := if s.added then s.free else s.free[1..];
      if !Splits(s) then Outcome(Ok, TrimLeft(s) + node + TrimRight(s), free)
      else if free == [] then Outcome(ENOLCK, s.done + s.rest, s.free)
      else
        var lower := s.rest[0].(slot := free[0], owner := s.req.owner, end := s.req.start - 1);
        Outcome(Ok, s.done + [lower] + node + TrimRight(s), free[1..])
  }

  function Start(own: seq<Lock>, free: seq<nat>, req: Request): Scan {
    Scan([], own, free, req, false, -1, -1, false, false)
  }

  function LockOwn(own: seq<Lock>, free: seq<nat>, req: Request): Outcome {
    Finish(Run(Start(own, free, req)))
  }

  /** `lock_it`: find the caller's entries, rework them, leave all others in place. */
  function LockIt(list: seq<Lock>, free: seq<nat>, req: Request): Outcome {
    var a := FirstOwn(list, req.owner);
    var b := OwnEnd(list, req.owner, a);
    var o := LockOwn(list[a..b], free, req);
    o.(list := list[..a] + o.list + list[b..])
  }

  // ---------- what a list means ----------

  /** Owner o holds a lock of kind k on byte x. */
  ghost predicate Holds(list: seq<Lock>, o: Owner, k: Kind, x: int) {
    exists i :: 0 <= i < |list| && Covers(list[i], o, k, x)
  }

  predicate Covers(l: Lock, o: Owner, k: Kind, x: int) {
    l.owner == o && l.kind == k && l.start <= x <= l.end
  }

  predicate ValidLock(l: Lock) {
    l.kind != Unlock && 0 <= l.start <= l.end <= OFFSET_MAX
  }

  predicate ValidRequest(r: Request) {
    0 <= r.start <= r.end <= OFFSET_MAX
  }

  /** a may precede b among one owner's entries: disjoint, and not mergeable. */
  predicate Before(a: Lock, b: Lock) {
    a.end < b.start && (a.kind == b.kind ==> a.end + 1 < b.start)
  }

  ghost predicate Contiguous(list: seq<Lock>) {
    forall i, j, k :: 0 <= i < j < k < |list| && list[i].owner == list[k].owner ==> list[j].owner == list[i].owner
  }

  ghost predicate Sorted(list: seq<Lock>) {
    forall i, j :: 0 <= i < j < |list| && list[i].owner == list[j].owner ==> Before(list[i], list[j])
  }

  /** The order lock_it relies on: each owner's entries are together, sorted, disjoint and merged. */
  ghost predicate WellFormed(list: seq<Lock>) {
    && (forall i :: 0 <= i < |list| ==> ValidLock(list[i]))
    && Contiguous(list)
    && Sorted(list)
  }

  /** The request whose end + 1 wraps, with an own entry of the same kind that the scan would merge. */
  ghost predicate WrapsPastMerge(list: seq<Lock>, req: Request) {
    req.end == OFFSET_MAX &&
    exists i :: 0 <= i < |list| && list[i].owner == req.owner && list[i].kind == req.kind && list[i].end >= req.start - 1
  }

  // ---------- the scan on one owner's well-formed entries ----------

  predicate EndsBefore(l: Lock, r: Request) {
    l.end < r.start && (l.kind == r.kind ==> l.end + 1 < r.start)
  }

  predicate StartsAfter(l: Lock, r: Request) {
    l.start > r.end && (l.kind == r.kind ==> l.start > r.end + 1)
  }

  predicate Straddles(l: Lock, r: Request) {
    l.kind != r.kind && l.start < r.start <= l.end <= r.end
  }

  /** l lies inside the range that the caller has grown to; only entries of its kind made it grow. */
  predicate Inside(l: Lock, req: Request, grown: Request) {
    if l.kind == req.kind then grown.start <= l.start && l.end <= grown.end
    else req.start <= l.start && l.end <= req.end
  }

  ghost predicate OwnSorted(own: seq<Lock>, o: Owner) {
    && (forall i :: 0 <= i < |own| ==> own[i].owner == o && ValidLock(own[i]))
    && (forall i, j :: 0 <= i < j < |own| ==> Before(own[i], own[j]))
  }

  ghost predicate CoveredIn(own: seq<Lock>, lo: int, hi: int, k: Kind, x: int) {
    exists i :: lo <= i < hi && 0 <= i < |own| && own[i].kind == k && own[i].start <= x <= own[i].end
  }

  /** Number of entries at the front that the scan has left as they were. */
  function Kept(s: Scan): int { if s.at >= 0 then s.at else |s.done| }

  /** The entries before the cursor: the first m untouched ones end before the caller's range,
      except that the last of them may straddle its start; those from m to q are inside it. */
  ghost predicate Split(own: seq<Lock>, req: Request, s: Scan, m: int, q: int) {
    && 0 <= m <= q <= |own| && m <= |s.done|
    && s.rest == own[q..]
    && s.done[..m] == own[..m]
    && (forall i :: 0 <= i < m && i != s.left ==> EndsBefore(own[i], s.req))
    && (0 <= s.left < m ==> s.left == m - 1 && Straddles(own[m - 1], req) && s.req.start == req.start)
    && (forall i :: m <= i < q ==> Inside(own[i], req, s.req))
  }

  /** The caller's record against the original request. */
  ghost predicate Grown(own: seq<Lock>, free: seq<nat>, req: Request, s: Scan, m: int, q: int)
    requires 0 <= m <= q <= |own| && m <= |s.done|
  {
    && s.req.owner == req.owner && s.req.kind == req.kind
    && 0 <= s.req.start <= req.start && req.end <= s.req.end <= OFFSET_MAX
    && (!s.added ==> s.at == -1 && m == q)
    && (m == q ==> s.free == free)
    && (req.kind == Unlock && !s.added ==> s.left < 0)
    && (s.at < 0 ==> s.req == req && |s.done| == m)
    && (s.added && s.at < 0 <==> s.added && req.kind == Unlock)
    && (s.added && !s.right ==> m < q || 0 <= s.left)
    && (s.at >= 0 ==>
          && s.at == m == |s.done| - 1 && m < q
          && s.done[m] == own[m].(kind := req.kind, start := s.req.start, end := s.req.end))
    && (forall x :: s.req.start <= x <= s.req.end && !(req.start <= x <= req.end) ==>
          CoveredIn(own, m, q, req.kind, x))
  }

  /** Why the scan stopped. */
  ghost predicate Halted(own: seq<Lock>, req: Request, s: Scan, q: int)
    requires 0 <= q <= |own|
  {
    && (s.right ==>
          && q < |own| && own[q].kind != s.req.kind
          && own[q].start <= s.req.end < own[q].end
          && (s.req.kind == Unlock ==> s.added)
          && (own[q].start < s.req.start <==> s.left == |s.done|)
          && (s.left == |s.done| ==> |s.done| == q && s.at < 0))
    && (forall i :: q <= i < |own| && (s.right ==> i > q) ==> StartsAfter(own[i], s.req))
  }

  ghost predicate ScanInv(own: seq<Lock>, free: seq<nat>, req: Request, s: Scan) {
    var m, q := Kept(s), |own| - |s.rest|;
    && Split(own, req, s, m, q)
    && Grown(own, free, req, s, m, q)
    && (s.left < Kept(s) || (s.right && s.left == |s.done|))
    && (!s.halt ==> !s.right)
    && (s.halt ==> Halted(own, req, s, q))
  }

  lemma StartInv(own: seq<Lock>, free: seq<nat>, req: Request)
    requires ValidRequest(req)
    ensures ScanInv(own, free, req, Start(own, free, req))
  {
  }

  lemma KeepInv(own: seq<Lock>, free: seq<nat>, req: Request, s: Scan)
    requires OwnSorted(own, req.owner) && ValidRequest(req)
    requires ScanInv(own, free, req, s) && !s.halt
    requires s.rest != [] && EndsBefore(s.rest[0], s.req)
    ensures ScanInv(own, free, req, Keep(s))
  {
    var m, q := Kept(s), |own| - |s.rest|;
    assert s.rest[0] == own[q];
    assert forall i :: 0 <= i < q ==> Before(own[i], own[q]);
    assert !s.added && s.left < 0;
    assert Keep(s).done[..m + 1] == own[..m + 1];
  }

  lemma HaltInv(own: seq<Lock>, free: seq<nat>, req: Request, s: Scan)
    requires OwnSorted(own, req.owner) && ValidRequest(req)
    requires ScanInv(own, free, req, s) && !s.halt
    requires s.rest == [] || StartsAfter(s.rest[0], s.req)
    ensures ScanInv(own, free, req, s.(halt := true))
  {
    var q := |own| - |s.rest|;
    if s.rest != [] {
      assert s.rest[0] == own[q];
      forall i | q < i < |own|
        ensures StartsAfter(own[i], s.req)
      {
        assert Before(own[q], own[i]);
      }
    }
  }

  lemma MergeInv(own: seq<Lock>, free: seq<nat>, req: Request, s: Scan)
    requires OwnSorted(own, req.owner) && ValidRequest(req)
    requires ScanInv(own, free, req, s) && !s.halt
    requires s.rest != [] && s.rest[0].kind == req.kind
    requires s.rest[0].end >= s.req.start - 1 && s.rest[0].start <= s.req.end + 1
    ensures ScanInv(own, free, req, Merge(s))
  {
    hide Split, Grown, OwnSorted, Inside, EndsBefore, Straddles, CoveredIn;
    MergeSplit(own, free, req, s);
    MergeGrown(own, free, req, s);
  }

  lemma MergeSplit(own: seq<Lock>, free: seq<nat>, req: Request, s: Scan)
    requires OwnSorted(own, req.owner) && ValidRequest(req)
    requires ScanInv(own, free, req, s) && !s.halt
    requires s.rest != [] && s.rest[0].kind == req.kind
    requires s.rest[0].end >= s.req.start - 1 && s.rest[0].start <= s.req.end + 1
    ensures Split(own, req, Merge(s), Kept(Merge(s)), |own| - |Merge(s).rest|)
    ensures Merge(s).left < Kept(Merge(s)) && !Merge(s).right && !Merge(s).halt
  {
    hide CoveredIn;
    var m, q := Kept(s), |own| - |s.rest|;
    assert s.rest[0] == own[q];
    assert 0 < m ==> Before(own[m - 1], own[q]);
    assert Merge(s).done[..m] == own[..m];
  }

  lemma MergeGrown(own: seq<Lock>, free: seq<nat>, req: Request, s: Scan)
    requires OwnSorted(own, req.owner) && ValidRequest(req)
    requires ScanInv(own, free, req, s) && !s.halt
    requires s.rest != [] && s.rest[0].kind == req.kind
    requires s.rest[0].end >= s.req.start - 1 && s.rest[0].start <= s.req.end + 1
    requires Split(own, req, Merge(s), Kept(Merge(s)), |own| - |Merge(s).rest|)
    ensures Grown(own, free, req, Merge(s), Kept(Merge(s)), |own| - |Merge(s).rest|)
  {
    hide Before, EndsBefore, Inside, Straddles;
    var m, q := Kept(s), |own| - |s.rest|;
    var t := Merge(s);
    var q' := |own| - |t.rest|;
    assert s.rest[0] == own[q];
    forall x {:trigger CoveredIn(own, m, q', req.kind, x)} |
      t.req.start <= x <= t.req.end && !(req.start <= x <= req.end)
      ensures CoveredIn(own, m, q', req.kind, x)
    {
      assert s.req.start <= x <= s.req.end ==> CoveredIn(own, m, q, req.kind, x);
    }
  }

  lemma OverlapInv(own: seq<Lock>, free: seq<nat>, req: Request, s: Scan)
    requires OwnSorted(own, req.owner) && ValidRequest(req)
    requires ScanInv(own, free, req, s) && !s.halt
    requires s.rest != [] && s.rest[0].kind != req.kind
    requires s.rest[0].end >= s.req.start && s.rest[0].start <= s.req.end
    ensures ScanInv(own, free, req, Advance(s))
  {
    if s.rest[0].end > s.req.end {
      RightInv(own, free, req, s);
    } else if s.rest[0].start >= s.req.start {
      CoveredInv(own, free, req, s);
    } else {
      StraddleInv(own, free, req, s);
    }
  }

  /** The scan stops at an entry that overhangs the end of the range. */
  function Stopped(s: Scan): Scan
    requires s.rest != []
  {
    s.(added := s.added || s.req.kind == Unlock, left := if s.rest[0].start < s.req.start then |s.done| else s.left,
    right := true, halt := true)
  }

  lemma RightInv(own: seq<Lock>, free: seq<nat>, req: Request, s: Scan)
    requires OwnSorted(own, req.owner) && ValidRequest(req)
    requires ScanInv(own, free, req, s) && !s.halt
    requires s.rest != [] && s.rest[0].kind != req.kind
    requires s.rest[0].end > s.req.end && s.rest[0].start <= s.req.end
    ensures ScanInv(own, free, req, Advance(s))
  {
    hide Merge, Replace, Keep, Drop, OwnSorted, Split, Halted, EndsBefore, StartsAfter, Straddles, Inside, CoveredIn;
    RightKeeps(own, free, req, s);
    RightHalts(own, free, req, s);
    assert Advance(s) == Stopped(s);
  }

  lemma RightKeeps(own: seq<Lock>, free: seq<nat>, req: Request, s: Scan)
    requires OwnSorted(own, req.owner) && ScanInv(own, free, req, s) && !s.halt && s.rest != []
    requires s.rest[0].kind != req.kind && s.rest[0].end > s.req.end && s.rest[0].start <= s.req.end
    ensures Split(own, req, Stopped(s), Kept(s), |own| - |s.rest|)
    ensures Stopped(s).left < Kept(s) || Stopped(s).left == |s.done|
  {
    hide CoveredIn, Halted, Inside;
    var m, q := Kept(s), |own| - |s.rest|;
    assert s.rest[0] == own[q];
    assert 0 < m ==> Before(own[m - 1], own[q]);
  }

  lemma RightHalts(own: seq<Lock>, free: seq<nat>, req: Request, s: Scan)
    requires OwnSorted(own, req.owner) && ScanInv(own, free, req, s) && !s.halt && s.rest != []
    requires s.rest[0].kind != req.kind && s.rest[0].end > s.req.end && s.rest[0].start <= s.req.end
    ensures Halted(own, req, Stopped(s), |own| - |s.rest|)
  {
    hide CoveredIn;
    var m, q := Kept(s), |own| - |s.rest|;
    assert s.rest[0] == own[q];
    assert m < q ==> Before(own[m], own[q]);
    forall i | q < i < |own|
      ensures StartsAfter(own[i], s.req)
    {
      assert Before(own[q], own[i]);
    }
  }

  lemma CoveredInv(own: seq<Lock>, free: seq<nat>, req: Request, s: Scan)
    requires OwnSorted(own, req.owner) && ValidRequest(req)
    requires ScanInv(own, free, req, s) && !s.halt
    requires s.rest != [] && s.rest[0].kind != req.kind
    requires s.req.start <= s.rest[0].start && s.rest[0].end <= s.req.end
    ensures ScanInv(own, free, req, Advance(s))
  {
    InsideOriginal(own, free, req, s);
    if s.added || req.kind == Unlock {
      DropInv(own, free, req, s, s.(added := true));
    } else {
      ReplaceInv(own, free, req, s);
    }
  }

  lemma DropInv(own: seq<Lock>, free: seq<nat>, req: Request, s: Scan, s1: Scan)
    requires OwnSorted(own, req.owner) && ValidRequest(req)
    requires ScanInv(own, free, req, s) && !s.halt
    requires s.rest != [] && s.rest[0].kind != req.kind
    requires req.start <= s.rest[0].start && s.rest[0].end <= req.end
    requires s1 == s.(added := true) && (s.added || req.kind == Unlock)
    ensures ScanInv(own, free, req, Drop(s1))
  {
    var m, q := Kept(s), |own| - |s.rest|;
    var t := Drop(s1);
    var q' := |own| - |t.rest|;
    assert s.rest[0] == own[q];
    forall x {:trigger CoveredIn(own, m, q', req.kind, x)} |
      t.req.start <= x <= t.req.end && !(req.start <= x <= req.end)
      ensures CoveredIn(own, m, q', req.kind, x)
    {
      assert CoveredIn(own, m, q, req.kind, x);
    }
  }

  lemma ReplaceInv(own: seq<Lock>, free: seq<nat>, req: Request, s: Scan)
    requires OwnSorted(own, req.owner) && ValidRequest(req)
    requires ScanInv(own, free, req, s) && !s.halt
    requires s.rest != [] && s.rest[0].kind != req.kind
    requires req.start <= s.rest[0].start && s.rest[0].end <= req.end
    requires !s.added && req.kind != Unlock
    ensures ScanInv(own, free, req, Replace(s))
  {
    var m, q := Kept(s), |own| - |s.rest|;
    assert s.rest[0] == own[q];
    assert Replace(s).done[..m] == own[..m];
  }

  /** An entry of another kind cannot overlap the part of the caller's range that came from merging. */
  lemma InsideOriginal(own: seq<Lock>, free: seq<nat>, req: Request, s: Scan)
    requires OwnSorted(own, req.owner) && ValidRequest(req)
    requires ScanInv(own, free, req, s) && !s.halt
    requires s.rest != [] && s.rest[0].kind != req.kind
    requires s.req.start <= s.rest[0].start && s.rest[0].end <= s.req.end
    ensures req.start <= s.rest[0].start && s.rest[0].end <= req.end
  {
    var m, q := Kept(s), |own| - |s.rest|;
    assert s.rest[0] == own[q];
    assert forall i :: m <= i < q ==> Before(own[i], own[q]);
    assert own[q].start < req.start ==> CoveredIn(own, m, q, req.kind, own[q].start);
    assert own[q].end > req.end ==> CoveredIn(own, m, q, req.kind, own[q].end);
  }

  lemma StraddleInv(own: seq<Lock>, free: seq<nat>, req: Request, s: Scan)
    requires OwnSorted(own, req.owner) && ValidRequest(req)
    requires ScanInv(own, free, req, s) && !s.halt
    requires s.rest != [] && Straddles(s.rest[0], s.req)
    ensures ScanInv(own, free, req, Advance(s))
  {
    var m, q := Kept(s), |own| - |s.rest|;
    var t := Advance(s);
    assert s.rest[0] == own[q];
    assert 0 < m ==> Before(own[m - 1], own[q]);
    assert t.done[..m + 1] == own[..m + 1];
  }

  /** The only way the sum at the merge test can wrap is the excluded one. */
  lemma NoWrap(own: seq<Lock>, free: seq<nat>, req: Request, s: Scan)
    requires OwnSorted(own, req.owner) && ValidRequest(req) && !WrapsPastMerge(own, req)
    requires ScanInv(own, free, req, s) && !s.halt
    requires s.rest != [] && s.rest[0].kind == req.kind
    requires s.rest[0].end >= s.req.start - 1
    ensures OffT(s.req.end + 1) == s.req.end + 1
  {
    var m, q := Kept(s), |own| - |s.rest|;
    assert s.rest[0] == own[q];
    assert s.req.start < req.start ==> CoveredIn(own, m, q, req.kind, req.start - 1);
    assert req.end < s.req.end ==> CoveredIn(own, m, q, req.kind, s.req.end);
    assert forall i :: m <= i < q ==> Before(own[i], own[q]);
  }

  lemma MergeStep(own: seq<Lock>, free: seq<nat>, req: Request, s: Scan)
    requires OwnSorted(own, req.owner) && ValidRequest(req) && !WrapsPastMerge(own, req)
    requires ScanInv(own, free, req, s) && !s.halt
    requires s.rest != [] && s.rest[0].kind == req.kind
    requires !StartsAfter(s.rest[0], s.req) && !EndsBefore(s.rest[0], s.req)
    ensures ScanInv(own, free, req, Advance(s))
  {
    NoWrap(own, free, req, s);
    MergeInv(own, free, req, s);
    assert Advance(s) == Merge(s);
  }

  lemma HaltStep(own: seq<Lock>, free: seq<nat>, req: Request, s: Scan)
    requires OwnSorted(own, req.owner) && ValidRequest(req) && !WrapsPastMerge(own, req)
    requires ScanInv(own, free, req, s) && !s.halt
    requires s.rest == [] || StartsAfter(s.rest[0], s.req)
    ensures ScanInv(own, free, req, Advance(s))
  {
    HaltInv(own, free, req, s);
    if s.rest != [] && s.rest[0].kind == req.kind {
      NoWrap(own, free, req, s);
    }
    assert Advance(s) == s.(halt := true);
  }

  lemma KeepStep(own: seq<Lock>, free: seq<nat>, req: Request, s: Scan)
    requires OwnSorted(own, req.owner) && ValidRequest(req)
    requires ScanInv(own, free, req, s) && !s.halt
    requires s.rest != [] && EndsBefore(s.rest[0], s.req)
    ensures ScanInv(own, free, req, Advance(s))
  {
    KeepInv(own, free, req, s);
    assert Advance(s) == Keep(s);
  }

  lemma AdvanceInv(own: seq<Lock>, free: seq<nat>, req: Request, s: Scan)
    requires OwnSorted(own, req.owner) && ValidRequest(req) && !WrapsPastMerge(own, req)
    requires ScanInv(own, free, req, s) && !s.halt
    ensures ScanInv(own, free, req, Advance(s))
  {
    if s.rest == [] || StartsAfter(s.rest[0], s.req) {
      HaltStep(own, free, req, s);
    } else if EndsBefore(s.rest[0], s.req) {
      KeepStep(own, free, req, s);
    } else if s.rest[0].kind == req.kind {
      MergeStep(own, free, req, s);
    } else {
      OverlapInv(own, free, req, s);
    }
  }

  lemma {:induction false} RunInv(own: seq<Lock>, free: seq<nat>, req: Request, s: Scan)
    requires OwnSorted(own, req.owner) && ValidRequest(req) && !WrapsPastMerge(own, req)
    requires ScanInv(own, free, req, s)
    ensures ScanInv(own, free, req, Run(s))
    decreases !s.halt, |s.rest|
  {
    if !s.halt {
      AdvanceInv(own, free, req, s);
      RunInv(own, free, req, Advance(s));
    }
  }

  /** The entries that replace own[m..q]: a lower remainder, the caller's entry, an upper remainder. */
  datatype Patch = Patch(m: nat, q: nat, lower: seq<Lock>, node: seq<Lock>, upper: seq<Lock>)

  function Patched(own: seq<Lock>, p: Patch): seq<Lock>
    requires p.m <= p.q <= |own|
  {
    own[..p.m] + p.lower + p.node + p.upper + own[p.q..]
  }

  /** The entries outside the patch stay clear of the range g. */
  ghost predicate OuterFits(own: seq<Lock>, g: Request, p: Patch) {
    && p.m <= p.q <= |own|
    && (forall i :: 0 <= i < p.m ==> EndsBefore(own[i], g))
    && (forall i :: p.q <= i < |own| ==> StartsAfter(own[i], g))
  }

  /** What an entry that overhangs the start of the range keeps below it. */
  ghost predicate LowerFits(own: seq<Lock>, req: Request, g: Request, p: Patch) {
    p.lower != [] ==>
      && p.m < p.q <= |own|
      && own[p.m].kind != req.kind && own[p.m].start < g.start == req.start <= own[p.m].end
      && p.lower == [own[p.m].(slot := p.lower[0].slot, end := g.start - 1)]
  }

  /** What an entry that overhangs the end of the range keeps above it. */
  ghost predicate UpperFits(own: seq<Lock>, req: Request, g: Request, p: Patch) {
    p.upper != [] ==>
      && p.m < p.q <= |own|
      && own[p.q - 1].kind != req.kind && own[p.q - 1].start <= g.end < own[p.q - 1].end
      && p.upper == [own[p.q - 1].(slot := p.upper[0].slot, start := g.end + 1)]
  }

  ghost predicate NodeFits(req: Request, g: Request, p: Patch) {
    if req.kind == Unlock then p.node == []
    else p.node != [] && p.node == [Lock(p.node[0].slot, g.owner, g.kind, g.start, g.end)]
  }

  /** Everything else under the patch is inside the caller's range. */
  ghost predicate MiddleFits(own: seq<Lock>, req: Request, g: Request, p: Patch)
    requires p.m <= p.q <= |own|
  {
    && (forall i :: p.m <= i < p.q && (p.lower != [] ==> i > p.m) && (p.upper != [] ==> i < p.q - 1) ==> Inside(own[i], req, g))
    && (p.m < p.q && p.lower != [] && (p.upper == [] || p.m < p.q - 1) ==> own[p.m].end <= req.end)
    && (p.m < p.q && p.upper != [] && (p.lower == [] || p.m < p.q - 1) ==> own[p.q - 1].start >= g.start)
  }

  /** g is the request grown by entries of its kind under the patch. */
  ghost predicate GrewBy(own: seq<Lock>, req: Request, g: Request, m: int, q: int) {
    && g.owner == req.owner && g.kind == req.kind
    && 0 <= g.start <= req.start <= req.end <= g.end <= OFFSET_MAX
    && (forall x :: g.start <= x <= g.end && !(req.start <= x <= req.end) ==> CoveredIn(own, m, q, req.kind, x))
  }

  ghost predicate PatchFits(own: seq<Lock>, req: Request, g: Request, p: Patch) {
    && OuterFits(own, g, p)
    && LowerFits(own, req, g, p)
    && UpperFits(own, req, g, p)
    && NodeFits(req, g, p)
    && MiddleFits(own, req, g, p)
    && GrewBy(own, req, g, p.m, p.q)
  }

  /** The patch that the code after the loop applies. */
  function PatchOf(own: seq<Lock>, s: Scan): Patch
    requires |s.rest| <= |own| && 0 <= Kept(s) <= |s.done| && s.at < |s.done| && (s.added || s.free != [])
  {
    var m, q := Kept(s), |own| - |s.rest|;
    var free := if s.added then s.free else s.free[1..];
    var node := if s.at >= 0 then [s.done[s.at]]
                else if s.added then [] else [Lock(s.free[0], s.req.owner, s.req.kind, s.req.start, s.req.end)];
    var upper := if s.right && s.rest != [] then [s.rest[0].(start := s.req.end + 1)] else [];
    var lower := if Splits(s) && free != [] then [s.rest[0].(slot := free[0], owner := s.req.owner, end := s.req.start - 1)]
                 else if 0 <= s.left == m - 1 then [s.done[m - 1].(end := s.req.start - 1)] else [];
    Patch(if 0 <= s.left == m - 1 then m - 1 else m, q + |upper|, lower, node, upper)
  }

  /** Where the pieces of the scan sit in the original entries. */
  ghost predicate Layout(own: seq<Lock>, s: Scan, m: int, q: int) {
    && 0 <= m <= q <= |own| && m == Kept(s)
    && s.rest == own[q..]
    && |s.done| == (if s.at >= 0 then m + 1 else m)
    && s.done[..m] == own[..m]
    && (s.at >= 0 ==> s.added)
    && (0 <= s.left < m ==> s.left == m - 1)
    && (s.left >= m ==> s.left == |s.done| && s.right)
    && (s.right ==> s.rest != [])
    && (Splits(s) ==> s.at < 0)
  }

  lemma FinishPatch(own: seq<Lock>, s: Scan, m: int, q: int)
    requires Layout(own, s, m, q)
    requires Finish(s).status == Ok
    ensures PatchOf(own, s).m <= PatchOf(own, s).q <= |own|
    ensures Finish(s).list == Patched(own, PatchOf(own, s))
  {
    var p := PatchOf(own, s);
    RightPatch(own, s, m, q);
    if Splits(s) {
      assert s.done == own[..p.m];
      Regroup(own[..p.m], p.lower, [], p.node, p.upper, own[p.q..]);
    } else {
      LeftPatch(own, s, m, q);
      var tail := if s.at >= 0 then [s.done[m]] else [];
      var node := if s.added then [] else p.node;
      assert tail + node == p.node;
      Regroup(own[..p.m], p.lower, tail, node, p.upper, own[p.q..]);
    }
  }

  lemma RightPatch(own: seq<Lock>, s: Scan, m: int, q: int)
    requires Layout(own, s, m, q) && Finish(s).status == Ok
    ensures 0 <= PatchOf(own, s).q <= |own| && TrimRight(s) == PatchOf(own, s).upper + own[PatchOf(own, s).q..]
  {
  }

  lemma LeftPatch(own: seq<Lock>, s: Scan, m: int, q: int)
    requires Layout(own, s, m, q) && !Splits(s) && (s.added || s.free != [])
    ensures 0 <= PatchOf(own, s).m <= |own|
    ensures TrimLeft(s) == own[..PatchOf(own, s).m] + PatchOf(own, s).lower + if s.at >= 0 then [s.done[m]] else []
  {
    assert s.done == own[..m] + if s.at >= 0 then [s.done[m]] else [];
  }

  lemma Regroup(a: seq<Lock>, b: seq<Lock>, c: seq<Lock>, d: seq<Lock>, e: seq<Lock>, f: seq<Lock>)
    ensures (a + b + c) + d + (e + f) == a + b + (c + d) + e + f
    ensures (a + b) + d + (e + f) == a + b + d + e + f
  {
  }

  lemma ScanLayout(own: seq<Lock>, free: seq<nat>, req: Request, s: Scan)
    requires ScanInv(own, free, req, s) && s.halt
    ensures Layout(own, s, Kept(s), |own| - |s.rest|)
  {
  }

  lemma FinishFits(own: seq<Lock>, free: seq<nat>, req: Request, s: Scan)
    requires OwnSorted(own, req.owner) && ValidRequest(req)
    requires ScanInv(own, free, req, s) && s.halt
    requires Finish(s).status == Ok
    ensures PatchFits(own, req, s.req, PatchOf(own, s))
  {
    hide ScanInv, Finish, PatchOf, OuterFits, LowerFits, UpperFits, NodeFits, MiddleFits, GrewBy, OwnSorted;
    FitsOuter(own, free, req, s);
    FitsLower(own, free, req, s);
    FitsUpper(own, free, req, s);
    FitsMiddle(own, free, req, s);
    FitsGrown(own, free, req, s);
  }

  lemma FitsGrown(own: seq<Lock>, free: seq<nat>, req: Request, s: Scan)
    requires OwnSorted(own, req.owner) && ValidRequest(req)
    requires ScanInv(own, free, req, s) && s.halt
    requires Finish(s).status == Ok
    ensures GrewBy(own, req, s.req, PatchOf(own, s).m, PatchOf(own, s).q)
  {
    hide OwnSorted, EndsBefore, StartsAfter, Straddles, Inside, TrimLeft, TrimRight;
    var m, q, p := Kept(s), |own| - |s.rest|, PatchOf(own, s);
    forall x {:trigger CoveredIn(own, p.m, p.q, req.kind, x)} |
      s.req.start <= x <= s.req.end && !(req.start <= x <= req.end)
      ensures CoveredIn(own, p.m, p.q, req.kind, x)
    {
      assert CoveredIn(own, m, q, req.kind, x);
    }
  }

  lemma FitsOuter(own: seq<Lock>, free: seq<nat>, req: Request, s: Scan)
    requires OwnSorted(own, req.owner) && ValidRequest(req)
    requires ScanInv(own, free, req, s) && s.halt
    requires Finish(s).status == Ok
    ensures OuterFits(own, s.req, PatchOf(own, s))
  {
  }

  lemma FitsLower(own: seq<Lock>, free: seq<nat>, req: Request, s: Scan)
    requires OwnSorted(own, req.owner) && ValidRequest(req)
    requires ScanInv(own, free, req, s) && s.halt
    requires Finish(s).status == Ok
    ensures LowerFits(own, req, s.req, PatchOf(own, s))
  {
    hide Before, ValidLock, CoveredIn, EndsBefore, StartsAfter, Inside, TrimLeft, TrimRight;
    var m, q := Kept(s), |own| - |s.rest|;
    assert s.right ==> s.rest[0] == own[q];
    assert 0 <= s.left == m - 1 ==> s.done[m - 1] == own[m - 1];
  }

  lemma FitsUpper(own: seq<Lock>, free: seq<nat>, req: Request, s: Scan)
    requires OwnSorted(own, req.owner) && ValidRequest(req)
    requires ScanInv(own, free, req, s) && s.halt
    requires Finish(s).status == Ok
    ensures UpperFits(own, req, s.req, PatchOf(own, s))
    ensures NodeFits(req, s.req, PatchOf(own, s))
  {
    hide Before, ValidLock, CoveredIn, EndsBefore, StartsAfter, Inside, TrimLeft, TrimRight;
    var m, q := Kept(s), |own| - |s.rest|;
    assert s.right ==> s.rest[0] == own[q];
    assert s.at >= 0 ==> s.done[m] == Lock(own[m].slot, req.owner, req.kind, s.req.start, s.req.end);
  }

  lemma FitsMiddle(own: seq<Lock>, free: seq<nat>, req: Request, s: Scan)
    requires OwnSorted(own, req.owner) && ValidRequest(req)
    requires ScanInv(own, free, req, s) && s.halt
    requires Finish(s).status == Ok
    requires OuterFits(own, s.req, PatchOf(own, s))
    ensures MiddleFits(own, req, s.req, PatchOf(own, s))
  {
  }

  /** The patched entries are again sorted, disjoint and merged. */
  lemma PatchedSorted(own: seq<Lock>, req: Request, g: Request, p: Patch)
    requires OwnSorted(own, req.owner) && PatchFits(own, req, g, p)
    ensures OwnSorted(Patched(own, p), req.owner)
  {
    hide LowerFits, UpperFits, NodeFits, MiddleFits, GrewBy, Before, ValidLock, EndsBefore, StartsAfter;
    var l, u := own[..p.m], own[p.q..];
    var mid := p.lower + p.node + p.upper;
    assert Patched(own, p) == l + mid + u;
    PiecesSorted(own, req, g, p);
    PiecesBetween(own, req, g, p);
    assert forall i :: 0 <= i < |l| ==> l[i] == own[i];
    assert forall i :: 0 <= i < |mid| ==> mid[i] in mid;
    assert forall i :: 0 <= i < |u| ==> u[i] == own[p.q + i];
    Joined(l, mid, u, req.owner);
  }

  lemma PiecesSorted(own: seq<Lock>, req: Request, g: Request, p: Patch)
    requires OwnSorted(own, req.owner) && PatchFits(own, req, g, p)
    ensures OwnSorted(p.lower + p.node + p.upper, req.owner)
  {
  }

  lemma PiecesBetween(own: seq<Lock>, req: Request, g: Request, p: Patch)
    requires OwnSorted(own, req.owner) && PatchFits(own, req, g, p)
    ensures forall i, l :: 0 <= i < p.m && l in p.lower + p.node + p.upper ==> Before(own[i], l)
    ensures forall i, l :: p.q <= i < |own| && l in p.lower + p.node + p.upper ==> Before(l, own[i])
  {
    assert p.m < p.q ==> forall i :: 0 <= i < p.m ==> Before(own[i], own[p.m]);
    assert p.m < p.q ==> forall i :: p.q <= i < |own| ==> Before(own[p.q - 1], own[i]);
  }

  lemma Joined(l: seq<Lock>, mid: seq<Lock>, u: seq<Lock>, o: Owner)
    requires OwnSorted(l, o) && OwnSorted(mid, o) && OwnSorted(u, o)
    requires forall i, j :: 0 <= i < |l| && 0 <= j < |mid| ==> Before(l[i], mid[j])
    requires forall i, j :: 0 <= i < |mid| && 0 <= j < |u| ==> Before(mid[i], u[j])
    requires forall i, j :: 0 <= i < |l| && 0 <= j < |u| ==> Before(l[i], u[j])
    ensures OwnSorted(l + mid + u, o)
  {
  }

  ghost predicate Covered(s: seq<Lock>, k: Kind, x: int) {
    exists i :: 0 <= i < |s| && s[i].kind == k && s[i].start <= x <= s[i].end
  }

  lemma CoveredConcat(a: seq<Lock>, b: seq<Lock>, k: Kind, x: int)
    ensures Covered(a + b, k, x) <==> Covered(a, k, x) || Covered(b, k, x)
  {
    assert forall i :: 0 <= i < |a| ==> (a + b)[i] == a[i];
    assert forall i :: 0 <= i < |b| ==> (a + b)[|a| + i] == b[i];
  }

  lemma PatchedCovered(own: seq<Lock>, p: Patch, k: Kind, x: int)
    requires p.m <= p.q <= |own|
    ensures Covered(Patched(own, p), k, x) <==>
            Covered(own[..p.m], k, x) || Covered(p.lower, k, x) || Covered(p.node, k, x)
            || Covered(p.upper, k, x) || Covered(own[p.q..], k, x)
    ensures Covered(own, k, x) <==>
            Covered(own[..p.m], k, x) || Covered(own[p.m..p.q], k, x) || Covered(own[p.q..], k, x)
  {
    CoveredConcat(own[..p.m], p.lower, k, x);
    CoveredConcat(own[..p.m] + p.lower, p.node, k, x);
    CoveredConcat(own[..p.m] + p.lower + p.node, p.upper, k, x);
    CoveredConcat(own[..p.m] + p.lower + p.node + p.upper, own[p.q..], k, x);
    assert own == own[..p.m] + own[p.m..p.q] + own[p.q..];
    CoveredConcat(own[..p.m], own[p.m..p.q], k, x);
    CoveredConcat(own[..p.m] + own[p.m..p.q], own[p.q..], k, x);
  }

  /** The kinds held on each byte change to the request's on its range, and nowhere else. */
  lemma PatchEffect(own: seq<Lock>, req: Request, g: Request, p: Patch, k: Kind, x: int)
    requires OwnSorted(own, req.owner) && PatchFits(own, req, g, p)
    ensures Covered(Patched(own, p), k, x) <==>
            if req.start <= x <= req.end then k == req.kind && k != Unlock else Covered(own, k, x)
  {
    hide OwnSorted, Covered, CoveredIn, LowerFits, UpperFits, NodeFits, MiddleFits, Patched, EndsBefore, StartsAfter;
    PatchedCovered(own, p, k, x);
    if g.start <= x <= g.end {
      EffectWithin(own, req, g, p, k, x);
      if !(req.start <= x <= req.end) {
        assert CoveredIn(own, p.m, p.q, req.kind, x);
        CoveredOnce(own, p.m, p.q, req, k, x);
      }
    } else {
      EffectOutside(own, req, g, p, k, x);
    }
  }

  lemma EffectWithin(own: seq<Lock>, req: Request, g: Request, p: Patch, k: Kind, x: int)
    requires PatchFits(own, req, g, p) && g.start <= x <= g.end
    ensures !Covered(own[..p.m], k, x) && !Covered(p.lower, k, x) && !Covered(p.upper, k, x) && !Covered(own[p.q..], k, x)
    ensures Covered(p.node, k, x) <==> k == req.kind && k != Unlock
  {
    hide CoveredIn, MiddleFits;
    var l, u := own[..p.m], own[p.q..];
    assert forall i :: 0 <= i < |l| ==> EndsBefore(l[i], g);
    assert forall i :: 0 <= i < |u| ==> u[i] == own[p.q + i] && StartsAfter(u[i], g);
    if req.kind != Unlock {
      assert p.node[0].kind == req.kind && p.node[0].start <= x <= p.node[0].end;
    }
  }

  lemma CoveredOnce(own: seq<Lock>, m: nat, q: nat, req: Request, k: Kind, x: int)
    requires OwnSorted(own, req.owner) && m <= q <= |own|
    requires CoveredIn(own, m, q, req.kind, x)
    ensures req.kind != Unlock
    ensures Covered(own, k, x) <==> k == req.kind
  {
    var i :| m <= i < q && own[i].kind == req.kind && own[i].start <= x <= own[i].end;
    assert forall j :: 0 <= j < |own| && j != i ==> if j < i then Before(own[j], own[i]) else Before(own[i], own[j]);
  }

  lemma EffectOutside(own: seq<Lock>, req: Request, g: Request, p: Patch, k: Kind, x: int)
    requires OwnSorted(own, req.owner) && PatchFits(own, req, g, p)
    requires !(g.start <= x <= g.end)
    ensures Covered(p.lower, k, x) || Covered(p.node, k, x) || Covered(p.upper, k, x) <==> Covered(own[p.m..p.q], k, x)
  {
    if x < g.start {
      EffectBelow(own, req, g, p, k, x);
    } else {
      EffectAbove(own, req, g, p, k, x);
    }
  }

  lemma EffectBelow(own: seq<Lock>, req: Request, g: Request, p: Patch, k: Kind, x: int)
    requires OwnSorted(own, req.owner) && PatchFits(own, req, g, p) && x < g.start
    ensures Covered(own[p.m..p.q], k, x) <==> Covered(p.lower, k, x)
    ensures !Covered(p.node, k, x) && !Covered(p.upper, k, x)
  {
    hide Before, ValidLock, CoveredIn, EndsBefore, StartsAfter;
    var mid := own[p.m..p.q];
    assert forall i :: 0 <= i < |mid| ==> mid[i] == own[p.m + i];
    assert p.lower != [] ==> mid[0] == own[p.m];
  }

  /** Of the entries under the patch only the one that is cut off at the end of the range reaches beyond it. */
  lemma AboveOnly(own: seq<Lock>, req: Request, g: Request, p: Patch, j: int)
    requires PatchFits(own, req, g, p) && p.m <= j < p.q && own[j].end > g.end
    ensures p.upper != [] && j == p.q - 1
  {
    hide CoveredIn, EndsBefore, StartsAfter;
  }

  lemma EffectAbove(own: seq<Lock>, req: Request, g: Request, p: Patch, k: Kind, x: int)
    requires OwnSorted(own, req.owner) && PatchFits(own, req, g, p) && x > g.end
    ensures Covered(own[p.m..p.q], k, x) <==> Covered(p.upper, k, x)
    ensures !Covered(p.node, k, x) && !Covered(p.lower, k, x)
  {
    hide OwnSorted, CoveredIn, EndsBefore, StartsAfter, MiddleFits;
    var mid := own[p.m..p.q];
    assert forall i :: 0 <= i < |mid| ==> mid[i] == own[p.m + i];
    if Covered(mid, k, x) {
      var i :| 0 <= i < |mid| && mid[i].kind == k && mid[i].start <= x <= mid[i].end;
      AboveOnly(own, req, g, p, p.m + i);
      assert p.upper[0].kind == k && p.upper[0].start <= x <= p.upper[0].end;
    }
    if Covered(p.upper, k, x) { assert mid[|mid| - 1] == own[p.q - 1]; }
  }

  /** The bytes of the range, and only those, have changed to the requested kind. */
  ghost predicate BytesSet(own: seq<Lock>, own': seq<Lock>, req: Request) {
    forall k, x :: Covered(own', k, x) <==>
                   if req.start <= x <= req.end then k == req.kind && k != Unlock else Covered(own, k, x)
  }

  /** No entry meets the range. */
  ghost predicate NoneMet(own: seq<Lock>, req: Request) {
    forall i :: 0 <= i < |own| ==> own[i].end < req.start || own[i].start > req.end
  }

  /** lock_it on one owner's entries, when no sum wraps past a merge. */
  lemma LockOwnPlain(own: seq<Lock>, free: seq<nat>, req: Request)
    requires OwnSorted(own, req.owner) && ValidRequest(req) && !WrapsPastMerge(own, req)
    ensures LockOwn(own, free, req).status == Ok ==> OwnSorted(LockOwn(own, free, req).list, req.owner)
    ensures LockOwn(own, free, req).status == Ok ==> BytesSet(own, LockOwn(own, free, req).list, req)
    ensures LockOwn(own, free, req).status != Ok ==>
              LockOwn(own, free, req).list == own && LockOwn(own, free, req).free == free
    ensures LockOwn(own, free, req).status == EINVAL <==> req.kind == Unlock && NoneMet(own, req)
  {
    var s := FinalScan(own, free, req);
    StatusOf(own, free, req, s);
    if Finish(s).status == Ok {
      var p := FinalPatch(own, free, req, s);
      PatchedSorted(own, req, s.req, p);
      forall k, x
        ensures Covered(Patched(own, p), k, x) <==>
                if req.start <= x <= req.end then k == req.kind && k != Unlock else Covered(own, k, x)
      {
        PatchEffect(own, req, s.req, p, k, x);
      }
    }
  }

  lemma FinalScan(own: seq<Lock>, free: seq<nat>, req: Request) returns (s: Scan)
    requires OwnSorted(own, req.owner) && ValidRequest(req) && !WrapsPastMerge(own, req)
    ensures ScanInv(own, free, req, s) && s.halt
    ensures LockOwn(own, free, req) == Finish(s)
  {
    StartInv(own, free, req);
    RunInv(own, free, req, Start(own, free, req));
    s := Run(Start(own, free, req));
  }

  lemma FinalPatch(own: seq<Lock>, free: seq<nat>, req: Request, s: Scan) returns (p: Patch)
    requires OwnSorted(own, req.owner) && ValidRequest(req)
    requires ScanInv(own, free, req, s) && s.halt
    requires Finish(s).status == Ok
    ensures PatchFits(own, req, s.req, p)
    ensures Finish(s).list == Patched(own, p)
  {
    ScanLayout(own, free, req, s);
    FinishPatch(own, s, Kept(s), |own| - |s.rest|);
    FinishFits(own, free, req, s);
    p := PatchOf(own, s);
  }

  lemma StatusOf(own: seq<Lock>, free: seq<nat>, req: Request, s: Scan)
    requires OwnSorted(own, req.owner) && ValidRequest(req)
    requires ScanInv(own, free, req, s) && s.halt
    ensures Finish(s).status != Ok ==> Finish(s).list == own && Finish(s).free == free
    ensures Finish(s).status == EINVAL <==> req.kind == Unlock && NoneMet(own, req)
  {
    var m, q := Kept(s), |own| - |s.rest|;
    if Finish(s).status != Ok {
      assert own == own[..q] + own[q..];
    }
    if s.added && req.kind == Unlock {
      var i := if s.right then q else if m < q then m else m - 1;
      assert own[i].end >= req.start && own[i].start <= req.end;
    }
  }

  // ---------- the sum that wraps ----------

  /** Entry w is the first that the request would merge with. */
  ghost predicate FirstToMerge(own: seq<Lock>, req: Request, w: int) {
    && 0 <= w < |own| && own[w].kind == req.kind && own[w].end >= req.start - 1
    && (forall i :: 0 <= i < w && own[i].kind == req.kind ==> own[i].end < req.start - 1)
  }

  lemma {:induction false} FindFirst(own: seq<Lock>, req: Request, i: nat) returns (w: int)
    requires i < |own| && own[i].kind == req.kind && own[i].end >= req.start - 1
    ensures FirstToMerge(own, req, w) && w <= i
  {
    if j :| 0 <= j < i && own[j].kind == req.kind && own[j].end >= req.start - 1 {
      w := FindFirst(own, req, j);
    } else {
      w := i;
    }
  }

  /** The same scan with more entries behind. */
  function Extended(s: Scan, tail: seq<Lock>): Scan { s.(rest := s.rest + tail) }

  lemma ExtendStep(s: Scan, tail: seq<Lock>)
    requires s.rest != []
    ensures Advance(Extended(s, tail)) == Extended(Advance(s), tail)
  {
    assert (s.rest + tail)[0] == s.rest[0] && (s.rest + tail)[1..] == s.rest[1..] + tail;
  }

  ghost predicate NothingToMerge(rest: seq<Lock>, req: Request) {
    && req.end == OFFSET_MAX
    && (forall i :: 0 <= i < |rest| ==> rest[i].end <= OFFSET_MAX && (rest[i].kind == req.kind ==> rest[i].end < req.start - 1))
  }

  /** Line 307: with the end at OFFSET_MAX the scan stops at the entry it should merge with. */
  lemma {:induction false} ExtendRun(s: Scan, tail: seq<Lock>)
    requires NothingToMerge(s.rest, s.req) && !s.right
    requires tail != [] && tail[0].kind == s.req.kind && tail[0].end >= s.req.start - 1 && tail[0].start >= 0
    ensures Run(Extended(s, tail)) == Extended(Run(s), tail) && !Run(s).right
    decreases !s.halt, |s.rest|
  {
    if !s.halt {
      if s.rest == [] {
        assert s.rest + tail == tail;
        assert Advance(Extended(s, tail)) == Extended(s, tail).(halt := true);
      } else {
        ExtendStep(s, tail);
        ExtendRun(Advance(s), tail);
      }
    }
  }

  lemma ExtendFinish(s: Scan, tail: seq<Lock>)
    requires !s.right
    ensures Finish(Extended(s, tail)) == Finish(s).(list := Finish(s).list + tail)
  {
    assert s.done + (s.rest + tail) == s.done + s.rest + tail;
    assert TrimLeft(Extended(s, tail)) == TrimLeft(s);
    var node := if s.added || s.free == [] then [] else [Lock(s.free[0], s.req.owner, s.req.kind, s.req.start, s.req.end)];
    assert TrimLeft(s) + node + (s.rest + tail) == TrimLeft(s) + node + s.rest + tail;
  }

  /** A call whose sum wraps works on the entries before the first one to merge, as if there were no others. */
  lemma WrapOutcome(own: seq<Lock>, free: seq<nat>, req: Request, w: int)
    requires OwnSorted(own, req.owner) && ValidRequest(req) && req.end == OFFSET_MAX && FirstToMerge(own, req, w)
    ensures var o := LockOwn(own[..w], free, req);
            && LockOwn(own, free, req) == o.(list := o.list + own[w..])
            && OwnSorted(own[..w], req.owner) && !WrapsPastMerge(own[..w], req)
  {
    var s := Start(own[..w], free, req);
    assert own == own[..w] + own[w..];
    assert ValidLock(own[w]);
    assert Start(own, free, req) == Extended(s, own[w..]);
    ExtendRun(s, own[w..]);
    ExtendFinish(Run(s), own[w..]);
  }

  /** An entry of another kind behind one that the wrapped sum keeps from merging. */
  ghost predicate WrapsOver(list: seq<Lock>, req: Request) {
    req.end == OFFSET_MAX &&
    exists i, j :: 0 <= i < j < |list| && list[i].owner == list[j].owner == req.owner
                   && list[i].kind == req.kind && list[i].end >= req.start - 1 && list[j].kind != req.kind
  }

  /** lock_it on one owner's sorted entries, for every request. On success the bytes of the range, and only
      those, change to the requested kind exactly when no sum wraps over an entry of another kind, and the
      entries are again sorted, disjoint and merged exactly when no sum wraps past a merge; a refused call
      changes nothing; EINVAL is exactly an unlock that meets no lock. */
  lemma LockOwnCorrect(own: seq<Lock>, free: seq<nat>, req: Request)
    requires OwnSorted(own, req.owner) && ValidRequest(req)
    ensures LockOwn(own, free, req).status == Ok ==>
              (BytesSet(own, LockOwn(own, free, req).list, req) <==> !WrapsOver(own, req))
    ensures LockOwn(own, free, req).status == Ok ==>
              (OwnSorted(LockOwn(own, free, req).list, req.owner) <==> !WrapsPastMerge(own, req))
    ensures LockOwn(own, free, req).status != Ok ==>
              LockOwn(own, free, req).list == own && LockOwn(own, free, req).free == free
    ensures LockOwn(own, free, req).status == EINVAL <==> req.kind == Unlock && NoneMet(own, req)
  {
    hide LockOwn, BytesSet, OwnSorted, NoneMet, FirstToMerge, ValidRequest;
    if WrapsPastMerge(own, req) {
      var i :| 0 <= i < |own| && own[i].kind == req.kind && own[i].end >= req.start - 1;
      var w := FindFirst(own, req, i);
      WrapOutcome(own, free, req, w);
      LockOwnPlain(own[..w], free, req);
      WrapKind(own, req, w);
      WrapNotSorted(own, free, req, w);
      WrapBytes(own, free, req, w);
      assert own == own[..w] + own[w..];
    } else {
      NoWrapOver(own, req);
      LockOwnPlain(own, free, req);
    }
  }

  lemma NoWrapOver(own: seq<Lock>, req: Request)
    requires !WrapsPastMerge(own, req)
    ensures !WrapsOver(own, req)
  {
  }

  lemma WrapKind(own: seq<Lock>, req: Request, w: int)
    requires OwnSorted(own, req.owner) && FirstToMerge(own, req, w)
    ensures req.kind != Unlock && 0 <= w < |own|
  {
    assert ValidLock(own[w]);
  }

  /** What the call put before entry w reaches to the end of the file. */
  lemma WrapNotSorted(own: seq<Lock>, free: seq<nat>, req: Request, w: int)
    requires OwnSorted(own, req.owner) && ValidRequest(req) && req.end == OFFSET_MAX && FirstToMerge(own, req, w) && req.kind != Unlock
    requires var o := LockOwn(own[..w], free, req); o.status == Ok ==> BytesSet(own[..w], o.list, req)
    ensures var o := LockOwn(own[..w], free, req); o.status == Ok ==> !OwnSorted(o.list + own[w..], req.owner)
  {
    hide LockOwn;
    var o := LockOwn(own[..w], free, req);
    if o.status == Ok {
      assert Covered(o.list, req.kind, OFFSET_MAX);
      var i :| 0 <= i < |o.list| && o.list[i].kind == req.kind && o.list[i].start <= OFFSET_MAX <= o.list[i].end;
      var r := o.list + own[w..];
      assert r[i] == o.list[i] && r[|o.list|] == own[w];
      assert ValidLock(own[w]);
      assert !Before(r[i], r[|o.list|]);
    }
  }

  lemma WrapBytes(own: seq<Lock>, free: seq<nat>, req: Request, w: int)
    requires OwnSorted(own, req.owner) && ValidRequest(req) && req.end == OFFSET_MAX && FirstToMerge(own, req, w) && req.kind != Unlock
    requires var o := LockOwn(own[..w], free, req); o.status == Ok ==> BytesSet(own[..w], o.list, req)
    ensures var o := LockOwn(own[..w], free, req);
            o.status == Ok ==> (BytesSet(own, o.list + own[w..], req) <==> !WrapsOver(own, req))
  {
    hide LockOwn, Covered;
    var o := LockOwn(own[..w], free, req);
    if o.status == Ok {
      if WrapsOver(own, req) {
        var x, k := OverKept(own, req, w);
        CoveredConcat(o.list, own[w..], k, x);
      } else {
        forall k, x
          ensures Covered(o.list + own[w..], k, x) <==>
                  if req.start <= x <= req.end then k == req.kind && k != Unlock else Covered(own, k, x)
        {
          CoveredConcat(o.list, own[w..], k, x);
          CoveredConcat(own[..w], own[w..], k, x);
          assert own == own[..w] + own[w..];
          TailKind(own, req, w, k, x);
        }
      }
    }
  }

  /** Some byte of the range is still covered by an entry of another kind. */
  lemma OverKept(own: seq<Lock>, req: Request, w: int) returns (x: int, k: Kind)
    requires OwnSorted(own, req.owner) && FirstToMerge(own, req, w) && WrapsOver(own, req)
    ensures req.start <= x <= req.end && k != req.kind && Covered(own[w..], k, x)
  {
    var i, j :| 0 <= i < j < |own| && own[i].kind == req.kind && own[i].end >= req.start - 1 && own[j].kind != req.kind;
    assert w < j && Before(own[w], own[j]) && ValidLock(own[j]);
    x, k := own[j].start, own[j].kind;
    assert own[w..][j - w] == own[j];
  }

  lemma TailKind(own: seq<Lock>, req: Request, w: int, k: Kind, x: int)
    requires OwnSorted(own, req.owner) && FirstToMerge(own, req, w) && req.end == OFFSET_MAX && !WrapsOver(own, req)
    ensures Covered(own[w..], k, x) ==> k == req.kind
  {
    var tail := own[w..];
    forall i | 0 <= i < |tail|
      ensures tail[i].kind == req.kind
    {
      assert tail[i] == own[w + i] && tail[0] == own[w];
      assert own[w].owner == own[w + i].owner == req.owner;
    }
  }

  /** The simplest case: a byte is read-locked, then the whole file is. */
  lemma WrapWitness()
    ensures var own := [Lock(0, Owner(1, 3), ReadLock, 0, 0)];
            var req := Request(Owner(1, 3), ReadLock, 0, OFFSET_MAX);
            LockOwn(own, [1], req) == Outcome(Ok, [Lock(1, Owner(1, 3), ReadLock, 0, OFFSET_MAX)] + own, [])
  {
    var own := [Lock(0, Owner(1, 3), ReadLock, 0, 0)];
    var req := Request(Owner(1, 3), ReadLock, 0, OFFSET_MAX);
    var s := Start(own, [1], req);
    assert Run(s) == Advance(s) == s.(halt := true);
  }

  /** With a write-locked byte behind it, that byte ends up both read-locked and write-locked. */
  lemma WrapOverWitness()
    ensures var own := [Lock(0, Owner(1, 3), ReadLock, 0, 0), Lock(1, Owner(1, 3), WriteLock, 5, 5)];
            var req := Request(Owner(1, 3), ReadLock, 0, OFFSET_MAX);
            var r := LockOwn(own, [2], req);
            r.status == Ok && Covered(r.list, ReadLock, 5) && Covered(r.list, WriteLock, 5)
  {
    var own := [Lock(0, Owner(1, 3), ReadLock, 0, 0), Lock(1, Owner(1, 3), WriteLock, 5, 5)];
    var req := Request(Owner(1, 3), ReadLock, 0, OFFSET_MAX);
    var s := Start(own, [2], req);
    assert Run(s) == Advance(s) == s.(halt := true);
    var r := LockOwn(own, [2], req).list;
    assert r == [Lock(2, Owner(1, 3), ReadLock, 0, OFFSET_MAX)] + own;
    assert r[0].kind == ReadLock && r[2].kind == WriteLock;
  }

  // ---------- what holds for every list, ordered or not ----------

  /** Entries as any sequence of calls can leave them; a trimmed entry may be empty. */
  predicate WeakLock(l: Lock) {
    l.kind != Unlock && 0 <= l.start && l.end <= OFFSET_MAX
  }

  ghost predicate AllWeak(list: seq<Lock>) {
    forall l :: l in list ==> WeakLock(l)
  }

  /** Byte x may be held with kind k: it was before, or it has just been asked for. */
  ghost predicate Allowed(own: seq<Lock>, req: Request, k: Kind, x: int) {
    Covered(own, k, x) || (k == req.kind && req.start <= x <= req.end)
  }

  ghost predicate OnlyAllowed(own: seq<Lock>, req: Request, l: Lock) {
    && l.owner == req.owner && WeakLock(l)
    && forall x :: l.start <= x <= l.end ==> Allowed(own, req, l.kind, x)
  }

  ghost predicate SoundInv(own: seq<Lock>, req: Request, s: Scan) {
    && (forall l :: l in s.done ==> OnlyAllowed(own, req, l))
    && (forall l :: l in s.rest ==> OnlyAllowed(own, req, l))
    && s.req.owner == req.owner && s.req.kind == req.kind && ValidRequest(s.req)
    && (forall x :: s.req.start <= x <= s.req.end ==> Allowed(own, req, req.kind, x))
    && s.at < |s.done| && (0 <= s.at ==> s.done[s.at].kind == req.kind)
    && (0 <= s.left < |s.done| ==> s.left != s.at && s.done[s.left].end >= s.req.start - 1)
    && s.left < |s.done| + (if s.right then 1 else 0)
    && (s.right ==> s.rest != [] && s.rest[0].start <= s.req.end < s.rest[0].end)
  }

  lemma SoundMerge(own: seq<Lock>, req: Request, s: Scan)
    requires SoundInv(own, req, s) && !s.halt && !s.right
    requires s.rest != [] && s.rest[0].kind == req.kind
    requires s.rest[0].end >= s.req.start - 1 && s.rest[0].start <= s.req.end + 1
    ensures SoundInv(own, req, Merge(s))
  {
    var fl, t := s.rest[0], Merge(s);
    assert OnlyAllowed(own, req, fl);
    forall x {:trigger Allowed(own, req, req.kind, x)} | t.req.start <= x <= t.req.end
      ensures Allowed(own, req, req.kind, x)
    {
      assert fl.start <= x <= fl.end || s.req.start <= x <= s.req.end;
    }
    if s.added && 0 <= s.at {
      assert s.done[s.at] in s.done;
      assert OnlyAllowed(own, req, s.done[s.at].(start := t.req.start, end := t.req.end));
    } else {
      assert OnlyAllowed(own, req, fl.(start := t.req.start, end := t.req.end));
    }
  }

  lemma SoundStep(own: seq<Lock>, req: Request, s: Scan)
    requires SoundInv(own, req, s) && !s.halt && !s.right
    ensures SoundInv(own, req, Advance(s))
  {
    hide Merge;
    if s.rest != [] {
      var fl := s.rest[0];
      assert OnlyAllowed(own, req, fl);
      if fl.kind == s.req.kind && fl.end >= s.req.start - 1 && fl.start <= OffT(s.req.end + 1) {
        SoundMerge(own, req, s);
        assert Advance(s) == Merge(s);
      } else {
        assert OnlyAllowed(own, req, fl.(start := s.req.start, end := s.req.end, kind := s.req.kind)) || req.kind == Unlock;
      }
    }
  }

  lemma {:induction false} SoundRun(own: seq<Lock>, req: Request, s: Scan)
    requires SoundInv(own, req, s) && (!s.halt ==> !s.right)
    ensures SoundInv(own, req, Run(s))
    decreases !s.halt, |s.rest|
  {
    if !s.halt {
      SoundStep(own, req, s);
      SoundRun(own, req, Advance(s));
    }
  }

  lemma SoundFinish(own: seq<Lock>, req: Request, s: Scan)
    requires SoundInv(own, req, s)
    ensures forall l :: l in Finish(s).list ==> OnlyAllowed(own, req, l)
  {
    TrimsAllowed(own, req, s);
    if s.added || s.free != [] {
      var free := if s.added then s.free else s.free[1..];
      if !s.added && req.kind != Unlock {
        assert OnlyAllowed(own, req, Lock(s.free[0], s.req.owner, s.req.kind, s.req.start, s.req.end));
      }
      if Splits(s) && free != [] {
        assert s.rest[0] in s.rest;
        assert OnlyAllowed(own, req, s.rest[0].(slot := free[0], owner := s.req.owner, end := s.req.start - 1));
      }
    }
  }

  lemma TrimsAllowed(own: seq<Lock>, req: Request, s: Scan)
    requires SoundInv(own, req, s)
    ensures forall l :: l in TrimLeft(s) ==> OnlyAllowed(own, req, l)
    ensures forall l :: l in TrimRight(s) ==> OnlyAllowed(own, req, l)
  {
    if 0 <= s.left < |s.done| {
      assert s.done[s.left] in s.done;
      assert OnlyAllowed(own, req, s.done[s.left].(end := s.req.start - 1));
    }
    if s.right {
      assert s.rest[0] in s.rest;
      assert OnlyAllowed(own, req, s.rest[0].(start := s.req.end + 1));
    }
  }

  /** On any list whatsoever: lock_it never makes an owner hold a byte it did not hold or ask for. */
  lemma LockOwnSound(own: seq<Lock>, free: seq<nat>, req: Request)
    requires AllWeak(own) && ValidRequest(req)
    requires forall l :: l in own ==> l.owner == req.owner
    ensures forall l :: l in LockOwn(own, free, req).list ==> OnlyAllowed(own, req, l)
  {
    var s := Start(own, free, req);
    assert SoundInv(own, req, s);
    SoundRun(own, req, s);
    SoundFinish(own, req, Run(s));
  }
}
