/** The buffer cache of linux/fs/buffer.c as steps interleaved at every sleep, and the block store it
    stands for. A step runs from one point where a task may sleep to the next; a token is one
    reference that some task has on a buffer (a task may have several). */
module BufferCache {
  /** A block of a device; device 0 is no device. */
  datatype Key = Key(dev: nat, block: nat)

  datatype Lock = Unlocked | Reading | Writing(snapshot: nat)

  datatype Buf = Buf(key: Key, size: nat, page: nat, count: nat, dirty: bool, uptodate: bool, lock: Lock, data: nat)

  /** Why a reference is held: by a caller of getblk or bread, by get_hash_table or getblk waiting for
      the buffer to be unlocked, or around a write started by sync_buffers or shrink_buffers. */
  datatype Ref =
    | Held(buf: nat, key: Key)
    | HashWait(buf: nat, key: Key)
    | PickWait(buf: nat, key: Key)
    | Syncing(buf: nat)

  datatype State = State(bufs: map<nat, Buf>, refs: map<nat, Ref>, disk: map<Key, nat>)

  /** The one block size of each device. */
  type Sizes = nat -> nat

  datatype Step =
    | Find(tok: nat, key: Key, buf: nat)
    | HashWake(tok: nat)
    | Pick(tok: nat, key: Key, buf: nat)
    | PickWake(tok: nat)
    | Release(tok: nat)
    | StartRead(tok: nat)
    | EndRead(buf: nat, ok: bool)
    | SyncBegin(tok: nat, buf: nat)
    | SyncEnd(tok: nat)
    | StartWrite(buf: nat)
    | EndWrite(buf: nat, written: nat)
    | Store(tok: nat, data: nat)
    | Fill(tok: nat, data: nat)
    | Grow(page: nat, size: nat, ids: seq<nat>)
    | Shrink(page: nat)
    | Load(page: nat, dev: nat, blocks: seq<nat>, ids: seq<nat>, toks: seq<nat>)

  function At(m: map<Key, nat>, k: Key): nat { if k in m then m[k] else 0 }

  /** What find_buffer looks for. */
  predicate IsFor(bufs: map<nat, Buf>, b: nat, k: Key) { b in bufs && bufs[b].key == k }

  ghost predicate InCache(bufs: map<nat, Buf>, k: Key) { exists b :: IsFor(bufs, b, k) }

  predicate HeldBy(s: State, t: nat) { t in s.refs && s.refs[t].Held? && s.refs[t].buf in s.bufs }

  predicate Fresh(ids: seq<nat>, used: set<nat>) {
    && (forall i :: 0 <= i < |ids| ==> ids[i] !in used)
    && (forall i, j :: 0 <= i < j < |ids| ==> ids[i] != ids[j])
  }

  predicate Distinct(blocks: seq<nat>) { forall i, j :: 0 <= i < j < |blocks| ==> blocks[i] != blocks[j] }

  /** Nothing on the page is in use: the test of try_to_free. */
  predicate Idle(x: Buf) { x.count == 0 && !x.dirty && x.lock == Unlocked }

  ghost predicate Possible(sz: Sizes, s: State, st: Step) {
    match st
    case Find(t, k, b) => t !in s.refs && k.dev != 0 && IsFor(s.bufs, b, k)
    case HashWake(t) => t in s.refs && s.refs[t].HashWait? && s.refs[t].buf in s.bufs && s.bufs[s.refs[t].buf].lock == Unlocked
    case Pick(t, k, b) => t !in s.refs && k.dev != 0 && b in s.bufs && s.bufs[b].count == 0 && s.bufs[b].size == sz(k.dev)
    case PickWake(t) => t in s.refs && s.refs[t].PickWait? && s.refs[t].key.dev != 0 && s.refs[t].buf in s.bufs && s.bufs[s.refs[t].buf].lock == Unlocked
    case Release(t) => HeldBy(s, t) && s.bufs[s.refs[t].buf].lock == Unlocked
    case StartRead(t) => HeldBy(s, t) && s.bufs[s.refs[t].buf].lock == Unlocked && !s.bufs[s.refs[t].buf].uptodate
    case EndRead(b, ok) => b in s.bufs && s.bufs[b].lock == Reading
    case SyncBegin(t, b) => t !in s.refs && b in s.bufs
    case SyncEnd(t) => t in s.refs && s.refs[t].Syncing? && s.refs[t].buf in s.bufs
    case StartWrite(b) => b in s.bufs && s.bufs[b].lock == Unlocked && s.bufs[b].dirty
    case EndWrite(b, v) => b in s.bufs && s.bufs[b].lock.Writing? && (v == s.bufs[b].lock.snapshot || v == s.bufs[b].data)
    case Store(t, v) => HeldBy(s, t) && s.bufs[s.refs[t].buf].uptodate
    case Fill(t, v) => HeldBy(s, t) && s.bufs[s.refs[t].buf].lock == Unlocked
    case Grow(p, n, ids) => Fresh(ids, s.bufs.Keys) && forall b :: b in s.bufs ==> s.bufs[b].page != p
    case Shrink(p) => forall b :: b in s.bufs && s.bufs[b].page == p ==> Idle(s.bufs[b])
    case Load(p, dev, blocks, ids, toks) =>
      && dev != 0 && |blocks| == |ids| == |toks| && Fresh(ids, s.bufs.Keys) && Fresh(toks, s.refs.Keys)
      && (forall i :: 0 <= i < |blocks| ==> blocks[i] != 0 && !InCache(s.bufs, Key(dev, blocks[i])))
  }

  function Retain(x: Buf): Buf { x.(count := x.count + 1) }

  function Drop(x: Buf): Buf { x.(count := if x.count > 0 then x.count - 1 else 0) }

  /** The end of getblk, with nothing to sleep on: the buffer is taken if it is still unused, clean and
      nobody else has brought the block in; otherwise getblk starts again. */
  ghost function Claim(sz: Sizes, s: State, t: nat, k: Key, b: nat): State
    requires b in s.bufs
  {
    if s.bufs[b].count != 0 || s.bufs[b].size != sz(k.dev) || s.bufs[b].dirty || InCache(s.bufs, k) then s
    else s.(bufs := s.bufs[b := Claimed(s.bufs[b], k)], refs := s.refs[t := Held(b, k)])
  }

  function Claimed(x: Buf, k: Key): Buf {
    x.(key := k, count := 1, dirty := false, uptodate := false)
  }

  function NewBuf(p: nat, n: nat): Buf { Buf(Key(0, 0), n, p, 0, false, false, Unlocked, 0) }

  function GrowAll(bufs: map<nat, Buf>, p: nat, n: nat, ids: seq<nat>): map<nat, Buf> {
    if ids == [] then bufs else GrowAll(bufs, p, n, ids[..|ids| - 1])[ids[|ids| - 1] := NewBuf(p, n)]
  }

  /** One buffer of try_to_load_aligned. */
  function LoadOne(s: State, p: nat, n: nat, k: Key, b: nat, t: nat): State {
    s.(bufs := s.bufs[b := Claimed(NewBuf(p, n), k)], refs := s.refs[t := Held(b, k)])
  }

  function LoadAll(s: State, p: nat, n: nat, dev: nat, blocks: seq<nat>, ids: seq<nat>, toks: seq<nat>): State
    requires |blocks| == |ids| == |toks|
  {
    if blocks == [] then s
    else
      var i := |blocks| - 1;
      LoadOne(LoadAll(s, p, n, dev, blocks[..i], ids[..i], toks[..i]), p, n, Key(dev, blocks[i]), ids[i], toks[i])
  }

  ghost function Next(sz: Sizes, s: State, st: Step): State
    requires Possible(sz, s, st)
  {
    match st
    case Find(t, k, b) =>
      s.(bufs := s.bufs[b := Retain(s.bufs[b])],
         refs := s.refs[t := if s.bufs[b].lock == Unlocked then Held(b, k) else HashWait(b, k)])
    case HashWake(t) =>
      var b, k := s.refs[t].buf, s.refs[t].key;
      if s.bufs[b].key == k then s.(refs := s.refs[t := Held(b, k)])
      else s.(bufs := s.bufs[b := Drop(s.bufs[b])], refs := s.refs - {t})
    case Pick(t, k, b) =>
      if s.bufs[b].lock == Unlocked then Claim(sz, s, t, k, b)
      else s.(bufs := s.bufs[b := Retain(s.bufs[b])], refs := s.refs[t := PickWait(b, k)])
    case PickWake(t) =>
      var b, k := s.refs[t].buf, s.refs[t].key;
      Claim(sz, s.(bufs := s.bufs[b := Drop(s.bufs[b])], refs := s.refs - {t}), t, k, b)
    case Release(t) =>
      var b := s.refs[t].buf;
      s.(bufs := s.bufs[b := Drop(s.bufs[b])], refs := s.refs - {t})
    case StartRead(t) =>
      var b := s.refs[t].buf;
      s.(bufs := s.bufs[b := s.bufs[b].(lock := Reading)])
    case EndRead(b, ok) =>
      var x := s.bufs[b].(lock := Unlocked);
      s.(bufs := s.bufs[b := if ok then x.(data := At(s.disk, x.key), uptodate := true) else x])
    case SyncBegin(t, b) => s.(bufs := s.bufs[b := Retain(s.bufs[b])], refs := s.refs[t := Syncing(b)])
    case SyncEnd(t) =>
      var b := s.refs[t].buf;
      s.(bufs := s.bufs[b := Drop(s.bufs[b])], refs := s.refs - {t})
    case StartWrite(b) => s.(bufs := s.bufs[b := s.bufs[b].(lock := Writing(s.bufs[b].data), dirty := false)])
    case EndWrite(b, v) => s.(bufs := s.bufs[b := s.bufs[b].(lock := Unlocked)], disk := s.disk[s.bufs[b].key := v])
    case Store(t, v) =>
      var b := s.refs[t].buf;
      s.(bufs := s.bufs[b := s.bufs[b].(data := v, dirty := true)])
    case Fill(t, v) =>
      var b := s.refs[t].buf;
      s.(bufs := s.bufs[b := s.bufs[b].(data := v, uptodate := true, dirty := true)])
    case Grow(p, n, ids) => s.(bufs := GrowAll(s.bufs, p, n, ids))
    case Shrink(p) => s.(bufs := map b | b in s.bufs && s.bufs[b].page != p :: s.bufs[b])
    case Load(p, dev, blocks, ids, toks) => LoadAll(s, p, sz(dev), dev, blocks, ids, toks)
  }

  // ---------- the block store that the cache stands for ----------

  /** Only a caller storing into a buffer changes the block store. */
  function FlatNext(a: map<Key, nat>, s: State, st: Step): map<Key, nat> {
    match st
    case Store(t, v) => if HeldBy(s, t) then a[s.refs[t].key := v] else a
    case Fill(t, v) => if HeldBy(s, t) then a[s.refs[t].key := v] else a
    case _ => a
  }

  ghost predicate Cached(bufs: map<nat, Buf>, k: Key) { exists b :: IsFor(bufs, b, k) && bufs[b].uptodate }

  /** Cached data if up to date, else disk. */
  ghost predicate Shows(s: State, a: map<Key, nat>) {
    && (forall b :: b in s.bufs && s.bufs[b].uptodate ==> s.bufs[b].data == At(a, s.bufs[b].key))
    && (forall k: Key :: k.dev != 0 ==> Cached(s.bufs, k) || At(s.disk, k) == At(a, k))
  }

  // ---------- the invariant ----------

  ghost predicate Unique(bufs: map<nat, Buf>) {
    forall b, c :: b in bufs && c in bufs && bufs[b].key.dev != 0 && bufs[b].key == bufs[c].key ==> b == c
  }

  ghost function RefsTo(refs: map<nat, Ref>, b: nat): set<nat> { set t | t in refs && refs[t].buf == b }

  ghost predicate Counted(s: State) {
    forall b :: b in s.bufs ==> s.bufs[b].count == |RefsTo(s.refs, b)|
  }

  predicate RefOk(bufs: map<nat, Buf>, r: Ref) {
    && r.buf in bufs
    && (r.Held? || r.HashWait? ==> bufs[r.buf].key == r.key && r.key.dev != 0)
    && (r.PickWait? ==> r.key.dev != 0)
  }

  ghost predicate RefsOk(s: State) { forall t :: t in s.refs ==> RefOk(s.bufs, s.refs[t]) }

  predicate LocalOk(sz: Sizes, x: Buf, onDisk: nat) {
    && (x.key.dev == 0 ==> !x.uptodate && x.lock == Unlocked)
    && (x.key.dev != 0 ==> x.size == sz(x.key.dev))
    && (x.dirty ==> x.uptodate)
    && (x.lock == Reading ==> !x.uptodate)
    && (x.lock.Writing? ==> x.uptodate && (!x.dirty ==> x.lock.snapshot == x.data))
    && (x.uptodate && !x.dirty && x.lock == Unlocked ==> x.data == onDisk)
  }

  ghost predicate LocalsOk(sz: Sizes, s: State) {
    forall b :: b in s.bufs ==> LocalOk(sz, s.bufs[b], At(s.disk, s.bufs[b].key))
  }

  ghost predicate Inv(sz: Sizes, s: State) { Unique(s.bufs) && Counted(s) && RefsOk(s) && LocalsOk(sz, s) }

  // ---------- one buffer changes ----------

  /** A step that leaves every buffer but b alone, and b its identity. */
  lemma ChangeBufs(sz: Sizes, s: State, b: nat, x: Buf, s': State)
    requires Inv(sz, s) && b in s.bufs && x.key == s.bufs[b].key && s'.bufs == s.bufs[b := x]
    requires LocalOk(sz, x, At(s'.disk, x.key)) && forall k: Key :: k.dev == 0 || k == x.key || At(s'.disk, k) == At(s.disk, k)
    requires s'.disk == s.disk || x.key.dev != 0
    ensures Unique(s'.bufs) && LocalsOk(sz, s')
  {
  }

  lemma ChangeShows(s: State, a: map<Key, nat>, b: nat, x: Buf, s': State, a': map<Key, nat>)
    requires Shows(s, a) && Unique(s.bufs) && b in s.bufs && x.key == s.bufs[b].key && s'.bufs == s.bufs[b := x]
    requires forall k: Key :: k == x.key || (At(s'.disk, k) == At(s.disk, k) && At(a', k) == At(a, k))
    requires (s'.disk == s.disk && a' == a) || x.key.dev != 0
    requires x.key.dev == 0 ==> !x.uptodate
    requires if x.uptodate then x.data == At(a', x.key) else x.key.dev == 0 || At(s'.disk, x.key) == At(a', x.key)
    ensures Shows(s', a')
  {
    forall k: Key | k.dev != 0
      ensures Cached(s'.bufs, k) || At(s'.disk, k) == At(a', k)
    {
      if k == x.key {
        assert IsFor(s'.bufs, b, k);
      } else if Cached(s.bufs, k) {
        var c :| IsFor(s.bufs, c, k) && s.bufs[c].uptodate;
        assert IsFor(s'.bufs, c, k) && s'.bufs[c].uptodate;
      }
    }
  }

  lemma AddRef(s: State, t: nat, r: Ref, s': State)
    requires Counted(s) && RefsOk(s) && t !in s.refs && r.buf in s.bufs
    requires s'.bufs == s.bufs[r.buf := Retain(s.bufs[r.buf])] && s'.refs == s.refs[t := r]
    requires RefOk(s'.bufs, r)
    ensures Counted(s') && RefsOk(s')
  {
    forall b | b in s'.bufs
      ensures s'.bufs[b].count == |RefsTo(s'.refs, b)|
    {
      if b == r.buf {
        assert RefsTo(s'.refs, b) == RefsTo(s.refs, b) + {t};
      } else {
        assert RefsTo(s'.refs, b) == RefsTo(s.refs, b);
      }
    }
  }

  lemma RemoveRef(s: State, t: nat, s': State)
    requires Counted(s) && RefsOk(s) && t in s.refs
    requires s'.bufs == s.bufs[s.refs[t].buf := Drop(s.bufs[s.refs[t].buf])] && s'.refs == s.refs - {t}
    ensures Counted(s') && RefsOk(s')
    ensures s.bufs[s.refs[t].buf].count > 0
  {
    assert t in RefsTo(s.refs, s.refs[t].buf);
    forall b | b in s'.bufs
      ensures s'.bufs[b].count == |RefsTo(s'.refs, b)|
    {
      if b == s.refs[t].buf {
        assert RefsTo(s'.refs, b) == RefsTo(s.refs, b) - {t};
      } else {
        assert RefsTo(s'.refs, b) == RefsTo(s.refs, b);
      }
    }
  }

  /** The reference changes its reason, the counts stay. */
  lemma SameRefs(s: State, s': State, b: nat, x: Buf)
    requires Counted(s) && RefsOk(s) && b in s.bufs && s'.refs == s.refs
    requires s'.bufs == s.bufs[b := x] && x.count == s.bufs[b].count && x.key == s.bufs[b].key
    ensures Counted(s') && RefsOk(s')
  {
  }

  lemma TurnRef(s: State, t: nat, r: Ref, s': State)
    requires Counted(s) && RefsOk(s) && t in s.refs && r.buf == s.refs[t].buf && RefOk(s.bufs, r)
    requires s'.bufs == s.bufs && s'.refs == s.refs[t := r]
    ensures Counted(s') && RefsOk(s')
  {
    forall b | b in s'.bufs
      ensures s'.bufs[b].count == |RefsTo(s'.refs, b)|
    {
      assert RefsTo(s'.refs, b) == RefsTo(s.refs, b);
    }
  }

  // ---------- the steps ----------

  ghost predicate Kept(sz: Sizes, s: State, a: map<Key, nat>) { Inv(sz, s) && Shows(s, a) }

  lemma FindStep(sz: Sizes, s: State, a: map<Key, nat>, t: nat, r: Ref, s': State)
    requires Kept(sz, s, a) && t !in s.refs && r.buf in s.bufs
    requires s' == s.(bufs := s.bufs[r.buf := Retain(s.bufs[r.buf])], refs := s.refs[t := r])
    requires RefOk(s.bufs, r)
    ensures Kept(sz, s', a)
  {
    hide Unique, Counted, RefsOk, LocalsOk, Shows;
    Local(sz, s, a, r.buf);
    AddRef(s, t, r, s');
    ChangeBufs(sz, s, r.buf, Retain(s.bufs[r.buf]), s');
    ChangeShows(s, a, r.buf, Retain(s.bufs[r.buf]), s', a);
  }

  lemma Local(sz: Sizes, s: State, a: map<Key, nat>, b: nat)
    requires Kept(sz, s, a) && b in s.bufs
    ensures LocalOk(sz, s.bufs[b], At(s.disk, s.bufs[b].key))
    ensures s.bufs[b].uptodate ==> s.bufs[b].data == At(a, s.bufs[b].key)
    ensures !s.bufs[b].uptodate && s.bufs[b].key.dev != 0 ==> At(s.disk, s.bufs[b].key) == At(a, s.bufs[b].key)
  {
  }

  lemma DropStep(sz: Sizes, s: State, a: map<Key, nat>, t: nat, s': State)
    requires Kept(sz, s, a) && t in s.refs && s.refs[t].buf in s.bufs
    requires s' == s.(bufs := s.bufs[s.refs[t].buf := Drop(s.bufs[s.refs[t].buf])], refs := s.refs - {t})
    ensures Kept(sz, s', a) && s.bufs[s.refs[t].buf].count > 0
  {
    hide Unique, Counted, RefsOk, LocalsOk, Shows;
    var b := s.refs[t].buf;
    Local(sz, s, a, b);
    RemoveRef(s, t, s');
    ChangeBufs(sz, s, b, Drop(s.bufs[b]), s');
    ChangeShows(s, a, b, Drop(s.bufs[b]), s', a);
  }

  lemma WakeStep(sz: Sizes, s: State, a: map<Key, nat>, t: nat, s': State)
    requires Kept(sz, s, a) && t in s.refs && s.refs[t].HashWait?
    requires s' == s.(refs := s.refs[t := Held(s.refs[t].buf, s.refs[t].key)])
    ensures Kept(sz, s', a)
  {
    TurnRef(s, t, Held(s.refs[t].buf, s.refs[t].key), s');
  }

  /** A change of flags or data by which the buffer still agrees with the store and the disk. */
  lemma FlagStep(sz: Sizes, s: State, a: map<Key, nat>, b: nat, x: Buf, v: nat, a': map<Key, nat>, s': State)
    requires Kept(sz, s, a) && b in s.bufs && x.key == s.bufs[b].key && x.count == s.bufs[b].count
    requires s'.bufs == s.bufs[b := x] && s'.refs == s.refs && (s'.disk == s.disk || (x.key.dev != 0 && s'.disk == s.disk[x.key := v]))
    requires a' == a || (x.key.dev != 0 && a' == a[x.key := x.data])
    requires LocalOk(sz, x, At(s'.disk, x.key))
    requires if x.uptodate then x.data == At(a', x.key) else x.key.dev == 0 || At(s'.disk, x.key) == At(a', x.key)
    ensures Kept(sz, s', a')
  {
    hide Unique, Counted, RefsOk, LocalsOk, Shows;
    SameRefs(s, s', b, x);
    ChangeBufs(sz, s, b, x, s');
    ChangeShows(s, a, b, x, s', a');
  }

  // ---------- taking a buffer for another block ----------

  lemma ClaimRefs(s: State, t: nat, k: Key, b: nat, x: Buf, s': State)
    requires Counted(s) && RefsOk(s) && b in s.bufs && s.bufs[b].count == 0 && t !in s.refs && k.dev != 0
    requires x.count == 1 && x.key == k && s'.bufs == s.bufs[b := x] && s'.refs == s.refs[t := Held(b, k)]
    ensures Counted(s') && RefsOk(s')
  {
    assert RefsTo(s.refs, b) == {};
    assert forall u :: u in s.refs ==> s.refs[u].buf != b by {
      forall u | u in s.refs
        ensures s.refs[u].buf != b
      {
        assert u !in RefsTo(s.refs, b);
      }
    }
    forall c | c in s'.bufs
      ensures s'.bufs[c].count == |RefsTo(s'.refs, c)|
    {
      if c == b {
        assert RefsTo(s'.refs, c) == {t};
      } else {
        assert RefsTo(s'.refs, c) == RefsTo(s.refs, c);
      }
    }
  }

  /** The evicted block had no unwritten data, so the disk shows it as before. */
  lemma ClaimShows(sz: Sizes, s: State, a: map<Key, nat>, k: Key, b: nat, x: Buf, s': State)
    requires Unique(s.bufs) && LocalsOk(sz, s) && Shows(s, a) && b in s.bufs && Idle(s.bufs[b]) && !InCache(s.bufs, k) && k.dev != 0
    requires x.key == k && !x.uptodate && s'.bufs == s.bufs[b := x] && s'.disk == s.disk
    ensures Shows(s', a)
  {
    forall j: Key | j.dev != 0
      ensures Cached(s'.bufs, j) || At(s'.disk, j) == At(a, j)
    {
      if Cached(s.bufs, j) {
        var c :| IsFor(s.bufs, c, j) && s.bufs[c].uptodate;
        if c != b { assert IsFor(s'.bufs, c, j) && s'.bufs[c].uptodate; }
      }
    }
  }

  lemma ClaimBufs(sz: Sizes, s: State, k: Key, b: nat, x: Buf, s': State)
    requires Unique(s.bufs) && LocalsOk(sz, s) && b in s.bufs && !InCache(s.bufs, k) && k.dev != 0
    requires x.key == k && LocalOk(sz, x, At(s.disk, k)) && s'.bufs == s.bufs[b := x] && s'.disk == s.disk
    ensures Unique(s'.bufs) && LocalsOk(sz, s')
  {
    assert forall c :: c in s.bufs ==> s.bufs[c].key != k by {
      forall c | c in s.bufs
        ensures s.bufs[c].key != k
      {
        assert !IsFor(s.bufs, c, k);
      }
    }
  }

  lemma ClaimStep(sz: Sizes, s: State, a: map<Key, nat>, t: nat, k: Key, b: nat)
    requires Kept(sz, s, a) && b in s.bufs && s.bufs[b].lock == Unlocked && t !in s.refs && k.dev != 0
    ensures Kept(sz, Claim(sz, s, t, k, b), a)
  {
    hide Unique, Counted, RefsOk, LocalsOk, Shows, InCache;
    var s', x := Claim(sz, s, t, k, b), Claimed(s.bufs[b], k);
    if s.bufs[b].count == 0 && s.bufs[b].size == sz(k.dev) && !s.bufs[b].dirty && !InCache(s.bufs, k) {
      ClaimRefs(s, t, k, b, x, s');
      ClaimBufs(sz, s, k, b, x, s');
      ClaimShows(sz, s, a, k, b, x, s');
    }
  }

  // ---------- buffers come and go ----------

  lemma NoRefs(s: State, b: nat)
    requires RefsOk(s) && b !in s.bufs
    ensures RefsTo(s.refs, b) == {}
  {
  }

  lemma GrowOne(sz: Sizes, s: State, a: map<Key, nat>, b: nat, x: Buf, s': State)
    requires Kept(sz, s, a) && b !in s.bufs && x.key == Key(0, 0) && x.count == 0 && LocalOk(sz, x, At(s.disk, x.key)) && !x.uptodate
    requires s' == s.(bufs := s.bufs[b := x])
    ensures Kept(sz, s', a)
  {
    hide Shows;
    NoRefs(s, b);
    GrowShows(s, a, b, x, s');
  }

  lemma GrowShows(s: State, a: map<Key, nat>, b: nat, x: Buf, s': State)
    requires Shows(s, a) && b !in s.bufs && !x.uptodate && s'.bufs == s.bufs[b := x] && s'.disk == s.disk
    ensures Shows(s', a)
  {
    forall k: Key | k.dev != 0
      ensures Cached(s'.bufs, k) || At(s'.disk, k) == At(a, k)
    {
      if Cached(s.bufs, k) {
        var c :| IsFor(s.bufs, c, k) && s.bufs[c].uptodate;
        assert IsFor(s'.bufs, c, k) && s'.bufs[c].uptodate;
      }
    }
  }

  lemma {:induction false} GrowStep(sz: Sizes, s: State, a: map<Key, nat>, p: nat, n: nat, ids: seq<nat>)
    requires Kept(sz, s, a) && Fresh(ids, s.bufs.Keys)
    ensures Kept(sz, s.(bufs := GrowAll(s.bufs, p, n, ids)), a)
  {
    hide Kept;
    if ids == [] {
      assert s.(bufs := s.bufs) == s;
    } else {
      var i := |ids| - 1;
      GrowStep(sz, s, a, p, n, ids[..i]);
      GrowKeys(s.bufs, p, n, ids[..i], ids[i]);
      GrowOne(sz, s.(bufs := GrowAll(s.bufs, p, n, ids[..i])), a, ids[i], NewBuf(p, n), s.(bufs := GrowAll(s.bufs, p, n, ids)));
    }
  }

  lemma {:induction false} GrowKeys(bufs: map<nat, Buf>, p: nat, n: nat, ids: seq<nat>, b: nat)
    ensures b in GrowAll(bufs, p, n, ids) <==> b in bufs || b in ids
  {
    if ids != [] {
      GrowKeys(bufs, p, n, ids[..|ids| - 1], b);
      assert ids == ids[..|ids| - 1] + [ids[|ids| - 1]];
    }
  }

  lemma ShrinkRefs(s: State, p: nat, s': State)
    requires Counted(s) && RefsOk(s)
    requires forall b :: b in s.bufs && s.bufs[b].page == p ==> Idle(s.bufs[b])
    requires s' == s.(bufs := map b | b in s.bufs && s.bufs[b].page != p :: s.bufs[b])
    ensures Counted(s') && RefsOk(s')
  {
    forall t | t in s.refs
      ensures s.refs[t].buf in s'.bufs
    {
      assert t in RefsTo(s.refs, s.refs[t].buf);
    }
  }

  lemma ShrinkStep(sz: Sizes, s: State, a: map<Key, nat>, p: nat, s': State)
    requires Kept(sz, s, a)
    requires forall b :: b in s.bufs && s.bufs[b].page == p ==> Idle(s.bufs[b])
    requires s' == s.(bufs := map b | b in s.bufs && s.bufs[b].page != p :: s.bufs[b])
    ensures Kept(sz, s', a)
  {
    ShrinkRefs(s, p, s');
    forall k: Key | k.dev != 0
      ensures Cached(s'.bufs, k) || At(s'.disk, k) == At(a, k)
    {
      if Cached(s.bufs, k) {
        var c :| IsFor(s.bufs, c, k) && s.bufs[c].uptodate;
        if c in s'.bufs { assert IsFor(s'.bufs, c, k) && s'.bufs[c].uptodate; }
      }
    }
  }

  lemma LoadOneStep(sz: Sizes, s: State, a: map<Key, nat>, p: nat, n: nat, k: Key, b: nat, t: nat)
    requires Kept(sz, s, a) && b !in s.bufs && t !in s.refs && k.dev != 0 && n == sz(k.dev) && !InCache(s.bufs, k)
    ensures Kept(sz, LoadOne(s, p, n, k, b, t), a)
  {
    hide Unique, Counted, RefsOk, LocalsOk, Shows, InCache;
    var s1, s' := s.(bufs := s.bufs[b := NewBuf(p, n)]), LoadOne(s, p, n, k, b, t);
    GrowOne(sz, s, a, b, NewBuf(p, n), s1);
    StillMissing(s.bufs, b, NewBuf(p, n), k);
    var x := Claimed(NewBuf(p, n), k);
    assert s'.bufs == s1.bufs[b := x];
    ClaimRefs(s1, t, k, b, x, s');
    ClaimBufs(sz, s1, k, b, x, s');
    ClaimShows(sz, s1, a, k, b, x, s');
  }

  lemma StillMissing(bufs: map<nat, Buf>, b: nat, x: Buf, k: Key)
    requires !InCache(bufs, k) && x.key != k
    ensures !InCache(bufs[b := x], k)
  {
    var bufs' := bufs[b := x];
    forall c: nat
      ensures !IsFor(bufs', c, k)
    {
      assert !IsFor(bufs, c, k);
    }
  }

  /** What try_to_load_aligned adds: one buffer and one reference for each block, in order. */
  lemma {:induction false} LoadAdds(s: State, p: nat, n: nat, dev: nat, blocks: seq<nat>, ids: seq<nat>, toks: seq<nat>)
    requires |blocks| == |ids| == |toks| && Fresh(ids, s.bufs.Keys)
    ensures var s' := LoadAll(s, p, n, dev, blocks, ids, toks);
            && (forall b :: b in s'.bufs <==> b in s.bufs || b in ids)
            && (forall b :: b in s.bufs ==> s'.bufs[b] == s.bufs[b])
            && (forall i :: 0 <= i < |ids| ==> s'.bufs[ids[i]].key == Key(dev, blocks[i]))
  {
    if blocks != [] {
      var i := |blocks| - 1;
      var r := LoadAll(s, p, n, dev, blocks[..i], ids[..i], toks[..i]);
      LoadAdds(s, p, n, dev, blocks[..i], ids[..i], toks[..i]);
      LastLoaded(s, r, dev, blocks, ids, i, Claimed(NewBuf(p, n), Key(dev, blocks[i])));
    }
  }

  lemma LastLoaded(s: State, r: State, dev: nat, blocks: seq<nat>, ids: seq<nat>, i: nat, x: Buf)
    requires |blocks| == |ids| == i + 1 && Fresh(ids, s.bufs.Keys) && x.key == Key(dev, blocks[i])
    requires forall b :: b in r.bufs <==> b in s.bufs || b in ids[..i]
    requires forall b :: b in s.bufs ==> r.bufs[b] == s.bufs[b]
    requires forall j :: 0 <= j < i ==> r.bufs[ids[..i][j]].key == Key(dev, blocks[..i][j])
    ensures var bufs := r.bufs[ids[i] := x];
            && (forall b :: b in bufs <==> b in s.bufs || b in ids)
            && (forall b :: b in s.bufs ==> bufs[b] == s.bufs[b])
            && (forall j :: 0 <= j < |ids| ==> bufs[ids[j]].key == Key(dev, blocks[j]))
  {
    assert ids == ids[..i] + [ids[i]];
    assert forall j :: 0 <= j < i ==> ids[..i][j] == ids[j] && blocks[..i][j] == blocks[j];
  }

  lemma {:induction false} LoadTokens(s: State, p: nat, n: nat, dev: nat, blocks: seq<nat>, ids: seq<nat>, toks: seq<nat>, t: nat)
    requires |blocks| == |ids| == |toks|
    ensures t in LoadAll(s, p, n, dev, blocks, ids, toks).refs <==> t in s.refs || t in toks
    decreases |blocks|
  {
    if blocks != [] {
      var i := |blocks| - 1;
      LoadTokens(s, p, n, dev, blocks[..i], ids[..i], toks[..i], t);
      assert toks == toks[..i] + [toks[i]];
    }
  }

  lemma LoadMissing(s: State, p: nat, n: nat, dev: nat, blocks: seq<nat>, ids: seq<nat>, toks: seq<nat>, x: nat)
    requires |blocks| == |ids| == |toks| && Fresh(ids, s.bufs.Keys) && !InCache(s.bufs, Key(dev, x)) && x !in blocks
    ensures !InCache(LoadAll(s, p, n, dev, blocks, ids, toks).bufs, Key(dev, x))
  {
    var s' := LoadAll(s, p, n, dev, blocks, ids, toks);
    LoadAdds(s, p, n, dev, blocks, ids, toks);
    forall c
      ensures !IsFor(s'.bufs, c, Key(dev, x))
    {
      assert !IsFor(s.bufs, c, Key(dev, x));
    }
  }

  lemma {:induction false} LoadStep(sz: Sizes, s: State, a: map<Key, nat>, p: nat, n: nat, dev: nat, blocks: seq<nat>, ids: seq<nat>, toks: seq<nat>)
    requires Kept(sz, s, a) && dev != 0 && n == sz(dev) && |blocks| == |ids| == |toks|
    requires Fresh(ids, s.bufs.Keys) && Fresh(toks, s.refs.Keys) && Distinct(blocks)
    requires forall i :: 0 <= i < |blocks| ==> !InCache(s.bufs, Key(dev, blocks[i]))
    ensures Kept(sz, LoadAll(s, p, n, dev, blocks, ids, toks), a)
  {
    if blocks != [] {
      hide Kept, InCache, LoadOne;
      var i := |blocks| - 1;
      LoadStep(sz, s, a, p, n, dev, blocks[..i], ids[..i], toks[..i]);
      LoadAdds(s, p, n, dev, blocks[..i], ids[..i], toks[..i]);
      LoadTokens(s, p, n, dev, blocks[..i], ids[..i], toks[..i], toks[i]);
      LoadMissing(s, p, n, dev, blocks[..i], ids[..i], toks[..i], blocks[i]);
      LoadOneStep(sz, LoadAll(s, p, n, dev, blocks[..i], ids[..i], toks[..i]), a, p, n, Key(dev, blocks[i]), ids[i], toks[i]);
    }
  }

  /** The check that no block is cached is made before any buffer is entered, so try_to_load_aligned
      keeps one buffer per block exactly when its block list has no repetition. */
  lemma LoadUniqueIff(sz: Sizes, s: State, a: map<Key, nat>, st: Step)
    requires Kept(sz, s, a) && st.Load? && Possible(sz, s, st)
    ensures Unique(Next(sz, s, st).bufs) <==> Distinct(st.blocks)
  {
    if Distinct(st.blocks) {
      LoadStep(sz, s, a, st.page, sz(st.dev), st.dev, st.blocks, st.ids, st.toks);
    } else {
      var i, j :| 0 <= i < j < |st.blocks| && st.blocks[i] == st.blocks[j];
      LoadAdds(s, st.page, sz(st.dev), st.dev, st.blocks, st.ids, st.toks);
      assert st.ids[i] in st.ids && st.ids[j] in st.ids;
    }
  }

  /** In the empty cache, a page of two blocks that are the same one gets two buffers for it. */
  lemma TwoBuffersWitness(disk: map<Key, nat>)
    ensures var sz, s, st := (dev: nat) => 2048, State(map[], map[], disk), Load(0, 1, [5, 5], [0, 1], [0, 1]);
            && Possible(sz, s, st)
            && IsFor(Next(sz, s, st).bufs, 0, Key(1, 5)) && IsFor(Next(sz, s, st).bufs, 1, Key(1, 5))
            && !Unique(Next(sz, s, st).bufs)
  {
    var sz, s, st := (dev: nat) => 2048, State(map[], map[], disk), Load(0, 1, [5, 5], [0, 1], [0, 1]);
    LoadAdds(s, 0, 2048, 1, [5, 5], [0, 1], [0, 1]);
    assert [0, 1][0] in [0, 1] && [0, 1][1] in [0, 1];
  }

  // ---------- every step, every run ----------

  lemma RefStep(sz: Sizes, s: State, a: map<Key, nat>, st: Step)
    requires Kept(sz, s, a) && Possible(sz, s, st)
    requires st.Find? || st.HashWake? || st.Pick? || st.PickWake? || st.Release? || st.SyncBegin? || st.SyncEnd?
    ensures Kept(sz, Next(sz, s, st), FlatNext(a, s, st))
  {
    hide Kept, Claim;
    match st
    case Find(t, k, b) => FindStep(sz, s, a, t, if s.bufs[b].lock == Unlocked then Held(b, k) else HashWait(b, k), Next(sz, s, st));
    case HashWake(t) =>
      if s.bufs[s.refs[t].buf].key == s.refs[t].key {
        WakeStep(sz, s, a, t, Next(sz, s, st));
      } else {
        DropStep(sz, s, a, t, Next(sz, s, st));
      }
    case Pick(t, k, b) =>
      if s.bufs[b].lock == Unlocked {
        ClaimStep(sz, s, a, t, k, b);
      } else {
        FindStep(sz, s, a, t, PickWait(b, k), Next(sz, s, st));
      }
    case PickWake(t) =>
      var b, k := s.refs[t].buf, s.refs[t].key;
      var s1 := s.(bufs := s.bufs[b := Drop(s.bufs[b])], refs := s.refs - {t});
      DropStep(sz, s, a, t, s1);
      ClaimStep(sz, s1, a, t, k, b);
    case Release(t) => DropStep(sz, s, a, t, Next(sz, s, st));
    case SyncBegin(t, b) => FindStep(sz, s, a, t, Syncing(b), Next(sz, s, st));
    case SyncEnd(t) => DropStep(sz, s, a, t, Next(sz, s, st));
  }

  lemma HolderKey(sz: Sizes, s: State, t: nat)
    requires Inv(sz, s) && HeldBy(s, t)
    ensures s.bufs[s.refs[t].buf].key == s.refs[t].key && s.refs[t].key.dev != 0
  {
  }

  lemma DataStep(sz: Sizes, s: State, a: map<Key, nat>, st: Step)
    requires Kept(sz, s, a) && Possible(sz, s, st)
    requires st.StartRead? || st.EndRead? || st.StartWrite? || st.EndWrite? || st.Store? || st.Fill?
    ensures Kept(sz, Next(sz, s, st), FlatNext(a, s, st))
  {
    hide Unique, Counted, RefsOk, LocalsOk, Shows;
    var b := match st
      case EndRead(b, _) => b
      case StartWrite(b) => b
      case EndWrite(b, _) => b
      case StartRead(t) => s.refs[t].buf
      case Store(t, _) => s.refs[t].buf
      case Fill(t, _) => s.refs[t].buf
      case _ => 0;
    var s', a' := Next(sz, s, st), FlatNext(a, s, st);
    Local(sz, s, a, b);
    if !st.EndRead? && !st.StartWrite? && !st.EndWrite? { HolderKey(sz, s, st.tok); }
    FlagStep(sz, s, a, b, s'.bufs[b], if st.EndWrite? then st.written else 0, a', s');
  }

  /** Every step keeps the invariant, and what the cache shows changes exactly as the block store. */
  lemma StepCorrect(sz: Sizes, s: State, a: map<Key, nat>, st: Step)
    requires Inv(sz, s) && Shows(s, a) && Possible(sz, s, st) && (st.Load? ==> Distinct(st.blocks))
    ensures Inv(sz, Next(sz, s, st)) && Shows(Next(sz, s, st), FlatNext(a, s, st))
  {
    hide Inv, Shows;
    assert Kept(sz, s, a);
    match st
    case Grow(p, n, ids) => GrowStep(sz, s, a, p, n, ids);
    case Shrink(p) => ShrinkStep(sz, s, a, p, Next(sz, s, st));
    case Load(p, dev, blocks, ids, toks) => LoadStep(sz, s, a, p, sz(dev), dev, blocks, ids, toks);
    case StartRead(_) => DataStep(sz, s, a, st);
    case EndRead(_, _) => DataStep(sz, s, a, st);
    case StartWrite(_) => DataStep(sz, s, a, st);
    case EndWrite(_, _) => DataStep(sz, s, a, st);
    case Store(_, _) => DataStep(sz, s, a, st);
    case Fill(_, _) => DataStep(sz, s, a, st);
    case _ => RefStep(sz, s, a, st);
  }

  ghost predicate Run(sz: Sizes, s: State, steps: seq<Step>)
    decreases |steps|
  {
    steps == [] || (Possible(sz, s, steps[0]) && (steps[0].Load? ==> Distinct(steps[0].blocks)) && Run(sz, Next(sz, s, steps[0]), steps[1..]))
  }

  ghost function RunState(sz: Sizes, s: State, steps: seq<Step>): State
    requires Run(sz, s, steps)
    decreases |steps|
  {
    if steps == [] then s else RunState(sz, Next(sz, s, steps[0]), steps[1..])
  }

  ghost function RunStore(sz: Sizes, a: map<Key, nat>, s: State, steps: seq<Step>): map<Key, nat>
    requires Run(sz, s, steps)
    decreases |steps|
  {
    if steps == [] then a else RunStore(sz, FlatNext(a, s, steps[0]), Next(sz, s, steps[0]), steps[1..])
  }

  /** From an empty cache, every run of steps leaves a cache that shows exactly the blocks as the stores
      into them left them, with at most one buffer for each block. */
  lemma RunRefines(sz: Sizes, disk: map<Key, nat>, steps: seq<Step>)
    requires Run(sz, State(map[], map[], disk), steps)
    ensures var s := RunState(sz, State(map[], map[], disk), steps);
            && Shows(s, RunStore(sz, disk, State(map[], map[], disk), steps))
            && Unique(s.bufs) && Counted(s) && RefsOk(s)
  {
    RunFrom(sz, State(map[], map[], disk), disk, steps);
  }

  lemma {:induction false} RunFrom(sz: Sizes, s: State, a: map<Key, nat>, steps: seq<Step>)
    requires Run(sz, s, steps) && Inv(sz, s) && Shows(s, a)
    ensures Inv(sz, RunState(sz, s, steps)) && Shows(RunState(sz, s, steps), RunStore(sz, a, s, steps))
    decreases |steps|
  {
    hide Inv, Shows, Possible, Next, FlatNext;
    if steps != [] {
      StepCorrect(sz, s, a, steps[0]);
      RunFrom(sz, Next(sz, s, steps[0]), FlatNext(a, s, steps[0]), steps[1..]);
    }
  }

  /** A caller that has an up-to-date buffer sees the block's current contents. */
  lemma HolderSees(sz: Sizes, s: State, a: map<Key, nat>, t: nat)
    requires Inv(sz, s) && Shows(s, a) && HeldBy(s, t) && s.bufs[s.refs[t].buf].uptodate
    ensures s.bufs[s.refs[t].buf].key == s.refs[t].key && s.bufs[s.refs[t].buf].data == At(a, s.refs[t].key)
  {
  }

  /** A buffer that is in use, dirty or locked is never freed and never given to another block. A task
      in getblk that merely waits for a victim does not keep it. */
  ghost predicate InUse(s: State, b: nat) {
    && b in s.bufs
    && (s.bufs[b].dirty || s.bufs[b].lock != Unlocked || exists t :: t in s.refs && s.refs[t].buf == b && !s.refs[t].PickWait?)
  }

  lemma ReferencedCounts(sz: Sizes, s: State, t: nat)
    requires Inv(sz, s) && t in s.refs
    ensures s.bufs[s.refs[t].buf].count > 0
  {
    assert t in RefsTo(s.refs, s.refs[t].buf);
  }

  lemma OthersCount(sz: Sizes, s: State, t: nat, u: nat)
    requires Inv(sz, s) && t in s.refs && u in s.refs && t != u && s.refs[t].buf == s.refs[u].buf
    ensures s.bufs[s.refs[t].buf].count > 1
  {
    var b := s.refs[t].buf;
    assert {t, u} <= RefsTo(s.refs, b);
    SubsetSize({t, u}, RefsTo(s.refs, b));
  }

  lemma {:induction false} SubsetSize(x: set<nat>, y: set<nat>)
    requires x <= y
    ensures |x| <= |y|
  {
    if x != {} {
      var e :| e in x;
      SubsetSize(x - {e}, y - {e});
    }
  }

  lemma UsedIsKept(sz: Sizes, s: State, st: Step, b: nat)
    requires Inv(sz, s) && Possible(sz, s, st) && InUse(s, b)
    ensures b in Next(sz, s, st).bufs && Next(sz, s, st).bufs[b].key == s.bufs[b].key
  {
    hide Unique, Counted, LocalsOk, RefsOk;
    match st
    case Pick(t, k, c) => if b == c { UsedNotIdle(sz, s, b); }
    case Shrink(p) => if s.bufs[b].page == p { UsedNotIdle(sz, s, b); }
    case PickWake(t) => if s.refs[t].buf == b { UsedNotWaiting(sz, s, t); }
    case Load(p, dev, blocks, ids, toks) => LoadAdds(s, p, sz(dev), dev, blocks, ids, toks);
    case Grow(p, n, ids) => GrowKeeps(s.bufs, p, n, ids, b);
    case _ =>
  }

  lemma UsedNotIdle(sz: Sizes, s: State, b: nat)
    requires Inv(sz, s) && InUse(s, b)
    ensures !Idle(s.bufs[b])
  {
    if exists t :: t in s.refs && s.refs[t].buf == b {
      var t :| t in s.refs && s.refs[t].buf == b;
      ReferencedCounts(sz, s, t);
    }
  }

  lemma UsedNotWaiting(sz: Sizes, s: State, t: nat)
    requires Inv(sz, s) && t in s.refs && s.refs[t].PickWait? && InUse(s, s.refs[t].buf)
    requires s.bufs[s.refs[t].buf].lock == Unlocked
    ensures s.bufs[s.refs[t].buf].dirty || s.bufs[s.refs[t].buf].count > 1
  {
    if !s.bufs[s.refs[t].buf].dirty {
      var u :| u in s.refs && s.refs[u].buf == s.refs[t].buf && !s.refs[u].PickWait?;
      OthersCount(sz, s, t, u);
    }
  }

  lemma {:induction false} GrowKeeps(bufs: map<nat, Buf>, p: nat, n: nat, ids: seq<nat>, b: nat)
    requires b in bufs && Fresh(ids, bufs.Keys)
    ensures b in GrowAll(bufs, p, n, ids) && GrowAll(bufs, p, n, ids)[b] == bufs[b]
  {
    if ids != [] { GrowKeeps(bufs, p, n, ids[..|ids| - 1], b); }
  }

  /** The test after waiting in get_hash_table never fails: the reference kept the block in place. */
  lemma RecheckHolds(sz: Sizes, s: State, t: nat)
    requires Inv(sz, s) && Possible(sz, s, HashWake(t))
    ensures Next(sz, s, HashWake(t)) == s.(refs := s.refs[t := Held(s.refs[t].buf, s.refs[t].key)])
  {
  }

  // ---------- what each step gives to the task that takes it ----------

  /** The token is the only reference to buffer b, which is entered for block k, clean, unlocked and without data. */
  predicate Blank(s: State, t: nat, k: Key, b: nat) {
    && t in s.refs && s.refs[t] == Held(b, k) && IsFor(s.bufs, b, k)
    && s.bufs[b].count == 1 && !s.bufs[b].uptodate && !s.bufs[b].dirty && s.bufs[b].lock == Unlocked
  }

  /** Only the counts, and the references of one token, differ. */
  ghost predicate OnlyToken(s: State, s': State, t: nat) {
    && s'.disk == s.disk && s'.bufs.Keys == s.bufs.Keys
    && (forall b :: b in s.bufs ==> s'.bufs[b] == s.bufs[b].(count := s'.bufs[b].count))
    && (forall u :: u != t ==> (u in s'.refs <==> u in s.refs))
    && (forall u :: u != t && u in s.refs ==> s'.refs[u] == s.refs[u])
  }

  /** A block that is cached: its buffer is the caller's at once, or after waiting for it to be unlocked. */
  lemma FindGives(sz: Sizes, s: State, t: nat, k: Key, b: nat)
    requires Possible(sz, s, Find(t, k, b))
    ensures var s' := Next(sz, s, Find(t, k, b));
            && OnlyToken(s, s', t) && s'.bufs[b].count == s.bufs[b].count + 1
            && (if s.bufs[b].lock == Unlocked then HeldBy(s', t) && s'.refs[t] == Held(b, k)
                else t in s'.refs && s'.refs[t] == HashWait(b, k))
  {
  }

  /** A block that is not cached: a clean, unlocked victim of the right size is given to it at once;
      getblk waits for a locked one, and starts again without a reference otherwise. */
  lemma PickGives(sz: Sizes, s: State, t: nat, k: Key, b: nat)
    requires Possible(sz, s, Pick(t, k, b))
    ensures var s' := Next(sz, s, Pick(t, k, b));
            && (s.bufs[b].lock != Unlocked ==>
                  OnlyToken(s, s', t) && t in s'.refs && s'.refs[t] == PickWait(b, k) && s'.bufs[b].count == 1)
            && (s.bufs[b].lock == Unlocked && !s.bufs[b].dirty && !InCache(s.bufs, k) ==> Blank(s', t, k, b))
            && (s.bufs[b].lock == Unlocked && (s.bufs[b].dirty || InCache(s.bufs, k)) ==> s' == s)
  {
  }

  lemma DropCached(bufs: map<nat, Buf>, b: nat, k: Key)
    requires b in bufs
    ensures InCache(bufs[b := Drop(bufs[b])], k) <==> InCache(bufs, k)
  {
    var bufs' := bufs[b := Drop(bufs[b])];
    forall c: nat
      ensures IsFor(bufs', c, k) <==> IsFor(bufs, c, k)
    {
    }
  }

  /** The victim that getblk waited for is given to the block if and only if nobody else refers to it, it is clean and
      of the right size, and nobody has brought the block in; otherwise the reference is dropped and getblk starts again. */
  lemma WaitGives(sz: Sizes, s: State, t: nat)
    requires Inv(sz, s) && Possible(sz, s, PickWake(t))
    ensures var s', b, k := Next(sz, s, PickWake(t)), s.refs[t].buf, s.refs[t].key;
            if s.bufs[b].count == 1 && !s.bufs[b].dirty && s.bufs[b].size == sz(k.dev) && !InCache(s.bufs, k) then Blank(s', t, k, b)
            else OnlyToken(s, s', t) && t !in s'.refs && s'.bufs[b].count == s.bufs[b].count - 1
  {
    hide InCache, Inv;
    ReferencedCounts(sz, s, t);
    DropCached(s.bufs, s.refs[t].buf, s.refs[t].key);
  }

  /** brelse: the reference is gone and nothing else has changed. */
  lemma ReleaseGives(sz: Sizes, s: State, st: Step)
    requires Inv(sz, s) && Possible(sz, s, st) && (st.Release? || st.SyncEnd?)
    ensures var s', b := Next(sz, s, st), s.refs[st.tok].buf;
            OnlyToken(s, s', st.tok) && st.tok !in s'.refs && s'.bufs[b].count == s.bufs[b].count - 1
  {
    hide Inv, InCache;
    ReferencedCounts(sz, s, st.tok);
  }

  /** bread: a read that is started can end; if it succeeds every holder has the block's current contents, which
      are also those on disk, and if it fails the buffer is as it was. */
  lemma ReadGives(sz: Sizes, s: State, a: map<Key, nat>, t: nat)
    requires Kept(sz, s, a) && Possible(sz, s, StartRead(t))
    ensures var b := s.refs[t].buf;
            var r := Next(sz, s, StartRead(t));
            && r.bufs[b].lock == Reading
            && (forall ok :: Possible(sz, r, EndRead(b, ok)))
            && Next(sz, r, EndRead(b, false)) == s
            && var e := Next(sz, r, EndRead(b, true));
               && HeldBy(e, t) && e.refs == s.refs && e.bufs[b].uptodate && e.bufs[b].lock == Unlocked
               && e.bufs[b].data == At(a, s.refs[t].key) == At(e.disk, s.refs[t].key)
  {
    Local(sz, s, a, s.refs[t].buf);
    HolderKey(sz, s, t);
    var b := s.refs[t].buf;
    var r := Next(sz, s, StartRead(t));
    assert r.bufs[b := s.bufs[b]] == s.bufs;
  }

  /** Whatever happened while a buffer was being read, an end without error makes it show the block. */
  lemma ReadEnds(sz: Sizes, s: State, a: map<Key, nat>, b: nat)
    requires Kept(sz, s, a) && Possible(sz, s, EndRead(b, true))
    ensures var x := Next(sz, s, EndRead(b, true)).bufs[b];
            x.uptodate && x.lock == Unlocked && x.data == At(a, x.key) && x.key == s.bufs[b].key && x.count == s.bufs[b].count
  {
    Local(sz, s, a, b);
  }

  /** A store marks the buffer dirty; a write can then be started, and once started it can end. */
  lemma WriteStarts(sz: Sizes, s: State, a: map<Key, nat>, b: nat)
    requires Kept(sz, s, a) && Possible(sz, s, StartWrite(b))
    ensures var s' := Next(sz, s, StartWrite(b));
            && !s'.bufs[b].dirty && s'.bufs[b].lock != Unlocked && s'.bufs[b].data == s.bufs[b].data
            && Possible(sz, s', EndWrite(b, s.bufs[b].data))
  {
  }

  lemma StoreMarks(sz: Sizes, s: State, st: Step)
    requires Possible(sz, s, st) && (st.Store? || st.Fill?)
    ensures var s', b := Next(sz, s, st), s.refs[st.tok].buf;
            && s'.bufs[b].dirty && s'.bufs[b].uptodate && s'.bufs[b].data == st.data
            && (s.bufs[b].lock == Unlocked ==> Possible(sz, s', StartWrite(b)))
  {
  }

  /** The end of a write leaves the buffer unlocked, and if nothing was stored into it meanwhile, clean and
      with the block's current contents on disk. */
  lemma WriteEnds(sz: Sizes, s: State, a: map<Key, nat>, b: nat, v: nat)
    requires Kept(sz, s, a) && Possible(sz, s, EndWrite(b, v))
    ensures var s' := Next(sz, s, EndWrite(b, v));
            && s'.bufs[b] == s.bufs[b].(lock := Unlocked)
            && (!s.bufs[b].dirty ==> At(s'.disk, s.bufs[b].key) == At(a, s.bufs[b].key))
            && (forall k :: k != s.bufs[b].key ==> At(s'.disk, k) == At(s.disk, k))
  {
    Local(sz, s, a, b);
  }

  /** grow_buffers: every new buffer can be taken for any block of its size; the others are as they were. */
  lemma {:induction false} GrowGives(sz: Sizes, s: State, p: nat, n: nat, ids: seq<nat>)
    requires Fresh(ids, s.bufs.Keys)
    ensures var bufs := GrowAll(s.bufs, p, n, ids);
            && (forall b :: b in ids ==> b in bufs && Idle(bufs[b]) && bufs[b].size == n && bufs[b].page == p && bufs[b].key.dev == 0)
            && (forall b :: b in s.bufs ==> b in bufs && bufs[b] == s.bufs[b])
            && (forall b :: b in bufs ==> b in ids || b in s.bufs)
  {
    if ids != [] {
      var i := |ids| - 1;
      GrowGives(sz, s, p, n, ids[..i]);
      assert ids == ids[..i] + [ids[i]];
    }
  }

  /** try_to_free: exactly the page's buffers are gone. */
  lemma ShrinkTakes(sz: Sizes, s: State, p: nat, b: nat)
    requires Possible(sz, s, Shrink(p))
    ensures var s' := Next(sz, s, Shrink(p));
            && s'.refs == s.refs && s'.disk == s.disk
            && (b in s'.bufs <==> b in s.bufs && s.bufs[b].page != p)
            && (b in s'.bufs ==> s'.bufs[b] == s.bufs[b])
  {
  }

  /** try_to_load_aligned: each token is the only reference to a blank buffer for its block. */
  lemma LoadGives(sz: Sizes, s: State, p: nat, n: nat, dev: nat, blocks: seq<nat>, ids: seq<nat>, toks: seq<nat>, i: nat)
    requires |blocks| == |ids| == |toks| && Fresh(ids, s.bufs.Keys) && Fresh(toks, s.refs.Keys) && i < |blocks|
    ensures Blank(LoadAll(s, p, n, dev, blocks, ids, toks), toks[i], Key(dev, blocks[i]), ids[i])
    decreases |blocks|
  {
    var j := |blocks| - 1;
    if i < j {
      LoadGives(sz, s, p, n, dev, blocks[..j], ids[..j], toks[..j], i);
    }
  }

  // ---------- nobody is stuck ----------

  /** A locked buffer's transfer can end, and then the buffer is unlocked. */
  lemma Unlocks(sz: Sizes, s: State, b: nat)
    requires b in s.bufs && s.bufs[b].lock != Unlocked
    ensures var st := if s.bufs[b].lock == Reading then EndRead(b, true) else EndWrite(b, s.bufs[b].data);
            Possible(sz, s, st) && Next(sz, s, st).bufs[b].lock == Unlocked && Next(sz, s, st).refs == s.refs
  {
  }

  /** Whoever has a reference can go on, or waits for a lock that will be released: a waiter can wake, a holder can release the
      buffer or fill it, and read it in or store into it as its data are missing or there; a sync can end. */
  lemma Wakes(sz: Sizes, s: State, t: nat, v: nat)
    requires Inv(sz, s) && t in s.refs
    ensures s.refs[t].buf in s.bufs
    ensures var x := s.bufs[s.refs[t].buf];
            match s.refs[t]
            case HashWait(_, _) => x.lock != Unlocked || Possible(sz, s, HashWake(t))
            case PickWait(_, _) => x.lock != Unlocked || Possible(sz, s, PickWake(t))
            case Syncing(b) => Possible(sz, s, SyncEnd(t)) && (x.dirty && x.lock == Unlocked ==> Possible(sz, s, StartWrite(b)))
            case Held(_, _) =>
              && (x.lock == Unlocked ==> Possible(sz, s, Release(t)) && Possible(sz, s, Fill(t, v)))
              && (if x.uptodate then Possible(sz, s, Store(t, v)) else x.lock == Unlocked ==> Possible(sz, s, StartRead(t)))
  {
    hide Unique, Counted, LocalsOk;
  }

  /** getblk can always begin: a cached block is found, and for any other a victim can be picked among the unused buffers of its size. */
  lemma GetblkBegins(sz: Sizes, s: State, t: nat, k: Key, b: nat)
    requires t !in s.refs && k.dev != 0 && b in s.bufs
    ensures s.bufs[b].key == k ==> Possible(sz, s, Find(t, k, b))
    ensures s.bufs[b].count == 0 && s.bufs[b].size == sz(k.dev) ==> Possible(sz, s, Pick(t, k, b))
    ensures Possible(sz, s, SyncBegin(t, b))
  {
  }
}
