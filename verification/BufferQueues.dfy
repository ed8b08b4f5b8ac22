/** The hash chains and the free list of linux/fs/buffer.c, and the parts of getblk, brelse and
    try_to_free that run without sleeping. */
module BufferQueues {
  import opened BufferCache
  import opened HashChains

  const NR_HASH: nat := 997

  function HashOf(k: Key): (h: nat)
    ensures h < NR_HASH
  {
    ((k.dev % 0x1_0000_0000) as bv32 ^ (k.block % 0x1_0000_0000) as bv32) as nat % NR_HASH
  }

  /** The hash value of every buffer that has a device. */
  function Hashes(bufs: map<nat, Buf>): map<nat, nat> {
    map b | b in bufs && bufs[b].key.dev != 0 :: HashOf(bufs[b].key)
  }

  ghost predicate Queued(bufs: map<nat, Buf>, chains: seq<seq<nat>>, ring: seq<nat>) {
    |chains| == NR_HASH && ChainsOk(Hashes(bufs), chains) && RingOk(bufs, ring)
  }

  function Badness(x: Buf): nat { (if x.dirty then 2 else 0) + if x.lock == Unlocked then 0 else 1 }

  /** What getblk may reuse: unused, of the right size, and not shared with a process's page. */
  predicate Candidate(bufs: map<nat, Buf>, shared: set<nat>, size: nat, b: nat) {
    b in bufs && bufs[b].count == 0 && bufs[b].size == size && bufs[b].page !in shared
  }

  lemma HashesRemove(bufs: map<nat, Buf>, b: nat)
    ensures Hashes(bufs - {b}) == Hashes(bufs) - {b}
  {
  }

  lemma HashesAdd(bufs: map<nat, Buf>, b: nat, x: Buf)
    requires b !in bufs
    ensures Hashes(bufs[b := x]) == if x.key.dev == 0 then Hashes(bufs) else Hashes(bufs)[b := HashOf(x.key)]
  {
  }

  class Cache {
    var bufs: map<nat, Buf>
    var chains: seq<seq<nat>>
    var ring: seq<nat>          // the free list, from free_list on
    ghost var refs: map<nat, Ref>
    ghost var disk: map<Key, nat>

    ghost predicate Valid()
      reads this
    {
      Queued(bufs, chains, ring)
    }

    ghost function AsState(): State
      reads this
    {
      State(bufs, refs, disk)
    }

    /** buffer_init: no buffers yet. */
    constructor (d: map<Key, nat>)
      ensures Valid() && AsState() == State(map[], map[], d)
    {
      bufs, ring, chains := map[], [], seq(NR_HASH, i => []);
      refs, disk := map[], d;
      new;
      assert Hashes(bufs) == map[];
    }

    /** Walks one hash chain, and finds the block's buffer exactly when the cache has one. */
    method FindBuffer(k: Key) returns (found: bool, b: nat)
      requires Valid() && k.dev != 0
      ensures found ==> IsFor(bufs, b, k)
      ensures !found ==> !InCache(bufs, k)
    {
      hide HashOf;
      var chain := chains[HashOf(k)];
      assert ChainOk(Hashes(bufs), chain, HashOf(k));
      var i := 0;
      while i < |chain|
        invariant 0 <= i <= |chain|
        invariant forall j :: 0 <= j < i ==> !IsFor(bufs, chain[j], k)
      {
        assert chain[i] in chain;
        if bufs[chain[i]].key == k {
          return true, chain[i];
        }
        i := i + 1;
      }
      NotCached(bufs, chain, k);
      return false, 0;
    }

    /** Moves a buffer to the end of the free list. */
    method PutLastFree(b: nat)
      requires Valid() && b in bufs
      modifies this`ring
      ensures Valid() && ring == Without(old(ring), b) + [b]
    {
      WithoutKeeps(ring, b);
      if ring[0] == b {
        RotateIsMove(ring, b);
        ring := ring[1..] + [b];
      } else {
        ring := Without(ring, b) + [b];
      }
    }

    method RemoveFromQueues(b: nat)
      requires Valid() && b in bufs && |ring| >= 2
      modifies this`bufs, this`chains, this`ring
      ensures Valid() && bufs == old(bufs) - {b} && ring == Without(old(ring), b)
    {
      hide HashOf;
      WithoutKeeps(ring, b);
      HashesRemove(bufs, b);
      if bufs[b].key.dev != 0 {
        ChainRemove(Hashes(bufs), chains, b);
        var h := HashOf(bufs[b].key);
        chains := chains[h := Without(chains[h], b)];
      } else {
        assert Hashes(bufs) - {b} == Hashes(bufs);
      }
      ring := Without(ring, b);
      bufs := bufs - {b};
    }

    method InsertIntoQueues(b: nat, x: Buf)
      requires Valid() && b !in bufs
      modifies this`bufs, this`chains, this`ring
      ensures Valid() && bufs == old(bufs)[b := x] && ring == old(ring) + [b]
    {
      hide HashOf;
      HashesAdd(bufs, b, x);
      if x.key.dev != 0 {
        ChainAdd(Hashes(bufs), chains, b, HashOf(x.key));
        var h := HashOf(x.key);
        chains := chains[h := [b] + chains[h]];
      }
      ring := ring + [b];
      bufs := bufs[b := x];
    }

    /** Buffer b is at place i of the free list, and every candidate before it is worse. */
    ghost predicate FirstBest(ring: seq<nat>, shared: set<nat>, size: nat, b: nat, i: nat)
      requires b in bufs
      reads this
    {
      i < |ring| && ring[i] == b && forall j :: 0 <= j < i && Candidate(bufs, shared, size, ring[j]) ==> Badness(bufs[b]) < Badness(bufs[ring[j]])
    }

    /** The scan of getblk: the least bad candidate, and the first of those on the free list. */
    method SelectVictim(shared: set<nat>, size: nat) returns (found: bool, b: nat)
      requires Valid()
      ensures found ==> Candidate(bufs, shared, size, b)
      ensures found ==> forall c :: Candidate(bufs, shared, size, c) ==> Badness(bufs[b]) <= Badness(bufs[c])
      ensures found && bufs[b].dirty ==> forall c :: Candidate(bufs, shared, size, c) ==> bufs[c].dirty
      ensures found && bufs[b].lock != Unlocked ==> forall c :: Candidate(bufs, shared, size, c) ==> bufs[c].dirty || bufs[c].lock != Unlocked
      ensures found ==> exists i :: FirstBest(ring, shared, size, b, i)
      ensures !found ==> forall c :: !Candidate(bufs, shared, size, c)
    {
      found, b := false, 0;
      var i := 0;
      ghost var at: nat := 0;
      while i < |ring|
        invariant 0 <= i <= |ring|
        invariant found ==> Candidate(bufs, shared, size, b) && at < i && FirstBest(ring, shared, size, b, at)
        invariant forall j :: 0 <= j < i && Candidate(bufs, shared, size, ring[j]) ==> found && Badness(bufs[b]) <= Badness(bufs[ring[j]])
      {
        var c := ring[i];
        if Candidate(bufs, shared, size, c) && (!found || Badness(bufs[c]) < Badness(bufs[b])) {
          found, b, at := true, c, i;
          assert FirstBest(ring, shared, size, b, i);
          if Badness(bufs[c]) == 0 {
            return;
          }
        }
        i := i + 1;
      }
      forall c | Candidate(bufs, shared, size, c)
        ensures found && Badness(bufs[b]) <= Badness(bufs[c])
      {
        assert c in ring;
      }
    }

    /** The end of getblk: the buffer leaves its old block and is entered for the new one. */
    method Take(sz: Sizes, ghost tok: nat, k: Key, b: nat)
      requires Valid() && b in bufs && |ring| >= 2 && Possible(sz, AsState(), Pick(tok, k, b))
      requires bufs[b].lock == Unlocked && !bufs[b].dirty && !InCache(bufs, k)
      modifies this
      ensures Valid() && AsState() == Next(sz, old(AsState()), Pick(tok, k, b))
      ensures Blank(AsState(), tok, k, b)
      ensures ring == Without(old(ring), b) + [b]
    {
      hide Queued;
      var x := Claimed(bufs[b], k);
      RemoveFromQueues(b);
      InsertIntoQueues(b, x);
      refs := refs[tok := Held(b, k)];
      assert bufs == old(bufs)[b := x];
    }

    /** brelse of a buffer that is not locked. */
    method Brelse(sz: Sizes, ghost tok: nat, b: nat)
      requires Valid() && Possible(sz, AsState(), Release(tok)) && refs[tok].buf == b
      modifies this`bufs, this`refs
      ensures Valid() && AsState() == Next(sz, old(AsState()), Release(tok))
      ensures tok !in refs && (old(bufs[b].count) > 0 ==> bufs[b] == old(bufs[b]).(count := old(bufs[b].count) - 1))
    {
      SetBuf(b, Drop(bufs[b]));
      refs := refs - {tok};
    }

    method SetBuf(b: nat, x: Buf)
      requires Valid() && b in bufs && x.key == bufs[b].key
      modifies this`bufs
      ensures Valid() && bufs == old(bufs)[b := x]
    {
      SameKeys(bufs, chains, ring, b, x);
      bufs := bufs[b := x];
    }

    /** getblk up to the first point where it sleeps or starts again. */
    method Getblk(sz: Sizes, ghost tok: nat, k: Key, shared: set<nat>) returns (o: Outcome)
      requires Valid() && |ring| >= 2 && tok !in refs && k.dev != 0
      modifies this
      ensures Valid()
      ensures InCache(old(bufs), k) <==> o.Found? || o.WaitFound?
      ensures o.Found? ==> HeldBy(AsState(), tok) && refs[tok] == Held(o.buf, k) && IsFor(bufs, o.buf, k) && bufs[o.buf].lock == Unlocked
      ensures o.Taken? ==> Blank(AsState(), tok, k, o.buf)
      ensures o.Taken? <==> !InCache(old(bufs), k) && (exists c :: Candidate(old(bufs), shared, sz(k.dev), c) && Badness(old(bufs)[c]) == 0)
      ensures o.Found? || o.WaitFound? ==>
                Possible(sz, old(AsState()), Find(tok, k, o.buf)) && AsState() == Next(sz, old(AsState()), Find(tok, k, o.buf))
      ensures o.Taken? || o.WaitVictim? || o.Dirty? ==>
                Possible(sz, old(AsState()), Pick(tok, k, o.buf)) && AsState() == Next(sz, old(AsState()), Pick(tok, k, o.buf))
      ensures o.Taken? || o.WaitVictim? || o.Dirty? ==>
                forall c :: Candidate(old(bufs), shared, sz(k.dev), c) ==> Badness(old(bufs)[o.buf]) <= Badness(old(bufs)[c])
      ensures o.NoVictim? <==> !InCache(old(bufs), k) && forall c :: !Candidate(old(bufs), shared, sz(k.dev), c)
      ensures o.NoVictim? ==> AsState() == old(AsState())
      ensures o.Dirty? ==> old(bufs)[o.buf].dirty && AsState() == old(AsState())
    {
      hide Queued;
      var found, b := FindBuffer(k);
      if found {
        var locked := bufs[b].lock != Unlocked;
        if !locked && bufs[b].uptodate && !bufs[b].dirty {
          PutLastFree(b);
        }
        SetBuf(b, Retain(bufs[b]));
        refs := refs[tok := if locked then HashWait(b, k) else Held(b, k)];
        return if locked then WaitFound(b) else Found(b);
      }
      found, b := SelectVictim(shared, sz(k.dev));
      if !found {
        return NoVictim;
      }
      if bufs[b].lock != Unlocked {
        SetBuf(b, Retain(bufs[b]));
        refs := refs[tok := PickWait(b, k)];
        return WaitVictim(b);
      }
      if bufs[b].dirty {
        return Dirty(b);
      }
      Take(sz, tok, k, b);
      return Taken(b);
    }

    /** Frees a page whose buffers, linked by b_this_page, are all idle. */
    method TryToFree(sz: Sizes, p: nat, thisPage: seq<nat>) returns (ok: bool)
      requires Valid() && NoRepeat(thisPage) && |ring| >= |thisPage| + 1
      requires forall b :: b in thisPage <==> b in bufs && bufs[b].page == p
      modifies this`bufs, this`chains, this`ring
      ensures Valid()
      ensures ok <==> Possible(sz, old(AsState()), Shrink(p))
      ensures AsState() == if ok then Next(sz, old(AsState()), Shrink(p)) else old(AsState())
    {
      ok := AllIdle(thisPage);
      if ok {
        RemoveAll(thisPage);
        assert bufs == map b | b in old(bufs) && old(bufs)[b].page != p :: old(bufs)[b];
      }
    }

    method AllIdle(thisPage: seq<nat>) returns (ok: bool)
      requires forall b :: b in thisPage ==> b in bufs
      ensures ok <==> forall b :: b in thisPage ==> Idle(bufs[b])
    {
      var i := 0;
      while i < |thisPage|
        invariant 0 <= i <= |thisPage| && forall j :: 0 <= j < i ==> Idle(bufs[thisPage[j]])
      {
        if !Idle(bufs[thisPage[i]]) {
          return false;
        }
        i := i + 1;
      }
      return true;
    }

    method RemoveAll(thisPage: seq<nat>)
      requires Valid() && NoRepeat(thisPage) && |ring| >= |thisPage| + 1
      requires forall b :: b in thisPage ==> b in bufs
      modifies this`bufs, this`chains, this`ring
      ensures Valid()
      ensures forall b :: b in bufs <==> b in old(bufs) && b !in thisPage
      ensures forall b :: b in bufs ==> bufs[b] == old(bufs)[b]
    {
      hide Queued;
      var i := 0;
      while i < |thisPage|
        invariant 0 <= i <= |thisPage| && Valid()
        invariant |ring| + i >= |thisPage| + 1
        invariant forall b :: b in bufs <==> b in old(bufs) && b !in thisPage[..i]
        invariant forall b :: b in bufs ==> bufs[b] == old(bufs)[b]
      {
        assert thisPage[i] in thisPage && thisPage[i] !in thisPage[..i];
        assert thisPage[..i + 1] == thisPage[..i] + [thisPage[i]];
        RingRepeats(bufs, chains, ring);
        WithoutLength(ring, thisPage[i]);
        RemoveFromQueues(thisPage[i]);
        i := i + 1;
      }
      assert thisPage[..i] == thisPage;
    }
  }

  lemma RingRepeats(bufs: map<nat, Buf>, chains: seq<seq<nat>>, ring: seq<nat>)
    requires Queued(bufs, chains, ring)
    ensures NoRepeat(ring)
  {
  }

  lemma NotCached(bufs: map<nat, Buf>, chain: seq<nat>, k: Key)
    requires k.dev != 0 && ChainOk(Hashes(bufs), chain, HashOf(k))
    requires forall j :: 0 <= j < |chain| ==> !IsFor(bufs, chain[j], k)
    ensures !InCache(bufs, k)
  {
    hide HashOf;
    forall c: nat
      ensures !IsFor(bufs, c, k)
    {
      assert c in chain <==> c in Hashes(bufs) && Hashes(bufs)[c] == HashOf(k);
    }
  }

  /** How far one call of getblk gets. */
  datatype Outcome =
    | Found(buf: nat)
    | WaitFound(buf: nat)
    | Taken(buf: nat)
    | WaitVictim(buf: nat)
    | Dirty(buf: nat)
    | NoVictim

  lemma SameKeys(bufs: map<nat, Buf>, chains: seq<seq<nat>>, ring: seq<nat>, b: nat, x: Buf)
    requires Queued(bufs, chains, ring) && b in bufs && x.key == bufs[b].key
    ensures Queued(bufs[b := x], chains, ring)
  {
    hide HashOf;
    assert Hashes(bufs[b := x]) == Hashes(bufs);
  }
}
