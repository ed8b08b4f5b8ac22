/** The hash table and the inode list of linux/fs/inode.c, and the parts of iget, get_empty_inode and
    iput that run without sleeping. */
module InodeTable {
  import opened InodeCache
  import opened HashChains

  const NR_IHASH: nat := 131
  const NR_INODE: nat := 2048

  function HashOf(k: Key): (h: nat)
    ensures h < NR_IHASH
  {
    ((k.dev % 0x1_0000_0000) as bv32 ^ (k.ino % 0x1_0000_0000) as bv32) as nat % NR_IHASH
  }

  function Hashes(nodes: map<nat, Node>): map<nat, nat> {
    map i | i in nodes && nodes[i].key.dev != 0 :: HashOf(nodes[i].key)
  }

  ghost predicate Queued(nodes: map<nat, Node>, chains: seq<seq<nat>>, ring: seq<nat>) {
    |chains| == NR_IHASH && ChainsOk(Hashes(nodes), chains) && RingOk(nodes, ring)
  }

  /** How far one call of get_empty_inode gets. */
  datatype Empty = Taken(node: nat) | GrowFirst | WaitLocked(node: nat) | WriteDirty(node: nat) | NoneFree

  class Table {
    var nodes: map<nat, Node>
    var chains: seq<seq<nat>>
    var ring: seq<nat>           // the inode list, from first_inode on
    var nrFree: int
    ghost var refs: map<nat, Ref>

    ghost predicate Valid()
      reads this
    {
      Queued(nodes, chains, ring)
    }

    ghost function AsState(): State
      reads this
    {
      State(nodes, refs, nrFree)
    }

    /** inode_init: no inodes yet. */
    constructor ()
      ensures Valid() && AsState() == State(map[], map[], 0)
    {
      nodes, ring, chains, nrFree := map[], [], seq(NR_IHASH, i => []), 0;
      refs := map[];
      new;
      assert Hashes(nodes) == map[];
    }

    /** The search of iget: finds the inode exactly when it is in core. */
    method Find(k: Key) returns (found: bool, i: nat)
      requires Valid() && k.dev != 0
      ensures found ==> IsFor(nodes, i, k)
      ensures !found ==> !InCore(nodes, k)
    {
      hide HashOf;
      var chain := chains[HashOf(k)];
      assert ChainOk(Hashes(nodes), chain, HashOf(k));
      var j := 0;
      while j < |chain|
        invariant 0 <= j <= |chain|
        invariant forall l :: 0 <= l < j ==> !IsFor(nodes, chain[l], k)
      {
        assert chain[j] in chain;
        if nodes[chain[j]].key == k {
          return true, chain[j];
        }
        j := j + 1;
      }
      NotInCore(nodes, chain, k);
      return false, 0;
    }

    /** The scan of get_empty_inode: the first reusable inode, or else the first unused one. */
    method SelectBest() returns (found: bool, best: nat)
      requires Valid()
      ensures found ==> best in nodes && nodes[best].count == 0
      ensures found && !Reusable(nodes[best]) ==> forall i :: i in nodes ==> !Reusable(nodes[i])
      ensures !found ==> forall i :: i in nodes ==> nodes[i].count > 0
    {
      hide HashOf;
      found, best := false, 0;
      var j := 0;
      while j < |ring|
        invariant 0 <= j <= |ring|
        invariant found ==> best in nodes && nodes[best].count == 0
        invariant forall l :: 0 <= l < j ==> ring[l] in nodes && !Reusable(nodes[ring[l]]) && (!found ==> nodes[ring[l]].count > 0)
      {
        assert ring[j] in ring;
        var i := ring[j];
        if nodes[i].count == 0 {
          if !found {
            found, best := true, i;
          }
          if !nodes[i].dirty && !nodes[i].locked {
            best := i;
            return;
          }
        }
        j := j + 1;
      }
    }

    /** clear_inode of an unlocked inode, and the node that takes its place. */
    method Replace(i: nat, n: Node)
      requires Valid() && i in nodes && |ring| >= 2
      modifies this`nodes, this`chains, this`ring
      ensures Valid() && nodes == old(nodes)[i := n] && ring == [i] + Without(old(ring), i)
    {
      hide HashOf;
      WithoutKeeps(ring, i);
      ReplaceHashes(nodes, i, n);
      if nodes[i].key.dev != 0 {
        ChainRemove(Hashes(nodes), chains, i);
        var h := HashOf(nodes[i].key);
        chains := chains[h := Without(chains[h], i)];
      }
      if n.key.dev != 0 {
        ChainAdd(Hashes(nodes) - {i}, chains, i, HashOf(n.key));
        var h := HashOf(n.key);
        chains := chains[h := [i] + chains[h]];
      }
      ring := [i] + Without(ring, i);
      nodes := nodes[i := n];
    }

    /** get_empty_inode up to the first point where it sleeps or starts again. */
    method GetEmptyInode(ghost tok: nat) returns (r: Empty)
      requires Valid() && |ring| >= 2 && tok !in refs
      modifies this
      ensures Valid()
      ensures r.Taken? ==> Possible(old(AsState()), TakeEmpty(tok, r.node)) && AsState() == Next(old(AsState()), TakeEmpty(tok, r.node))
      ensures r.Taken? ==> tok in refs && refs[tok] == Spare(r.node) && nodes[r.node].key.dev == 0 && nodes[r.node].count == 1
      ensures r.Taken? ==> nodes[r.node].linked && !nodes[r.node].dirty && !nodes[r.node].locked
      ensures r.Taken? <==> exists i :: i in old(nodes) && Reusable(old(nodes)[i])
      ensures !r.Taken? ==> AsState() == old(AsState())
      ensures r.NoneFree? ==> forall i :: i in nodes ==> nodes[i].count > 0
    {
      hide Queued;
      var found, best := SelectBest();
      if !found || nodes[best].dirty || nodes[best].locked {
        if |nodes| < NR_INODE {
          return GrowFirst;
        }
      }
      if !found {
        return NoneFree;
      }
      if nodes[best].locked {
        return WaitLocked(best);
      }
      if nodes[best].dirty {
        return WriteDirty(best);
      }
      Replace(best, Cleared().(count := 1, linked := true));
      nrFree := nrFree - 1;
      refs := refs[tok := Spare(best)];
      return Taken(best);
    }

    /** The end of iget when the inode was not in core: the empty inode is entered under its number. */
    method EnterInode(ghost tok: nat, i: nat, k: Key)
      requires Valid() && |ring| >= 2 && Possible(AsState(), Enter(tok, k)) && refs[tok].node == i
      modifies this
      ensures Valid() && AsState() == Next(old(AsState()), Enter(tok, k))
      ensures IsFor(nodes, i, k) && nodes[i].locked && nodes[i].count == old(nodes)[i].count && refs[tok] == Held(i, k)
      ensures ring == Without(old(ring), i) + [i]
    {
      Replace(i, nodes[i].(key := k, locked := true));
      refs := refs[tok := Held(i, k)];
      WithoutAgain(old(ring), i);
      ring := Without(ring, i) + [i];   // put_last_free
    }

    /** iput of an unlocked inode, up to put_inode. */
    method Iput(ghost tok: nat, i: nat) returns (last: bool)
      requires Valid() && Possible(AsState(), Put(tok)) && refs[tok].node == i
      modifies this`nodes, this`refs
      ensures Valid() && AsState() == Next(old(AsState()), Put(tok))
      ensures last <==> old(nodes)[i].count <= 1
      ensures !last ==> tok !in refs && nodes[i].count == old(nodes)[i].count - 1
      ensures last ==> tok in refs && refs[tok] == Putting(i) && nodes == old(nodes)
    {
      hide HashOf;
      if nodes[i].count > 1 {
        SameHashes(nodes, i, nodes[i].(count := nodes[i].count - 1));
        nodes := nodes[i := nodes[i].(count := nodes[i].count - 1)];
        refs := refs - {tok};
        last := false;
      } else {
        refs := refs[tok := Putting(i)];
        last := true;
      }
    }
  }

  lemma NotInCore(nodes: map<nat, Node>, chain: seq<nat>, k: Key)
    requires k.dev != 0 && ChainOk(Hashes(nodes), chain, HashOf(k))
    requires forall j :: 0 <= j < |chain| ==> !IsFor(nodes, chain[j], k)
    ensures !InCore(nodes, k)
  {
    hide HashOf;
    forall c: nat
      ensures !IsFor(nodes, c, k)
    {
      assert c in chain <==> c in Hashes(nodes) && Hashes(nodes)[c] == HashOf(k);
    }
  }

  lemma ReplaceHashes(nodes: map<nat, Node>, i: nat, n: Node)
    requires i in nodes
    ensures Hashes(nodes[i := n]) == if n.key.dev == 0 then Hashes(nodes) - {i} else (Hashes(nodes) - {i})[i := HashOf(n.key)]
    ensures nodes[i].key.dev == 0 ==> Hashes(nodes) - {i} == Hashes(nodes)
  {
    hide HashOf;
  }

  lemma SameHashes(nodes: map<nat, Node>, i: nat, n: Node)
    requires i in nodes && n.key == nodes[i].key
    ensures Hashes(nodes[i := n]) == Hashes(nodes)
  {
    hide HashOf;
  }

  lemma WithoutAgain(s: seq<nat>, b: nat)
    requires NoRepeat(s)
    ensures Without([b] + Without(s, b), b) == Without(s, b)
    ensures forall c :: c in Without(s, b) + [b] <==> c in [b] + Without(s, b)
    ensures NoRepeat(Without(s, b) + [b])
  {
    WithoutKeeps(s, b);
    NotThere(Without(s, b), b);
    assert ([b] + Without(s, b))[1..] == Without(s, b);
  }
}
