/** Doubly linked lists as sequences without repetition, and hash tables of such chains. */
module HashChains {
  predicate NoRepeat(s: seq<nat>) { forall i, j :: 0 <= i < j < |s| ==> s[i] != s[j] }

  function Without(s: seq<nat>, b: nat): (r: seq<nat>) {
    if s == [] then [] else (if s[0] == b then [] else [s[0]]) + Without(s[1..], b)
  }

  lemma {:induction false} WithoutHas(s: seq<nat>, b: nat, c: nat)
    ensures c in Without(s, b) <==> c in s && c != b
  {
    if s != [] {
      WithoutHas(s[1..], b, c);
      assert s == [s[0]] + s[1..];
    }
  }

  lemma {:induction false} WithoutNoRepeat(s: seq<nat>, b: nat)
    requires NoRepeat(s)
    ensures NoRepeat(Without(s, b))
  {
    if s != [] {
      WithoutNoRepeat(s[1..], b);
      WithoutHas(s[1..], b, s[0]);
      var r := Without(s[1..], b);
      assert s[0] !in s[1..];
      assert forall i :: 0 <= i < |r| ==> r[i] in r;
    }
  }

  lemma WithoutKeeps(s: seq<nat>, b: nat)
    requires NoRepeat(s)
    ensures NoRepeat(Without(s, b)) && b !in Without(s, b)
    ensures forall c :: c in Without(s, b) <==> c in s && c != b
  {
    WithoutNoRepeat(s, b);
    WithoutHas(s, b, b);
    forall c: nat
      ensures c in Without(s, b) <==> c in s && c != b
    {
      WithoutHas(s, b, c);
    }
  }

  lemma {:induction false} NotThere(s: seq<nat>, b: nat)
    requires b !in s
    ensures Without(s, b) == s
  {
    if s != [] { NotThere(s[1..], b); }
  }

  lemma {:induction false} WithoutLength(s: seq<nat>, b: nat)
    requires NoRepeat(s)
    ensures |Without(s, b)| >= |s| - 1
  {
    if s != [] {
      if s[0] == b {
        assert b !in s[1..];
        NotThere(s[1..], b);
      } else {
        WithoutLength(s[1..], b);
      }
    }
  }

  /** For a ring, moving the head past itself is the same as moving it to the end. */
  lemma RotateIsMove(ring: seq<nat>, b: nat)
    requires NoRepeat(ring) && ring != [] && ring[0] == b
    ensures ring[1..] == Without(ring, b)
  {
    NotThere(ring[1..], b);
  }

  ghost predicate RingOk<T>(objects: map<nat, T>, ring: seq<nat>) {
    NoRepeat(ring) && forall b :: b in ring <==> b in objects
  }

  // ---------- hash tables ----------

  /** A chain holds exactly the objects of its hash value; `at` gives the value of each hashed object. */
  ghost predicate ChainOk(at: map<nat, nat>, chain: seq<nat>, h: nat) {
    NoRepeat(chain) && forall b :: b in chain <==> b in at && at[b] == h
  }

  ghost predicate ChainsOk(at: map<nat, nat>, chains: seq<seq<nat>>) {
    && (forall h :: 0 <= h < |chains| ==> ChainOk(at, chains[h], h))
    && (forall b :: b in at ==> at[b] < |chains|)
  }

  lemma ChainRemove(at: map<nat, nat>, chains: seq<seq<nat>>, b: nat)
    requires ChainsOk(at, chains) && b in at
    ensures ChainsOk(at - {b}, chains[at[b] := Without(chains[at[b]], b)])
  {
    WithoutKeeps(chains[at[b]], b);
  }

  lemma ChainAdd(at: map<nat, nat>, chains: seq<seq<nat>>, b: nat, h: nat)
    requires ChainsOk(at, chains) && b !in at && h < |chains|
    ensures ChainsOk(at[b := h], chains[h := [b] + chains[h]])
  {
    var chain := [b] + chains[h];
    assert ChainOk(at, chains[h], h);
    assert b !in chains[h];
    forall c: nat
      ensures c in chain <==> c == b || c in chains[h]
    {
    }
    assert ChainOk(at[b := h], chain, h);
  }
}
