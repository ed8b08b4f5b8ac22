/** The in-core inodes of linux/fs/inode.c as steps interleaved at every sleep. A token is one
    reference that some task has on an inode. */
module InodeCache {
  /** The identity of an inode; device 0 is none. */
  datatype Key = Key(dev: nat, ino: nat)

  datatype Node = Node(key: Key, count: nat, dirty: bool, locked: bool, linked: bool)

  /** Held by a caller of iget; found by iget and waited for; taken by get_empty_inode; given to iput
      and inside the file system's put_inode; given to iput and being written. */
  datatype Ref =
    | Held(node: nat, key: Key)
    | Finding(node: nat, key: Key)
    | Spare(node: nat)
    | Putting(node: nat)
    | Writing(node: nat)

  datatype State = State(nodes: map<nat, Node>, refs: map<nat, Ref>, nrFree: int)

  datatype Step =
    | Lookup(tok: nat, key: Key, node: nat)
    | LookupWake(tok: nat)
    | TakeEmpty(tok: nat, node: nat)
    | Enter(tok: nat, key: Key)
    | MakePipe(tok: nat, other: nat)
    | Put(tok: nat)
    | PutReturn(tok: nat)
    | PutDelete(tok: nat)
    | PutWrite(tok: nat)
    | PutAgain(tok: nat)
    | Unlock(node: nat)
    | Sync(node: nat)
    | Dirty(tok: nat)
    | SetLinks(tok: nat, linked: bool)
    | Discard(node: nat)
    | Grow(ids: seq<nat>)

  const NoKey := Key(0, 0)

  function Cleared(): Node { Node(NoKey, 0, false, false, false) }

  predicate IsFor(nodes: map<nat, Node>, i: nat, k: Key) { i in nodes && nodes[i].key == k }

  ghost predicate InCore(nodes: map<nat, Node>, k: Key) { exists i :: IsFor(nodes, i, k) }

  predicate Has(s: State, t: nat) { t in s.refs && s.refs[t].node in s.nodes }

  function NodeOf(s: State, t: nat): Node
    requires Has(s, t)
  {
    s.nodes[s.refs[t].node]
  }

  predicate Reusable(n: Node) { n.count == 0 && !n.dirty && !n.locked }

  predicate FreshIds(ids: seq<nat>, used: set<nat>) {
    && (forall i :: 0 <= i < |ids| ==> ids[i] !in used)
    && (forall i, j :: 0 <= i < j < |ids| ==> ids[i] != ids[j])
  }

  ghost predicate Possible(s: State, st: Step) {
    match st
    case Lookup(t, k, i) => t !in s.refs && k.dev != 0 && IsFor(s.nodes, i, k)
    case LookupWake(t) => Has(s, t) && s.refs[t].Finding? && !NodeOf(s, t).locked
    case TakeEmpty(t, i) => t !in s.refs && i in s.nodes && Reusable(s.nodes[i])
    case Enter(t, k) => Has(s, t) && s.refs[t].Spare? && NodeOf(s, t).key == NoKey && k.dev != 0 && !InCore(s.nodes, k)
    case MakePipe(t, u) => Has(s, t) && s.refs[t].Spare? && u !in s.refs
    case Put(t) => Has(s, t) && (s.refs[t].Held? || s.refs[t].Spare?) && !NodeOf(s, t).locked
    case PutReturn(t) => Has(s, t) && s.refs[t].Putting? && NodeOf(s, t).linked && !NodeOf(s, t).dirty
    case PutDelete(t) => Has(s, t) && s.refs[t].Putting? && !NodeOf(s, t).linked && !NodeOf(s, t).locked
    case PutWrite(t) => Has(s, t) && s.refs[t].Putting? && NodeOf(s, t).linked && NodeOf(s, t).dirty && !NodeOf(s, t).locked
    case PutAgain(t) => Has(s, t) && s.refs[t].Writing? && !NodeOf(s, t).locked
    case Unlock(i) => i in s.nodes && s.nodes[i].locked
    case Sync(i) => i in s.nodes && s.nodes[i].dirty && !s.nodes[i].locked
    case Dirty(t) => Has(s, t) && s.refs[t].Held?
    case SetLinks(t, l) => Has(s, t) && s.refs[t].Held?
    case Discard(i) => i in s.nodes && Reusable(s.nodes[i])
    case Grow(ids) => FreshIds(ids, s.nodes.Keys)
  }

  function Less(n: nat): nat { if n > 0 then n - 1 else 0 }

  function SetNode(s: State, i: nat, n: Node): State { s.(nodes := s.nodes[i := n]) }

  function GrowAll(nodes: map<nat, Node>, ids: seq<nat>): map<nat, Node> {
    if ids == [] then nodes else GrowAll(nodes, ids[..|ids| - 1])[ids[|ids| - 1] := Cleared()]
  }

  /** iput from its label repeat on: a shared inode loses one reference, the last one goes through
      put_inode. */
  function PutStep(s: State, t: nat): State
    requires Has(s, t)
  {
    var i := s.refs[t].node;
    if s.nodes[i].count > 1 then SetNode(s, i, s.nodes[i].(count := s.nodes[i].count - 1)).(refs := s.refs - {t})
    else s.(refs := s.refs[t := Putting(i)])
  }

  ghost function Next(s: State, st: Step): State
    requires Possible(s, st)
  {
    match st
    case Lookup(t, k, i) =>
      var n := s.nodes[i];
      State(s.nodes[i := n.(count := n.count + 1)], s.refs[t := if n.locked then Finding(i, k) else Held(i, k)],
            if n.count == 0 then s.nrFree - 1 else s.nrFree)
    case LookupWake(t) =>
      if NodeOf(s, t).key == s.refs[t].key then s.(refs := s.refs[t := Held(s.refs[t].node, s.refs[t].key)]) else PutStep(s, t)
    case TakeEmpty(t, i) =>
      State(s.nodes[i := Cleared().(count := 1, linked := true)], s.refs[t := Spare(i)], s.nrFree - 1)
    case Enter(t, k) =>
      var i := s.refs[t].node;
      SetNode(s, i, s.nodes[i].(key := k, locked := true)).(refs := s.refs[t := Held(i, k)])
    case MakePipe(t, u) =>
      var i := s.refs[t].node;
      SetNode(s, i, s.nodes[i].(count := s.nodes[i].count + 1)).(refs := s.refs[u := Spare(i)])
    case Put(t) => PutStep(s, t)
    case PutReturn(t) =>
      var i := s.refs[t].node;
      State(s.nodes[i := s.nodes[i].(count := Less(s.nodes[i].count))], s.refs - {t}, s.nrFree + 1)
    case PutDelete(t) =>
      var i := s.refs[t].node;
      State(s.nodes[i := Cleared()], s.refs - {t}, if s.nodes[i].count > 0 then s.nrFree + 1 else s.nrFree)
    case PutWrite(t) =>
      var i := s.refs[t].node;
      SetNode(s, i, s.nodes[i].(locked := true, dirty := false)).(refs := s.refs[t := Writing(i)])
    case PutAgain(t) => PutStep(s, t)
    case Unlock(i) => SetNode(s, i, s.nodes[i].(locked := false))
    case Sync(i) => SetNode(s, i, s.nodes[i].(locked := true, dirty := false))
    case Dirty(t) => SetNode(s, s.refs[t].node, NodeOf(s, t).(dirty := true))
    case SetLinks(t, l) => SetNode(s, s.refs[t].node, NodeOf(s, t).(linked := l))
    case Discard(i) => SetNode(s, i, Cleared())
    case Grow(ids) => s.(nodes := GrowAll(s.nodes, ids), nrFree := s.nrFree + |ids|)
  }

  // ---------- the invariant ----------

  ghost predicate Unique(nodes: map<nat, Node>) {
    forall i, j :: i in nodes && j in nodes && nodes[i].key.dev != 0 && nodes[i].key == nodes[j].key ==> i == j
  }

  ghost function RefsTo(refs: map<nat, Ref>, i: nat): set<nat> { set t | t in refs && refs[t].node == i }

  ghost predicate Counted(s: State) { forall i :: i in s.nodes ==> s.nodes[i].count == |RefsTo(s.refs, i)| }

  predicate RefOk(nodes: map<nat, Node>, r: Ref) {
    r.node in nodes && (r.Held? || r.Finding? ==> nodes[r.node].key == r.key && r.key.dev != 0)
  }

  ghost predicate RefsOk(s: State) { forall t :: t in s.refs ==> RefOk(s.nodes, s.refs[t]) }

  ghost function Free(nodes: map<nat, Node>): set<nat> { set i | i in nodes && nodes[i].count == 0 }

  /** At most one inode in core for each number, counts that are the references, and a count of free inodes that
      is d too high. */
  ghost predicate Inv(s: State, d: int) {
    Unique(s.nodes) && Counted(s) && RefsOk(s) && s.nrFree == |Free(s.nodes)| + d
  }

  /** An unlinked inode that put_inode has deleted is recycled only if nobody found it while put_inode slept. */
  predicate DeletesAlone(s: State, st: Step) { st.PutDelete? && Has(s, st.tok) ==> NodeOf(s, st.tok).count == 1 }

  /** Somebody found the inode while put_inode slept, and iput counts it as free all the same. */
  function Slip(s: State, st: Step): nat { if st.PutReturn? && Has(s, st.tok) && NodeOf(s, st.tok).count > 1 then 1 else 0 }

  function Z(n: Node): int { if n.count == 0 then 1 else 0 }

  lemma FreeChange(nodes: map<nat, Node>, i: nat, n: Node)
    requires i in nodes
    ensures |Free(nodes[i := n])| == |Free(nodes)| - Z(nodes[i]) + Z(n)
  {
    var f := Free(nodes) - {i};
    assert Free(nodes) == if nodes[i].count == 0 then f + {i} else f;
    assert Free(nodes[i := n]) == if n.count == 0 then f + {i} else f;
  }

  // ---------- how references and counts change ----------

  lemma Added(s: State, t: nat, r: Ref, n: Node, s': State)
    requires Counted(s) && RefsOk(s) && t !in s.refs && r.node in s.nodes && n.count == s.nodes[r.node].count + 1
    requires s'.nodes == s.nodes[r.node := n] && s'.refs == s.refs[t := r] && RefOk(s'.nodes, r)
    requires n.key == s.nodes[r.node].key || s.nodes[r.node].count == 0
    ensures Counted(s') && RefsOk(s')
  {
    forall i | i in s'.nodes
      ensures s'.nodes[i].count == |RefsTo(s'.refs, i)|
    {
      assert RefsTo(s'.refs, i) == if i == r.node then RefsTo(s.refs, i) + {t} else RefsTo(s.refs, i);
    }
    forall u | u in s.refs
      ensures RefOk(s'.nodes, s.refs[u])
    {
      assert u in RefsTo(s.refs, s.refs[u].node);
    }
  }

  lemma Removed(s: State, t: nat, n: Node, s': State)
    requires Counted(s) && RefsOk(s) && t in s.refs && n.count + 1 == s.nodes[s.refs[t].node].count
    requires s'.nodes == s.nodes[s.refs[t].node := n] && s'.refs == s.refs - {t}
    requires n.key == s.nodes[s.refs[t].node].key || n.count == 0
    ensures Counted(s') && RefsOk(s')
  {
    var j := s.refs[t].node;
    forall i | i in s'.nodes
      ensures s'.nodes[i].count == |RefsTo(s'.refs, i)|
    {
      assert RefsTo(s'.refs, i) == if i == j then RefsTo(s.refs, i) - {t} else RefsTo(s.refs, i);
    }
    forall u | u in s'.refs
      ensures RefOk(s'.nodes, s'.refs[u])
    {
      assert u in RefsTo(s'.refs, s'.refs[u].node);
    }
  }

  /** The reference changes its kind, the inode its flags, the count stays. */
  lemma Turned(s: State, i: nat, n: Node, s': State)
    requires Counted(s) && RefsOk(s) && i in s.nodes && n.count == s.nodes[i].count && s'.nodes == s.nodes[i := n]
    requires n.key == s.nodes[i].key || |RefsTo(s.refs, i)| <= 1
    requires forall t :: t in s'.refs <==> t in s.refs
    requires forall t :: t in s.refs ==> s'.refs[t].node == s.refs[t].node
    requires forall t :: t in s.refs && (s.refs[t].node == i || s'.refs[t] != s.refs[t]) ==> RefOk(s'.nodes, s'.refs[t])
    ensures Counted(s') && RefsOk(s')
  {
    forall j | j in s'.nodes
      ensures s'.nodes[j].count == |RefsTo(s'.refs, j)|
    {
      assert RefsTo(s'.refs, j) == RefsTo(s.refs, j);
    }
  }

  lemma Rekeyed(nodes: map<nat, Node>, i: nat, n: Node)
    requires Unique(nodes) && i in nodes && (n.key == nodes[i].key || n.key.dev == 0 || !InCore(nodes, n.key))
    ensures Unique(nodes[i := n])
  {
    if n.key != nodes[i].key && n.key.dev != 0 {
      forall j | j in nodes
        ensures nodes[j].key != n.key
      {
        assert !IsFor(nodes, j, n.key);
      }
    }
  }

  lemma RefCounts(s: State, t: nat)
    requires Counted(s) && RefsOk(s) && t in s.refs
    ensures s.nodes[s.refs[t].node].count > 0
  {
    assert t in RefsTo(s.refs, s.refs[t].node);
  }

  // ---------- the steps ----------

  lemma AddStep(s: State, d: int, t: nat, r: Ref, n: Node, s': State)
    requires Inv(s, d) && t !in s.refs && r.node in s.nodes && n.count == s.nodes[r.node].count + 1
    requires s'.nodes == s.nodes[r.node := n] && s'.refs == s.refs[t := r] && RefOk(s'.nodes, r)
    requires n.key == s.nodes[r.node].key || (n.key == NoKey && s.nodes[r.node].count == 0)
    requires s'.nrFree == s.nrFree - Z(s.nodes[r.node])
    ensures Inv(s', d)
  {
    hide Unique, Counted, RefsOk, RefOk;
    Added(s, t, r, n, s');
    Rekeyed(s.nodes, r.node, n);
    FreeChange(s.nodes, r.node, n);
  }

  lemma RemoveStep(s: State, d: int, t: nat, n: Node, s': State)
    requires Inv(s, d) && t in s.refs && s.refs[t].node in s.nodes && n.count + 1 == s.nodes[s.refs[t].node].count
    requires s'.nodes == s.nodes[s.refs[t].node := n] && s'.refs == s.refs - {t}
    requires n.key == s.nodes[s.refs[t].node].key || (n.key == NoKey && n.count == 0)
    requires s'.nrFree == s.nrFree + Z(n)
    ensures Inv(s', d)
  {
    hide Unique, Counted, RefsOk;
    Removed(s, t, n, s');
    Rekeyed(s.nodes, s.refs[t].node, n);
    FreeChange(s.nodes, s.refs[t].node, n);
  }

  /** Flags of one inode, or the kind of one reference. */
  lemma TurnStep(s: State, d: int, i: nat, n: Node, t: nat, r: Ref, s': State)
    requires Inv(s, d) && i in s.nodes && n == s.nodes[i].(dirty := n.dirty, locked := n.locked, linked := n.linked)
    requires s'.nodes == s.nodes[i := n] && s'.nrFree == s.nrFree
    requires s'.refs == s.refs || (t in s.refs && r.node == s.refs[t].node && s'.refs == s.refs[t := r] && RefOk(s.nodes, r))
    ensures Inv(s', d)
  {
    Turned(s, i, n, s');
    hide Unique, Counted;
    Rekeyed(s.nodes, i, n);
    FreeChange(s.nodes, i, n);
  }

  lemma EnterStep(s: State, d: int, t: nat, k: Key)
    requires Inv(s, d) && Possible(s, Enter(t, k))
    ensures Inv(Next(s, Enter(t, k)), d)
  {
    var i := s.refs[t].node;
    var s', n := Next(s, Enter(t, k)), s.nodes[i].(key := k, locked := true);
    forall u | u in s.refs && s.refs[u].node == i
      ensures RefOk(s'.nodes, s'.refs[u])
    {
    }
    EnterRefs(s, d, t, k, s');
    hide Unique, Counted, RefsOk;
    Rekeyed(s.nodes, i, n);
    FreeChange(s.nodes, i, n);
  }

  lemma EnterRefs(s: State, d: int, t: nat, k: Key, s': State)
    requires Inv(s, d) && Possible(s, Enter(t, k)) && s' == Next(s, Enter(t, k))
    ensures Counted(s') && RefsOk(s')
  {
    forall j | j in s'.nodes
      ensures s'.nodes[j].count == |RefsTo(s'.refs, j)|
    {
      assert RefsTo(s'.refs, j) == RefsTo(s.refs, j);
    }
  }

  lemma PutCorrect(s: State, d: int, t: nat)
    requires Inv(s, d) && Has(s, t)
    ensures Inv(PutStep(s, t), d)
  {
    hide Unique, Counted, RefsOk;
    var i, s' := s.refs[t].node, PutStep(s, t);
    if s.nodes[i].count > 1 {
      RemoveStep(s, d, t, s.nodes[i].(count := s.nodes[i].count - 1), s');
    } else {
      assert s.nodes == s.nodes[i := s.nodes[i]];
      TurnStep(s, d, i, s.nodes[i], t, Putting(i), s');
    }
  }

  lemma DiscardStep(s: State, d: int, i: nat)
    requires Inv(s, d) && i in s.nodes && Reusable(s.nodes[i])
    ensures Inv(SetNode(s, i, Cleared()), d)
  {
    var s' := SetNode(s, i, Cleared());
    NoRefs(s, i);
    Turned(s, i, Cleared(), s');
    hide Unique, Counted, RefsOk;
    Rekeyed(s.nodes, i, Cleared());
    FreeChange(s.nodes, i, Cleared());
  }

  lemma NoRefs(s: State, i: nat)
    requires Counted(s) && i in s.nodes && s.nodes[i].count == 0
    ensures RefsTo(s.refs, i) == {} && forall t :: t in s.refs ==> s.refs[t].node != i
  {
    forall t | t in s.refs
      ensures s.refs[t].node != i
    {
      assert t !in RefsTo(s.refs, i);
    }
  }

  lemma GrowOne(s: State, d: int, i: nat, s': State)
    requires Inv(s, d) && i !in s.nodes && s' == s.(nodes := s.nodes[i := Cleared()], nrFree := s.nrFree + 1)
    ensures Inv(s', d)
  {
    GrowFree(s.nodes, i);
    assert forall t :: t in s.refs ==> s.refs[t].node != i;
    assert RefsTo(s.refs, i) == {};
    hide Free;
  }

  lemma GrowFree(nodes: map<nat, Node>, i: nat)
    requires i !in nodes
    ensures |Free(nodes[i := Cleared()])| == |Free(nodes)| + 1
  {
    assert Free(nodes[i := Cleared()]) == Free(nodes) + {i};
  }

  lemma {:induction false} GrowStep(s: State, d: int, ids: seq<nat>)
    requires Inv(s, d) && FreshIds(ids, s.nodes.Keys)
    ensures Inv(s.(nodes := GrowAll(s.nodes, ids), nrFree := s.nrFree + |ids|), d)
    ensures forall i :: i in GrowAll(s.nodes, ids) <==> i in s.nodes || i in ids
  {
    hide Inv;
    if ids == [] {
      assert s.(nodes := s.nodes, nrFree := s.nrFree) == s;
    } else {
      var n := |ids| - 1;
      var before := s.(nodes := GrowAll(s.nodes, ids[..n]), nrFree := s.nrFree + n);
      GrowStep(s, d, ids[..n]);
      assert ids == ids[..n] + [ids[n]];
      GrowOne(before, d, ids[n], s.(nodes := GrowAll(s.nodes, ids), nrFree := s.nrFree + |ids|));
    }
  }

  lemma FlagCorrect(s: State, d: int, st: Step)
    requires Inv(s, d) && Possible(s, st) && (st.Unlock? || st.Sync? || st.Dirty? || st.SetLinks? || st.PutWrite?)
    ensures Inv(Next(s, st), d)
  {
    hide Inv;
    match st
    case Unlock(i) => TurnStep(s, d, i, s.nodes[i].(locked := false), 0, Spare(i), Next(s, st));
    case Sync(i) => TurnStep(s, d, i, s.nodes[i].(locked := true, dirty := false), 0, Spare(i), Next(s, st));
    case Dirty(t) => TurnStep(s, d, s.refs[t].node, NodeOf(s, t).(dirty := true), 0, Spare(0), Next(s, st));
    case SetLinks(t, l) => TurnStep(s, d, s.refs[t].node, NodeOf(s, t).(linked := l), 0, Spare(0), Next(s, st));
    case PutWrite(t) =>
      TurnStep(s, d, s.refs[t].node, NodeOf(s, t).(locked := true, dirty := false), t, Writing(s.refs[t].node), Next(s, st));
  }

  /** Every step keeps at most one inode per number and the counts exactly when no inode is recycled that somebody
      has found again, and then makes the count of free inodes wrong by one more exactly when it slips. */
  lemma StepCorrect(s: State, d: int, st: Step)
    requires Inv(s, d) && Possible(s, st)
    ensures DeletesAlone(s, st) ==> Inv(Next(s, st), d + Slip(s, st))
    ensures !DeletesAlone(s, st) ==> !Counted(Next(s, st))
  {
    hide Inv;
    match st
    case Lookup(t, k, i) =>
      AddStep(s, d, t, if s.nodes[i].locked then Finding(i, k) else Held(i, k), s.nodes[i].(count := s.nodes[i].count + 1), Next(s, st));
    case LookupWake(t) =>
      if NodeOf(s, t).key == s.refs[t].key {
        TurnHeld(s, d, t);
      } else {
        PutCorrect(s, d, t);
      }
    case TakeEmpty(t, i) => AddStep(s, d, t, Spare(i), Cleared().(count := 1, linked := true), Next(s, st));
    case Enter(t, k) => EnterStep(s, d, t, k);
    case MakePipe(t, u) => PipeStep(s, d, t, u);
    case Put(t) => PutCorrect(s, d, t);
    case PutReturn(t) => ReturnStep(s, d, t);
    case PutDelete(t) => DeleteStep(s, d, t);
    case PutAgain(t) => PutCorrect(s, d, t);
    case Discard(i) => DiscardStep(s, d, i);
    case Grow(ids) => GrowStep(s, d, ids);
    case _ => FlagCorrect(s, d, st);
  }

  lemma ReturnStep(s: State, d: int, t: nat)
    requires Inv(s, d) && Possible(s, PutReturn(t))
    ensures Inv(Next(s, PutReturn(t)), d + Slip(s, PutReturn(t)))
  {
    RefCounts(s, t);
    hide Unique, Counted, RefsOk;
    var s', n := Next(s, PutReturn(t)), NodeOf(s, t).(count := Less(NodeOf(s, t).count));
    RemoveStep(s, d, t, n, s'.(nrFree := s.nrFree + Z(n)));
  }

  lemma DeleteStep(s: State, d: int, t: nat)
    requires Inv(s, d) && Possible(s, PutDelete(t))
    ensures NodeOf(s, t).count == 1 ==> Inv(Next(s, PutDelete(t)), d)
    ensures NodeOf(s, t).count != 1 ==> !Counted(Next(s, PutDelete(t)))
  {
    var i, s' := s.refs[t].node, Next(s, PutDelete(t));
    if NodeOf(s, t).count == 1 {
      RemoveStep(s, d, t, Cleared(), s');
    } else {
      RefCounts(s, t);
      assert RefsTo(s.refs, i) == RefsTo(s'.refs, i) + {t};
    }
  }

  lemma TurnHeld(s: State, d: int, t: nat)
    requires Inv(s, d) && Possible(s, LookupWake(t)) && NodeOf(s, t).key == s.refs[t].key
    ensures Inv(Next(s, LookupWake(t)), d)
  {
    var i := s.refs[t].node;
    assert s.nodes == s.nodes[i := s.nodes[i]];
    TurnStep(s, d, i, s.nodes[i], t, Held(i, s.refs[t].key), Next(s, LookupWake(t)));
  }

  lemma PipeStep(s: State, d: int, t: nat, u: nat)
    requires Inv(s, d) && Possible(s, MakePipe(t, u))
    ensures Inv(Next(s, MakePipe(t, u)), d)
  {
    RefCounts(s, t);
    AddStep(s, d, u, Spare(s.refs[t].node), NodeOf(s, t).(count := NodeOf(s, t).count + 1), Next(s, MakePipe(t, u)));
  }

  ghost predicate Run(s: State, steps: seq<Step>)
    decreases |steps|
  {
    steps == [] || (Possible(s, steps[0]) && DeletesAlone(s, steps[0]) && Run(Next(s, steps[0]), steps[1..]))
  }

  ghost function RunState(s: State, steps: seq<Step>): State
    requires Run(s, steps)
    decreases |steps|
  {
    if steps == [] then s else RunState(Next(s, steps[0]), steps[1..])
  }

  /** How often the run slips. */
  ghost function Slips(s: State, steps: seq<Step>): nat
    requires Run(s, steps)
    decreases |steps|
  {
    if steps == [] then 0 else Slip(s, steps[0]) + Slips(Next(s, steps[0]), steps[1..])
  }

  function Boot(): State { State(map[], map[], 0) }

  /** Over every run from boot in which no inode is recycled that somebody has found again, put_inode sleeping or
      not: at most one inode for each number, counts that are the references, and a count of free inodes that is
      too high by exactly the number of slips. */
  lemma RunCorrect(steps: seq<Step>)
    requires Run(Boot(), steps)
    ensures var s := RunState(Boot(), steps);
            && Unique(s.nodes) && Counted(s) && RefsOk(s)
            && s.nrFree == |Free(s.nodes)| + Slips(Boot(), steps)
  {
    assert Inv(Boot(), 0);
    RunFrom(Boot(), 0, steps);
  }

  lemma {:induction false} RunFrom(s: State, d: int, steps: seq<Step>)
    requires Run(s, steps) && Inv(s, d)
    ensures Inv(RunState(s, steps), d + Slips(s, steps))
    decreases |steps|
  {
    hide Inv, Possible, Next, DeletesAlone, Slip;
    if steps != [] {
      StepCorrect(s, d, steps[0]);
      RunFrom(Next(s, steps[0]), d + Slip(s, steps[0]), steps[1..]);
    }
  }

  /** A referenced inode is never recycled: it stays in core under its number. */
  lemma ReferencedStays(s: State, d: int, st: Step, t: nat)
    requires Inv(s, d) && Possible(s, st) && DeletesAlone(s, st) && t in s.refs && s.refs[t].Held?
    requires t in Next(s, st).refs && Next(s, st).refs[t] == s.refs[t]
    ensures IsFor(Next(s, st).nodes, s.refs[t].node, s.refs[t].key)
  {
    hide Possible, Next;
    StepCorrect(s, d, st);
  }

  /** The test after waiting in iget never fails. */
  lemma RecheckHolds(s: State, d: int, t: nat)
    requires Inv(s, d) && Possible(s, LookupWake(t))
    ensures NodeOf(s, t).key == s.refs[t].key
  {
  }

  // ---------- runs in which put_inode sleeps ----------

  /** One step of a run, and the rest of it. */
  lemma RunCons(s: State, st: Step, s1: State, steps: seq<Step>, s2: State)
    requires Possible(s, st) && DeletesAlone(s, st) && Next(s, st) == s1 && Run(s1, steps) && RunState(s1, steps) == s2
    ensures Run(s, [st] + steps) && RunState(s, [st] + steps) == s2
  {
    hide Possible, Next, DeletesAlone;
    assert ([st] + steps)[1..] == steps;
  }

  function Alone(n: Node): map<nat, Node> { map[0 := n] }

  /** An inode is read in and given up; put_inode sleeps, and another task finds it. */
  function FoundAgain(k: Key): seq<Step> {
    [Grow([0])] + ([TakeEmpty(0, 0)] + ([Enter(0, k)] + ([Unlock(0)] + Refound(k))))
  }

  function Refound(k: Key): seq<Step> { [Put(0)] + ([Lookup(1, k, 0)] + []) }

  function ReadIn(k: Key): State { State(Alone(Node(k, 1, false, false, true)), map[0 := Held(0, k)], 0) }

  function Refinding(k: Key): State {
    State(Alone(Node(k, 2, false, false, true)), map[0 := Putting(0), 1 := Held(0, k)], 0)
  }

  lemma RefoundRun(k: Key)
    requires k.dev != 0
    ensures Run(ReadIn(k), Refound(k)) && RunState(ReadIn(k), Refound(k)) == Refinding(k)
  {
    hide Run, RunState;
    var s1 := State(Alone(Node(k, 1, false, false, true)), map[0 := Putting(0)], 0);
    NoSteps(Refinding(k));
    assert Next(s1, Lookup(1, k, 0)) == Refinding(k);
    RunCons(s1, Lookup(1, k, 0), Refinding(k), [], Refinding(k));
    assert Next(ReadIn(k), Put(0)) == s1;
    RunCons(ReadIn(k), Put(0), s1, [Lookup(1, k, 0)] + [], Refinding(k));
  }

  lemma FoundAgainRun(k: Key)
    requires k.dev != 0
    ensures Run(Boot(), FoundAgain(k)) && RunState(Boot(), FoundAgain(k)) == Refinding(k)
  {
    hide Run, RunState, Refound;
    RefoundRun(k);
    var s1 := State(Alone(Cleared()), map[], 1);
    var s2 := State(Alone(Node(NoKey, 1, false, false, true)), map[0 := Spare(0)], 0);
    var s3 := State(Alone(Node(k, 1, false, true, true)), map[0 := Held(0, k)], 0);
    assert Next(s3, Unlock(0)) == ReadIn(k);
    RunCons(s3, Unlock(0), ReadIn(k), Refound(k), Refinding(k));
    KeyMissing(s2, k);
    assert Next(s2, Enter(0, k)) == s3;
    RunCons(s2, Enter(0, k), s3, [Unlock(0)] + Refound(k), Refinding(k));
    assert Next(s1, TakeEmpty(0, 0)) == s2;
    RunCons(s1, TakeEmpty(0, 0), s2, [Enter(0, k)] + ([Unlock(0)] + Refound(k)), Refinding(k));
    GrowFirst();
    RunCons(Boot(), Grow([0]), s1, [TakeEmpty(0, 0)] + ([Enter(0, k)] + ([Unlock(0)] + Refound(k))), Refinding(k));
  }

  lemma NoSteps(s: State)
    ensures Run(s, []) && RunState(s, []) == s
  {
  }

  lemma KeyMissing(s: State, k: Key)
    requires forall i :: i in s.nodes ==> s.nodes[i].key != k
    ensures !InCore(s.nodes, k)
  {
  }

  lemma GrowFirst()
    ensures Possible(Boot(), Grow([0])) && Next(Boot(), Grow([0])) == State(Alone(Cleared()), map[], 1)
  {
    assert [0][..0] == [];
    assert GrowAll(map[], [0][..0]) == map[];
    assert GrowAll(map[], [0]) == Alone(Cleared());
  }

  /** A run from boot: when put_inode returns, iput counts the inode as free though another task holds it. */
  lemma SlipWitness()
    ensures var k := Key(1, 2);
            Run(Boot(), FoundAgain(k)) && var s := RunState(Boot(), FoundAgain(k));
            && Possible(s, PutReturn(0)) && Slip(s, PutReturn(0)) == 1
            && Next(s, PutReturn(0)).nrFree == 1 && Free(Next(s, PutReturn(0)).nodes) == {}
  {
    FoundAgainRun(Key(1, 2));
  }

  /** And if the other task's directory entry was the last link, the inode is recycled under it. */
  lemma RecycledWitness()
    ensures var k := Key(1, 2);
            Run(Boot(), FoundAgain(k)) && var s := RunState(Boot(), FoundAgain(k));
            Possible(s, SetLinks(1, false)) && var s1 := Next(s, SetLinks(1, false));
            && Possible(s1, PutDelete(0)) && !DeletesAlone(s1, PutDelete(0))
            && var s2 := Next(s1, PutDelete(0)); 1 in s2.refs && s2.refs[1] == Held(0, k) && 0 in s2.nodes && s2.nodes[0] == Cleared()
  {
    FoundAgainRun(Key(1, 2));
  }

  // ---------- what each step gives to the task that takes it ----------

  /** The other inodes and references are as they were. */
  ghost predicate OnlyThese(s: State, s': State, t: nat, i: nat) {
    && (forall j :: j != i ==> (j in s'.nodes <==> j in s.nodes))
    && (forall j :: j != i && j in s.nodes ==> s'.nodes[j] == s.nodes[j])
    && (forall u :: u != t ==> (u in s'.refs <==> u in s.refs))
    && (forall u :: u != t && u in s.refs ==> s'.refs[u] == s.refs[u])
  }

  /** iget of an inode in core: one more reference, at once or after waiting for the lock. */
  lemma LookupGives(s: State, t: nat, k: Key, i: nat)
    requires Possible(s, Lookup(t, k, i))
    ensures var s' := Next(s, Lookup(t, k, i));
            && OnlyThese(s, s', t, i) && IsFor(s'.nodes, i, k) && s'.nodes[i] == s.nodes[i].(count := s.nodes[i].count + 1)
            && t in s'.refs && s'.refs[t] == (if s.nodes[i].locked then Finding(i, k) else Held(i, k))
  {
  }

  /** get_empty_inode and the end of iget: the only reference to an inode under the number asked for, locked for reading it in. */
  lemma EnterGives(s: State, t: nat, i: nat, k: Key)
    requires Possible(s, TakeEmpty(t, i)) && k.dev != 0
    ensures var e := Next(s, TakeEmpty(t, i));
            && OnlyThese(s, e, t, i) && t in e.refs && e.refs[t] == Spare(i)
            && i in e.nodes && e.nodes[i].key.dev == 0 && e.nodes[i].count == 1 && e.nodes[i].linked && !e.nodes[i].dirty && !e.nodes[i].locked
            && (!InCore(e.nodes, k) ==>
                  && Possible(e, Enter(t, k))
                  && var r := Next(e, Enter(t, k));
                     && IsFor(r.nodes, i, k) && r.nodes[i].count == 1 && r.nodes[i].locked && r.refs[t] == Held(i, k)
                     && OnlyThese(s, r, t, i))
  {
    hide InCore;
  }

  /** iput: a reference that is not the last is dropped and nothing else changes; the last one goes to put_inode, and from there
      the inode can be given back, deleted or written, whichever its link count and dirty flag say. */
  lemma PutGives(s: State, d: int, t: nat)
    requires Inv(s, d) && Possible(s, Put(t))
    ensures var s', i := Next(s, Put(t)), s.refs[t].node;
            && OnlyThese(s, s', t, i)
            && (s.nodes[i].count > 1 ==> t !in s'.refs && s'.nodes[i] == s.nodes[i].(count := s.nodes[i].count - 1))
            && (s.nodes[i].count == 1 ==>
                  && s'.nodes == s.nodes
                  && Possible(s', if !s.nodes[i].linked then PutDelete(t) else if s.nodes[i].dirty then PutWrite(t) else PutReturn(t)))
  {
    hide Unique, InCore;
    RefCounts(s, t);
  }

  /** The end of the last iput: the inode stays in core and can be found again, or, deleted, is under no number. */
  lemma PutEnds(s: State, d: int, st: Step)
    requires Inv(s, d) && Possible(s, st) && (st.PutReturn? || st.PutDelete?)
    ensures var s', i := Next(s, st), s.refs[st.tok].node;
            && OnlyThese(s, s', st.tok, i) && st.tok !in s'.refs && i in s'.nodes
            && (st.PutReturn? ==> s'.nodes[i].count + 1 == s.nodes[i].count && s'.nodes[i] == s.nodes[i].(count := s'.nodes[i].count))
            && (st.PutDelete? ==> s'.nodes[i].key.dev == 0 && Reusable(s'.nodes[i]))
  {
    hide Unique, InCore;
    RefCounts(s, st.tok);
  }

  /** A dirty inode stays in core and dirty until its write is started, or put_inode deletes it. */
  lemma DirtyStays(s: State, d: int, st: Step, i: nat)
    requires Inv(s, d) && Possible(s, st) && i in s.nodes && s.nodes[i].dirty
    ensures var s' := Next(s, st);
            && i in s'.nodes
            && (|| (s'.nodes[i].dirty && s'.nodes[i].key == s.nodes[i].key) || (st.Enter? && s.refs[st.tok].node == i && s'.nodes[i].dirty)
                || ((st == Sync(i) || (st.PutWrite? && s.refs[st.tok].node == i)) && s'.nodes[i] == s.nodes[i].(dirty := false, locked := true))
                || (st.PutDelete? && s.refs[st.tok].node == i && !s.nodes[i].linked))
  {
    hide Inv, InCore;
    if st.Grow? { GrowOld(s.nodes, st.ids, i); }
  }

  lemma {:induction false} GrowOld(nodes: map<nat, Node>, ids: seq<nat>, i: nat)
    requires i in nodes && FreshIds(ids, nodes.Keys)
    ensures i in GrowAll(nodes, ids) && GrowAll(nodes, ids)[i] == nodes[i]
  {
    if ids != [] { GrowOld(nodes, ids[..|ids| - 1], i); }
  }

  // ---------- nobody is stuck ----------

  /** Whoever has a reference can go on, or waits for an inode that can be unlocked. */
  lemma Wakes(s: State, d: int, t: nat)
    requires Inv(s, d) && t in s.refs
    ensures Has(s, t)
    ensures NodeOf(s, t).locked ==>
              Possible(s, Unlock(s.refs[t].node)) && Next(s, Unlock(s.refs[t].node)).nodes[s.refs[t].node] == NodeOf(s, t).(locked := false)
    ensures !NodeOf(s, t).locked ==>
              match s.refs[t]
              case Held(_, _) => Possible(s, Put(t)) && Possible(s, Dirty(t)) && Next(s, Dirty(t)).nodes[s.refs[t].node].dirty
              case Spare(_) => Possible(s, Put(t))
              case Finding(_, _) => Possible(s, LookupWake(t)) && Next(s, LookupWake(t)).refs[t].Held?
              case Putting(_) => Possible(s, PutReturn(t)) || Possible(s, PutDelete(t)) || Possible(s, PutWrite(t))
              case Writing(_) => Possible(s, PutAgain(t))
  {
    hide Unique, Counted, InCore;
  }
}
