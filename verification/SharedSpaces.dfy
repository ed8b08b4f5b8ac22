/** Address spaces that several tasks share (clone): runs from the initial state for every way in which StepCorrect says
    that something goes wrong. */
module SharedSpaces {
  import opened CowSwap

  /** A page that is zero but for its first byte. */
  function Byte(b: nat): Page { Poke(ZeroPage(), 0, b) }

  lemma RunSnoc(s: State, ls: seq<Step>, s1: State, l: Step)
    requires IsRun(s, ls) && Run(s, ls) == s1 && Possible(s1, l)
    ensures IsRun(s, ls + [l]) && Run(s, ls + [l]) == Next(s1, l)
    decreases |ls|
  {
    hide Possible, Next;
    if ls == [] {
      assert ls + [l] == [l];
    } else {
      assert (ls + [l])[1..] == ls[1..] + [l];
      RunSnoc(Next(s, ls[0]), ls[1..], s1, l);
    }
  }

  lemma NoSteps(s: State)
    ensures IsRun(s, []) && Run(s, []) == s
  {
  }

  // ---------- two tasks fault on the same empty page ----------

  function TwoFaults(): seq<Step> {
    [FillStart(1, Addr(0, 0), 0)] + [FillStart(2, Addr(0, 0), 1)] + [FillDone(1)] + [UserWrite(Addr(0, 0), 0, 7)]
  }

  lemma TwoFaultsRun()
    ensures IsRun(Init(2, 0), TwoFaults())
    ensures Run(Init(2, 0), TwoFaults()) ==
            State([1, 1], [Byte(7), ZeroPage()], [], [], map[],
                  map[Entry(Addr(0, 0)) := Present(0, true, true, true), Sleeper(2) := Filling(Addr(0, 0), 1)])
  {
    hide IsRun, Run, ZeroPage;
    var a, z := Addr(0, 0), ZeroPage();
    var s0 := State([0, 0], [z, z], [], [], map[], map[]);
    var s1 := State([1, 0], [z, z], [], [], map[], map[Sleeper(1) := Filling(a, 0)]);
    var s2 := State([1, 1], [z, z], [], [], map[], map[Sleeper(1) := Filling(a, 0), Sleeper(2) := Filling(a, 1)]);
    var s3 := State([1, 1], [z, z], [], [], map[], map[Entry(a) := Present(0, true, false, true), Sleeper(2) := Filling(a, 1)]);
    assert Init(2, 0) == s0;
    NoSteps(s0);
    RunSnoc(s0, [], s0, FillStart(1, a, 0));
    assert [] + [FillStart(1, a, 0)] == [FillStart(1, a, 0)];
    assert Next(s0, FillStart(1, a, 0)) == s1;
    RunSnoc(s0, [FillStart(1, a, 0)], s1, FillStart(2, a, 1));
    assert Next(s1, FillStart(2, a, 1)) == s2;
    RunSnoc(s0, [FillStart(1, a, 0)] + [FillStart(2, a, 1)], s2, FillDone(1));
    assert Next(s2, FillDone(1)) == s3;
    RunSnoc(s0, [FillStart(1, a, 0)] + [FillStart(2, a, 1)] + [FillDone(1)], s3, UserWrite(a, 0, 7));
  }

  /** The second to wake finds the entry in use, wipes out the store made in between, and leaves frame 0 counted
      though nothing names it any more. */
  lemma SharedSpaceLosesStore()
    ensures IsRun(Init(2, 0), TwoFaults())
    ensures var s := Run(Init(2, 0), TwoFaults());
            Possible(s, FillDone(2)) && !Vacant(s, FillDone(2)) && var s' := Next(s, FillDone(2));
            && View(s, Addr(0, 0)) == Byte(7) && View(s', Addr(0, 0)) == ZeroPage()
            && |s'.memMap| == 2 && s'.memMap[0] == 1 && Holders(s'.cells, 0) == {}
  {
    hide IsRun, Run, ZeroPage;
    TwoFaultsRun();
  }

  // ---------- a slot is given up and used again while somebody reads it ----------

  /** A page of the space that tasks 1 and 2 share, and one of another process. */
  const Ours: Addr := Addr(0, 0)
  const Theirs: Addr := Addr(1, 0)

  /** With slot 0 of the swap area never used. */
  function Slots(mem: seq<nat>, frames: seq<Page>, used: nat, onSwap: Page, locks: map<nat, Place>, cells: map<Place, Cell>): State {
    State(mem, frames, [0, used], [ZeroPage(), onSwap], locks, cells)
  }

  function Dirty(f: nat, accessed: bool): Cell { Present(f, true, true, accessed) }

  /** The run: the other process stores 9 in its page. Task 1 stores 5 in the shared page, which task 3 swaps out. Tasks 1
      and 2 both fault on it; task 2 brings it in and frees the slot, and then task 1 reads the slot. Meanwhile v is
      stored in the page, and task 3 swaps it out to the same slot, where its write has to wait for task 1. Task 1
      finds the entry as it left it, puts in what it has read and frees the slot. The slot is given to the page of the
      other process, and that is written; and then comes the write of task 3. */
  function StepAt(k: nat, v: nat): Step {
    if k == 0 then FillStart(4, Theirs, 3) else if k == 1 then FillDone(4)
    else if k == 2 then UserWrite(Theirs, 0, 9) else if k == 3 then Age(Theirs)
    else if k == 4 then FillStart(1, Ours, 0) else if k == 5 then FillDone(1)
    else if k == 6 then UserWrite(Ours, 0, 5) else if k == 7 then Age(Ours)
    else if k == 8 then SwapOut(3, Ours, 1) else if k == 9 then SwapOutDone(3)
    else if k == 10 then ReadStart(1, Ours, 1) else if k == 11 then ReadStart(2, Ours, 2)
    else if k == 12 then ReadData(2) else if k == 13 then ReadDone(2)
    else if k == 14 then ReadData(1) else if k == 15 then UserWrite(Ours, 0, v)
    else if k == 16 then Age(Ours) else if k == 17 then SwapOut(3, Ours, 1)
    else if k == 18 then ReadDone(1) else if k == 19 then SwapOut(4, Theirs, 1)
    else if k == 20 then SwapOutDone(4) else if k == 21 then WriteStart(3)
    else SwapOutDone(3)
  }

  function Early(k: nat): State {
    var z, five, nine, theirs := ZeroPage(), Byte(5), Byte(9), Entry(Theirs);
    if k == 0 then Slots([0, 0, 0, 0], [z, z, z, z], 0, z, map[], map[])
    else if k == 1 then Slots([0, 0, 0, 1], [z, z, z, z], 0, z, map[], map[Sleeper(4) := Filling(Theirs, 3)])
    else if k == 2 then Slots([0, 0, 0, 1], [z, z, z, z], 0, z, map[], map[theirs := Present(3, true, false, true)])
    else if k == 3 then Slots([0, 0, 0, 1], [z, z, z, nine], 0, z, map[], map[theirs := Dirty(3, true)])
    else if k == 4 then Slots([0, 0, 0, 1], [z, z, z, nine], 0, z, map[], map[theirs := Dirty(3, false)])
    else if k == 5 then
      Slots([1, 0, 0, 1], [z, z, z, nine], 0, z, map[], map[theirs := Dirty(3, false), Sleeper(1) := Filling(Ours, 0)])
    else if k == 6 then
      Slots([1, 0, 0, 1], [z, z, z, nine], 0, z, map[], map[theirs := Dirty(3, false), Entry(Ours) := Present(0, true, false, true)])
    else if k == 7 then
      Slots([1, 0, 0, 1], [five, z, z, nine], 0, z, map[], map[theirs := Dirty(3, false), Entry(Ours) := Dirty(0, true)])
    else
      Slots([1, 0, 0, 1], [five, z, z, nine], 0, z, map[], map[theirs := Dirty(3, false), Entry(Ours) := Dirty(0, false)])
  }

  function Middle(k: nat): State {
    var z, five, nine, theirs, ours := ZeroPage(), Byte(5), Byte(9), Entry(Theirs), Entry(Ours);
    var one, two := Reading(Ours, 1, 1), Reading(Ours, 1, 2);
    if k == 9 then
      Slots([1, 0, 0, 1], [five, z, z, nine], 1, z, map[1 := Writer(3)],
            map[theirs := Dirty(3, false), ours := Swapped(1), Writer(3) := Writing(1, 0)])
    else if k == 10 then
      Slots([0, 0, 0, 1], [five, z, z, nine], 1, five, map[], map[theirs := Dirty(3, false), ours := Swapped(1)])
    else if k == 11 then
      Slots([0, 1, 0, 1], [five, z, z, nine], 1, five, map[], map[theirs := Dirty(3, false), ours := Swapped(1), Sleeper(1) := one])
    else if k == 12 then
      Slots([0, 1, 1, 1], [five, z, z, nine], 1, five, map[],
            map[theirs := Dirty(3, false), ours := Swapped(1), Sleeper(1) := one, Sleeper(2) := two])
    else if k == 13 then
      Slots([0, 1, 1, 1], [five, z, five, nine], 1, five, map[1 := Sleeper(2)],
            map[theirs := Dirty(3, false), ours := Swapped(1), Sleeper(1) := one, Sleeper(2) := ReadIn(Ours, 1, 2)])
    else
      Slots([0, 1, 1, 1], [five, z, five, nine], 0, five, map[],
            map[theirs := Dirty(3, false), ours := Dirty(2, true), Sleeper(1) := one])
  }

  function Late(k: nat, v: nat): State {
    var five, nine, new_, theirs, ours := Byte(5), Byte(9), Byte(v), Entry(Theirs), Entry(Ours);
    var one := ReadIn(Ours, 1, 1);
    if k == 15 then
      Slots([0, 1, 1, 1], [five, five, five, nine], 0, five, map[1 := Sleeper(1)],
            map[theirs := Dirty(3, false), ours := Dirty(2, true), Sleeper(1) := one])
    else if k == 16 then
      Slots([0, 1, 1, 1], [five, five, new_, nine], 0, five, map[1 := Sleeper(1)],
            map[theirs := Dirty(3, false), ours := Dirty(2, true), Sleeper(1) := one])
    else if k == 17 then
      Slots([0, 1, 1, 1], [five, five, new_, nine], 0, five, map[1 := Sleeper(1)],
            map[theirs := Dirty(3, false), ours := Dirty(2, false), Sleeper(1) := one])
    else if k == 18 then
      Slots([0, 1, 1, 1], [five, five, new_, nine], 1, five, map[1 := Sleeper(1)],
            map[theirs := Dirty(3, false), ours := Swapped(1), Writer(3) := Writing(1, 2), Sleeper(1) := one])
    else if k == 19 then
      Slots([0, 1, 1, 1], [five, five, new_, nine], 0, five, map[],
            map[theirs := Dirty(3, false), ours := Dirty(1, true), Writer(3) := Writing(1, 2)])
    else if k == 20 then
      Slots([0, 1, 1, 1], [five, five, new_, nine], 1, five, map[1 := Writer(4)],
            map[theirs := Swapped(1), Writer(4) := Writing(1, 3), ours := Dirty(1, true), Writer(3) := Writing(1, 2)])
    else if k == 21 then
      Slots([0, 1, 1, 0], [five, five, new_, nine], 1, nine, map[],
            map[theirs := Swapped(1), ours := Dirty(1, true), Writer(3) := Writing(1, 2)])
    else if k == 22 then
      Slots([0, 1, 1, 0], [five, five, new_, nine], 1, nine, map[1 := Writer(3)],
            map[theirs := Swapped(1), ours := Dirty(1, true), Writer(3) := Writing(1, 2)])
    else
      Slots([0, 1, 0, 0], [five, five, new_, nine], 1, new_, map[], map[theirs := Swapped(1), ours := Dirty(1, true)])
  }

  function StateAt(k: nat, v: nat): State { if k <= 8 then Early(k) else if k <= 14 then Middle(k) else Late(k, v) }

  predicate Does(s: State, l: Step, s': State) { Possible(s, l) && Next(s, l) == s' }

  predicate DoesAt(k: nat, v: nat) { Does(StateAt(k, v), StepAt(k, v), StateAt(k + 1, v)) }

  lemma Pokes(v: nat)
    ensures Poke(ZeroPage(), 0, v) == Byte(v) && Poke(Byte(5), 0, v) == Byte(v)
  {
  }

  lemma Steps0(v: nat)
    ensures DoesAt(0, v) && DoesAt(1, v)
  {
    hide ZeroPage, Byte;
  }

  lemma Steps2(v: nat)
    ensures DoesAt(2, v) && DoesAt(3, v)
  {
    hide ZeroPage;
  }

  lemma Steps4(v: nat)
    ensures DoesAt(4, v) && DoesAt(5, v)
  {
    hide ZeroPage, Byte;
  }

  lemma Steps6(v: nat)
    ensures DoesAt(6, v) && DoesAt(7, v)
  {
    hide ZeroPage;
  }

  lemma Step8(v: nat)
    ensures DoesAt(8, v)
  {
    hide ZeroPage, Byte;
  }

  lemma Step9(v: nat)
    ensures DoesAt(9, v)
  {
    hide ZeroPage, Byte;
  }

  lemma Step10(v: nat)
    ensures DoesAt(10, v)
  {
    hide ZeroPage, Byte;
  }

  lemma Step11(v: nat)
    ensures DoesAt(11, v)
  {
    hide ZeroPage, Byte;
  }

  lemma Step12(v: nat)
    ensures DoesAt(12, v)
  {
    hide ZeroPage, Byte;
  }

  lemma Step13(v: nat)
    ensures DoesAt(13, v)
  {
    hide ZeroPage, Byte;
  }

  lemma Step14(v: nat)
    ensures DoesAt(14, v)
  {
    hide ZeroPage, Byte;
  }

  lemma Step15(v: nat)
    ensures DoesAt(15, v)
  {
    Pokes(v);
    hide ZeroPage, Byte;
  }

  lemma Step16(v: nat)
    ensures DoesAt(16, v)
  {
    hide ZeroPage, Byte;
  }

  lemma Step17(v: nat)
    ensures DoesAt(17, v)
  {
    hide ZeroPage, Byte;
  }

  lemma Step18(v: nat)
    ensures DoesAt(18, v)
  {
    hide ZeroPage, Byte;
  }

  lemma Step19(v: nat)
    ensures DoesAt(19, v)
  {
    hide ZeroPage, Byte;
  }

  lemma Step20(v: nat)
    ensures DoesAt(20, v)
  {
    hide ZeroPage, Byte;
  }

  lemma Step21(v: nat)
    ensures DoesAt(21, v)
  {
    hide ZeroPage, Byte;
  }

  lemma Step22(v: nat)
    ensures DoesAt(22, v)
  {
    hide ZeroPage, Byte;
  }

  lemma AllSteps(k: nat, v: nat)
    requires k < 23
    ensures DoesAt(k, v)
  {
    hide DoesAt;
    Steps0(v);
    Steps2(v);
    Steps4(v);
    Steps6(v);
    Step8(v);
    Step9(v);
    Step10(v);
    Step11(v);
    Step12(v);
    Step13(v);
    Step14(v);
    Step15(v);
    Step16(v);
    Step17(v);
    Step18(v);
    Step19(v);
    Step20(v);
    Step21(v);
    Step22(v);
  }

  /** The first k steps. */
  function Prefix(k: nat, v: nat): seq<Step> { if k == 0 then [] else Prefix(k - 1, v) + [StepAt(k - 1, v)] }

  lemma {:induction false} PrefixRun(k: nat, v: nat)
    requires k <= 23
    ensures IsRun(Init(4, 2), Prefix(k, v)) && Run(Init(4, 2), Prefix(k, v)) == StateAt(k, v)
  {
    if k == 0 {
      assert Init(4, 2) == StateAt(0, v);
    } else {
      hide IsRun, Run, StateAt, StepAt, Possible, Next;
      PrefixRun(k - 1, v);
      AllSteps(k - 1, v);
      RunSnoc(Init(4, 2), Prefix(k - 1, v), StateAt(k - 1, v), StepAt(k - 1, v));
    }
  }

  lemma OneWrite(s: State, x: nat, p: Place)
    requires p in s.cells && Writes(s.cells[p], x) && forall q :: q in s.cells && Writes(s.cells[q], x) ==> q == p
    ensures Outstanding(s, x) && Stored(s, x) == FrameAt(s, s.cells[p].frame)
  {
  }

  /** Task 1 finds the entry as it left it. If something else was stored meanwhile, that is lost; and even if not, the slot
      is free though a write to it is still to come. */
  lemma StaleSwapIn(v: nat)
    ensures IsRun(Init(4, 2), Prefix(18, v))
    ensures var s := Run(Init(4, 2), Prefix(18, v));
            Possible(s, ReadDone(1)) && !Spared(s, ReadDone(1)) && var s' := Next(s, ReadDone(1));
            && (ViewsKept(s, ReadDone(1)) <==> v == 5)
            && View(s, Ours) == Byte(v) && View(s', Ours) == Byte(5)
            && |s'.swapMap| == 2 && s'.swapMap[1] == 0 && Outstanding(s', 1)
  {
    hide IsRun, Run, Stored;
    PrefixRun(18, v);
    var s := StateAt(18, v);
    OneWrite(s, 1, Writer(3));
    assert Byte(5)[0] == 5 && Byte(v)[0] == v;
    hide ZeroPage, Byte;
    Step18(v);
    assert s.cells[Writer(3)] == Writing(1, 2) && s.frames[2] == Byte(v) && s.swap[1] == Byte(5);
    assert Unchanged(s, s.cells[Sleeper(1)]) && 1 in Freed(s, ReadDone(1));
    assert Writes(Next(s, ReadDone(1)).cells[Writer(3)], 1);
  }

  /** In the end the page of the other process, in which nobody has stored anything since, holds what task 3 wrote. */
  lemma LateWrite(v: nat)
    ensures IsRun(Init(4, 2), Prefix(19, v)) && IsRun(Init(4, 2), Prefix(23, v))
    ensures View(Run(Init(4, 2), Prefix(19, v)), Theirs) == Byte(9)
    ensures View(Run(Init(4, 2), Prefix(23, v)), Theirs) == Byte(v)
    ensures forall k :: 19 <= k < 23 ==> !StepAt(k, v).UserWrite?
  {
    hide IsRun, Run, ZeroPage, Byte;
    PrefixRun(19, v);
    PrefixRun(23, v);
    var s := StateAt(23, v);
    assert forall p :: p in s.cells ==> !Writes(s.cells[p], 1);
  }

  /** Task 2 clears the entry while task 1 still has the lock, and then task 1 finds it changed and lets the lock go. */
  function Cleared(v: nat): State {
    Slots([0, 1, 1, 1], [Byte(5), Byte(5), Byte(v), Byte(9)], 1, Byte(5), map[1 := Sleeper(1)],
          map[Entry(Theirs) := Dirty(3, false), Sleeper(2) := Releasing(1), Writer(3) := Writing(1, 2), Sleeper(1) := ReadIn(Ours, 1, 1)])
  }

  function Unlocked(v: nat): State {
    Slots([0, 0, 1, 1], [Byte(5), Byte(5), Byte(v), Byte(9)], 1, Byte(5), map[],
          map[Entry(Theirs) := Dirty(3, false), Sleeper(2) := Releasing(1), Writer(3) := Writing(1, 2)])
  }

  lemma ClearStep(v: nat)
    ensures Does(StateAt(18, v), Unmap(2, Ours), Cleared(v))
  {
    hide ZeroPage, Byte;
  }

  lemma UnlockStep(v: nat)
    ensures Does(Cleared(v), ReadDone(1), Unlocked(v))
  {
    hide ZeroPage, Byte;
  }

  /** If task 2 gets the lock before task 3 does, it frees the slot under the write. */
  lemma EarlyFree(v: nat)
    ensures IsRun(Init(4, 2), Prefix(18, v) + [Unmap(2, Ours)] + [ReadDone(1)])
    ensures var s := Run(Init(4, 2), Prefix(18, v) + [Unmap(2, Ours)] + [ReadDone(1)]);
            Possible(s, ReleaseDone(2)) && !Spared(s, ReleaseDone(2)) && var s' := Next(s, ReleaseDone(2));
            |s'.swapMap| == 2 && s'.swapMap[1] == 0 && Outstanding(s', 1)
  {
    hide IsRun, Run, ZeroPage, Byte, Stored, StateAt;
    PrefixRun(18, v);
    ClearStep(v);
    RunSnoc(Init(4, 2), Prefix(18, v), StateAt(18, v), Unmap(2, Ours));
    UnlockStep(v);
    RunSnoc(Init(4, 2), Prefix(18, v) + [Unmap(2, Ours)], Cleared(v), ReadDone(1));
    var s := Unlocked(v);
    assert Writes(s.cells[Writer(3)], 1) && 1 in Freed(s, ReleaseDone(2));
    assert Writes(Next(s, ReleaseDone(2)).cells[Writer(3)], 1);
  }
}
