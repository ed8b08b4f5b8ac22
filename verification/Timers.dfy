/** The timer list of linux/kernel/sched.c: each timer stores only the ticks after the one before it. */
module Timers {
  /** A timer with the value of its `expires` field. */
  datatype Timer = Timer(id: nat, expires: nat)

  /** What the list stands for: each timer with the ticks that remain, in the order of the list. */
  function Remaining(list: seq<Timer>, base: nat): (r: seq<Timer>)
    ensures |r| == |list|
  {
    if list == [] then []
    else [Timer(list[0].id, base + list[0].expires)] + Remaining(list[1..], base + list[0].expires)
  }

  predicate Has(list: seq<Timer>, id: nat) { exists i :: 0 <= i < |list| && list[i].id == id }

  // ---------- the operations as functions ----------

  function Added(list: seq<Timer>, id: nat, e: nat): seq<Timer> {
    if list == [] then [Timer(id, e)]
    else if list[0].expires > e then [Timer(id, e), list[0].(expires := list[0].expires - e)] + list[1..]
    else [list[0]] + Added(list[1..], id, e - list[0].expires)
  }

  function Deleted(list: seq<Timer>, id: nat): seq<Timer> {
    if list == [] then []
    else if list[0].id != id then [list[0]] + Deleted(list[1..], id)
    else if |list| == 1 then []
    else [list[1].(expires := list[1].expires + list[0].expires)] + list[2..]
  }

  function Ticked(list: seq<Timer>): seq<Timer> {
    if list == [] || list[0].expires == 0 then list
    else [list[0].(expires := list[0].expires - 1)] + list[1..]
  }

  /** The timers at the front that have run out, and the others. */
  function Due(list: seq<Timer>): (n: nat)
    ensures n <= |list|
  {
    if list == [] || list[0].expires > 0 then 0 else 1 + Due(list[1..])
  }

  // ---------- the same operations on remaining times ----------

  /** Before the first timer that runs longer, so after all that were there with the same time. */
  function Inserted(r: seq<Timer>, t: Timer): seq<Timer> {
    if r == [] then [t] else if r[0].expires > t.expires then [t] + r else [r[0]] + Inserted(r[1..], t)
  }

  function WithoutFirst(r: seq<Timer>, id: nat): seq<Timer> {
    if r == [] then [] else if r[0].id == id then r[1..] else [r[0]] + WithoutFirst(r[1..], id)
  }

  function AllLess(r: seq<Timer>): seq<Timer>
    requires forall i :: 0 <= i < |r| ==> r[i].expires > 0
  {
    seq(|r|, i requires 0 <= i < |r| => r[i].(expires := r[i].expires - 1))
  }

  function AtZero(r: seq<Timer>): seq<Timer> {
    if r == [] then [] else (if r[0].expires == 0 then [r[0]] else []) + AtZero(r[1..])
  }

  function AboveZero(r: seq<Timer>): seq<Timer> {
    if r == [] then [] else (if r[0].expires > 0 then [r[0]] else []) + AboveZero(r[1..])
  }

  // ---------- the list refines the set of remaining times ----------

  /** Adding a timer leaves the remaining time of every other timer alone. */
  lemma {:induction false} AddRefines(list: seq<Timer>, id: nat, e: nat, base: nat)
    ensures Remaining(Added(list, id, e), base) == Inserted(Remaining(list, base), Timer(id, base + e))
  {
    if list != [] {
      var r, d := Remaining(list, base), list[0].expires;
      if d > e {
        var l := Added(list, id, e);
        assert l[0] == Timer(id, e) && l[1..] == [list[0].(expires := d - e)] + list[1..];
        assert l[1..][0].expires == d - e && l[1..][1..] == list[1..];
        assert Remaining(l[1..], base + e) == r;
      } else {
        AddRefines(list[1..], id, e - d, base + d);
        assert Added(list, id, e)[1..] == Added(list[1..], id, e - d);
        assert r[1..] == Remaining(list[1..], base + d);
      }
    }
  }

  /** So does deleting one. */
  lemma {:induction false} DeleteRefines(list: seq<Timer>, id: nat, base: nat)
    ensures Remaining(Deleted(list, id), base) == WithoutFirst(Remaining(list, base), id)
  {
    if list != [] {
      var r, d := Remaining(list, base), list[0].expires;
      assert r[1..] == Remaining(list[1..], base + d);
      if list[0].id != id {
        DeleteRefines(list[1..], id, base + d);
        assert Deleted(list, id)[1..] == Deleted(list[1..], id);
      } else if |list| > 1 {
        var l := Deleted(list, id);
        assert l[0].expires == list[1].expires + d && l[1..] == list[2..] == list[1..][1..];
      }
    }
  }

  lemma {:induction false} AddDelete(list: seq<Timer>, id: nat, e: nat)
    requires !Has(list, id)
    ensures Deleted(Added(list, id, e), id) == list
  {
    if list != [] {
      assert list[0].id != id;
      var l := Added(list, id, e);
      if list[0].expires > e {
        assert l[1].expires + e == list[0].expires && l[2..] == list[1..];
      } else {
        assert l[1..] == Added(list[1..], id, e - list[0].expires);
        forall i | 0 <= i < |list[1..]|
          ensures list[1..][i].id != id
        {
          assert list[i + 1].id != id;
        }
        AddDelete(list[1..], id, e - list[0].expires);
      }
    }
  }

  lemma {:induction false} AtLeast(list: seq<Timer>, base: nat)
    ensures forall i :: 0 <= i < |list| ==> Remaining(list, base)[i].expires >= base
    ensures forall i :: 0 <= i < |list| ==> Remaining(list, base)[i].id == list[i].id
  {
    if list != [] { AtLeast(list[1..], base + list[0].expires); }
  }

  lemma {:induction false} Shifted(list: seq<Timer>, base: nat, more: nat, i: nat)
    requires more == base + 1 && i < |list|
    ensures Remaining(list, more)[i] == Timer(list[i].id, Remaining(list, base)[i].expires + 1)
    ensures Remaining(list, base)[i].id == list[i].id && Remaining(list, base)[i].expires >= base
  {
    if i > 0 { Shifted(list[1..], base + list[0].expires, more + list[0].expires, i - 1); }
  }

  /** A tick lowers every remaining time by one, unless a timer at zero is still waiting to be fired. */
  lemma TickRefines(list: seq<Timer>)
    requires list != [] && list[0].expires > 0
    ensures (forall i :: 0 <= i < |list| ==> Remaining(list, 0)[i].expires > 0) &&
            Remaining(Ticked(list), 0) == AllLess(Remaining(list, 0))
  {
    hide Remaining, Ticked;
    var r, r' := Remaining(list, 0), Remaining(Ticked(list), 0);
    TickLength(list);
    forall i | 0 <= i < |list|
      ensures r[i].expires > 0 && r'[i] == r[i].(expires := r[i].expires - 1)
    {
      TickAt(list, i);
    }
  }

  lemma TickLength(list: seq<Timer>)
    ensures |Ticked(list)| == |list|
  {
  }

  lemma TickAt(list: seq<Timer>, i: nat)
    requires list != [] && list[0].expires > 0 && i < |list|
    ensures |Ticked(list)| == |list| && Remaining(list, 0)[i].expires > 0
    ensures Remaining(Ticked(list), 0)[i] == Remaining(list, 0)[i].(expires := Remaining(list, 0)[i].expires - 1)
  {
    hide Remaining;
    var d, rest := list[0].expires, list[1..];
    First(list, 0);
    First(Ticked(list), 0);
    assert Ticked(list)[1..] == rest;
    if i > 0 { Shifted(rest, d - 1, d, i - 1); }
  }

  lemma First(list: seq<Timer>, base: nat)
    requires list != []
    ensures Remaining(list, base) == [Timer(list[0].id, base + list[0].expires)] + Remaining(list[1..], base + list[0].expires)
  {
  }

  lemma {:induction false} AllAbove(r: seq<Timer>)
    requires forall i :: 0 <= i < |r| ==> r[i].expires > 0
    ensures AtZero(r) == [] && AboveZero(r) == r
  {
    if r != [] { AllAbove(r[1..]); }
  }

  /** The timers that the bottom half takes are exactly those at zero, in the order of the list, and
      the others keep their time. */
  lemma {:induction false} DueRefines(list: seq<Timer>)
    ensures Remaining(list[..Due(list)], 0) == AtZero(Remaining(list, 0))
    ensures Remaining(list[Due(list)..], 0) == AboveZero(Remaining(list, 0))
  {
    var r := Remaining(list, 0);
    if list != [] {
      if list[0].expires > 0 {
        AtLeast(list, 0);
        AtLeast(list[1..], list[0].expires);
        AllAbove(r);
        assert list[..0] == [] && list[0..] == list;
      } else {
        var n := Due(list);
        DueRefines(list[1..]);
        assert list[..n][1..] == list[1..][..n - 1] && list[n..] == list[1..][n - 1..];
        assert r[1..] == Remaining(list[1..], 0);
      }
    }
  }

  // ---------- the routines ----------

  class TimerList {
    var list: seq<Timer>
    var lostTicks: nat

    constructor ()
      ensures list == [] && lostTicks == 0
    {
      list, lostTicks := [], 0;
    }

    /** For a timer that is not on the list. */
    method AddTimer(id: nat, expires: nat)
      requires !Has(list, id)
      modifies this`list
      ensures list == Added(old(list), id, expires)
    {
      var i: nat, e: nat := 0, expires;
      assert list[..0] + Added(list[0..], id, e) == Added(list, id, expires);
      while i < |list| && list[i].expires <= e
        invariant 0 <= i <= |list| && list == old(list)
        invariant list[..i] + Added(list[i..], id, e) == Added(list, id, expires)
      {
        AddPast(list, i, id, e);
        e := e - list[i].expires;
        i := i + 1;
      }
      if i < |list| {
        AddBefore(list, i, id, e);
        list := list[..i] + [Timer(id, e), list[i].(expires := list[i].expires - e)] + list[i + 1..];
      } else {
        assert list[i..] == [] && list[..i] == list;
        list := list + [Timer(id, e)];
      }
    }

    /** Returns whether the timer was pending and the ticks that it had left. */
    method DelTimer(id: nat) returns (found: bool, left: nat)
      modifies this`list
      ensures list == Deleted(old(list), id)
      ensures found <==> Has(old(list), id)
      ensures found ==> exists i :: 0 <= i < |old(list)| && Remaining(old(list), 0)[i] == Timer(id, left)
    {
      var i: nat, e: nat := 0, 0;
      DeleteStart(list, id);
      while i < |list|
        invariant 0 <= i <= |list| && list == old(list)
        invariant forall j :: 0 <= j < i ==> list[j].id != id
        invariant DeleteAt(list, i, id, e)
      {
        DeleteNext(list, i, id, e);
        if list[i].id == id {
          found, left := true, e + list[i].expires;
          DeleteHere(list, i, id);
          if i + 1 < |list| {
            list := list[..i] + [list[i + 1].(expires := list[i + 1].expires + list[i].expires)] + list[i + 2..];
          } else {
            list := list[..i];
          }
          return;
        }
        e := e + list[i].expires;
        i := i + 1;
      }
      assert list[..i] == list && list[i..] == [];
      return false, 0;
    }

    /** The timer part of do_timer: with a timer at zero still to be fired the tick is lost for all of them, and
        otherwise it takes one from what every pending timer has left. */
    method Tick()
      modifies this
      ensures list == Ticked(old(list))
      ensures (exists id :: Pending(old(list), id, 0)) ==> list == old(list) && lostTicks == old(lostTicks) + 1
      ensures !(exists id :: Pending(old(list), id, 0)) ==>
                lostTicks == old(lostTicks) && forall id, t: nat :: Pending(list, id, t) <==> Pending(old(list), id, t + 1)
    {
      TickPending(list);
      if list != [] {
        if list[0].expires > 0 {
          list := [list[0].(expires := list[0].expires - 1)] + list[1..];
        } else {
          lostTicks := lostTicks + 1;
        }
      }
    }

    /** One round of timer_bh, up to the call of the function: takes the first timer off if it has run out. There is none to
        take exactly if no pending timer is out of ticks. */
    method FireNext() returns (some: bool, id: nat)
      modifies this`list
      ensures some <==> exists i :: Pending(old(list), i, 0)
      ensures some ==> Able(old(list), Fire) && list == Next(old(list), Fire) && id == old(list)[0].id && Pending(old(list), id, 0)
      ensures !some ==> Able(old(list), Leave) && list == old(list)
    {
      LostIff(list);
      some, id := false, 0;
      if list != [] && list[0].expires == 0 {
        First(list, 0);
        assert Remaining(list, 0)[0] == Timer(list[0].id, 0);
        some, id := true, list[0].id;
        list := list[1..];
      }
    }

    /** timer_bh, with functions that leave the list alone and no tick meanwhile: returns the timers fired, in order. */
    method TimerBh() returns (fired: seq<nat>)
      modifies this`list
      ensures list == old(list)[Due(old(list))..] && NoneDue(list)
      ensures |fired| == Due(old(list)) && forall i :: 0 <= i < |fired| ==> fired[i] == old(list)[i].id
    {
      fired := [];
      ghost var before := list;
      var some, id := FireNext();
      while some
        invariant |fired| <= |before|
        invariant some ==> |fired| < |before| && id == before[|fired|].id && list == before[|fired| + 1..] && Due(before) == |fired| + 1 + Due(list)
        invariant !some ==> list == before[|fired|..] && Due(before) == |fired| && NoneDue(list)
        invariant forall i :: 0 <= i < |fired| ==> fired[i] == before[i].id
        decreases |list|, some
      {
        fired := fired + [id];
        some, id := FireNext();
      }
    }
  }

  lemma AddPast(list: seq<Timer>, i: nat, id: nat, e: nat)
    requires i < |list| && list[i].expires <= e
    ensures list[..i] + Added(list[i..], id, e) == list[..i + 1] + Added(list[i + 1..], id, e - list[i].expires)
  {
    assert list[i..][0] == list[i] && list[i..][1..] == list[i + 1..];
    assert list[..i + 1] == list[..i] + [list[i]];
  }

  lemma AddBefore(list: seq<Timer>, i: nat, id: nat, e: nat)
    requires i < |list| && list[i].expires > e
    ensures list[..i] + Added(list[i..], id, e) == list[..i] + [Timer(id, e), list[i].(expires := list[i].expires - e)] + list[i + 1..]
  {
    assert list[i..][0] == list[i] && list[i..][1..] == list[i + 1..];
  }

  /** The search of del_timer at place i, with the ticks e before it. */
  ghost predicate DeleteAt(list: seq<Timer>, i: nat, id: nat, e: nat)
    requires i <= |list|
  {
    list[..i] + Deleted(list[i..], id) == Deleted(list, id) && Remaining(list[i..], e) == Remaining(list, 0)[i..]
  }

  lemma DeleteStart(list: seq<Timer>, id: nat)
    ensures DeleteAt(list, 0, id, 0)
  {
    assert list[0..] == list && list[..0] == [];
  }

  lemma DeleteNext(list: seq<Timer>, i: nat, id: nat, e: nat)
    requires i < |list| && DeleteAt(list, i, id, e)
    ensures list[i].id != id ==> DeleteAt(list, i + 1, id, e + list[i].expires)
    ensures Remaining(list, 0)[i] == Timer(list[i].id, e + list[i].expires)
  {
    hide Deleted, Remaining;
    RemainNext(list, i, e);
    if list[i].id != id { DeletePast(list, i, id); }
  }

  lemma RemainNext(list: seq<Timer>, i: nat, e: nat)
    requires i < |list| && Remaining(list[i..], e) == Remaining(list, 0)[i..]
    ensures Remaining(list, 0)[i] == Timer(list[i].id, e + list[i].expires)
    ensures Remaining(list[i + 1..], e + list[i].expires) == Remaining(list, 0)[i + 1..]
  {
    hide Remaining;
    First(list[i..], e);
    TailOf(list, i);
    SplitTail(Remaining(list, 0), i, Timer(list[i].id, e + list[i].expires), Remaining(list[i + 1..], e + list[i].expires));
  }

  lemma TailOf(list: seq<Timer>, i: nat)
    requires i < |list|
    ensures list[i..][0] == list[i] && list[i..][1..] == list[i + 1..]
  {
  }

  lemma SplitTail(r: seq<Timer>, i: nat, x: Timer, t: seq<Timer>)
    requires i < |r| && r[i..] == [x] + t
    ensures r[i] == x && r[i + 1..] == t
  {
    assert r[i] == r[i..][0] && r[i + 1..] == r[i..][1..];
  }

  lemma DeletePast(list: seq<Timer>, i: nat, id: nat)
    requires i < |list| && list[i].id != id
    ensures list[..i] + Deleted(list[i..], id) == list[..i + 1] + Deleted(list[i + 1..], id)
  {
    assert list[i..][0] == list[i] && list[i..][1..] == list[i + 1..];
    assert list[..i + 1] == list[..i] + [list[i]];
  }

  lemma DeleteHere(list: seq<Timer>, i: nat, id: nat)
    requires i < |list| && list[i].id == id
    ensures list[..i] + Deleted(list[i..], id) ==
            list[..i] + (if i + 1 < |list| then [list[i + 1].(expires := list[i + 1].expires + list[i].expires)] + list[i + 2..] else [])
  {
    assert list[i..][0] == list[i];
    if i + 1 < |list| { assert list[i..][1] == list[i + 1] && list[i..][2..] == list[i + 2..]; }
  }

  // ---------- every run ----------

  /** Fire is one round of timer_bh, which runs with interrupts enabled while the function is called, so that ticks and
      other calls can come between two rounds; Leave is its end. */
  datatype Step = Add(id: nat, expires: nat) | Del(id: nat) | Clock | Fire | Leave

  /** A timer is added only while it is not on the list, and timer_bh goes on exactly while the first has run out. */
  predicate Able(list: seq<Timer>, st: Step) {
    match st
    case Add(id, _) => !Has(list, id)
    case Fire => list != [] && list[0].expires == 0
    case Leave => list == [] || list[0].expires > 0
    case _ => true
  }

  function Next(list: seq<Timer>, st: Step): seq<Timer> {
    match st
    case Add(id, e) => Added(list, id, e)
    case Del(id) => Deleted(list, id)
    case Clock => Ticked(list)
    case Fire => if list == [] then [] else list[1..]
    case Leave => list
  }

  predicate IsRun(list: seq<Timer>, steps: seq<Step>)
    decreases |steps|
  {
    steps == [] || (Able(list, steps[0]) && IsRun(Next(list, steps[0]), steps[1..]))
  }

  /** No timer is on the list twice. */
  predicate OneEach(list: seq<Timer>) { list == [] || (!Has(list[1..], list[0].id) && OneEach(list[1..])) }

  lemma HasCons(t: Timer, list: seq<Timer>)
    ensures forall id :: Has([t] + list, id) <==> t.id == id || Has(list, id)
  {
    assert ([t] + list)[0] == t;
    assert forall i :: 0 <= i < |list| ==> ([t] + list)[i + 1] == list[i];
  }

  lemma {:induction false} AddedIds(list: seq<Timer>, id: nat, e: nat)
    ensures forall x :: Has(Added(list, id, e), x) <==> x == id || Has(list, x)
    ensures OneEach(list) && !Has(list, id) ==> OneEach(Added(list, id, e))
  {
    if list == [] {
      assert [Timer(id, e)][0].id == id;
    } else {
      var rest := list[1..];
      assert list == [list[0]] + rest;
      if list[0].expires > e {
        var t := list[0].(expires := list[0].expires - e);
        assert Added(list, id, e) == [Timer(id, e)] + ([t] + rest);
        HasCons(Timer(id, e), [t] + rest);
        HasCons(t, rest);
        HasCons(list[0], rest);
      } else {
        AddedIds(rest, id, e - list[0].expires);
        HasCons(list[0], Added(rest, id, e - list[0].expires));
        HasCons(list[0], rest);
      }
    }
  }

  lemma {:induction false} DeletedIds(list: seq<Timer>, id: nat)
    ensures forall x :: Has(Deleted(list, id), x) ==> Has(list, x)
    ensures OneEach(list) ==> OneEach(Deleted(list, id))
  {
    if list != [] {
      var rest := list[1..];
      assert list == [list[0]] + rest;
      if list[0].id != id {
        DeletedIds(rest, id);
        HasCons(list[0], Deleted(rest, id));
        HasCons(list[0], rest);
      } else if |list| > 1 {
        var t := list[1].(expires := list[1].expires + list[0].expires);
        assert rest == [list[1]] + list[2..] && rest[1..] == list[2..];
        assert Deleted(list, id) == [t] + list[2..];
        assert OneEach(list) ==> OneEach(rest) && !Has(rest[1..], rest[0].id) && OneEach(rest[1..]);
        assert ([t] + list[2..])[1..] == list[2..];
        HasCons(t, list[2..]);
        HasCons(list[1], list[2..]);
        HasCons(list[0], rest);
      }
    }
  }

  lemma OneEachStep(list: seq<Timer>, st: Step)
    requires OneEach(list) && Able(list, st)
    ensures OneEach(Next(list, st))
  {
    match st
    case Add(id, e) => AddedIds(list, id, e);
    case Del(id) => DeletedIds(list, id);
    case _ =>
  }

  /** A tick that finds a timer at zero is lost for all the others. */
  predicate Lost(list: seq<Timer>, st: Step) { st.Clock? && list != [] && list[0].expires == 0 }

  function Final(list: seq<Timer>, steps: seq<Step>): seq<Timer>
    decreases |steps|
  {
    if steps == [] then list else Final(Next(list, steps[0]), steps[1..])
  }

  function Clocks(steps: seq<Step>): nat {
    if steps == [] then 0 else (if steps[0].Clock? then 1 else 0) + Clocks(steps[1..])
  }

  function LostClocks(list: seq<Timer>, steps: seq<Step>): (n: nat)
    decreases |steps|
  {
    if steps == [] then 0 else (if Lost(list, steps[0]) then 1 else 0) + LostClocks(Next(list, steps[0]), steps[1..])
  }

  /** The timer is pending with t ticks left. */
  ghost predicate Pending(list: seq<Timer>, id: nat, t: nat) { Timer(id, t) in Remaining(list, 0) }

  predicate Concerns(st: Step, id: nat) { (st.Add? && st.id == id) || (st.Del? && st.id == id) }

  lemma {:induction false} InsertedHas(r: seq<Timer>, t: Timer, x: Timer)
    ensures x in Inserted(r, t) <==> x == t || x in r
  {
    if r != [] && r[0].expires <= t.expires {
      InsertedHas(r[1..], t, x);
      assert r == [r[0]] + r[1..];
    }
  }

  lemma {:induction false} WithoutHas(r: seq<Timer>, id: nat, x: Timer)
    requires x.id != id
    ensures x in WithoutFirst(r, id) <==> x in r
  {
    if r != [] {
      assert r == [r[0]] + r[1..];
      if r[0].id != id { WithoutHas(r[1..], id, x); }
    }
  }

  /** What one step does to a timer that it is not about. */
  lemma StepPending(list: seq<Timer>, st: Step, id: nat, t: nat)
    requires !Concerns(st, id) && Able(list, st) && Pending(list, id, t)
    ensures match st
            case Clock => if Lost(list, st) then Pending(Next(list, st), id, t) else t > 0 && Pending(Next(list, st), id, t - 1)
            case Fire => Pending(Next(list, st), id, t) || (list[0].id == id && t == 0)
            case _ => Pending(Next(list, st), id, t)
  {
    var x := Timer(id, t);
    match st
    case Add(i, e) =>
      AddRefines(list, i, e, 0);
      InsertedHas(Remaining(list, 0), Timer(i, e), x);
    case Del(i) =>
      DeleteRefines(list, i, 0);
      WithoutHas(Remaining(list, 0), i, x);
    case Fire =>
      First(list, 0);
    case Leave =>
    case Clock =>
      if !Lost(list, st) {
        TickRefines(list);
        var r := Remaining(list, 0);
        var i :| 0 <= i < |r| && r[i] == x;
        assert AllLess(r)[i] == Timer(id, t - 1);
      }
  }

  ghost predicate Untouched(steps: seq<Step>, id: nat) { forall i :: 0 <= i < |steps| ==> !Concerns(steps[i], id) }

  /** The step takes the timer off the list, to call its function. */
  predicate Fires(list: seq<Timer>, id: nat, st: Step) { st.Fire? && list != [] && list[0].id == id }

  /** A pending timer at the front that has run out has no ticks left. */
  lemma FrontOnly(list: seq<Timer>, id: nat, t: nat)
    requires OneEach(list) && list != [] && list[0].id == id && list[0].expires == 0 && Pending(list, id, t)
    ensures t == 0
  {
    First(list, 0);
    var rest := list[1..];
    AtLeast(rest, 0);
    var r := Remaining(rest, 0);
    forall i | 0 <= i < |r|
      ensures r[i].id != id
    {
      assert rest[i].id != id;
    }
  }

  /** As long as the timer has not been fired it is pending, and the ticks it has left are those it had, less the ticks that
      have passed and were not lost; it is fired with none left. Between two rounds of timer_bh anything can happen. */
  lemma {:induction false} RunPending(list: seq<Timer>, steps: seq<Step>, id: nat, t: nat) returns (at: nat)
    requires OneEach(list) && IsRun(list, steps) && Untouched(steps, id) && Pending(list, id, t)
    ensures at <= |steps|
    ensures forall k: nat :: k <= at ==> StillPending(list, steps, id, t, k)
    ensures at < |steps| ==> Fires(Final(list, steps[..at]), id, steps[at]) && t + LostClocks(list, steps[..at]) == Clocks(steps[..at])
    decreases |steps|
  {
    hide Pending, Lost, Next, OneEach;
    StartPending(list, steps, id, t);
    if steps == [] {
      at := 0;
    } else {
      StepPending(list, steps[0], id, t);
      if Fires(list, id, steps[0]) {
        FrontOnly(list, id, t);
        assert steps[..0] == [];
        at := 0;
      } else {
        var l, t' := Next(list, steps[0]), if steps[0].Clock? && !Lost(list, steps[0]) then t - 1 else t;
        assert forall i :: 0 <= i < |steps[1..]| ==> steps[1..][i] == steps[i + 1];
        LostIsClock(list, steps[0]);
        OneEachStep(list, steps[0]);
        var at' := RunPending(l, steps[1..], id, t');
        at := at' + 1;
        forall k: nat | k <= at
          ensures StillPending(list, steps, id, t, k)
        {
          if k > 0 { LaterPending(list, steps, id, t, t', k); }
        }
        Unroll(list, steps, at);
      }
    }
  }

  lemma LostIsClock(list: seq<Timer>, st: Step)
    ensures Lost(list, st) ==> st.Clock?
  {
  }

  lemma StartPending(list: seq<Timer>, steps: seq<Step>, id: nat, t: nat)
    requires Pending(list, id, t)
    ensures StillPending(list, steps, id, t, 0) && Clocks(steps[..0]) == 0 && LostClocks(list, steps[..0]) == 0
  {
    assert steps[..0] == [];
  }

  lemma LaterPending(list: seq<Timer>, steps: seq<Step>, id: nat, t: nat, t': nat, k: nat)
    requires 0 < k <= |steps| && StillPending(Next(list, steps[0]), steps[1..], id, t', k - 1)
    requires t' + (if steps[0].Clock? && !Lost(list, steps[0]) then 1 else 0) == t
    ensures StillPending(list, steps, id, t, k)
  {
    hide Pending, Next;
    LostIsClock(list, steps[0]);
    Unroll(list, steps, k);
  }

  /** After k steps the timer is pending, with its ticks less those that passed and were not lost. */
  ghost predicate StillPending(list: seq<Timer>, steps: seq<Step>, id: nat, t: nat, k: nat) {
    && k <= |steps|
    && Clocks(steps[..k]) <= t + LostClocks(list, steps[..k])
    && Pending(Final(list, steps[..k]), id, t + LostClocks(list, steps[..k]) - Clocks(steps[..k]))
  }

  lemma Unroll(list: seq<Timer>, steps: seq<Step>, k: nat)
    requires 0 < k <= |steps|
    ensures Final(list, steps[..k]) == Final(Next(list, steps[0]), steps[1..][..k - 1])
    ensures Clocks(steps[..k]) == (if steps[0].Clock? then 1 else 0) + Clocks(steps[1..][..k - 1])
    ensures LostClocks(list, steps[..k]) == (if Lost(list, steps[0]) then 1 else 0) + LostClocks(Next(list, steps[0]), steps[1..][..k - 1])
  {
    assert steps[..k][0] == steps[0] && steps[..k][1..] == steps[1..][..k - 1];
  }

  // ---------- lost ticks ----------

  /** A tick is lost exactly when some pending timer has no ticks left. */
  lemma LostIff(list: seq<Timer>)
    ensures Lost(list, Clock) <==> exists id :: Pending(list, id, 0)
  {
    if list != [] {
      First(list, 0);
      if list[0].expires == 0 {
        assert Remaining(list, 0)[0] == Timer(list[0].id, 0);
        assert Pending(list, list[0].id, 0);
      } else {
        TickRefines(list);
      }
    }
  }

  lemma TickPending(list: seq<Timer>)
    ensures (exists id :: Pending(list, id, 0)) <==> Lost(list, Clock)
    ensures !Lost(list, Clock) ==> forall id, t: nat :: Pending(Ticked(list), id, t) <==> Pending(list, id, t + 1)
  {
    LostIff(list);
    if !Lost(list, Clock) && list != [] {
      TickRefines(list);
      var r := Remaining(list, 0);
      forall id, t: nat
        ensures Timer(id, t) in AllLess(r) <==> Timer(id, t + 1) in r
      {
        forall i | 0 <= i < |r|
          ensures AllLess(r)[i] == Timer(id, t) <==> r[i] == Timer(id, t + 1)
        {
        }
      }
    }
  }

  /** Every tick is followed by the end of a bottom half before the next one, and no timer is added with no
      ticks; `ready` says that a bottom half has ended. */
  predicate Prompt(steps: seq<Step>, ready: bool) {
    steps == [] ||
    match steps[0]
    case Add(_, e) => e > 0 && Prompt(steps[1..], ready)
    case Clock => ready && Prompt(steps[1..], false)
    case Leave => Prompt(steps[1..], true)
    case _ => Prompt(steps[1..], ready)
  }

  predicate NoneDue(list: seq<Timer>) { list != [] ==> list[0].expires > 0 }

  /** Such a run loses no tick, so every timer fires after exactly the ticks it was added with. */
  lemma {:induction false} PromptLosesNone(list: seq<Timer>, steps: seq<Step>, ready: bool)
    requires IsRun(list, steps) && Prompt(steps, ready) && (ready ==> NoneDue(list))
    ensures LostClocks(list, steps) == 0
    decreases |steps|
  {
    if steps != [] {
      PromptLosesNone(Next(list, steps[0]), steps[1..], if steps[0].Clock? then false else if steps[0].Leave? then true else ready);
    }
  }

  /** A timer added with no ticks makes every other timer late by the next tick. */
  lemma ZeroTimerDelays()
    ensures var list := Next([Timer(1, 1)], Add(2, 0));
            Pending([Timer(1, 1)], 1, 1) && Lost(list, Clock) && Pending(Next(list, Clock), 1, 1)
  {
    First([Timer(1, 1)], 0);
    var list := Added([Timer(1, 1)], 2, 0);
    assert list == [Timer(2, 0), Timer(1, 1)];
    assert list[1..] == [Timer(1, 1)];
    First(list, 0);
    assert Remaining(list, 0) == [Timer(2, 0), Timer(1, 1)];
  }
}
