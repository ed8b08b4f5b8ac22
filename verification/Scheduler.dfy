/** The choice of the next task and the time accounting of linux/kernel/sched.c. */
module Scheduler {
  import opened Bits

  /** A task other than task[0]. */
  datatype Task = Task(running: bool, counter: nat, priority: nat)

  /** The task that runs is named by its place in the list; |tasks| stands for task[0]. */
  datatype State = State(tasks: seq<Task>, cur: nat, need: bool)

  // ---------- schedule ----------

  /** The first of the running tasks with the greatest counter, or task[0] if none is running. */
  predicate IsBest(tasks: seq<Task>, b: nat) {
    if b < |tasks| then
      && tasks[b].running
      && (forall i :: 0 <= i < |tasks| && tasks[i].running ==> tasks[i].counter <= tasks[b].counter)
      && (forall i :: 0 <= i < b && tasks[i].running ==> tasks[i].counter < tasks[b].counter)
    else
      b == |tasks| && forall i :: 0 <= i < |tasks| ==> !tasks[i].running
  }

  function Best(tasks: seq<Task>): (b: nat)
    ensures IsBest(tasks, b)
  {
    if tasks == [] then 0
    else
      var n := |tasks| - 1;
      var b := Best(tasks[..n]);
      if tasks[n].running && (b == n || tasks[n].counter > tasks[b].counter) then n
      else if b == n then n + 1
      else b
  }

  lemma BestOnly(tasks: seq<Task>, b: nat)
    requires IsBest(tasks, b)
    ensures b == Best(tasks)
  {
    var c := Best(tasks);
  }

  function Recharged(tasks: seq<Task>): (r: seq<Task>)
    ensures |r| == |tasks|
  {
    seq(|tasks|, i requires 0 <= i < |tasks| => tasks[i].(counter := tasks[i].counter / 2 + tasks[i].priority))
  }

  /** All running tasks have used up their time. */
  predicate AllUsed(tasks: seq<Task>) {
    Best(tasks) < |tasks| && tasks[Best(tasks)].counter == 0
  }

  function Scheduled(s: State): State {
    State(if AllUsed(s.tasks) then Recharged(s.tasks) else s.tasks, Best(s.tasks), false)
  }

  /** The accounting of do_timer. */
  function Ticked(s: State): State {
    if s.cur >= |s.tasks| then s.(need := true)
    else
      var c := s.tasks[s.cur].counter;
      State(s.tasks[s.cur := s.tasks[s.cur].(counter := if c > 0 then c - 1 else 0)], s.cur, s.need || c <= 1)
  }

  class Cpu {
    var tasks: seq<Task>
    var cur: nat
    var need: bool

    ghost function AsState(): State
      reads this
    {
      State(tasks, cur, need)
    }

    method Schedule()
      modifies this
      ensures AsState() == Scheduled(old(AsState()))
    {
      need := false;
      var c: int, next: nat := -1, |tasks|;
      var i := 0;
      while i < |tasks|
        invariant 0 <= i <= |tasks| && tasks == old(tasks) && !need
        invariant c == -1 ==> next == |tasks| && forall j :: 0 <= j < i ==> !tasks[j].running
        invariant c != -1 ==> next < i && tasks[next].running && c == tasks[next].counter
        invariant c != -1 ==> forall j :: 0 <= j < i && tasks[j].running ==> tasks[j].counter <= c && (j < next ==> tasks[j].counter < c)
      {
        if tasks[i].running && tasks[i].counter > c {
          c, next := tasks[i].counter, i;
        }
        i := i + 1;
      }
      BestOnly(tasks, next);
      if c == 0 {
        i := 0;
        while i < |tasks|
          invariant 0 <= i <= |tasks| == |old(tasks)| && !need
          invariant forall j :: 0 <= j < i ==> tasks[j] == Recharged(old(tasks))[j]
          invariant forall j :: i <= j < |tasks| ==> tasks[j] == old(tasks)[j]
        {
          tasks := tasks[i := tasks[i].(counter := tasks[i].counter / 2 + tasks[i].priority)];
          i := i + 1;
        }
        assert tasks == Recharged(old(tasks));
      }
      cur := next;
    }

    method DoTimer()
      modifies this
      ensures AsState() == Ticked(old(AsState()))
    {
      if cur >= |tasks| {
        need := true;
      } else {
        var c := tasks[cur].counter as int - 1;
        if c <= 0 {
          c := 0;
          need := true;
        }
        tasks := tasks[cur := tasks[cur].(counter := c)];
      }
    }
  }

  // ---------- runs of a fixed set of runnable tasks ----------

  /** Ticks and calls of schedule in any order: a wanted reschedule waits until the return to user mode, and
      ticks may come before it. */
  datatype Event = Tick | Reschedule

  function Next(s: State, e: Event): State { if e.Tick? then Ticked(s) else Scheduled(s) }

  function End(s: State, es: seq<Event>): State
    decreases |es|
  {
    if es == [] then s else End(Next(s, es[0]), es[1..])
  }

  /** The ticks during which task i ran. */
  function Ran(s: State, es: seq<Event>, i: nat): nat
    decreases |es|
  {
    if es == [] then 0 else (if es[0].Tick? && s.cur == i then 1 else 0) + Ran(Next(s, es[0]), es[1..], i)
  }

  /** Task i runs although its time is used up. */
  predicate Over(s: State, i: nat) { s.cur == i < |s.tasks| && s.tasks[i].counter == 0 }

  /** The ticks that task i ran beyond its time. */
  function Overrun(s: State, es: seq<Event>, i: nat): nat
    decreases |es|
  {
    if es == [] then 0 else (if es[0].Tick? && Over(s, i) then 1 else 0) + Overrun(Next(s, es[0]), es[1..], i)
  }

  /** The ticks that anybody ran beyond their time. */
  function Overruns(s: State, es: seq<Event>): nat
    decreases |es|
  {
    if es == [] then 0 else (if es[0].Tick? && Over(s, s.cur) then 1 else 0) + Overruns(Next(s, es[0]), es[1..])
  }

  function Ticks(es: seq<Event>): nat {
    if es == [] then 0 else (if es[0].Tick? then 1 else 0) + Ticks(es[1..])
  }

  /** Whether some call of schedule in the run recharged the counters. */
  predicate Recharges(s: State, es: seq<Event>)
    decreases |es|
  {
    es != [] && ((es[0].Reschedule? && AllUsed(s.tasks)) || Recharges(Next(s, es[0]), es[1..]))
  }

  /** A runnable task runs. */
  predicate Busy(s: State) {
    && (forall i :: 0 <= i < |s.tasks| ==> s.tasks[i].priority >= 1)
    && s.cur < |s.tasks| && s.tasks[s.cur].running
  }

  predicate SameTasks(a: seq<Task>, b: seq<Task>) {
    |a| == |b| && forall i :: 0 <= i < |a| ==> a[i].running == b[i].running && a[i].priority == b[i].priority
  }

  lemma BusyStep(s: State, e: Event)
    requires Busy(s)
    ensures Busy(Next(s, e)) && SameTasks(s.tasks, Next(s, e).tasks)
  {
    if e.Reschedule? {
      assert Best(s.tasks) < |s.tasks|;
    }
  }

  /** Without a recharge, for every run and whatever runs: the ticks that a task has run and its counter make up
      what it started with and the ticks that it ran beyond its time. */
  lemma {:induction false} Conserved(s: State, es: seq<Event>, i: nat)
    requires !Recharges(s, es) && i < |s.tasks|
    ensures |End(s, es).tasks| == |s.tasks|
    ensures End(s, es).tasks[i].counter + Ran(s, es, i) == s.tasks[i].counter + Overrun(s, es, i)
    decreases |es|
  {
    if es != [] {
      Conserved(Next(s, es[0]), es[1..], i);
    }
  }

  /** The time left to the running tasks. */
  function TimeLeft(tasks: seq<Task>): nat {
    if tasks == [] then 0
    else TimeLeft(tasks[..|tasks| - 1]) + if tasks[|tasks| - 1].running then tasks[|tasks| - 1].counter else 0
  }

  lemma {:induction false} OneLess(tasks: seq<Task>, i: nat)
    requires i < |tasks| && tasks[i].running && tasks[i].counter > 0
    ensures TimeLeft(tasks[i := tasks[i].(counter := tasks[i].counter - 1)]) == TimeLeft(tasks) - 1
  {
    var n := |tasks| - 1;
    var t := tasks[i := tasks[i].(counter := tasks[i].counter - 1)];
    if i < n {
      OneLess(tasks[..n], i);
      assert t[..n] == tasks[..n][i := tasks[..n][i].(counter := tasks[..n][i].counter - 1)];
    } else {
      assert t[..n] == tasks[..n];
    }
  }

  /** Without a recharge every tick uses up one unit of the time left or is beyond somebody's time. */
  lemma {:induction false} TicksUseTime(s: State, es: seq<Event>)
    requires Busy(s) && !Recharges(s, es)
    ensures TimeLeft(End(s, es).tasks) + Ticks(es) == TimeLeft(s.tasks) + Overruns(s, es)
    decreases |es|
  {
    if es != [] {
      BusyStep(s, es[0]);
      if es[0].Tick? {
        if s.tasks[s.cur].counter > 0 {
          OneLess(s.tasks, s.cur);
        } else {
          assert Next(s, es[0]).tasks == s.tasks;
        }
      }
      TicksUseTime(Next(s, es[0]), es[1..]);
    }
  }

  lemma {:induction false} NothingLeft(tasks: seq<Task>)
    requires forall i :: 0 <= i < |tasks| && tasks[i].running ==> tasks[i].counter == 0
    ensures TimeLeft(tasks) == 0
  {
    if tasks != [] { NothingLeft(tasks[..|tasks| - 1]); }
  }

  /** Between a recharge and the next one every runnable task runs the ticks that the first granted it and its
      overrun. */
  lemma RunsWhatWasGranted(s: State, es: seq<Event>, i: nat)
    requires Busy(s) && !Recharges(s, es) && AllUsed(End(s, es).tasks)
    requires i < |s.tasks| && s.tasks[i].running
    ensures Ran(s, es, i) == s.tasks[i].counter + Overrun(s, es, i) && Ticks(es) == TimeLeft(s.tasks) + Overruns(s, es)
  {
    Conserved(s, es, i);
    SameEnd(s, es);
    TicksUseTime(s, es);
    NothingLeft(End(s, es).tasks);
  }

  lemma {:induction false} SameEnd(s: State, es: seq<Event>)
    requires Busy(s)
    ensures Busy(End(s, es)) && SameTasks(s.tasks, End(s, es).tasks)
    decreases |es|
  {
    if es != [] {
      BusyStep(s, es[0]);
      SameEnd(Next(s, es[0]), es[1..]);
    }
  }

  /** Every wanted reschedule is honoured before the next tick. */
  predicate Prompt(s: State, es: seq<Event>)
    decreases |es|
  {
    es == [] || ((es[0].Tick? ==> !s.need) && Prompt(Next(s, es[0]), es[1..]))
  }

  /** A runnable task runs, and a reschedule is wanted exactly if its time is used up: so it is after every call of
      schedule. */
  predicate Ready(s: State) { Busy(s) && (s.need <==> s.tasks[s.cur].counter == 0) }

  lemma ReadyStep(s: State, e: Event)
    requires Busy(s) && (Ready(s) || e.Reschedule?)
    ensures Ready(Next(s, e))
  {
    BusyStep(s, e);
    if e.Reschedule? && !AllUsed(s.tasks) { assert s.tasks[Best(s.tasks)].counter > 0; }
  }

  /** Nobody overruns exactly if every wanted reschedule comes before the next tick. */
  lemma {:induction false} PromptIff(s: State, es: seq<Event>)
    requires Ready(s)
    ensures Overruns(s, es) == 0 <==> Prompt(s, es)
    decreases |es|
  {
    if es != [] {
      ReadyStep(s, es[0]);
      PromptIff(Next(s, es[0]), es[1..]);
    }
  }

  lemma {:induction false} OneOfAll(s: State, es: seq<Event>, i: nat)
    ensures Overrun(s, es, i) <= Overruns(s, es)
    decreases |es|
  {
    if es != [] { OneOfAll(Next(s, es[0]), es[1..], i); }
  }

  lemma {:induction false} SomeOverrun(s: State, es: seq<Event>) returns (i: nat)
    requires Busy(s) && Overruns(s, es) > 0
    ensures i < |s.tasks| && s.tasks[i].running && Overrun(s, es, i) > 0
    decreases |es|
  {
    if es[0].Tick? && Over(s, s.cur) {
      i := s.cur;
    } else {
      BusyStep(s, es[0]);
      i := SomeOverrun(Next(s, es[0]), es[1..]);
    }
  }

  /** Task i is runnable and ran exactly for the time that it had. */
  predicate RanItsTime(s: State, es: seq<Event>, i: nat) {
    i < |s.tasks| && s.tasks[i].running ==> Ran(s, es, i) == s.tasks[i].counter
  }

  /** Between a recharge and the next one every runnable task runs exactly what it was granted if and only if every wanted
      reschedule comes before the next tick. */
  lemma ExactlyGranted(s: State, es: seq<Event>)
    requires Ready(s) && !Recharges(s, es) && AllUsed(End(s, es).tasks)
    ensures (forall i :: RanItsTime(s, es, i)) <==> Prompt(s, es)
  {
    PromptIff(s, es);
    if Overruns(s, es) == 0 {
      forall i: nat
        ensures RanItsTime(s, es, i)
      {
        if i < |s.tasks| && s.tasks[i].running {
          RunsWhatWasGranted(s, es, i);
          OneOfAll(s, es, i);
        }
      }
    } else {
      var i := SomeOverrun(s, es);
      RunsWhatWasGranted(s, es, i);
      assert !RanItsTime(s, es, i);
    }
  }

  /** One task with one tick left, and two ticks before schedule is called: it runs for both. */
  lemma OverrunWitness()
    ensures var s := State([Task(true, 1, 15)], 0, false);
            Busy(s) && !Recharges(s, [Tick, Tick]) && Ran(s, [Tick, Tick], 0) == 2 && Overrun(s, [Tick, Tick], 0) == 1
  {
    var s := State([Task(true, 1, 15)], 0, false);
    var s1 := Next(s, Tick);
    assert s1 == State([Task(true, 0, 15)], 0, true);
    assert [Tick, Tick][1..] == [Tick] && [Tick][1..] == [];
    assert Ran(s1, [Tick], 0) == 1 && Overrun(s1, [Tick], 0) == 1 && !Recharges(s1, [Tick]);
  }

  /** Nobody starves: a run with more ticks than there is time left, overruns aside, has a recharge in it. */
  lemma RechargeComes(s: State, es: seq<Event>)
    requires Busy(s) && Ticks(es) > TimeLeft(s.tasks) + Overruns(s, es)
    ensures Recharges(s, es)
  {
    if !Recharges(s, es) { TicksUseTime(s, es); }
  }

  /** A recharge grants every runnable task exactly its priority, and puts a runnable task in charge. */
  lemma RechargeGrants(s: State, i: nat)
    requires AllUsed(s.tasks) && i < |s.tasks| && s.tasks[i].running
    ensures Scheduled(s).tasks[i].counter == s.tasks[i].priority
    ensures (forall j :: 0 <= j < |s.tasks| ==> s.tasks[j].priority >= 1) ==> Busy(Scheduled(s))
  {
  }

  predicate Bounded(tasks: seq<Task>) { forall i :: 0 <= i < |tasks| ==> tasks[i].counter <= 2 * tasks[i].priority }

  /** A counter of at most twice the priority stays so, for sleeping tasks too. */
  lemma {:induction false} StaysBounded(s: State, es: seq<Event>)
    requires Bounded(s.tasks)
    ensures Bounded(End(s, es).tasks)
    decreases |es|
  {
    if es != [] {
      assert Bounded(Next(s, es[0]).tasks);
      StaysBounded(Next(s, es[0]), es[1..]);
    }
  }

  // ---------- sleeping tasks ----------

  /** How often the run recharged the counters. */
  function Recharging(s: State, es: seq<Event>): nat
    decreases |es|
  {
    if es == [] then 0 else (if es[0].Reschedule? && AllUsed(s.tasks) then 1 else 0) + Recharging(Next(s, es[0]), es[1..])
  }

  lemma SleeperStep(s: State, e: Event, i: nat)
    requires Busy(s) && i < |s.tasks| && !s.tasks[i].running
    ensures Busy(Next(s, e)) && |Next(s, e).tasks| == |s.tasks| && Next(s, e).tasks[i].priority == s.tasks[i].priority
    ensures !Next(s, e).tasks[i].running
    ensures Next(s, e).tasks[i].counter == if e.Reschedule? && AllUsed(s.tasks) then s.tasks[i].counter / 2 + s.tasks[i].priority else s.tasks[i].counter
  {
    BusyStep(s, e);
  }

  lemma Halved(c: nat, p: nat, m: nat)
    requires m >= 1
    ensures (c / 2 + p - 2 * p) / m == (c - 2 * p) / (2 * m)
  {
    assert c / 2 + p - 2 * p == (c - 2 * p) / 2;
    HalfOf(c - 2 * p, m);
  }

  /** A sleeping task draws near to twice its priority: over every run, each recharge halves what its counter is short of that or
      has in excess, rounded down, so that after n of them the distance is the first one divided by two to the n. */
  lemma {:induction false} SleeperGains(s: State, es: seq<Event>, i: nat)
    requires Busy(s) && i < |s.tasks| && !s.tasks[i].running
    ensures |End(s, es).tasks| == |s.tasks|
    ensures End(s, es).tasks[i].counter - 2 * s.tasks[i].priority ==
            (s.tasks[i].counter - 2 * s.tasks[i].priority) / Pow2(Recharging(s, es))
    decreases |es|
  {
    hide Busy, Next, AllUsed;
    if es != [] {
      var t, n := Next(s, es[0]), Recharging(Next(s, es[0]), es[1..]);
      SleeperStep(s, es[0], i);
      SleeperGains(t, es[1..], i);
      assert Pow2(n + 1) == 2 * Pow2(n);
      Halved(s.tasks[i].counter, s.tasks[i].priority, Pow2(n));
    }
  }
}
