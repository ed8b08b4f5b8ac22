/** The calls that change signal masks and actions, and do_signal itself (linux/kernel/signal.c). */
module SignalCalls {
  import opened Signals

  const TASK_SIZE: nat := 0xC000_0000
  const SIGCHLD: nat := 17
  const SIGCONT: nat := 18
  const SIGWINCH: nat := 28
  const Stops: set<nat> := {19, 20, 21, 22}

  // ---------- masks in every reachable state ----------

  datatype Masks = Masks(blocked: set<nat>, actions: seq<Action>)

  datatype How = Block | Unblock | SetMask

  /** What changes a mask or an action; the arguments are any that a program can pass. */
  datatype Call =
    | Procmask(how: How, arg: set<nat>)
    | Setmask(arg: set<nat>)
    | Suspend(arg: set<nat>)
    | Signal(signum: int, handler: nat)
    | SetAction(signum: int, handler: nat, mask: set<nat>, nomask: bool, oneshot: bool)
    | Deliver(sigs: seq<nat>)
    | Return(oldmask: set<nat>)

  predicate Settable(signum: int) { 1 <= signum <= NSIG && signum != SIGKILL && signum != SIGSTOP }

  function Reset(acts: seq<Action>, s: nat): seq<Action> {
    if 1 <= s <= |acts| && acts[s - 1].oneshot then acts[s - 1 := acts[s - 1].(handler := 0)] else acts
  }

  function Delivered(m: Masks, sigs: seq<nat>): Masks
    decreases |sigs|
  {
    if sigs == [] then m
    else
      var r, s := Delivered(m, sigs[..|sigs| - 1]), sigs[|sigs| - 1];
      if 1 <= s <= |r.actions| then Masks(r.blocked + r.actions[s - 1].mask, Reset(r.actions, s)) else r
  }

  function Apply(m: Masks, c: Call): Masks {
    match c
    case Procmask(how, set_) =>
      var new_ := Blockable(set_);
      (match how
       case Block => m.(blocked := m.blocked + new_)
       case Unblock => m.(blocked := m.blocked - new_)
       case SetMask => m.(blocked := new_))
    case Setmask(set_) => m.(blocked := Blockable(set_))
    case Suspend(set_) => m.(blocked := Blockable(set_))
    case Signal(n, h) =>
      if Settable(n) && n <= |m.actions| && h < TASK_SIZE then m.(actions := m.actions[n - 1 := Action(h, {}, true)]) else m
    case SetAction(n, h, mask, nomask, oneshot) =>
      if Settable(n) && n <= |m.actions| && h < TASK_SIZE
      then m.(actions := m.actions[n - 1 := Action(h, if nomask then {} else Blockable(mask + {n}), oneshot)]) else m
    case Deliver(sigs) => Delivered(m, sigs)
    case Return(oldmask) => m.(blocked := Blockable(oldmask))
  }

  /** SIGKILL and SIGSTOP are in no mask. */
  ghost predicate Safe(m: Masks) {
    m.blocked !! Unblockable && forall i :: 0 <= i < |m.actions| ==> m.actions[i].mask !! Unblockable
  }

  lemma {:induction false} DeliveredSafe(m: Masks, sigs: seq<nat>)
    requires Safe(m)
    ensures Safe(Delivered(m, sigs))
    decreases |sigs|
  {
    if sigs != [] { DeliveredSafe(m, sigs[..|sigs| - 1]); }
  }

  function ApplyAll(m: Masks, calls: seq<Call>): Masks
    decreases |calls|
  {
    if calls == [] then m else ApplyAll(Apply(m, calls[0]), calls[1..])
  }

  /** In no reachable state is SIGKILL or SIGSTOP blocked. */
  lemma {:induction false} NeverBlocked(m: Masks, calls: seq<Call>)
    requires Safe(m)
    ensures Safe(ApplyAll(m, calls))
    decreases |calls|
  {
    if calls != [] {
      if calls[0].Deliver? { DeliveredSafe(m, calls[0].sigs); }
      NeverBlocked(Apply(m, calls[0]), calls[1..]);
    }
  }

  /** Of the signals that may be blocked: blocking adds those asked for, unblocking takes them away, and every other
      call that sets the mask leaves exactly those asked for. */
  lemma MaskAfter(m: Masks, c: Call, s: nat)
    requires c.Procmask? || c.Setmask? || c.Suspend? || c.Return?
    ensures var asked := s in (if c.Return? then c.oldmask else c.arg) && s != SIGKILL && s != SIGSTOP;
            && Apply(m, c).actions == m.actions
            && (s in Apply(m, c).blocked <==>
                if c.Procmask? && c.how == Block then s in m.blocked || asked
                else if c.Procmask? && c.how == Unblock then s in m.blocked && !asked
                else asked)
  {
  }

  /** Signals that are handled are blocked by their masks, and their handlers are taken away if they are for one signal only;
      everything else about the actions stays. */
  lemma {:induction false} DeliveredEffect(m: Masks, sigs: seq<nat>, s: nat)
    requires InActions(sigs, m.actions) && 1 <= s <= |m.actions|
    ensures var r := Delivered(m, sigs);
            && r.blocked == m.blocked + MaskUnion(m.actions, sigs) && |r.actions| == |m.actions|
            && r.actions[s - 1] == if s in sigs && m.actions[s - 1].oneshot then m.actions[s - 1].(handler := 0) else m.actions[s - 1]
    decreases |sigs|
  {
    if sigs != [] {
      var n := |sigs| - 1;
      assert sigs == sigs[..n] + [sigs[n]];
      DeliveredEffect(m, sigs[..n], s);
      DeliveredEffect(m, sigs[..n], sigs[n]);
    }
  }

  // ---------- do_signal ----------

  function Elements(sigs: seq<nat>): set<nat> { set s | s in sigs }

  predicate Ascending(sigs: seq<nat>) { forall i, j :: 0 <= i < j < |sigs| ==> sigs[i] < sigs[j] }

  predicate Caught(acts: seq<Action>, s: nat) { 1 <= s <= |acts| && acts[s - 1].handler > 1 }

  /** What the default action does to a process that is not init. */
  predicate Fatal(acts: seq<Action>, init: bool, s: nat) {
    1 <= s <= |acts| && acts[s - 1].handler == 0 && !init && s !in {SIGCONT, SIGCHLD, SIGWINCH} && s !in Stops
  }

  /** The default action ends every process but init, except for seventeen, eighteen and twenty-eight (child, continue and window
      size), which it ignores, and nineteen to twenty-two, which stop the process. */
  lemma FatalSignals(acts: seq<Action>, init: bool, s: nat)
    requires |acts| == NSIG
    ensures Fatal(acts, init, s) <==>
            !init && (1 <= s <= 16 || 23 <= s <= 27 || 29 <= s <= 32) && acts[s - 1].handler == 0
  {
  }

  /** The signals that the first loop of do_signal takes, from the lowest up: pending, not blocked, and in the mask of no
      caught signal that is taken before. */
  ghost predicate Takes(pending: set<nat>, blocked: set<nat>, acts: seq<Action>, s: nat)
    decreases s
  {
    s in pending && s !in blocked && forall r: nat :: r < s && Caught(acts, r) && Takes(pending, blocked, acts, r) ==> s !in acts[r - 1].mask
  }

  /** One of them is fatal. */
  ghost predicate Dies(pending: set<nat>, blocked: set<nat>, acts: seq<Action>, init: bool) {
    exists s :: Takes(pending, blocked, acts, s) && Fatal(acts, init, s)
  }

  /** Those of them that are caught. */
  ghost function Handled(pending: set<nat>, blocked: set<nat>, acts: seq<Action>): set<nat> {
    set s | s in pending && Takes(pending, blocked, acts, s) && Caught(acts, s)
  }

  /** The choice of signals to handle: none is in the mask of a lower one, and a signal is still pending exactly if it was
      blocked or a chosen lower one masks it. */
  ghost predicate Chosen(pending: set<nat>, blocked: set<nat>, acts: seq<Action>, handlers: set<nat>, left: set<nat>) {
    && handlers <= pending - blocked && left <= pending && handlers !! left
    && (forall s :: s in handlers ==> Caught(acts, s))
    && (forall s, t :: s in handlers && t in handlers && s < t ==> t !in acts[s - 1].mask)
    && (forall t :: t in pending - blocked && Caught(acts, t) && t !in handlers ==> t in left)
    && (forall t :: t in pending ==> (t in left <==> t in blocked || exists s :: s in handlers && s < t && t in acts[s - 1].mask))
  }

  class Task {
    var user: User
    var pending: set<nat>
    var actions: seq<Action>

    ghost function AsMasks(): Masks
      reads this
    {
      Masks(user.blocked, actions)
    }

    ghost predicate Valid()
      reads this
    {
      |actions| == NSIG && forall s :: s in pending ==> 1 <= s <= NSIG
    }

    method Sigprocmask(how: How, arg: set<nat>)
      modifies this
      ensures AsMasks() == Apply(old(AsMasks()), Procmask(how, arg)) && pending == old(pending)
      ensures forall s :: s in user.blocked <==>
                match how
                case Block => s in old(user).blocked || (s in arg && s !in Unblockable)
                case Unblock => s in old(user).blocked && (s !in arg || s in Unblockable)
                case SetMask => s in arg && s !in Unblockable
      ensures old(Safe(AsMasks())) ==> Safe(AsMasks())
    {
      var newSet := Blockable(arg);
      match how
      case Block => user := user.(blocked := user.blocked + newSet);
      case Unblock => user := user.(blocked := user.blocked - newSet);
      case SetMask => user := user.(blocked := newSet);
    }

    method Sigaction(signum: int, handler: nat, mask: set<nat>, nomask: bool, oneshot: bool) returns (ok: bool)
      requires Valid()
      modifies this
      ensures Valid() && AsMasks() == Apply(old(AsMasks()), SetAction(signum, handler, mask, nomask, oneshot))
      ensures ok <==> Settable(signum) && handler < TASK_SIZE
      ensures ok ==> actions[signum - 1].handler == handler && actions[signum - 1].oneshot == oneshot
      ensures ok ==> forall s :: s in actions[signum - 1].mask <==> !nomask && (s in mask || s == signum) && s !in Unblockable
      ensures forall i :: 0 <= i < NSIG && !(ok && i == signum - 1) ==> actions[i] == old(actions)[i]
      ensures pending == if ok && Discards(signum, handler) then old(pending) - {signum} else old(pending)
    {
      if signum < 1 || signum > NSIG || signum == SIGKILL || signum == SIGSTOP {
        return false;
      }
      var m := mask;
      if nomask {
        m := {};
      } else {
        m := Blockable(m + {signum});
      }
      if handler >= TASK_SIZE {
        return false;
      }
      actions := actions[signum - 1 := Action(handler, m, oneshot)];
      CheckPending(signum);
      return true;
    }

    method CheckPending(signum: nat)
      requires Valid() && 1 <= signum <= NSIG
      modifies this`pending
      ensures Valid() && pending == if Discards(signum, actions[signum - 1].handler) then old(pending) - {signum} else old(pending)
    {
      if actions[signum - 1].handler == 1 {
        if signum == SIGCHLD {
          return;
        }
        pending := pending - {signum};
        return;
      }
      if actions[signum - 1].handler == 0 {
        if signum != SIGCONT && signum != SIGCHLD && signum != SIGWINCH {
          return;
        }
        pending := pending - {signum};
      }
    }

    /** The first loop of do_signal, without tracing: stops at a fatal signal. */
    method Collect(init: bool) returns (dead: bool, handlers: set<nat>)
      requires Valid()
      modifies this`pending
      ensures Valid()
      ensures dead <==> Dies(old(pending), user.blocked, actions, init)
      ensures !dead ==> handlers == Handled(old(pending), user.blocked, actions)
      ensures !dead ==> Chosen(old(pending), user.blocked, actions, handlers, pending)
    {
      hide Chosen, Takes, Choosing;
      ChooseStart(pending, user.blocked, actions, init);
      handlers, dead := {}, false;
      var masked := user.blocked;
      while pending - masked != {}
        invariant Valid()
        invariant Choosing(old(pending), user.blocked, actions, init, handlers, pending, masked)
        decreases pending
      {
        var open := pending - masked;
        var s := Lowest(open);
        assert forall t :: t in pending && t !in masked ==> t in open;
        ChooseNext(old(pending), user.blocked, actions, init, handlers, pending, masked, s);
        pending := pending - {s};
        if actions[s - 1].handler == 1 {
          continue;
        }
        if actions[s - 1].handler == 0 {
          if init || s in {SIGCONT, SIGCHLD, SIGWINCH} || s in Stops {
            continue;
          }
          assert Fatal(actions, init, s);
          dead := true;
          return;
        }
        handlers := handlers + {s};
        masked := masked + actions[s - 1].mask;
      }
      AllChosen(old(pending), user.blocked, actions, init, handlers, pending, masked);
    }

    /** Takes the last frame off again, or kills the task over a bad one. */
    method SysSigreturn() returns (alive: bool)
      modifies this`user
      ensures alive <==> Sigreturn(old(user)).Resumed?
      ensures user == if alive then Sigreturn(old(user)).user else old(user)
      ensures alive ==> user.blocked !! Unblockable
    {
      var r := user.regs;
      if !HasWords(user.mem, r.esp, 22) {
        return false;
      }
      var c := Load(user.mem, r.esp, 22);
      if !AllNum(c, Numbers) || !c[16].Bits? || !c[20].Bits? {
        return false;
      }
      var blocked := Blockable(c[20].b);
      if !SegOk(c[3].n) {
        return false;
      }
      r := r.(ds := c[3].n);
      if !SegOk(c[2].n) {
        return false;
      }
      r := r.(es := c[2].n);
      if !SegOk(c[1].n) {
        return false;
      }
      r := r.(fs := c[1].n);
      if !SegOk(c[0].n) {
        return false;
      }
      r := r.(gs := c[0].n);
      if !StrictOk(c[18].n) {
        return false;
      }
      r := r.(ss := c[18].n);
      if !StrictOk(c[15].n) {
        return false;
      }
      r := r.(cs := c[15].n, eip := c[14].n, ecx := c[10].n, edx := c[9].n, ebx := c[8].n, esp := c[7].n, ebp := c[6].n,
              edi := c[4].n, esi := c[5].n);
      r := r.(eflags := r.eflags - Restored);
      r := r.(eflags := r.eflags + (c[16].b * Restored), eax := c[11].n);
      user := User(r, blocked, user.mem);
      return true;
    }

    /** The second loop of do_signal, for a program on the ordinary stack. */
    method Stack(handlers: set<nat>, oldmask: set<nat>, trap: seq<nat>) returns (ok: bool, ghost sigs: seq<nat>)
      requires Valid() && |trap| == 3 && user.regs.ss == USER_DS && forall s :: s in handlers ==> 1 <= s <= NSIG
      modifies this`user, this`actions
      ensures Ascending(sigs) && InActions(sigs, old(actions)) && forall s :: s in sigs ==> s in handlers
      ensures ok ==> Elements(sigs) == handlers && old(user).regs.esp >= FRAME * |sigs|
      ensures ok <==> old(user).regs.esp >= FRAME * |handlers|
      ensures ok ==> user == Entered(PushAll(Interrupted(old(user), oldmask), sigs, old(actions), trap))
      ensures ok && sigs != [] ==> Called(user, sigs[|sigs| - 1]) && user.regs.eip == old(actions)[sigs[|sigs| - 1] - 1].handler
      ensures ok ==> AsMasks() == Delivered(old(AsMasks()), sigs)
    {
      hide Called, Stacking, PushAll, Delivered;
      ghost var b0, acts, m0 := Interrupted(user, oldmask), actions, AsMasks();
      var b := Build(user.mem, user.regs.esp, user.regs.eip, user.regs, user.blocked, oldmask);
      sigs, ok := [], true;
      StackStart(b0, acts, handlers, m0, trap);
      var signr := 1;
      while signr <= NSIG
        invariant 1 <= signr <= NSIG + 1 && Stacking(b0, b, sigs, acts, actions, handlers, signr, m0, trap)
      {
        StackNext(b0, b, sigs, acts, actions, handlers, signr, m0, trap);
        if signr in handlers {
          if b.fp < FRAME {
            OneMore(sigs, handlers, signr);
            ok := false;
            return;
          }
          b := Push(b, signr, actions[signr - 1], trap);
          actions := Reset(actions, signr);
          sigs := sigs + [signr];
        }
        signr := signr + 1;
      }
      StackEnd(b0, b, sigs, acts, actions, handlers, signr, m0, trap);
      assert Elements(sigs) == handlers;
      Distinct(sigs);
      if sigs != [] { EntersLast(b0, sigs, acts, trap); }
      user := Entered(b);
    }

    /** do_signal without tracing or restarted system calls: the task dies, goes on, or enters the handler of the highest
        chosen signal, from which the handlers of all the others follow in turn and then the interrupted program. */
    method DoSignal(init: bool, oldmask: set<nat>, trap: seq<nat>) returns (dead: bool, called: bool, ghost sigs: seq<nat>)
      requires Valid() && |trap| == 3 && user.regs.ss == USER_DS
      modifies this
      ensures Ascending(sigs) && InActions(sigs, old(actions))
      ensures dead <==> || Dies(old(pending), old(user).blocked, old(actions), init)
                        || old(user).regs.esp < FRAME * |Handled(old(pending), old(user).blocked, old(actions))|
      ensures !dead ==> Chosen(old(pending), old(user).blocked, old(actions), Elements(sigs), pending)
      ensures !dead ==> Elements(sigs) == Handled(old(pending), old(user).blocked, old(actions))
      ensures !dead ==> AsMasks() == Delivered(old(AsMasks()), sigs) && (called <==> sigs != [])
      ensures !dead && !called ==> user == old(user)
      ensures !dead && called ==> Called(user, sigs[|sigs| - 1]) && user.regs.eip == old(actions)[sigs[|sigs| - 1] - 1].handler
      ensures !dead && called && UserRegs(old(user).regs) ==> Unwinds(user, Interrupted(old(user), oldmask), sigs, old(actions))
    {
      hide Called, Chosen, Unwinds, PushAll, Delivered, Dies, Handled, UserRegs;
      var handlers: set<nat>;
      sigs, called := [], false;
      dead, handlers := Collect(init);
      if dead {
        return;
      }
      ChosenInRange(old(pending), user.blocked, actions, handlers, pending);
      if handlers == {} {
        assert handlers == Elements(sigs);
        NoneDelivered(AsMasks());
        return;
      }
      var ok: bool;
      ok, sigs := Stack(handlers, oldmask, trap);
      if !ok {
        dead := true;
        return;
      }
      if UserRegs(old(user).regs) { UnwindsAll(old(user), oldmask, sigs, old(actions), trap); }
      called := true;
    }
  }

  lemma ChosenInRange(before: set<nat>, blocked: set<nat>, acts: seq<Action>, handlers: set<nat>, left: set<nat>)
    requires Chosen(before, blocked, acts, handlers, left)
    ensures handlers <= before && forall s :: s in handlers ==> 1 <= s <= |acts|
  {
  }

  lemma NoneDelivered(m: Masks)
    ensures Delivered(m, []) == m
  {
  }

  /** Every way in which the handlers may return: they start from the highest signal down, and then the interrupted
      program goes on. */
  ghost predicate Unwinds(start: User, b: Build, sigs: seq<nat>, acts: seq<Action>)
    requires InActions(sigs, acts)
  {
    forall rets: seq<User> :: |rets| == |sigs| && Returning(start, rets) ==>
      && (forall k :: 0 <= k < |sigs| ==> Starts(After(start, rets, k), b, sigs, acts, k))
      && GoesOn(After(start, rets, |sigs|), b)
  }

  lemma UnwindsAll(u: User, oldmask: set<nat>, sigs: seq<nat>, acts: seq<Action>, trap: seq<nat>)
    requires |trap| == 3 && u.regs.esp >= FRAME * |sigs| && InActions(sigs, acts) && UserRegs(u.regs) && sigs != []
    ensures Unwinds(Entered(PushAll(Interrupted(u, oldmask), sigs, acts, trap)), Interrupted(u, oldmask), sigs, acts)
  {
    hide Returning, Starts, GoesOn, After, PushAll, Entered, UserRegs;
    var b := Interrupted(u, oldmask);
    var start := Entered(PushAll(b, sigs, acts, trap));
    forall rets: seq<User> | |rets| == |sigs| && Returning(start, rets)
      ensures (forall k :: 0 <= k < |sigs| ==> Starts(After(start, rets, k), b, sigs, acts, k)) && GoesOn(After(start, rets, |sigs|), b)
    {
      forall k | 0 <= k < |sigs|
        ensures Starts(After(start, rets, k), b, sigs, acts, k)
      {
        HandlerStarts(b, sigs, acts, trap, rets, k);
      }
      AllReturned(b, sigs, acts, trap, rets);
    }
  }

  /** The second loop under way: `sigs` are the signals below signr that are to be handled, with a frame each. */
  ghost predicate Stacking(b0: Build, b: Build, sigs: seq<nat>, acts: seq<Action>, now: seq<Action>, handlers: set<nat>, signr: nat,
                           m0: Masks, trap: seq<nat>)
    requires |trap| == 3
  {
    && |now| == |acts| == NSIG && Ascending(sigs) && InActions(sigs, acts)
    && (forall i :: 0 <= i < |sigs| ==> sigs[i] < signr)
    && (forall s :: 1 <= s < signr && s in handlers <==> s in sigs)
    && b0.fp >= FRAME * |sigs| && b == PushAll(b0, sigs, acts, trap)
    && Masks(b.blocked, now) == Delivered(m0, sigs)
    && (forall i :: 0 <= i < NSIG && signr - 1 <= i ==> now[i] == acts[i])
  }

  lemma StackStart(b0: Build, acts: seq<Action>, handlers: set<nat>, m0: Masks, trap: seq<nat>)
    requires |trap| == 3 && |acts| == NSIG && m0 == Masks(b0.blocked, acts)
    ensures Stacking(b0, b0, [], acts, acts, handlers, 1, m0, trap)
  {
  }

  lemma StackNext(b0: Build, b: Build, sigs: seq<nat>, acts: seq<Action>, now: seq<Action>, handlers: set<nat>, signr: nat, m0: Masks,
                  trap: seq<nat>)
    requires |trap| == 3 && 1 <= signr <= NSIG && Stacking(b0, b, sigs, acts, now, handlers, signr, m0, trap)
    ensures |now| == NSIG && Ascending(sigs) && InActions(sigs, acts) && b0.fp == b.fp + FRAME * |sigs| && signr !in sigs
    ensures forall s :: s in sigs ==> s in handlers
    ensures signr !in handlers ==> Stacking(b0, b, sigs, acts, now, handlers, signr + 1, m0, trap)
    ensures signr in handlers && b.fp >= FRAME ==>
              Stacking(b0, Push(b, signr, now[signr - 1], trap), sigs + [signr], acts, Reset(now, signr), handlers, signr + 1, m0, trap)
  {
    hide Push;
    assert b0.fp == b.fp + FRAME * |sigs|;
    if signr in handlers && b.fp >= FRAME {
      var more := sigs + [signr];
      assert more[..|sigs|] == sigs && more[|sigs|] == signr;
      PushMasks(b, signr, now[signr - 1], trap);
      assert InActions(more, acts) && PushAll(b0, more, acts, trap) == Push(b, signr, now[signr - 1], trap);
      assert Delivered(m0, more) == Masks(b.blocked + now[signr - 1].mask, Reset(now, signr));
    }
  }

  lemma StackEnd(b0: Build, b: Build, sigs: seq<nat>, acts: seq<Action>, now: seq<Action>, handlers: set<nat>, signr: nat, m0: Masks,
                 trap: seq<nat>)
    requires |trap| == 3 && signr == NSIG + 1 && Stacking(b0, b, sigs, acts, now, handlers, signr, m0, trap)
    requires forall s :: s in handlers ==> 1 <= s <= NSIG
    ensures Ascending(sigs) && InActions(sigs, acts) && b0.fp >= FRAME * |sigs| && b == PushAll(b0, sigs, acts, trap)
    ensures Masks(b.blocked, now) == Delivered(m0, sigs) && forall s :: s in handlers <==> s in sigs
  {
    hide PushAll, Delivered;
  }

  lemma PushMasks(b: Build, signr: nat, act: Action, trap: seq<nat>)
    requires |trap| == 3 && b.fp >= FRAME
    ensures Push(b, signr, act, trap).blocked == b.blocked + act.mask && Push(b, signr, act, trap).fp == b.fp - FRAME
  {
  }

  /** Where the program was interrupted. */
  function Interrupted(u: User, oldmask: set<nat>): Build { Build(u.mem, u.regs.esp, u.regs.eip, u.regs, u.blocked, oldmask) }

  method Lowest(s: set<nat>) returns (m: nat)
    requires s != {} && forall x :: x in s ==> 1 <= x <= NSIG
    ensures m in s && forall x :: x in s ==> m <= x
  {
    m := 1;
    while m !in s
      invariant 1 <= m && forall x :: x in s ==> m <= x <= NSIG
      decreases NSIG + 1 - m
    {
      m := m + 1;
    }
  }

  // ---------- which signals are chosen ----------

  ghost predicate MaskedBy(acts: seq<Action>, handlers: set<nat>, t: nat) {
    exists s :: s in handlers && 1 <= s <= |acts| && s < t && t in acts[s - 1].mask
  }

  /** The first loop under way: the signals that are no longer left have been taken, none of them fatal. */
  ghost predicate Choosing(before: set<nat>, blocked: set<nat>, acts: seq<Action>, init: bool, handlers: set<nat>, left: set<nat>, masked: set<nat>) {
    && left <= before && handlers <= before - left && blocked <= masked
    && (forall s :: s in before - left ==> Takes(before, blocked, acts, s) && !Fatal(acts, init, s))
    && (forall s :: s in before - left ==> (s in handlers <==> Caught(acts, s)))
    && (forall s :: s in handlers ==> acts[s - 1].mask <= masked)
    && (forall s, t :: s in before - left && t in left && t !in masked ==> s < t)
    && (forall t :: t in left && t in masked && t !in blocked ==> MaskedBy(acts, handlers, t))
  }

  lemma ChooseStart(pending: set<nat>, blocked: set<nat>, acts: seq<Action>, init: bool)
    ensures Choosing(pending, blocked, acts, init, {}, pending, blocked)
  {
  }

  lemma TakesLowest(before: set<nat>, blocked: set<nat>, acts: seq<Action>, init: bool, handlers: set<nat>, left: set<nat>, masked: set<nat>, s: nat)
    requires Choosing(before, blocked, acts, init, handlers, left, masked)
    requires s in left && s !in masked && forall t :: t in left && t !in masked ==> s <= t
    ensures Takes(before, blocked, acts, s)
  {
    forall r: nat | r < s && Caught(acts, r) && Takes(before, blocked, acts, r)
      ensures s !in acts[r - 1].mask
    {
      if r in left { MaskedNotTaken(before, blocked, acts, init, handlers, left, masked, r); }
    }
  }

  /** A signal that is left and masked is not taken. */
  lemma MaskedNotTaken(before: set<nat>, blocked: set<nat>, acts: seq<Action>, init: bool, handlers: set<nat>, left: set<nat>, masked: set<nat>, t: nat)
    requires Choosing(before, blocked, acts, init, handlers, left, masked) && t in left && t in masked
    ensures !Takes(before, blocked, acts, t)
  {
    if t !in blocked {
      assert MaskedBy(acts, handlers, t);
      var s :| s in handlers && 1 <= s <= |acts| && s < t && t in acts[s - 1].mask;
      assert s in before - left;
    }
  }

  lemma ChooseNext(before: set<nat>, blocked: set<nat>, acts: seq<Action>, init: bool, handlers: set<nat>, left: set<nat>, masked: set<nat>, s: nat)
    requires Choosing(before, blocked, acts, init, handlers, left, masked) && 1 <= s <= |acts|
    requires s in left && s !in masked && forall t :: t in left && t !in masked ==> s <= t
    ensures Takes(before, blocked, acts, s)
    ensures !Fatal(acts, init, s) && !Caught(acts, s) ==> Choosing(before, blocked, acts, init, handlers, left - {s}, masked)
    ensures Caught(acts, s) ==> Choosing(before, blocked, acts, init, handlers + {s}, left - {s}, masked + acts[s - 1].mask)
  {
    TakesLowest(before, blocked, acts, init, handlers, left, masked, s);
    hide Takes;
    assert forall r :: r in before - (left - {s}) <==> r in before - left || r == s;
    if Caught(acts, s) {
      var handlers', left', masked' := handlers + {s}, left - {s}, masked + acts[s - 1].mask;
      forall t | t in left' && t in masked' && t !in blocked
        ensures MaskedBy(acts, handlers', t)
      {
        if t in masked {
          assert MaskedBy(acts, handlers, t);
          var r :| r in handlers && 1 <= r <= |acts| && r < t && t in acts[r - 1].mask;
          assert r in handlers';
        } else {
          assert s in handlers' && s < t;
        }
      }
    }
  }

  lemma AllChosen(before: set<nat>, blocked: set<nat>, acts: seq<Action>, init: bool, handlers: set<nat>, left: set<nat>, masked: set<nat>)
    requires Choosing(before, blocked, acts, init, handlers, left, masked) && left - masked == {}
    ensures !Dies(before, blocked, acts, init) && handlers == Handled(before, blocked, acts)
    ensures Chosen(before, blocked, acts, handlers, left)
  {
    forall t | t in left
      ensures !Takes(before, blocked, acts, t)
    {
      assert t !in left - masked;
      MaskedNotTaken(before, blocked, acts, init, handlers, left, masked, t);
    }
    forall t | t in before
      ensures t in left <==> t in blocked || exists s :: s in handlers && s < t && t in acts[s - 1].mask
    {
      if t in left {
        assert t !in left - masked;
        if t !in blocked { assert MaskedBy(acts, handlers, t); }
      } else {
        assert Takes(before, blocked, acts, t);
        assert forall s :: s in handlers ==> Takes(before, blocked, acts, s) && Caught(acts, s);
      }
    }
  }

  lemma {:induction false} Distinct(sigs: seq<nat>)
    requires Ascending(sigs)
    ensures |Elements(sigs)| == |sigs|
    decreases |sigs|
  {
    if sigs != [] {
      var n := |sigs| - 1;
      Distinct(sigs[..n]);
      assert Elements(sigs) == Elements(sigs[..n]) + {sigs[n]};
    }
  }

  lemma OneMore(sigs: seq<nat>, handlers: set<nat>, s: nat)
    requires Ascending(sigs) && (forall r :: r in sigs ==> r in handlers) && s in handlers && s !in sigs
    ensures |handlers| > |sigs|
  {
    Distinct(sigs);
    Larger(Elements(sigs) + {s}, handlers);
  }

  lemma {:induction false} Larger(x: set<nat>, y: set<nat>)
    requires x <= y
    ensures |x| <= |y|
  {
    if x != {} {
      var e :| e in x;
      Larger(x - {e}, y - {e});
    }
  }

  /** Setting an action that ignores the signal discards a pending one. */
  predicate Discards(signum: int, handler: nat) {
    if handler == 1 then signum != SIGCHLD else handler == 0 && signum in {SIGCONT, SIGCHLD, SIGWINCH}
  }
}
