/** Signal frames (linux/kernel/signal.c): how do_signal stacks one frame for every caught signal and how
    sys_sigreturn takes them off again. Signal sets and flag words are sets of bit numbers. */
module Signals {
  import opened Bits

  const SIGKILL: nat := 9
  const SIGSTOP: nat := 19
  const NSIG: nat := 32
  const USER_CS: nat := 0x23
  const USER_DS: nat := 0x2B
  const NR_SIGRETURN: nat := 119
  const FRAME: nat := 128            // bytes in a frame of 32 words

  const Unblockable: set<nat> := {SIGKILL, SIGSTOP}

  /** The flags that sigreturn restores: the bits of 0xCD5. */
  const Restored: set<nat> := {0, 2, 4, 6, 7, 10, 11}

  lemma BitOf(i: nat, p: nat, q: nat)
    requires p == Pow2(i) && q == 0xCD5 / p
    ensures 0xCD5 / Pow2(i) % 2 == q % 2
  {
  }

  lemma RestoredBits(i: nat)
    ensures i in Restored <==> 0xCD5 / Pow2(i) % 2 == 1
  {
    Powers();
    hide Pow2;
    if i == 0 {
      BitOf(0, 1, 3285);
    } else if i == 1 {
      BitOf(1, 2, 1642);
    } else if i == 2 {
      BitOf(2, 4, 821);
    } else if i == 3 {
      BitOf(3, 8, 410);
    } else if i == 4 {
      BitOf(4, 16, 205);
    } else if i == 5 {
      BitOf(5, 32, 102);
    } else if i == 6 {
      BitOf(6, 64, 51);
    } else if i == 7 {
      BitOf(7, 128, 25);
    } else if i == 8 {
      BitOf(8, 256, 12);
    } else if i == 9 {
      BitOf(9, 512, 6);
    } else if i == 10 {
      BitOf(10, 1024, 3);
    } else if i == 11 {
      BitOf(11, 2048, 1);
    } else {
      Pow2Mono(12, i);
      BitOf(i, Pow2(i), 0);
    }
  }

  datatype Regs = Regs(gs: nat, fs: nat, es: nat, ds: nat, edi: nat, esi: nat, ebp: nat, esp: nat, ebx: nat, edx: nat,
                       ecx: nat, eax: nat, eip: nat, cs: nat, ss: nat, eflags: set<nat>)

  /** A word of user memory. */
  datatype Word = Num(n: nat) | Bits(b: set<nat>)

  type Memory = map<nat, Word>

  /** SIG_DFL is 0, SIG_IGN is 1. */
  datatype Action = Action(handler: nat, mask: set<nat>, oneshot: bool)

  /** What a user program sees of itself. */
  datatype User = User(regs: Regs, blocked: set<nat>, mem: Memory)

  function Blockable(s: set<nat>): set<nat> { s - Unblockable }

  // ---------- user memory ----------

  /** Writes consecutive words. */
  function Store(mem: Memory, base: nat, words: seq<Word>): Memory
    decreases |words|
  {
    if words == [] then mem else Store(mem, base, words[..|words| - 1])[base + 4 * (|words| - 1) := words[|words| - 1]]
  }

  lemma {:induction false} StoreAt(mem: Memory, base: nat, words: seq<Word>, i: nat)
    requires i < |words|
    ensures base + 4 * i in Store(mem, base, words) && Store(mem, base, words)[base + 4 * i] == words[i]
    decreases |words|
  {
    if i < |words| - 1 { StoreAt(mem, base, words[..|words| - 1], i); }
  }

  lemma {:induction false} StoreOther(mem: Memory, base: nat, words: seq<Word>, a: nat)
    requires a < base || a >= base + 4 * |words|
    ensures (a in Store(mem, base, words) <==> a in mem) && (a in mem ==> Store(mem, base, words)[a] == mem[a])
    decreases |words|
  {
    if words != [] { StoreOther(mem, base, words[..|words| - 1], a); }
  }

  predicate HasWords(mem: Memory, base: nat, n: nat) { forall i :: 0 <= i < n ==> base + 4 * i in mem }

  function Load(mem: Memory, base: nat, n: nat): (r: seq<Word>)
    requires HasWords(mem, base, n)
    ensures |r| == n
  {
    seq(n, i requires 0 <= i < n => mem[base + 4 * i])
  }

  lemma LoadStored(mem: Memory, base: nat, words: seq<Word>, k: nat, n: nat)
    requires k + n <= |words|
    ensures HasWords(Store(mem, base, words), base + 4 * k, n)
    ensures Load(Store(mem, base, words), base + 4 * k, n) == words[k..k + n]
  {
    var m := Store(mem, base, words);
    forall i | 0 <= i < n
      ensures base + 4 * k + 4 * i in m && m[base + 4 * k + 4 * i] == words[k + i]
    {
      StoreAt(mem, base, words, k + i);
    }
  }

  // ---------- frames ----------

  /** The saved context, in the order of struct sigcontext_struct. */
  function Context(fp: nat, eip: nat, r: Regs, oldmask: set<nat>, trap: seq<nat>): (w: seq<Word>)
    requires |trap| == 3
    ensures |w| == 22
  {
    [Num(r.gs), Num(r.fs), Num(r.es), Num(r.ds), Num(r.edi), Num(r.esi), Num(r.ebp), Num(fp),
     Num(r.ebx), Num(r.edx), Num(r.ecx), Num(r.eax), Num(trap[0]), Num(trap[1]), Num(eip), Num(r.cs),
     Bits(r.eflags), Num(r.esp), Num(r.ss), Num(0), Bits(oldmask), Num(trap[2])]
  }

  /** setup_frame writes the eight bytes of return code as three overlapping long words. */
  function PutLong(code: seq<nat>, at: nat, long: nat): (r: seq<nat>)
    requires at + 4 <= |code|
    ensures |r| == |code|
  {
    code[..at] + LongBytes(long) + code[at + 4..]
  }

  function LongBytes(n: nat): (r: seq<nat>)
    ensures |r| == 4
  {
    [n % 0x100, n / 0x100 % 0x100, n / 0x1_0000 % 0x100, n / 0x100_0000 % 0x100]
  }

  /** A long word of four bytes, the lowest first. */
  function LongOf(b: seq<nat>): nat
    requires |b| == 4
  {
    b[0] + 0x100 * b[1] + 0x1_0000 * b[2] + 0x100_0000 * b[3]
  }

  function ReturnBytes(code: seq<nat>): (r: seq<nat>)
    requires |code| == 8
    ensures |r| == 8
  {
    PutLong(PutLong(PutLong(code, 0, 0x0000_B858), 4, 0x80CD_0000), 2, NR_SIGRETURN)
  }

  /** Whatever was there before, the stores leave code that drops one word of the stack, loads 119 and makes a system call. */
  lemma ReturnCode(code: seq<nat>)
    requires |code| == 8
    ensures ReturnBytes(code) == [0x58, 0xB8, 119, 0, 0, 0, 0xCD, 0x80]
  {
    assert LongBytes(0x0000_B858) == [0x58, 0xB8, 0, 0] && LongBytes(0x80CD_0000) == [0, 0, 0xCD, 0x80];
    assert LongBytes(NR_SIGRETURN) == [119, 0, 0, 0];
  }

  /** The words that setup_frame writes: return address, signal number, the context, and the return code. */
  function FrameWords(frame: nat, signr: nat, fp: nat, eip: nat, r: Regs, oldmask: set<nat>, trap: seq<nat>): (w: seq<Word>)
    requires |trap| == 3
    ensures |w| == 26
  {
    var code := ReturnBytes(seq(8, i => 0));
    [Num(frame + 96), Num(signr)] + Context(fp, eip, r, oldmask, trap) + [Num(LongOf(code[..4])), Num(LongOf(code[4..]))]
  }

  /** What setup_frame writes for a program on the ordinary stack. */
  function Framed(mem: Memory, fp: nat, signr: nat, eip: nat, r: Regs, oldmask: set<nat>, trap: seq<nat>): Memory
    requires |trap| == 3 && fp >= FRAME
  {
    Store(mem, fp - FRAME, FrameWords(fp - FRAME, signr, fp, eip, r, oldmask, trap))
  }

  /** A null selector, or one for user mode. */
  predicate SegOk(x: nat) { x < 4 || x % 4 == 3 }

  predicate StrictOk(x: nat) { x >= 4 && x % 4 == 3 }

  datatype Outcome = Resumed(user: User) | Killed

  /** sys_sigreturn: the context is at the stack pointer. */
  function Sigreturn(u: User): Outcome {
    if !HasWords(u.mem, u.regs.esp, 22) then Killed else Resume(u, Load(u.mem, u.regs.esp, 22))
  }

  predicate AllNum(c: seq<Word>, places: set<nat>) { forall i :: i in places && i < |c| ==> c[i].Num? }

  /** The places of a context that hold numbers. */
  const Numbers: set<nat> := {0, 1, 2, 3, 4, 5, 6, 7, 8, 9, 10, 11, 14, 15, 18}

  function Resume(u: User, c: seq<Word>): Outcome
    requires |c| == 22
  {
    if !AllNum(c, Numbers) || !c[16].Bits? || !c[20].Bits? then Killed
    else if !(SegOk(c[3].n) && SegOk(c[2].n) && SegOk(c[1].n) && SegOk(c[0].n) && StrictOk(c[18].n) && StrictOk(c[15].n)) then Killed
    else Resumed(User(Regs(c[0].n, c[1].n, c[2].n, c[3].n, c[4].n, c[5].n, c[6].n, c[7].n, c[8].n, c[9].n, c[10].n, c[11].n, c[14].n, c[15].n, c[18].n,
                           (u.regs.eflags - Restored) + (c[16].b * Restored)),
                      Blockable(c[20].b), u.mem))
  }

  predicate UserRegs(r: Regs) { SegOk(r.gs) && SegOk(r.fs) && SegOk(r.es) && SegOk(r.ds) && StrictOk(r.ss) && StrictOk(r.cs) }

  /** Returning through a frame gives back what setup_frame saved in it. */
  lemma ReturnRestores(mem: Memory, fp: nat, signr: nat, eip: nat, r: Regs, oldmask: set<nat>, trap: seq<nat>, u: User)
    requires |trap| == 3 && fp >= FRAME && UserRegs(r)
    requires u.regs.esp == fp - FRAME + 8 && Above(u.mem, Framed(mem, fp, signr, eip, r, oldmask, trap), fp - FRAME)
    ensures Sigreturn(u) == Resumed(User(r.(esp := fp, eip := eip, eflags := (u.regs.eflags - Restored) + (r.eflags * Restored)), Blockable(oldmask), u.mem))
  {
    hide Resume, Context, Store, Blockable, Load, HasWords, Above;
    var frame := fp - FRAME;
    var c, w := Context(fp, eip, r, oldmask, trap), FrameWords(frame, signr, fp, eip, r, oldmask, trap);
    LoadStored(mem, frame, w, 2, 22);
    assert w[2..24] == c;
    SameLoad(Framed(mem, fp, signr, eip, r, oldmask, trap), u.mem, frame, frame + 8, 22);
    ResumeContext(fp, eip, r, oldmask, trap, u);
  }

  /** It resumes exactly if the saved selectors are null or of user mode; otherwise it kills the task. */
  lemma ReturnIff(mem: Memory, fp: nat, signr: nat, eip: nat, r: Regs, oldmask: set<nat>, trap: seq<nat>, u: User)
    requires |trap| == 3 && fp >= FRAME
    requires u.regs.esp == fp - FRAME + 8 && Above(u.mem, Framed(mem, fp, signr, eip, r, oldmask, trap), fp - FRAME)
    ensures Sigreturn(u).Resumed? <==> UserRegs(r)
  {
    hide Store, Blockable, Load, HasWords, Above;
    var frame := fp - FRAME;
    var c, w := Context(fp, eip, r, oldmask, trap), FrameWords(frame, signr, fp, eip, r, oldmask, trap);
    LoadStored(mem, frame, w, 2, 22);
    assert w[2..24] == c;
    SameLoad(Framed(mem, fp, signr, eip, r, oldmask, trap), u.mem, frame, frame + 8, 22);
    assert AllNum(c, Numbers);
  }

  /** A program that has loaded fs with the user data selector but a lower privilege level, as it may, and catches a signal: the
      return from the handler kills it, though the handler has kept everything. */
  lemma SelectorWitness(mem: Memory)
    ensures var r := Regs(USER_DS, 0x28, USER_DS, USER_DS, 0, 0, 0, 4096, 0, 0, 0, 0, 1000, USER_CS, USER_DS, {});
            var trap := [0, 0, 0];
            Sigreturn(User(UserSegments(r).(esp := 4096 - FRAME + 8), {}, Framed(mem, 4096, 10, 1000, r, {}, trap))) == Killed
  {
    hide Store, Sigreturn, Framed;
    var r := Regs(USER_DS, 0x28, USER_DS, USER_DS, 0, 0, 0, 4096, 0, 0, 0, 0, 1000, USER_CS, USER_DS, {});
    var m := Framed(mem, 4096, 10, 1000, r, {}, [0, 0, 0]);
    SelfAbove(m, 4096 - FRAME);
    ReturnIff(mem, 4096, 10, 1000, r, {}, [0, 0, 0], User(UserSegments(r).(esp := 4096 - FRAME + 8), {}, m));
  }

  lemma ResumeContext(fp: nat, eip: nat, r: Regs, oldmask: set<nat>, trap: seq<nat>, u: User)
    requires |trap| == 3 && UserRegs(r)
    ensures Resume(u, Context(fp, eip, r, oldmask, trap)) ==
            Resumed(User(r.(esp := fp, eip := eip, eflags := (u.regs.eflags - Restored) + (r.eflags * Restored)), Blockable(oldmask), u.mem))
  {
    hide Blockable;
    var c := Context(fp, eip, r, oldmask, trap);
    assert AllNum(c, Numbers);
  }

  /** Two memories agree from address `from` on. */
  ghost predicate Above(a: Memory, b: Memory, from: nat) {
    forall x :: x >= from ==> (x in a <==> x in b) && (x in a ==> a[x] == b[x])
  }

  lemma SameLoad(a: Memory, b: Memory, from: nat, base: nat, n: nat)
    requires Above(b, a, from) && base >= from && HasWords(a, base, n)
    ensures HasWords(b, base, n) && Load(b, base, n) == Load(a, base, n)
  {
  }

  // ---------- stacking frames ----------

  /** The second loop of do_signal: memory, frame pointer, where to go, registers and masks so far. */
  datatype Build = Build(mem: Memory, fp: nat, eip: nat, regs: Regs, blocked: set<nat>, oldmask: set<nat>)

  function UserSegments(r: Regs): Regs {
    r.(cs := USER_CS, ss := USER_DS, ds := USER_DS, es := USER_DS, gs := USER_DS, fs := USER_DS)
  }

  /** One more caught signal. */
  function Push(b: Build, signr: nat, act: Action, trap: seq<nat>): Build
    requires |trap| == 3 && b.fp >= FRAME
  {
    Build(Framed(b.mem, b.fp, signr, b.eip, b.regs, b.oldmask, trap), b.fp - FRAME, act.handler, UserSegments(b.regs),
          b.blocked + act.mask, b.oldmask + act.mask)
  }

  predicate InActions(sigs: seq<nat>, acts: seq<Action>) {
    forall i :: 0 <= i < |sigs| ==> 1 <= sigs[i] <= |acts|
  }

  function PushAll(b: Build, sigs: seq<nat>, acts: seq<Action>, trap: seq<nat>): (r: Build)
    requires |trap| == 3 && b.fp >= FRAME * |sigs| && InActions(sigs, acts)
    ensures r.fp == b.fp - FRAME * |sigs|
    decreases |sigs|
  {
    if sigs == [] then b
    else
      var n := |sigs| - 1;
      Push(PushAll(b, sigs[..n], acts, trap), sigs[n], acts[sigs[n] - 1], trap)
  }

  /** How the program starts the handler of the last frame. */
  function Entered(b: Build): User { User(b.regs.(esp := b.fp, eip := b.eip), b.blocked, b.mem) }

  lemma {:induction false} PushKeepsUser(b: Build, sigs: seq<nat>, acts: seq<Action>, trap: seq<nat>)
    requires |trap| == 3 && b.fp >= FRAME * |sigs| && InActions(sigs, acts) && UserRegs(b.regs)
    ensures UserRegs(PushAll(b, sigs, acts, trap).regs)
    decreases |sigs|
  {
    if sigs != [] { PushKeepsUser(b, sigs[..|sigs| - 1], acts, trap); }
  }

  /** Nothing above the frames changes. */
  lemma FramedAbove(mem: Memory, fp: nat, signr: nat, eip: nat, r: Regs, oldmask: set<nat>, trap: seq<nat>)
    requires |trap| == 3 && fp >= FRAME
    ensures Above(Framed(mem, fp, signr, eip, r, oldmask, trap), mem, fp)
  {
    var w := FrameWords(fp - FRAME, signr, fp, eip, r, oldmask, trap);
    forall x: nat | x >= fp
      ensures (x in Store(mem, fp - FRAME, w) <==> x in mem) && (x in mem ==> Store(mem, fp - FRAME, w)[x] == mem[x])
    {
      StoreOther(mem, fp - FRAME, w, x);
    }
  }

  // ---------- the return code ----------

  /** What the processor does with the return code: it ends in a system call, or goes wrong. */
  datatype Trap = SystemCall(number: nat, user: User) | Fault

  /** Executes the three instructions: drop a word of the stack into eax, load eax, make the system call. */
  function Execute(code: seq<nat>, u: User): Trap
    decreases |code|
  {
    if code == [] then Fault
    else if code[0] == 0x58 then
      if u.regs.esp in u.mem && u.mem[u.regs.esp].Num?
      then Execute(code[1..], u.(regs := u.regs.(eax := u.mem[u.regs.esp].n, esp := u.regs.esp + 4, eip := u.regs.eip + 1)))
      else Fault
    else if code[0] == 0xB8 && |code| >= 5 then
      Execute(code[5..], u.(regs := u.regs.(eax := LongOf(code[1..5]), eip := u.regs.eip + 5)))
    else if code[0] == 0xCD && |code| >= 2 && code[1] == 0x80 then
      SystemCall(u.regs.eax, u.(regs := u.regs.(eip := u.regs.eip + 2)))
    else Fault
  }

  predicate IsNum(mem: Memory, a: nat) { a in mem && mem[a].Num? }

  /** A handler's ret instruction, and the eight bytes of code at the address that it takes from the stack. */
  function Ret(u: User): Trap {
    if !IsNum(u.mem, u.regs.esp) then Fault
    else
      var a := u.mem[u.regs.esp].n;
      if !IsNum(u.mem, a) || !IsNum(u.mem, a + 4) then Fault
      else Execute(LongBytes(u.mem[a].n) + LongBytes(u.mem[a + 4].n), u.(regs := u.regs.(esp := u.regs.esp + 4, eip := a)))
  }

  lemma CodeRuns(u: User)
    requires IsNum(u.mem, u.regs.esp)
    ensures var t := Execute([0x58, 0xB8, 119, 0, 0, 0, 0xCD, 0x80], u);
            t.SystemCall? && t.number == NR_SIGRETURN && t.user.mem == u.mem && t.user.regs.esp == u.regs.esp + 4
  {
    var code := [0x58, 0xB8, 119, 0, 0, 0, 0xCD, 0x80];
    var u1 := u.(regs := u.regs.(eax := u.mem[u.regs.esp].n, esp := u.regs.esp + 4, eip := u.regs.eip + 1));
    assert code[1..] == [0xB8, 119, 0, 0, 0, 0xCD, 0x80];
    assert code[1..][1..5] == [119, 0, 0, 0] && code[1..][5..] == [0xCD, 0x80];
    var u2 := u1.(regs := u1.regs.(eax := 119, eip := u1.regs.eip + 5));
    assert Execute(code[1..], u1) == Execute([0xCD, 0x80], u2);
  }

  lemma CodeWords()
    ensures var code := ReturnBytes(seq(8, i => 0));
            && LongBytes(LongOf(code[..4])) + LongBytes(LongOf(code[4..])) == [0x58, 0xB8, 119, 0, 0, 0, 0xCD, 0x80]
  {
    ReturnCode(seq(8, i => 0));
    var code := ReturnBytes(seq(8, i => 0));
    assert LongOf(code[..4]) == 0x0077_B858 && LongOf(code[4..]) == 0x80CD_0000;
  }

  /** A program at the start of a handler for signr, with the return code where its return address says. */
  predicate Called(u: User, signr: nat) {
    && IsNum(u.mem, u.regs.esp) && u.mem[u.regs.esp].n == u.regs.esp + 96
    && IsNum(u.mem, u.regs.esp + 4) && u.mem[u.regs.esp + 4].n == signr
    && IsNum(u.mem, u.regs.esp + 96) && IsNum(u.mem, u.regs.esp + 100)
    && LongBytes(u.mem[u.regs.esp + 96].n) + LongBytes(u.mem[u.regs.esp + 100].n) == [0x58, 0xB8, 119, 0, 0, 0, 0xCD, 0x80]
  }

  lemma FrameCalls(mem: Memory, fp: nat, signr: nat, eip: nat, r: Regs, oldmask: set<nat>, trap: seq<nat>, u: User)
    requires |trap| == 3 && fp >= FRAME
    requires u.regs.esp == fp - FRAME && Above(u.mem, Framed(mem, fp, signr, eip, r, oldmask, trap), fp - FRAME)
    ensures Called(u, signr)
  {
    hide Store, LongOf, LongBytes, ReturnBytes;
    var frame, w := fp - FRAME, FrameWords(fp - FRAME, signr, fp, eip, r, oldmask, trap);
    StoreAt(mem, frame, w, 0);
    StoreAt(mem, frame, w, 1);
    StoreAt(mem, frame, w, 24);
    StoreAt(mem, frame, w, 25);
    CodeWords();
  }

  /** From a handler that has kept its frame and come to its ret, the program gets to the sigreturn call with
      the stack pointer at the saved context. */
  lemma CallReturns(entry: User, signr: nat, u: User)
    requires Called(entry, signr) && u.regs.esp == entry.regs.esp && Above(u.mem, entry.mem, entry.regs.esp)
    ensures Ret(u).SystemCall? && Ret(u).number == NR_SIGRETURN && Kept(entry, Ret(u).user)
  {
    hide LongBytes, Execute;
    var a := u.mem[u.regs.esp].n;
    CodeRuns(u.(regs := u.regs.(esp := u.regs.esp + 4, eip := a)));
  }

  // ---------- handlers return ----------

  /** A handler that started in `entry` is at its return code: it kept its own frame and those above,
      and its stack is back in place. Registers, flags and lower memory may be anything. */
  ghost predicate Kept(entry: User, ret: User) {
    ret.regs.esp == entry.regs.esp + 8 && Above(ret.mem, entry.mem, entry.regs.esp)
  }

  /** The program runs on as the saved state b says: in its registers, the restored flags, and the memory
      from its stack pointer on. */
  ghost predicate Runs(u: User, b: Build) {
    && u.regs == b.regs.(esp := b.fp, eip := b.eip, eflags := u.regs.eflags)
    && u.regs.eflags * Restored == b.regs.eflags * Restored
    && Above(u.mem, b.mem, b.fp)
  }

  lemma AboveTrans(a: Memory, b: Memory, c: Memory, from: nat, up: nat)
    requires Above(a, b, from) && Above(b, c, up) && from <= up
    ensures Above(a, c, up)
  {
  }

  /** One return: from the handler of the last frame to what the frame below it saved. */
  lemma ReturnStep(b: Build, signr: nat, act: Action, trap: seq<nat>, entry: User, ret: User)
    requires |trap| == 3 && b.fp >= FRAME && UserRegs(b.regs)
    requires Runs(entry, Push(b, signr, act, trap)) && Kept(entry, ret)
    ensures Sigreturn(ret).Resumed? && Runs(Sigreturn(ret).user, b) && Sigreturn(ret).user.blocked == Blockable(b.oldmask)
  {
    hide Above, Sigreturn, Framed;
    var m := Framed(b.mem, b.fp, signr, b.eip, b.regs, b.oldmask, trap);
    AboveTrans(ret.mem, entry.mem, m, b.fp - FRAME, b.fp - FRAME);
    ReturnRestores(b.mem, b.fp, signr, b.eip, b.regs, b.oldmask, trap, ret);
    FramedAbove(b.mem, b.fp, signr, b.eip, b.regs, b.oldmask, trap);
    AboveTrans(ret.mem, m, b.mem, b.fp - FRAME, b.fp);
    RestoredFlags(ret.regs.eflags, b.regs.eflags);
  }

  lemma RestoredFlags(f: set<nat>, g: set<nat>)
    ensures ((f - Restored) + (g * Restored)) * Restored == g * Restored
  {
  }

  /** The state in which the program goes on after k handlers have returned. */
  function After(start: User, rets: seq<User>, k: nat): User
    requires k <= |rets|
  {
    if k == 0 then start else match Sigreturn(rets[k - 1]) case Resumed(u) => u case Killed => rets[k - 1]
  }

  /** Every handler comes back as `rets` says, and keeps its frame and those above. */
  ghost predicate Returning(start: User, rets: seq<User>) {
    forall i :: 0 <= i < |rets| ==> Kept(After(start, rets, i), rets[i])
  }

  lemma KeptAt(start: User, rets: seq<User>, i: nat)
    requires Returning(start, rets) && i < |rets|
    ensures Kept(After(start, rets, i), rets[i])
  {
  }

  /** For every list of caught signals: the handlers run one after another, from the last signal of the
      list to the first, each on its own frame, and in the end the interrupted program goes on with the
      saved registers and mask. */
  lemma {:induction false} Unwind(b: Build, sigs: seq<nat>, acts: seq<Action>, trap: seq<nat>, rets: seq<User>, k: nat)
    requires |trap| == 3 && b.fp >= FRAME * |sigs| && InActions(sigs, acts) && UserRegs(b.regs)
    requires |rets| == |sigs| && k <= |sigs| && Returning(Entered(PushAll(b, sigs, acts, trap)), rets)
    ensures forall i :: 0 <= i < k ==> Sigreturn(rets[i]).Resumed?
    ensures Runs(After(Entered(PushAll(b, sigs, acts, trap)), rets, k), PushAll(b, sigs[..|sigs| - k], acts, trap))
    ensures k > 0 ==> After(Entered(PushAll(b, sigs, acts, trap)), rets, k).blocked == Blockable(PushAll(b, sigs[..|sigs| - k], acts, trap).oldmask)
  {
    hide Sigreturn, Push, Above, UserRegs, Returning, Kept;
    var start := Entered(PushAll(b, sigs, acts, trap));
    if k == 0 {
      assert sigs[..|sigs|] == sigs;
      SelfAbove(start.mem, start.regs.esp);
    } else {
      Unwind(b, sigs, acts, trap, rets, k - 1);
      var n := |sigs| - k;
      var top, rest := sigs[..n + 1], sigs[..n];
      assert top[..n] == rest && top[n] == sigs[n];
      PushKeepsUser(b, rest, acts, trap);
      KeptAt(start, rets, k - 1);
      ReturnStep(PushAll(b, rest, acts, trap), sigs[n], acts[sigs[n] - 1], trap, After(start, rets, k - 1), rets[k - 1]);
    }
  }

  lemma SelfAbove(m: Memory, from: nat)
    ensures Above(m, m, from)
  {
  }

  /** The masks of all the signals. */
  function MaskUnion(acts: seq<Action>, sigs: seq<nat>): set<nat>
    requires InActions(sigs, acts)
    decreases |sigs|
  {
    if sigs == [] then {} else MaskUnion(acts, sigs[..|sigs| - 1]) + acts[sigs[|sigs| - 1] - 1].mask
  }

  lemma {:induction false} PushMaskUnion(b: Build, sigs: seq<nat>, acts: seq<Action>, trap: seq<nat>)
    requires |trap| == 3 && b.fp >= FRAME * |sigs| && InActions(sigs, acts)
    ensures PushAll(b, sigs, acts, trap).blocked == b.blocked + MaskUnion(acts, sigs)
    ensures PushAll(b, sigs, acts, trap).oldmask == b.oldmask + MaskUnion(acts, sigs)
    decreases |sigs|
  {
    hide Framed;
    if sigs != [] { PushMaskUnion(b, sigs[..|sigs| - 1], acts, trap); }
  }

  /** Handler k in the order of running is that of signal number n - 1 - k of the list. It starts 128 bytes above
      the one before it, in the user segments, its argument is the signal's number and its return address that of the return code, and its own
      mask and those of the signals still to come are blocked. */
  ghost predicate Starts(u: User, b: Build, sigs: seq<nat>, acts: seq<Action>, k: nat)
    requires k < |sigs| && InActions(sigs, acts)
  {
    var rest := sigs[..|sigs| - k];
    && u.regs.eip == acts[sigs[|sigs| - 1 - k] - 1].handler
    && u.regs.esp == b.fp - FRAME * |rest|
    && Called(u, sigs[|sigs| - 1 - k])
    && u.regs.cs == USER_CS && u.regs.ss == u.regs.ds == u.regs.es == u.regs.fs == u.regs.gs == USER_DS
    && u.blocked == if k == 0 then b.blocked + MaskUnion(acts, sigs) else Blockable(b.oldmask + MaskUnion(acts, rest))
  }

  lemma HandlerStarts(b: Build, sigs: seq<nat>, acts: seq<Action>, trap: seq<nat>, rets: seq<User>, k: nat)
    requires |trap| == 3 && b.fp >= FRAME * |sigs| && InActions(sigs, acts) && UserRegs(b.regs)
    requires |rets| == |sigs| && k < |sigs| && Returning(Entered(PushAll(b, sigs, acts, trap)), rets)
    ensures Starts(After(Entered(PushAll(b, sigs, acts, trap)), rets, k), b, sigs, acts, k)
  {
    hide Sigreturn, Above, UserRegs, Framed, Called;
    Unwind(b, sigs, acts, trap, rets, k);
    var top := sigs[..|sigs| - k];
    assert top != [] && top[|top| - 1] == sigs[|sigs| - 1 - k];
    var p := PushAll(b, top[..|top| - 1], acts, trap);
    FrameCalls(p.mem, p.fp, top[|top| - 1], p.eip, p.regs, p.oldmask, trap, After(Entered(PushAll(b, sigs, acts, trap)), rets, k));
    PushMaskUnion(b, top, acts, trap);
    PushMaskUnion(b, sigs, acts, trap);
  }

  /** The program enters the handler of the last signal of the list, with its number as the argument. */
  lemma EntersLast(b: Build, sigs: seq<nat>, acts: seq<Action>, trap: seq<nat>)
    requires |trap| == 3 && b.fp >= FRAME * |sigs| && InActions(sigs, acts) && sigs != []
    ensures Called(Entered(PushAll(b, sigs, acts, trap)), sigs[|sigs| - 1])
    ensures PushAll(b, sigs, acts, trap).eip == acts[sigs[|sigs| - 1] - 1].handler
  {
    hide Above, Framed, Called;
    var n := |sigs| - 1;
    var p := PushAll(b, sigs[..n], acts, trap);
    SelfAbove(Framed(p.mem, p.fp, sigs[n], p.eip, p.regs, p.oldmask, trap), p.fp - FRAME);
    FrameCalls(p.mem, p.fp, sigs[n], p.eip, p.regs, p.oldmask, trap, Entered(PushAll(b, sigs, acts, trap)));
  }

  /** The interrupted program goes on where it was, with the mask that was to be put back. */
  ghost predicate GoesOn(u: User, b: Build) {
    && u.regs == b.regs.(eflags := u.regs.eflags) && u.regs.eflags * Restored == b.regs.eflags * Restored
    && u.blocked == Blockable(b.oldmask) && Above(u.mem, b.mem, b.fp)
  }

  /** After the last handler the program goes on exactly where it was interrupted. */
  lemma AllReturned(b: Build, sigs: seq<nat>, acts: seq<Action>, trap: seq<nat>, rets: seq<User>)
    requires |trap| == 3 && b.fp >= FRAME * |sigs| && InActions(sigs, acts) && UserRegs(b.regs) && b.regs.esp == b.fp && b.regs.eip == b.eip
    requires |rets| == |sigs| > 0 && Returning(Entered(PushAll(b, sigs, acts, trap)), rets)
    ensures GoesOn(After(Entered(PushAll(b, sigs, acts, trap)), rets, |sigs|), b)
  {
    hide Sigreturn, Above, UserRegs, Framed;
    Unwind(b, sigs, acts, trap, rets, |sigs|);
    assert sigs[..0] == [];
  }
}
