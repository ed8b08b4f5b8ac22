/** Pipes (linux/fs/pipe.c): a ring of PIPE_BUF bytes with a lock, under any interleaving of readers and
    writers that may sleep while they copy. */
module Pipes {
  const PIPE_BUF: nat := 4096

  function Wrap(x: nat): nat { if x >= PIPE_BUF then x - PIPE_BUF else x }

  /** The bytes in the pipe, in order. */
  function Ring(b: seq<nat>, start: nat, len: nat): (r: seq<nat>)
    requires |b| == PIPE_BUF && start < PIPE_BUF && len <= PIPE_BUF
    ensures |r| == len
  {
    if start + len <= PIPE_BUF then b[start..start + len] else b[start..] + b[..start + len - PIPE_BUF]
  }

  function Put(b: seq<nat>, pos: nat, c: seq<nat>): (r: seq<nat>)
    requires pos + |c| <= |b|
    ensures |r| == |b|
  {
    b[..pos] + c + b[pos + |c|..]
  }

  function Min3(a: nat, b: nat, c: nat): nat { var m := if a < b then a else b; if m < c then m else c }

  /** What a read may take at once: up to the end of the buffer. */
  function ReadChunk(start: nat, len: nat, count: nat): nat
    requires start < PIPE_BUF
  {
    Min3(PIPE_BUF - start, count, len)
  }

  /** What a write may put at once. */
  function WriteChunk(start: nat, len: nat, count: nat): nat
    requires start < PIPE_BUF && len <= PIPE_BUF
  {
    Min3(PIPE_BUF - Wrap(start + len), count, PIPE_BUF - len)
  }

  /** A chunk read is the front of the pipe. */
  lemma ReadFront(b: seq<nat>, start: nat, len: nat, n: nat)
    requires |b| == PIPE_BUF && start < PIPE_BUF && len <= PIPE_BUF && n <= len && start + n <= PIPE_BUF
    ensures Ring(b, start, len) == b[start..start + n] + Ring(b, Wrap(start + n), len - n)
  {
  }

  /** A chunk written is the new back of the pipe; nothing in it is overwritten. */
  lemma PutKeeps(b: seq<nat>, pos: nat, c: seq<nat>)
    requires pos + |c| <= |b|
    ensures var r := Put(b, pos, c);
            r[..pos] == b[..pos] && r[pos..pos + |c|] == c && r[pos + |c|..] == b[pos + |c|..]
  {
  }

  lemma SliceSplit(b: seq<nat>, i: nat, j: nat, k: nat)
    requires i <= j <= k <= |b|
    ensures b[i..k] == b[i..j] + b[j..k]
  {
  }

  lemma SliceSame(a: seq<nat>, b: seq<nat>, i: nat, j: nat)
    requires i <= j <= |a| == |b| && a[..j] == b[..j]
    ensures a[i..j] == b[i..j]
  {
    assert a[i..j] == a[..j][i..] && b[i..j] == b[..j][i..];
  }

  lemma TailSame(a: seq<nat>, b: seq<nat>, i: nat, j: nat)
    requires i <= j <= |a| == |b| && a[i..] == b[i..]
    ensures a[j..] == b[j..]
  {
    assert a[j..] == a[i..][j - i..] && b[j..] == b[i..][j - i..];
  }

  lemma WriteBack(b: seq<nat>, start: nat, len: nat, c: seq<nat>)
    requires |b| == PIPE_BUF && start < PIPE_BUF && len + |c| <= PIPE_BUF && Wrap(start + len) + |c| <= PIPE_BUF
    ensures Ring(Put(b, Wrap(start + len), c), start, len + |c|) == Ring(b, start, len) + c
  {
    hide Put;
    PutKeeps(b, Wrap(start + len), c);
    var b' := Put(b, Wrap(start + len), c);
    if start + len < PIPE_BUF { BackStraight(b, b', start, len, c); } else { BackWrapped(b, b', start, len, c); }
  }

  lemma BackStraight(b: seq<nat>, b': seq<nat>, start: nat, len: nat, c: seq<nat>)
    requires |b'| == |b| == PIPE_BUF && start + len + |c| <= PIPE_BUF && start < PIPE_BUF
    requires b'[..start + len] == b[..start + len] && b'[start + len..start + len + |c|] == c
    ensures Ring(b', start, len + |c|) == Ring(b, start, len) + c
  {
    SliceSplit(b', start, start + len, start + len + |c|);
    SliceSame(b', b, start, start + len);
  }

  lemma BackWrapped(b: seq<nat>, b': seq<nat>, start: nat, len: nat, c: seq<nat>)
    requires |b'| == |b| == PIPE_BUF && PIPE_BUF <= start + len && start < PIPE_BUF && len + |c| <= PIPE_BUF
    requires var e := start + len - PIPE_BUF; b'[..e] == b[..e] && b'[e..e + |c|] == c && b'[e + |c|..] == b[e + |c|..]
    ensures Ring(b', start, len + |c|) == Ring(b, start, len) + c
  {
    var e := start + len - PIPE_BUF;
    SliceSplit(b', 0, e, e + |c|);
    TailSame(b', b, e + |c|, start);
    assert b[start..] + b[..e] + c == b[start..] + (b[..e] + c);
  }

  // ---------- interleavings ----------

  /** Who has the lock: a reader with `count` bytes still wanted, or a writer with `rest` still to put;
      `taken` and `chunk` are what has been accounted for but not yet copied, at `pos`. */
  datatype Session =
    | Unlocked
    | Reading(task: nat, count: nat, pos: nat, taken: nat)
    | Writing(task: nat, atomic: bool, whole: seq<nat>, rest: seq<nat>, pos: nat, chunk: seq<nat>)

  /** `sent` is everything that writers put in, `got` everything that readers took out. */
  datatype State = State(buf: seq<nat>, start: nat, len: nat, lock: Session, sent: seq<nat>, got: seq<nat>)

  datatype Step =
    | BeginRead(task: nat, count: nat)
    | TakeChunk
    | CopyOut
    | EndRead
    | BeginWrite(task: nat, data: seq<nat>, again: bool)
    | PutChunk
    | CopyIn
    | EndWrite

  function Free(s: State): int { PIPE_BUF - s.len }

  /** What a write waits for: room for all of it if it is small and just begins, else for any. */
  function Needed(data: seq<nat>, again: bool): nat { if !again && |data| <= PIPE_BUF then |data| else 1 }

  predicate Possible(s: State, st: Step) {
    match st
    case BeginRead(t, n) => s.lock.Unlocked? && s.len > 0
    case TakeChunk => s.lock.Reading? && s.lock.taken == 0 && s.lock.count > 0 && s.len > 0
    case CopyOut => s.lock.Reading? && s.lock.taken > 0
    case EndRead => s.lock.Reading? && s.lock.taken == 0 && (s.lock.count == 0 || s.len == 0)
    case BeginWrite(t, d, again) => s.lock.Unlocked? && |d| > 0 && Free(s) >= Needed(d, again)
    case PutChunk => s.lock.Writing? && s.lock.chunk == [] && s.lock.rest != [] && Free(s) > 0
    case CopyIn => s.lock.Writing? && s.lock.chunk != []
    case EndWrite => s.lock.Writing? && s.lock.chunk == [] && (s.lock.rest == [] || Free(s) == 0)
  }

  predicate Shaped(s: State) {
    && |s.buf| == PIPE_BUF && s.start < PIPE_BUF && s.len <= PIPE_BUF
    && match s.lock
       case Unlocked => true
       case Reading(_, _, pos, n) => n > 0 ==> pos + n <= PIPE_BUF && Wrap(pos + n) == s.start && s.len + n <= PIPE_BUF
       case Writing(_, _, whole, rest, pos, c) =>
         && |rest| <= |whole| && whole[|whole| - |rest|..] == rest
         && (c != [] ==> |c| <= s.len && pos + |c| <= PIPE_BUF && pos == Wrap(s.start + s.len - |c|))
  }

  function Next(s: State, st: Step): State
    requires Shaped(s) && Possible(s, st)
  {
    match st
    case BeginRead(t, n) => s.(lock := Reading(t, n, 0, 0))
    case TakeChunk =>
      var n := ReadChunk(s.start, s.len, s.lock.count);
      s.(start := Wrap(s.start + n), len := s.len - n, lock := s.lock.(count := s.lock.count - n, pos := s.start, taken := n))
    case CopyOut => s.(got := s.got + s.buf[s.lock.pos..s.lock.pos + s.lock.taken], lock := s.lock.(taken := 0))
    case EndRead => s.(lock := Unlocked)
    case BeginWrite(t, d, again) => s.(lock := Writing(t, !again && |d| <= PIPE_BUF, d, d, 0, []))
    case PutChunk =>
      var n := WriteChunk(s.start, s.len, |s.lock.rest|);
      s.(len := s.len + n, sent := s.sent + s.lock.rest[..n],
         lock := s.lock.(rest := s.lock.rest[n..], pos := Wrap(s.start + s.len), chunk := s.lock.rest[..n]))
    case CopyIn => s.(buf := Put(s.buf, s.lock.pos, s.lock.chunk), lock := s.lock.(chunk := []))
    case EndWrite => s.(lock := Unlocked)
  }

  /** What the pipe holds: the bytes taken but not yet copied out, the ring, and the bytes that are
      accounted for but not yet copied in. */
  function Held(s: State): seq<nat>
    requires Shaped(s)
  {
    match s.lock
    case Unlocked => Ring(s.buf, s.start, s.len)
    case Reading(_, _, pos, n) => if n == 0 then Ring(s.buf, s.start, s.len) else s.buf[pos..pos + n] + Ring(s.buf, s.start, s.len)
    case Writing(_, _, _, _, _, c) => if c == [] then Ring(s.buf, s.start, s.len) else Ring(s.buf, s.start, s.len - |c|) + c
  }

  predicate EndsWith(s: seq<nat>, t: seq<nat>) { |t| <= |s| && s[|s| - |t|..] == t }

  /** Nothing is lost, repeated or reordered; what a writer has put in so far is the end of `sent`, and a
      small write has room for the rest. */
  ghost predicate Inv(s: State) {
    && Shaped(s) && s.sent == s.got + Held(s)
    && (s.lock.Writing? ==> EndsWith(s.sent, s.lock.whole[..|s.lock.whole| - |s.lock.rest|]))
    && (s.lock.Writing? && s.lock.atomic ==> Free(s) >= |s.lock.rest|)
  }

  lemma EndsWithMore(s: seq<nat>, t: seq<nat>, c: seq<nat>)
    requires EndsWith(s, t)
    ensures EndsWith(s + c, t + c)
  {
    assert (s + c)[|s| - |t|..] == s[|s| - |t|..] + c;
  }

  lemma TakeStep(s: State)
    requires Inv(s) && Possible(s, TakeChunk)
    ensures Inv(Next(s, TakeChunk))
  {
    ReadFront(s.buf, s.start, s.len, ReadChunk(s.start, s.len, s.lock.count));
  }

  lemma CopyOutStep(s: State)
    requires Inv(s) && Possible(s, CopyOut)
    ensures Inv(Next(s, CopyOut))
  {
    var c, r := s.buf[s.lock.pos..s.lock.pos + s.lock.taken], Ring(s.buf, s.start, s.len);
    assert s.got + (c + r) == s.got + c + r;
  }

  lemma PutStep(s: State)
    requires Inv(s) && Possible(s, PutChunk)
    ensures Inv(Next(s, PutChunk))
  {
    hide Ring, Put, EndsWith, Shaped, WriteChunk, Wrap;
    PutShaped(s);
    var n := WriteChunk(s.start, s.len, |s.lock.rest|);
    var c, k := s.lock.rest[..n], |s.lock.whole| - |s.lock.rest|;
    Assoc(s.got, Ring(s.buf, s.start, s.len), c);
    EndsWithMore(s.sent, s.lock.whole[..k], c);
    MoreDone(s.lock.whole, s.lock.rest, k, n);
  }

  lemma PutShaped(s: State)
    requires Shaped(s) && Possible(s, PutChunk)
    ensures Shaped(Next(s, PutChunk)) && s.start < PIPE_BUF && s.len <= PIPE_BUF && |s.buf| == PIPE_BUF
    ensures |s.lock.rest| <= |s.lock.whole| && s.lock.whole[|s.lock.whole| - |s.lock.rest|..] == s.lock.rest
    ensures 0 < WriteChunk(s.start, s.len, |s.lock.rest|) <= |s.lock.rest|
    ensures WriteChunk(s.start, s.len, |s.lock.rest|) <= Free(s)
  {
    var n := WriteChunk(s.start, s.len, |s.lock.rest|);
    MoreDone(s.lock.whole, s.lock.rest, |s.lock.whole| - |s.lock.rest|, n);
  }

  lemma Assoc(a: seq<nat>, b: seq<nat>, c: seq<nat>)
    ensures (a + b) + c == a + (b + c)
  {
  }

  lemma MoreDone(whole: seq<nat>, rest: seq<nat>, k: nat, n: nat)
    requires k + |rest| == |whole| && whole[k..] == rest && n <= |rest|
    ensures whole[..k] + rest[..n] == whole[..k + n] && whole[k + n..] == rest[n..]
  {
    assert rest[..n] == whole[k..][..n] == whole[k..k + n];
  }

  lemma CopyInStep(s: State)
    requires Inv(s) && Possible(s, CopyIn)
    ensures Inv(Next(s, CopyIn))
  {
    hide Ring, Put, EndsWith;
    WriteBack(s.buf, s.start, s.len - |s.lock.chunk|, s.lock.chunk);
  }

  lemma StepInv(s: State, st: Step)
    requires Inv(s) && Possible(s, st)
    ensures Inv(Next(s, st))
  {
    match st
    case TakeChunk => TakeStep(s);
    case CopyOut => CopyOutStep(s);
    case PutChunk => PutStep(s);
    case CopyIn => CopyInStep(s);
    case BeginWrite(t, d, again) => assert d[|d| - |d|..] == d && d[..0] == [];
    case _ =>
  }

  ghost predicate Run(s: State, steps: seq<Step>)
    decreases |steps|
  {
    steps == [] || (Shaped(s) && Possible(s, steps[0]) && Run(Next(s, steps[0]), steps[1..]))
  }

  ghost function End(s: State, steps: seq<Step>): State
    requires Run(s, steps)
    decreases |steps|
  {
    if steps == [] then s else End(Next(s, steps[0]), steps[1..])
  }

  function Empty(b: seq<nat>): State { State(b, 0, 0, Unlocked, [], []) }

  /** In every interleaving the bytes read are a prefix of the bytes written, in order, and the ring
      stays in range. */
  lemma ReadIsPrefix(b: seq<nat>, steps: seq<Step>)
    requires |b| == PIPE_BUF && Run(Empty(b), steps)
    ensures Inv(End(Empty(b), steps))
    ensures End(Empty(b), steps).got <= End(Empty(b), steps).sent
    ensures End(Empty(b), steps).start < PIPE_BUF && End(Empty(b), steps).len <= PIPE_BUF
  {
    RunInv(Empty(b), steps);
  }

  lemma {:induction false} RunInv(s: State, steps: seq<Step>)
    requires Inv(s) && Run(s, steps)
    ensures Inv(End(s, steps))
    decreases |steps|
  {
    hide Inv, Next, Possible;
    if steps != [] {
      StepInv(s, steps[0]);
      RunInv(Next(s, steps[0]), steps[1..]);
    }
  }

  /** A write of at most PIPE_BUF bytes is contiguous: when it lets the lock go, all of it is at the end
      of the stream. */
  lemma SmallWriteContiguous(s: State)
    requires Inv(s) && Possible(s, EndWrite) && s.lock.atomic
    ensures s.lock.rest == [] && EndsWith(s.sent, s.lock.whole)
  {
    assert s.lock.whole[..|s.lock.whole|] == s.lock.whole;
  }

  /** No step of anybody else can come between the chunks of one writer. */
  lemma WriterAlone(s: State, st: Step)
    requires s.lock.Writing? && Possible(s, st)
    ensures st.PutChunk? || st.CopyIn? || st.EndWrite?
  {
  }

  lemma {:induction false} SentGrows(s: State, steps: seq<Step>)
    requires Run(s, steps)
    ensures s.sent <= End(s, steps).sent
    decreases |steps|
  {
    if steps != [] { SentGrows(Next(s, steps[0]), steps[1..]); }
  }

  lemma {:induction false} RunSplit(s: State, p: seq<Step>, q: seq<Step>)
    requires Run(s, p + q)
    ensures Run(s, p) && Run(End(s, p), q) && End(s, p + q) == End(End(s, p), q)
    decreases |p|
  {
    hide Shaped, Possible, Next;
    if p == [] {
      assert p + q == q;
    } else {
      assert (p + q)[1..] == p[1..] + q;
      RunSplit(Next(s, p[0]), p[1..], q);
    }
  }

  /** The bytes d are at place q of the stream: all of them, or the first ones and nothing after them. */
  predicate InPlace(sent: seq<nat>, q: nat, d: seq<nat>, whole: bool) {
    q <= |sent| && if whole then q + |d| <= |sent| && sent[q..q + |d|] == d else sent[q..] <= d
  }

  lemma StaysInPlace(sent: seq<nat>, more: seq<nat>, q: nat, d: seq<nat>)
    requires InPlace(sent, q, d, true) && sent <= more
    ensures InPlace(more, q, d, true)
  {
    assert more[q..q + |d|] == more[..|sent|][q..q + |d|];
  }

  lemma {:induction false} WritingOn(s: State, steps: seq<Step>, q: nat, d: seq<nat>)
    requires Inv(s) && Run(s, steps) && s.lock.Writing? && s.lock.atomic && s.lock.whole == d && |s.sent| + |s.lock.rest| == q + |d|
    ensures InPlace(End(s, steps).sent, q, d, EndWrite in steps)
    decreases |steps|
  {
    hide Ring, Held, Put;
    if steps == [] {
      assert s.sent[q..] == d[..|d| - |s.lock.rest|];
    } else {
      WriterAlone(s, steps[0]);
      if steps[0].EndWrite? {
        SmallWriteContiguous(s);
        assert s.sent[q..q + |d|] == s.sent[|s.sent| - |d|..];
        SentGrows(s, steps);
        StaysInPlace(s.sent, End(s, steps).sent, q, d);
      } else {
        StepInv(s, steps[0]);
        WritingOn(Next(s, steps[0]), steps[1..], q, d);
        assert EndWrite in steps <==> EndWrite in steps[1..];
      }
    }
  }

  /** In every interleaving the bytes of a write of at most PIPE_BUF bytes stay together: where the stream ended when
      the write began, all of them are in the final stream if the write has ended, and otherwise the first of them with
      nothing after. So a reader gets them together too. */
  lemma SmallWriteSlice(b: seq<nat>, before: seq<Step>, task: nat, d: seq<nat>, after: seq<Step>)
    requires |b| == PIPE_BUF && |d| <= PIPE_BUF && Run(Empty(b), before + ([BeginWrite(task, d, false)] + after))
    ensures Run(Empty(b), before)
    ensures var q, e := |End(Empty(b), before).sent|, End(Empty(b), before + ([BeginWrite(task, d, false)] + after));
            && InPlace(e.sent, q, d, EndWrite in after)
            && (EndWrite in after && |e.got| >= q + |d| ==> e.got[q..q + |d|] == d)
  {
    hide Inv, Possible, InPlace;
    var begin := BeginWrite(task, d, false);
    RunSplit(Empty(b), before, [begin] + after);
    var s := End(Empty(b), before);
    assert ([begin] + after)[1..] == after;
    ReadIsPrefix(b, before);
    StepInv(s, begin);
    WritingOn(Next(s, begin), after, |s.sent|, d);
    ReadIsPrefix(b, before + ([begin] + after));
    if EndWrite in after { GotInPlace(End(Next(s, begin), after), |s.sent|, d); }
  }

  lemma GotInPlace(e: State, q: nat, d: seq<nat>)
    requires e.got <= e.sent && InPlace(e.sent, q, d, true)
    ensures |e.got| >= q + |d| ==> e.got[q..q + |d|] == d
  {
  }

  // ---------- nobody is stuck ----------

  /** Whoever has the lock can go on until it gives the lock up. While nobody has it, a read can begin if and only if the pipe holds
      a byte, and a write if and only if there is room for all of it, when it is a new one of at most PIPE_BUF bytes, or for a byte. */
  lemma Progress(s: State, t: nat, n: nat, d: seq<nat>, again: bool)
    requires Shaped(s) && d != []
    ensures s.lock.Reading? ==> Possible(s, TakeChunk) || Possible(s, CopyOut) || Possible(s, EndRead)
    ensures s.lock.Writing? ==> Possible(s, PutChunk) || Possible(s, CopyIn) || Possible(s, EndWrite)
    ensures s.lock.Unlocked? ==> (Possible(s, BeginRead(t, n)) <==> s.len > 0)
    ensures s.lock.Unlocked? ==>
              (Possible(s, BeginWrite(t, d, again)) <==> if |d| <= PIPE_BUF && !again then s.len + |d| <= PIPE_BUF else s.len < PIPE_BUF)
  {
  }

  /** What the holder of the lock has still to do. */
  function Work(s: State): nat {
    match s.lock
    case Unlocked => 0
    case Reading(_, count, _, n) => 2 * count + (if n > 0 then 1 else 0) + 1
    case Writing(_, _, _, rest, _, c) => 2 * |rest| + (if c != [] then 1 else 0) + 1
  }

  /** Every step of the holder leaves it less to do, so that the lock is given up after finitely many. */
  lemma WorkEnds(s: State, st: Step)
    requires Shaped(s) && Possible(s, st) && !s.lock.Unlocked?
    ensures Work(Next(s, st)) < Work(s)
  {
  }

  // ---------- the routines ----------

  class Pipe {
    const base: array<nat>
    var start: nat
    var len: nat
    ghost var sent: seq<nat>
    ghost var got: seq<nat>

    ghost predicate Valid()
      reads this, base
    {
      base.Length == PIPE_BUF && start < PIPE_BUF && len <= PIPE_BUF && sent == got + Ring(base[..], start, len)
    }

    constructor ()
      ensures Valid() && sent == [] && got == [] && fresh(base)
    {
      base := new nat[PIPE_BUF](i => 0);
      start, len := 0, 0;
      sent, got := [], [];
    }

    /** The copying loop of pipe_read. */
    method Read(count: nat) returns (out: seq<nat>)
      requires Valid()
      modifies this
      ensures Valid() && sent == old(sent) && got == old(got) + out
      ensures |out| == if count < old(len) then count else old(len)
    {
      hide Ring;
      out := [];
      var left: nat := count;
      while left > 0 && len > 0
        invariant base.Length == PIPE_BUF && start < PIPE_BUF && len <= PIPE_BUF
        invariant sent == old(sent) && sent == got + Ring(base[..], start, len) && got == old(got) + out
        invariant left + |out| == count && len + |out| == old(len)
        decreases left
      {
        var chars := ReadChunk(start, len, left);
        var c := base[start..start + chars];
        TakeFront(base[..], start, len, chars, c, sent, got, old(got), out);
        got := got + c;
        start := Wrap(start + chars);
        len := len - chars;
        left := left - chars;
        out := out + c;
      }
    }

    /** The copying loop of pipe_write. */
    method Write(data: seq<nat>) returns (n: nat)
      requires Valid()
      modifies this, base
      ensures Valid() && got == old(got)
      ensures n == (if |data| < PIPE_BUF - old(len) then |data| else PIPE_BUF - old(len)) && sent == old(sent) + data[..n]
    {
      hide Ring, Put;
      n := 0;
      assert data[..0] == [];
      while n < |data| && len < PIPE_BUF
        invariant n <= |data| && Valid() && got == old(got) && sent == old(sent) + data[..n] && len == old(len) + n
        decreases |data| - n
      {
        var chars := WriteChunk(start, len, |data| - n);
        var pos, chunk := Wrap(start + len), data[n..n + chars];
        ghost var before := base[..];
        CopyInto(pos, chunk);
        WriteBack(before, start, len, chunk);
        Assoc(got, Ring(before, start, len), chunk);
        assert data[..n + chars] == data[..n] + chunk;
        sent := sent + chunk;
        len := len + chars;
        n := n + chars;
      }
    }

    method CopyInto(pos: nat, c: seq<nat>)
      requires base.Length == PIPE_BUF && pos + |c| <= PIPE_BUF
      modifies base
      ensures base[..] == Put(old(base[..]), pos, c)
    {
      var i := 0;
      while i < |c|
        invariant 0 <= i <= |c|
        invariant base[..] == Put(old(base[..]), pos, c[..i])
      {
        PutMore(old(base[..]), pos, c, i);
        base[pos + i] := c[i];
        i := i + 1;
      }
      assert c[..i] == c;
    }
  }

  lemma TakeFront(b: seq<nat>, start: nat, len: nat, n: nat, c: seq<nat>, sent: seq<nat>, got: seq<nat>, before: seq<nat>, out: seq<nat>)
    requires |b| == PIPE_BUF && start < PIPE_BUF && len <= PIPE_BUF && n <= len && start + n <= PIPE_BUF && c == b[start..start + n]
    requires sent == got + Ring(b, start, len) && got == before + out
    ensures sent == (got + c) + Ring(b, Wrap(start + n), len - n) && got + c == before + (out + c)
  {
    ReadFront(b, start, len, n);
  }

  lemma PutMore(b: seq<nat>, pos: nat, c: seq<nat>, i: nat)
    requires pos + |c| <= |b| && i < |c|
    ensures Put(b, pos, c[..i + 1]) == Put(b, pos, c[..i])[pos + i := c[i]]
  {
  }
}
