/**
 Readers and writers of a pipe as interleaved steps, with the locks of the pipe and of the
 process table and the steps of sleep() and wakeup().
 */
module Pipe {
  import opened Options

  const PIPESIZE: nat := 512
  const UINT_RANGE := 0x1_0000_0000

  type Byte = x: int | 0 <= x < 256
  type Word = x: int | 0 <= x < UINT_RANGE

  type Ring = d: seq<Byte> | |d| == PIPESIZE witness seq(PIPESIZE, _ => 0)

  datatype Chan = NRead | NWrite

  // Where a process is in pipewrite(), piperead(), pipeclose() or in the sleep() they call.
  datatype Pc =
    | Idle
    | WStart | WTest(i: nat) | WSignal(i: nat) | WEnd
    | RStart | RTest | RCopy | REnd
    | CStart(writable: bool) | CSignal(writable: bool)
    | Sleep1(c: Chan, i: nat)  // before acquire(&ptable.lock)
    | Sleep2(c: Chan, i: nat)  // before release(lk)
    | Sleep3(c: Chan, i: nat)  // before the process is marked as sleeping
    | Asleep(c: Chan, i: nat)
    | Reacquire(c: Chan, i: nat)
    | Release(writable: bool)

  // addr is what a writer writes, n how much a reader asks for and got what it has read.
  datatype Proc = Proc(pc: Pc, sleeping: bool, killed: bool, addr: seq<Byte>, n: int, got: seq<Byte>)

  // The ring, with all bytes written and read so far.
  datatype Queue = Queue(data: Ring, nread: Word, nwrite: Word, accepted: seq<Byte>, delivered: seq<Byte>)

  // lk and pt are the holders of the two locks, or -1.
  datatype System = System(procs: seq<Proc>, lk: int, pt: int, q: Queue, readopen: bool, writeopen: bool)

  datatype Action = Write(addr: seq<Byte>) | Read(n: int) | Close(writable: bool) | Go | Kill

  predicate Full(q: Queue) {
    q.nwrite == (q.nread + PIPESIZE) % UINT_RANGE
  }

  predicate Empty(q: Queue) {
    q.nread == q.nwrite
  }

  // p->data[p->nwrite++ % PIPESIZE] = b
  function Stored(q: Queue, b: Byte): (r: Queue) {
    Queue(q.data[q.nwrite % PIPESIZE := b], q.nread, (q.nwrite + 1) % UINT_RANGE, q.accepted + [b], q.delivered)
  }

  function First(q: Queue): (b: Byte) {
    q.data[q.nread % PIPESIZE]
  }

  // p->nread++ after p->data[p->nread % PIPESIZE] has been taken
  function Removed(q: Queue): (r: Queue) {
    q.(nread := (q.nread + 1) % UINT_RANGE, delivered := q.delivered + [First(q)])
  }

  // wakeup1()
  function Woken(procs: seq<Proc>, c: Chan): (r: seq<Proc>)
    ensures |r| == |procs|
    ensures forall i :: 0 <= i < |r| ==> r[i] == Roused(procs[i], c)
  {
    seq(|procs|, i requires 0 <= i < |procs| => Roused(procs[i], c))
  }

  function Roused(x: Proc, c: Chan): (r: Proc) {
    if x.sleeping && x.pc.Asleep? && x.pc.c == c then x.(sleeping := false) else x
  }

  predicate InWrite(pc: Pc) {
    match pc
    case WStart => true case WTest(_) => true case WSignal(_) => true case WEnd => true
    case Sleep1(c, _) => c == NWrite case Sleep2(c, _) => c == NWrite case Sleep3(c, _) => c == NWrite
    case Asleep(c, _) => c == NWrite case Reacquire(c, _) => c == NWrite
    case Release(w) => w
    case _ => false
  }

  predicate InRead(pc: Pc) {
    match pc
    case RStart => true case RTest => true case RCopy => true case REnd => true
    case Sleep1(c, _) => c == NRead case Sleep2(c, _) => c == NRead case Sleep3(c, _) => c == NRead
    case Asleep(c, _) => c == NRead case Reacquire(c, _) => c == NRead
    case Release(w) => !w
    case _ => false
  }

  predicate IsProc(s: System, p: int) {
    0 <= p < |s.procs|
  }

  function Put(s: System, p: int, x: Proc): (r: System)
    requires IsProc(s, p)
  {
    s.(procs := s.procs[p := x])
  }

  function Goto(s: System, p: int, pc: Pc): (r: System)
    requires IsProc(s, p)
  {
    Put(s, p, s.procs[p].(pc := pc))
  }

  // No call is in progress on an end of the pipe.
  ghost predicate Unused(s: System, writable: bool) {
    forall q :: IsProc(s, q) ==>
      && !(if writable then InWrite(s.procs[q].pc) else InRead(s.procs[q].pc))
      && s.procs[q].pc != CStart(writable)
  }

  // A call starts only while its end is open, and an end is closed only when no call is in
  // progress on it: descriptors are counted.
  ghost function Step(s: System, p: int, a: Action): (r: Option<System>) {
    if !IsProc(s, p) then None else
      var x := s.procs[p];
      match a
      case Write(addr) =>
        if x.pc == Idle && s.writeopen && (forall q :: IsProc(s, q) ==> s.procs[q].pc != CStart(true)) then
          Some(Put(s, p, x.(pc := WStart, addr := addr))) else None
      case Read(n) =>
        if x.pc == Idle && s.readopen && (forall q :: IsProc(s, q) ==> s.procs[q].pc != CStart(false)) then
          Some(Put(s, p, x.(pc := RStart, n := n, got := []))) else None
      case Close(w) =>
        if x.pc == Idle && (if w then s.writeopen else s.readopen) && Unused(s, w)
        then Some(Goto(s, p, CStart(w))) else None
      case Kill => if s.pt == -1 then Some(Put(s, p, x.(killed := true, sleeping := false))) else None
      case Go => Advance(s, p, x)
  }

  // The next step of process p, if it need not wait.
  function Advance(s: System, p: int, x: Proc): (r: Option<System>)
    requires IsProc(s, p)
  {
    match x.pc
    case Idle => None
    case WStart => if s.lk == -1 then Some(Goto(s, p, WTest(0)).(lk := p)) else None
    case WTest(i) => Some(WriteTest(s, p, x, i))
    case WSignal(i) => if s.pt == -1 then Some(Goto(s.(procs := Woken(s.procs, NRead)), p, Sleep1(NWrite, i))) else None
    case WEnd => if s.pt == -1 then Some(Goto(s.(procs := Woken(s.procs, NRead)), p, Release(true))) else None
    case RStart => if s.lk == -1 then Some(Goto(s, p, RTest).(lk := p)) else None
    case RTest =>
      if !Empty(s.q) || !s.writeopen then Some(Goto(s, p, RCopy))
      else if x.killed then Some(Goto(s, p, Idle).(lk := -1))
      else Some(Goto(s, p, Sleep1(NRead, 0)))
    case RCopy => Some(ReadCopy(s, p, x))
    case REnd => if s.pt == -1 then Some(Goto(s.(procs := Woken(s.procs, NWrite)), p, Release(false))) else None
    case CStart(w) =>
      if s.lk != -1 then None
      else if w then Some(Goto(s, p, CSignal(w)).(lk := p, writeopen := false))
      else Some(Goto(s, p, CSignal(w)).(lk := p, readopen := false))
    case CSignal(w) =>
      if s.pt == -1
      then Some(Goto(s.(procs := Woken(s.procs, if w then NRead else NWrite)), p, Idle).(lk := -1)) else None
    case Sleep1(c, i) => if s.pt == -1 then Some(Goto(s, p, Sleep2(c, i)).(pt := p)) else None
    case Sleep2(c, i) => Some(Goto(s, p, Sleep3(c, i)).(lk := -1))
    case Sleep3(c, i) => Some(Put(s, p, x.(pc := Asleep(c, i), sleeping := true)).(pt := -1))
    case Asleep(c, i) => if !x.sleeping && s.pt == -1 then Some(Goto(s, p, Reacquire(c, i))) else None
    case Reacquire(c, i) =>
      if s.lk == -1 then Some(Goto(s, p, if c == NRead then RTest else WTest(i)).(lk := p)) else None
    case Release(_) => Some(Goto(s, p, Idle).(lk := -1))
  }

  // The two loops of pipewrite() at byte i.
  function WriteTest(s: System, p: int, x: Proc, i: nat): (r: System)
    requires IsProc(s, p)
  {
    if i >= |x.addr| then Goto(s, p, WEnd)
    else if Full(s.q) then
      if !s.readopen || x.killed then Goto(s, p, Idle).(lk := -1) else Goto(s, p, WSignal(i))
    else Goto(s, p, WTest(i + 1)).(q := Stored(s.q, x.addr[i]))
  }

  // The copying loop of piperead().
  function ReadCopy(s: System, p: int, x: Proc): (r: System)
    requires IsProc(s, p)
  {
    if |x.got| >= x.n || Empty(s.q) then Goto(s, p, REnd)
    else Put(s, p, x.(got := x.got + [First(s.q)])).(q := Removed(s.q))
  }

  // ----- The stream -----

  ghost predicate Delivered(q: Queue, k: int)
    requires 0 <= k < |q.delivered| <= |q.accepted|
  {
    q.delivered[k] == q.accepted[k]
  }

  ghost predicate Pending(q: Queue, k: int)
    requires 0 <= k < |q.accepted|
  {
    q.data[k % PIPESIZE] == q.accepted[k]
  }

  // The bytes read are a prefix of the bytes written, and the ring holds the rest.
  ghost predicate Stream(q: Queue) {
    && |q.delivered| <= |q.accepted| <= |q.delivered| + PIPESIZE
    && q.nread == |q.delivered| % UINT_RANGE && q.nwrite == |q.accepted| % UINT_RANGE
    && (forall k :: 0 <= k < |q.delivered| ==> Delivered(q, k))
    && (forall k :: |q.delivered| <= k < |q.accepted| ==> Pending(q, k))
  }

  // The counters tell full from empty although they wrap, since PIPESIZE divides 2^32.
  lemma {:induction false} CountersDecide(q: Queue)
    requires Stream(q)
    ensures Full(q) <==> |q.accepted| == |q.delivered| + PIPESIZE
    ensures Empty(q) <==> |q.accepted| == |q.delivered|
    ensures q.nread % PIPESIZE == |q.delivered| % PIPESIZE && q.nwrite % PIPESIZE == |q.accepted| % PIPESIZE
  {
    Wraps(|q.delivered|);
    Wraps(|q.accepted|);
    Distance(|q.delivered|, |q.accepted|);
  }

  lemma {:induction false} Distance(d: int, a: int)
    requires 0 <= d <= a <= d + PIPESIZE
    ensures a % UINT_RANGE == (d % UINT_RANGE + PIPESIZE) % UINT_RANGE <==> a == d + PIPESIZE
    ensures a % UINT_RANGE == d % UINT_RANGE <==> a == d
  {
  }

  lemma {:induction false} Wraps(n: int)
    requires 0 <= n
    ensures n % UINT_RANGE % PIPESIZE == n % PIPESIZE
    ensures (n + 1) % UINT_RANGE == (n % UINT_RANGE + 1) % UINT_RANGE
  {
    var laps, rest := n / UINT_RANGE, n % UINT_RANGE;
    assert n == PIPESIZE * (8388608 * laps) + rest;
    SameSlot(rest, 8388608 * laps);
    assert rest == UINT_RANGE - 1 ==> n + 1 == UINT_RANGE * (laps + 1);
  }

  lemma {:induction false} SameSlot(n: int, laps: int)
    ensures (PIPESIZE * laps + n) % PIPESIZE == n % PIPESIZE
  {
  }

  lemma {:induction false} OtherSlot(k: int, a: int)
    requires 0 <= k < a < k + PIPESIZE
    ensures k % PIPESIZE != a % PIPESIZE
  {
  }

  lemma {:induction false} ByteStored(q: Queue, b: Byte)
    requires Stream(q) && !Full(q)
    ensures Stream(Stored(q, b))
  {
    var q' := Stored(q, b);
    CountersDecide(q);
    Wraps(|q.accepted|);
    forall k | 0 <= k < |q'.delivered| ensures Delivered(q', k) { assert Delivered(q, k); }
    forall k | |q'.delivered| <= k < |q'.accepted| ensures Pending(q', k) {
      if k < |q.accepted| {
        assert Pending(q, k);
        OtherSlot(k, |q.accepted|);
      }
    }
  }

  lemma {:induction false} ByteRemoved(q: Queue)
    requires Stream(q) && !Empty(q)
    ensures Stream(Removed(q)) && First(q) == q.accepted[|q.delivered|]
  {
    var q' := Removed(q);
    CountersDecide(q);
    Wraps(|q.delivered|);
    assert Pending(q, |q.delivered|);
    forall k | 0 <= k < |q'.delivered| ensures Delivered(q', k) {
      if k < |q.delivered| { assert Delivered(q, k); }
    }
    forall k | |q'.delivered| <= k < |q'.accepted| ensures Pending(q', k) { assert Pending(q, k); }
  }

  // A step moves at most one byte.
  lemma {:induction false} QueueAfter(s: System, p: int, a: Action)
    requires Step(s, p, a).Some?
    ensures var q', x := Step(s, p, a).value.q, s.procs[p];
            || q' == s.q
            || (x.pc.WTest? && x.pc.i < |x.addr| && !Full(s.q) && q' == Stored(s.q, x.addr[x.pc.i]))
            || (x.pc.RCopy? && !Empty(s.q) && q' == Removed(s.q))
  {
  }

  lemma {:induction false} StepKeepsStream(s: System, p: int, a: Action)
    requires Stream(s.q) && Step(s, p, a).Some?
    ensures Stream(Step(s, p, a).value.q)
  {
    var q', x := Step(s, p, a).value.q, s.procs[p];
    QueueAfter(s, p, a);
    if q' != s.q {
      if x.pc.WTest? { ByteStored(s.q, x.addr[x.pc.i]); } else { ByteRemoved(s.q); }
    }
  }

  // ----- Locks and sleepers -----

  predicate HoldsLk(pc: Pc) {
    || pc.WTest? || pc.WSignal? || pc.WEnd? || pc.RTest? || pc.RCopy? || pc.REnd? || pc.CSignal?
    || pc.Sleep1? || pc.Sleep2? || pc.Release?
  }

  predicate HoldsPt(pc: Pc) {
    pc.Sleep2? || pc.Sleep3?
  }

  // The process sleeps on c, or has given up the lock of the pipe and is about to.
  predicate Resting(x: Proc, c: Chan) {
    (x.pc.Sleep3? && x.pc.c == c) || (x.pc.Asleep? && x.pc.c == c && x.sleeping)
  }

  // The process will wake up those that sleep on c before it gives up the lock.
  predicate Owes(pc: Pc, c: Chan) {
    match c
    case NRead => pc.WTest? || pc.WSignal? || pc.WEnd? || pc == CSignal(true)
    case NWrite => pc.RCopy? || pc.REnd? || pc == CSignal(false)
  }

  predicate Signalled(s: System, c: Chan) {
    IsProc(s, s.lk) && Owes(s.procs[s.lk].pc, c)
  }

  predicate ProcOk(s: System, p: int)
    requires IsProc(s, p)
  {
    var x := s.procs[p];
    && (HoldsLk(x.pc) <==> s.lk == p) && (HoldsPt(x.pc) <==> s.pt == p) && (x.sleeping ==> x.pc.Asleep?)
    && (InWrite(x.pc) || x.pc == CStart(true) ==> s.writeopen)
    && (InRead(x.pc) || x.pc == CStart(false) ==> s.readopen)
    && (x.pc.WSignal? || ((x.pc.Sleep1? || x.pc.Sleep2?) && x.pc.c == NWrite) ==> Full(s.q) && s.readopen)
    && ((x.pc.Sleep1? || x.pc.Sleep2?) && x.pc.c == NRead ==> Empty(s.q) && s.writeopen)
    && (Resting(x, NWrite) ==> (Full(s.q) && s.readopen) || Signalled(s, NWrite))
  }

  predicate PairOk(s: System, p: int, r: int)
    requires IsProc(s, p) && IsProc(s, r)
  {
    var pc, x := s.procs[p].pc, s.procs[r];
    && (pc == CStart(true) ==> !InWrite(x.pc) && (p != r ==> x.pc != CStart(true)))
    && (pc == CStart(false) ==> !InRead(x.pc) && (p != r ==> x.pc != CStart(false)))
    && ((pc.Sleep1? || pc.Sleep2?) && pc.c == NWrite ==> !Resting(x, NRead))
  }

  ghost predicate Core(s: System) {
    && Stream(s.q) && (s.lk == -1 || IsProc(s, s.lk)) && (s.pt == -1 || IsProc(s, s.pt))
    && (forall p :: 0 <= p < |s.procs| ==> ProcOk(s, p))
    && (forall p, r :: 0 <= p < |s.procs| && 0 <= r < |s.procs| ==> PairOk(s, p, r))
  }

  // Whoever sleeps on nread will not miss a byte or the end of the stream.
  predicate QuietAt(s: System, p: int)
    requires IsProc(s, p)
  {
    Resting(s.procs[p], NRead) ==> (Empty(s.q) && s.writeopen) || Signalled(s, NRead)
  }

  ghost predicate Quiet(s: System) {
    forall p :: 0 <= p < |s.procs| ==> QuietAt(s, p)
  }

  // A killed writer returns from a full pipe without a wakeup, although a reader sleeps.
  ghost predicate BadExit(s: System, p: int, a: Action) {
    && IsProc(s, p) && a == Go
    && var x := s.procs[p];
       x.pc.WTest? && x.pc.i < |x.addr| && Full(s.q) && s.readopen && x.killed && exists r :: RestingReader(s, r)
  }

  predicate RestingReader(s: System, r: int) {
    IsProc(s, r) && Resting(s.procs[r], NRead)
  }

  // Only process p moves, taking or giving up locks.
  predicate Local(s: System, s': System, p: int) {
    && IsProc(s, p) && |s'.procs| == |s.procs| && s'.procs == s.procs[p := s'.procs[p]]
    && s'.q == s.q && s'.readopen == s.readopen && s'.writeopen == s.writeopen
    && Handover(s.lk, s'.lk, p) && Handover(s.pt, s'.pt, p)
  }

  predicate Handover(before: int, after: int, p: int) {
    after == before || (before == -1 && after == p) || (before == p && after == -1)
  }

  // What is known about process r when p takes a step.
  predicate Before(s: System, p: int, r: int)
    requires IsProc(s, p) && IsProc(s, r)
  {
    ProcOk(s, p) && ProcOk(s, r) && PairOk(s, p, r) && PairOk(s, r, p)
  }

  // A step keeps the invariant if it does so process by process.
  lemma {:induction false} GlobalKeeps(s: System, s': System, p: int)
    requires Core(s) && IsProc(s, p) && |s'.procs| == |s.procs| && Stream(s'.q)
    requires ProcOk(s, p) ==> (s'.lk == -1 || IsProc(s, s'.lk)) && (s'.pt == -1 || IsProc(s, s'.pt))
    requires forall r :: 0 <= r < |s.procs| && Before(s, p, r) ==> ProcOk(s', r)
    requires forall r, t ::
               0 <= r < |s.procs| && 0 <= t < |s.procs| && PairOk(s, r, t) && Before(s, p, r) && Before(s, p, t) ==>
                 PairOk(s', r, t)
    ensures Core(s')
  {
    forall r | 0 <= r < |s.procs| ensures Before(s, p, r) {
      assert ProcOk(s, p) && ProcOk(s, r) && PairOk(s, p, r) && PairOk(s, r, p);
    }
    forall r, t | 0 <= r < |s.procs| && 0 <= t < |s.procs| ensures PairOk(s', r, t) { assert PairOk(s, r, t); }
  }

  lemma {:induction false} QuietKeeps(s: System, s': System, p: int)
    requires Core(s) && Quiet(s) && IsProc(s, p) && |s'.procs| == |s.procs|
    requires forall r :: 0 <= r < |s.procs| && Before(s, p, r) && QuietAt(s, r) && QuietAt(s, p) ==> QuietAt(s', r)
    ensures Quiet(s')
  {
    forall r | 0 <= r < |s.procs| ensures QuietAt(s', r) {
      assert ProcOk(s, p) && ProcOk(s, r) && PairOk(s, p, r) && PairOk(s, r, p) && QuietAt(s, r) && QuietAt(s, p);
    }
  }

  // A local step changes nothing for two other processes.
  lemma {:induction false} LocalKeeps(s: System, s': System, p: int)
    requires Core(s) && Local(s, s', p)
    requires ProcOk(s, p) ==> ProcOk(s', p) && (Signalled(s, NWrite) ==> Signalled(s', NWrite))
    requires forall r :: 0 <= r < |s.procs| && Before(s, p, r) ==> PairOk(s', p, r) && PairOk(s', r, p)
    requires ProcOk(s, p) && QuietAt(s, p) ==> QuietAt(s', p) && (Signalled(s, NRead) ==> Signalled(s', NRead))
    ensures Core(s') && (Quiet(s) ==> Quiet(s'))
  {
    assert ProcOk(s, p);
    forall r | 0 <= r < |s.procs| ensures PairOk(s', p, r) && PairOk(s', r, p) && ProcOk(s', r) {
      assert ProcOk(s, r) && PairOk(s, p, r) && PairOk(s, r, p) && Before(s, p, r);
    }
    forall r, t | 0 <= r < |s.procs| && 0 <= t < |s.procs| ensures PairOk(s', r, t) { assert PairOk(s, r, t); }
    if Quiet(s) {
      assert QuietAt(s, p);
      forall r | 0 <= r < |s.procs| ensures QuietAt(s', r) { assert QuietAt(s, r); }
    }
  }

  lemma {:induction false} CloseStartKeeps(s: System, p: int, w: bool)
    requires Core(s) && Step(s, p, Close(w)).Some?
    ensures var s' := Step(s, p, Close(w)).value; Core(s') && (Quiet(s) ==> Quiet(s'))
  {
    LocalKeeps(s, Step(s, p, Close(w)).value, p);
  }

  // A byte is stored: no writer sleeps, for the pipe is not full.
  lemma {:induction false} StoreKeeps(s: System, p: int)
    requires Core(s) && Step(s, p, Go).Some? && (var x := s.procs[p]; x.pc.WTest? && x.pc.i < |x.addr| && !Full(s.q))
    ensures var s' := Step(s, p, Go).value; Core(s') && (Quiet(s) ==> Quiet(s'))
  {
    StepKeepsStream(s, p, Go);
    GlobalKeeps(s, Step(s, p, Go).value, p);
    if Quiet(s) { QuietKeeps(s, Step(s, p, Go).value, p); }
  }

  // pipewrite() gives up. Without the read end no reader is left.
  lemma {:induction false} WriteExitKeeps(s: System, p: int)
    requires Core(s) && Step(s, p, Go).Some?
    requires (var x := s.procs[p]; x.pc.WTest? && x.pc.i < |x.addr| && Full(s.q) && (!s.readopen || x.killed))
    ensures var s' := Step(s, p, Go).value; Core(s') && (Quiet(s) && !BadExit(s, p, Go) ==> Quiet(s'))
  {
    StepKeepsStream(s, p, Go);
    GlobalKeeps(s, Step(s, p, Go).value, p);
    if Quiet(s) && !BadExit(s, p, Go) {
      var s' := Step(s, p, Go).value;
      forall r | 0 <= r < |s.procs| && Before(s, p, r) && QuietAt(s, r) && QuietAt(s, p) ensures QuietAt(s', r) {
        assert RestingReader(s, r) ==> !s.readopen;
      }
      QuietKeeps(s, s', p);
    }
  }

  // wakeup(&p->nread) leaves no reader asleep.
  lemma {:induction false} SignalKeeps(s: System, p: int)
    requires Core(s) && Step(s, p, Go).Some? && (s.procs[p].pc.WSignal? || s.procs[p].pc.WEnd?)
    ensures var s' := Step(s, p, Go).value; Core(s') && (Quiet(s) ==> Quiet(s'))
  {
    StepKeepsStream(s, p, Go);
    GlobalKeeps(s, Step(s, p, Go).value, p);
    if Quiet(s) { QuietKeeps(s, Step(s, p, Go).value, p); }
  }

  // A byte is taken: no reader sleeps, for the pipe is not empty.
  lemma {:induction false} CopyKeeps(s: System, p: int)
    requires Core(s) && Step(s, p, Go).Some? && (var x := s.procs[p]; x.pc.RCopy? && |x.got| < x.n && !Empty(s.q))
    ensures var s' := Step(s, p, Go).value; Core(s') && (Quiet(s) ==> Quiet(s'))
  {
    StepKeepsStream(s, p, Go);
    GlobalKeeps(s, Step(s, p, Go).value, p);
    if Quiet(s) { QuietKeeps(s, Step(s, p, Go).value, p); }
  }

  lemma {:induction false} ReadEndKeeps(s: System, p: int)
    requires Core(s) && Step(s, p, Go).Some? && s.procs[p].pc.REnd?
    ensures var s' := Step(s, p, Go).value; Core(s') && (Quiet(s) ==> Quiet(s'))
  {
    StepKeepsStream(s, p, Go);
    GlobalKeeps(s, Step(s, p, Go).value, p);
    if Quiet(s) { QuietKeeps(s, Step(s, p, Go).value, p); }
  }

  lemma {:induction false} CloseKeeps(s: System, p: int)
    requires Core(s) && Step(s, p, Go).Some? && (s.procs[p].pc.CStart?)
    ensures var s' := Step(s, p, Go).value; Core(s') && (Quiet(s) ==> Quiet(s'))
  {
    StepKeepsStream(s, p, Go);
    GlobalKeeps(s, Step(s, p, Go).value, p);
    if Quiet(s) { QuietKeeps(s, Step(s, p, Go).value, p); }
  }

  lemma {:induction false} CloseEndKeeps(s: System, p: int)
    requires Core(s) && Step(s, p, Go).Some? && (s.procs[p].pc.CSignal?)
    ensures var s' := Step(s, p, Go).value; Core(s') && (Quiet(s) ==> Quiet(s'))
  {
    StepKeepsStream(s, p, Go);
    GlobalKeeps(s, Step(s, p, Go).value, p);
    if Quiet(s) { QuietKeeps(s, Step(s, p, Go).value, p); }
  }

  lemma {:induction false} CallKeeps(s: System, p: int, a: Action)
    requires Core(s) && Step(s, p, a).Some? && (a.Write? || a.Read? || a.Kill?)
    ensures var s' := Step(s, p, a).value; Core(s') && (Quiet(s) ==> Quiet(s'))
  {
    assert ProcOk(s, p);
    LocalKeeps(s, Step(s, p, a).value, p);
  }

  lemma {:induction false} WriteTestKeeps(s: System, p: int)
    requires Core(s) && Step(s, p, Go).Some?
    requires var x := s.procs[p];
             x.pc.WStart? || (x.pc.WTest? && (x.pc.i >= |x.addr| || (Full(s.q) && s.readopen && !x.killed)))
    ensures var s' := Step(s, p, Go).value; Core(s') && (Quiet(s) ==> Quiet(s'))
  {
    assert ProcOk(s, p);
    LocalKeeps(s, Step(s, p, Go).value, p);
  }

  lemma {:induction false} ReadTestKeeps(s: System, p: int)
    requires Core(s) && Step(s, p, Go).Some? && (s.procs[p].pc.RStart? || s.procs[p].pc.RTest?)
    ensures var s' := Step(s, p, Go).value; Core(s') && (Quiet(s) ==> Quiet(s'))
  {
    assert ProcOk(s, p);
    LocalKeeps(s, Step(s, p, Go).value, p);
  }

  lemma {:induction false} CopyEndKeeps(s: System, p: int)
    requires Core(s) && Step(s, p, Go).Some? && (var x := s.procs[p]; x.pc.RCopy? && (|x.got| >= x.n || Empty(s.q)))
    ensures var s' := Step(s, p, Go).value; Core(s') && (Quiet(s) ==> Quiet(s'))
  {
    assert ProcOk(s, p);
    LocalKeeps(s, Step(s, p, Go).value, p);
  }

  // Between release(lk) and the moment it sleeps a process holds ptable.lock.
  lemma {:induction false} FallAsleepKeeps(s: System, p: int)
    requires Core(s) && Step(s, p, Go).Some?
    requires (s.procs[p].pc.Sleep1? || s.procs[p].pc.Sleep2? || s.procs[p].pc.Sleep3?)
    ensures var s' := Step(s, p, Go).value; Core(s') && (Quiet(s) ==> Quiet(s'))
  {
    assert ProcOk(s, p);
    LocalKeeps(s, Step(s, p, Go).value, p);
  }

  lemma {:induction false} WakeKeeps(s: System, p: int)
    requires Core(s) && Step(s, p, Go).Some? && (s.procs[p].pc.Asleep? || s.procs[p].pc.Reacquire?)
    ensures var s' := Step(s, p, Go).value; Core(s') && (Quiet(s) ==> Quiet(s'))
  {
    assert ProcOk(s, p);
    LocalKeeps(s, Step(s, p, Go).value, p);
  }

  lemma {:induction false} ReleaseKeeps(s: System, p: int)
    requires Core(s) && Step(s, p, Go).Some? && s.procs[p].pc.Release?
    ensures var s' := Step(s, p, Go).value; Core(s') && (Quiet(s) ==> Quiet(s'))
  {
    assert ProcOk(s, p);
    LocalKeeps(s, Step(s, p, Go).value, p);
  }

  lemma {:induction false} GoKeeps(s: System, p: int)
    requires Core(s) && Step(s, p, Go).Some?
    ensures var s' := Step(s, p, Go).value; Core(s') && (Quiet(s) && !BadExit(s, p, Go) ==> Quiet(s'))
  {
    var x := s.procs[p];
    match x.pc {
      case WStart => WriteTestKeeps(s, p);
      case WTest(i) =>
        if i >= |x.addr| {
          WriteTestKeeps(s, p);
        } else if !Full(s.q) {
          StoreKeeps(s, p);
        } else if !s.readopen || x.killed {
          WriteExitKeeps(s, p);
        } else {
          WriteTestKeeps(s, p);
        }
      case WSignal(_) => SignalKeeps(s, p);
      case WEnd => SignalKeeps(s, p);
      case RStart => ReadTestKeeps(s, p);
      case RTest => ReadTestKeeps(s, p);
      case RCopy => if |x.got| < x.n && !Empty(s.q) { CopyKeeps(s, p); } else { CopyEndKeeps(s, p); }
      case REnd => ReadEndKeeps(s, p);
      case Release(_) => ReleaseKeeps(s, p);
      case CStart(_) => CloseKeeps(s, p);
      case CSignal(_) => CloseEndKeeps(s, p);
      case Sleep1(_, _) => FallAsleepKeeps(s, p);
      case Sleep2(_, _) => FallAsleepKeeps(s, p);
      case Sleep3(_, _) => FallAsleepKeeps(s, p);
      case Asleep(_, _) => WakeKeeps(s, p);
      case Reacquire(_, _) => WakeKeeps(s, p);
    }
  }

  lemma {:induction false} StepKeeps(s: System, p: int, a: Action)
    requires Core(s) && Step(s, p, a).Some?
    ensures var s' := Step(s, p, a).value; Core(s') && (Quiet(s) && !BadExit(s, p, a) ==> Quiet(s'))
  {
    match a {
      case Write(_) => CallKeeps(s, p, a);
      case Read(_) => CallKeeps(s, p, a);
      case Close(w) => CloseStartKeeps(s, p, w);
      case Kill => CallKeeps(s, p, a);
      case Go => GoKeeps(s, p);
    }
  }

  // ----- Runs -----

  // The state pipealloc() leaves, with any number of processes.
  ghost predicate Init(s: System) {
    && s.lk == -1 && s.pt == -1 && s.readopen && s.writeopen
    && s.q.nread == 0 && s.q.nwrite == 0 && s.q.accepted == [] && s.q.delivered == []
    && forall p :: 0 <= p < |s.procs| ==> s.procs[p].pc == Idle && !s.procs[p].sleeping
  }

  datatype Schedule = Start | Then(before: Schedule, p: int, a: Action)

  // The state a schedule leads to; None if it asks for a step that cannot be taken.
  ghost function Run(s0: System, sched: Schedule): (r: Option<System>)
    requires Init(s0)
    ensures r.Some? ==> Core(r.value)
  {
    match sched
    case Start => Some(s0)
    case Then(before, p, a) =>
      var r := Run(s0, before);
      if r.None? || Step(r.value, p, a).None? then None
      else
        StepKeeps(r.value, p, a);
        Step(r.value, p, a)
  }

  // In every run the bytes read are a prefix of the bytes written, at most PIPESIZE bytes behind.
  lemma {:induction false} BytesInOrder(s0: System, sched: Schedule)
    requires Init(s0)
    ensures var r := Run(s0, sched);
            r.Some? ==>
              && r.value.q.delivered <= r.value.q.accepted
              && |r.value.q.accepted| <= |r.value.q.delivered| + PIPESIZE
  {
    var r := Run(s0, sched);
    if r.Some? {
      var q := r.value.q;
      forall k | 0 <= k < |q.delivered| ensures q.delivered[k] == q.accepted[k] { assert Delivered(q, k); }
    }
  }

  // ----- What a call reads -----

  predicate Copied(pc: Pc) {
    pc.RCopy? || pc.REnd? || pc == Release(false)
  }

  predicate IsTail(g: seq<Byte>, d: seq<Byte>) {
    |g| <= |d| && forall k :: 0 <= k < |g| ==> g[k] == d[|d| - |g| + k]
  }

  // What a reader has is the last part of what was read.
  predicate PieceOk(s: System, p: int)
    requires IsProc(s, p)
  {
    var x := s.procs[p];
    && (InRead(x.pc) && !Copied(x.pc) ==> x.got == [])
    && (Copied(x.pc) ==> IsTail(x.got, s.q.delivered) && (|x.got| <= x.n || x.got == []))
  }

  // Steps change the process that takes them and wake others up.
  predicate Wakes(pc: Pc) {
    pc.WSignal? || pc.WEnd? || pc.REnd? || pc.CSignal?
  }

  lemma {:induction false} OnlyOwn(s: System, p: int, a: Action, r: int)
    requires Step(s, p, a).Some? && !(a == Go && Wakes(s.procs[p].pc)) && IsProc(s, r)
    ensures var s' := Step(s, p, a).value; |s'.procs| == |s.procs| && (r != p ==> s'.procs[r] == s.procs[r])
  {
    if a == Go {
      if Sleeps(s.procs[p].pc) { OnlyOwnAsleep(s, p, r); } else { OnlyOwnAwake(s, p, r); }
    }
  }

  predicate Sleeps(pc: Pc) {
    pc.Sleep1? || pc.Sleep2? || pc.Sleep3? || pc.Asleep? || pc.Reacquire?
  }

  lemma {:induction false} OnlyOwnAsleep(s: System, p: int, r: int)
    requires Step(s, p, Go).Some? && Sleeps(s.procs[p].pc) && IsProc(s, r)
    ensures var s' := Step(s, p, Go).value; |s'.procs| == |s.procs| && (r != p ==> s'.procs[r] == s.procs[r])
  {
  }

  lemma {:induction false} StillWriting(s: System, p: int, i: nat)
    requires IsProc(s, p)
    ensures var s' := WriteTest(s, p, s.procs[p], i);
            |s'.procs| == |s.procs| && s'.procs == s.procs[p := s'.procs[p]] && !InRead(s'.procs[p].pc)
  {
  }

  lemma {:induction false} OnlyOwnAwake(s: System, p: int, r: int)
    requires Step(s, p, Go).Some? && !Sleeps(s.procs[p].pc) && !Wakes(s.procs[p].pc) && IsProc(s, r)
    ensures var s' := Step(s, p, Go).value; |s'.procs| == |s.procs| && (r != p ==> s'.procs[r] == s.procs[r])
  {
    var pc := s.procs[p].pc;
    if pc.WTest? {
      assert Step(s, p, Go) == Some(WriteTest(s, p, s.procs[p], pc.i));
      StillWriting(s, p, pc.i);
    }
  }

  lemma {:induction false} OwnAndWoken(s: System, p: int)
    requires Step(s, p, Go).Some? && Wakes(s.procs[p].pc)
    ensures var s' := Step(s, p, Go).value;
            && |s'.procs| == |s.procs| && s'.q == s.q && s'.procs[p].got == s.procs[p].got
            && s'.procs[p].n == s.procs[p].n
            && (InRead(s'.procs[p].pc) ==> Copied(s'.procs[p].pc) && s.procs[p].pc == REnd)
            && (|| s'.procs == Woken(s.procs, NRead)[p := s'.procs[p]]
                || s'.procs == Woken(s.procs, NWrite)[p := s'.procs[p]])
  {
  }

  // Only the copying loop adds to what a process has read, and only a new call drops it.
  lemma {:induction false} GotKept(s: System, p: int, a: Action)
    requires Step(s, p, a).Some? && !(a == Go && (Wakes(s.procs[p].pc) || s.procs[p].pc.RCopy?))
    requires InRead(s.procs[p].pc)
    ensures var s', x := Step(s, p, a).value, s.procs[p];
            |s'.procs| == |s.procs| && s'.procs[p].got == x.got && s'.procs[p].n == x.n
  {
  }

  // A process that is not copying has not begun to, or goes on to.
  // What a step that copies nothing out does to the read it is part of.
  predicate ReadOn(x: Proc, x': Proc, a: Action) {
    InRead(x'.pc) ==>
      if a.Read? then x'.pc == RStart && x'.got == []
      else InRead(x.pc) && (Copied(x'.pc) ==> Copied(x.pc) || (x.pc.RTest? && x'.pc == RCopy))
  }

  lemma {:induction false} NotCopying(s: System, p: int, a: Action)
    requires Step(s, p, a).Some? && !(a == Go && (Wakes(s.procs[p].pc) || s.procs[p].pc.RCopy?))
    ensures var s' := Step(s, p, a).value; |s'.procs| == |s.procs| && ReadOn(s.procs[p], s'.procs[p], a)
  {
    if a == Go {
      if InRead(s.procs[p].pc) { ReadGoesOn(s, p); } else { NotReading(s, p); }
    }
  }

  lemma {:induction false} ReadGoesOn(s: System, p: int)
    requires Step(s, p, Go).Some? && InRead(s.procs[p].pc) && !Wakes(s.procs[p].pc) && !s.procs[p].pc.RCopy?
    ensures var s' := Step(s, p, Go).value; |s'.procs| == |s.procs| && ReadOn(s.procs[p], s'.procs[p], Go)
  {
    if Sleeps(s.procs[p].pc) { SleeperGoes(s, p); }
  }

  lemma {:induction false} NotReading(s: System, p: int)
    requires Step(s, p, Go).Some? && !InRead(s.procs[p].pc) && !Wakes(s.procs[p].pc)
    ensures var s' := Step(s, p, Go).value; |s'.procs| == |s.procs| && !InRead(s'.procs[p].pc)
  {
    var pc := s.procs[p].pc;
    if pc.WTest? {
      assert Step(s, p, Go) == Some(WriteTest(s, p, s.procs[p], pc.i));
      StillWriting(s, p, pc.i);
    } else if Sleeps(pc) {
      SleeperGoes(s, p);
    }
  }

  lemma {:induction false} SleeperGoes(s: System, p: int)
    requires Step(s, p, Go).Some? && Sleeps(s.procs[p].pc)
    ensures var s' := Step(s, p, Go).value;
            && |s'.procs| == |s.procs| && (InRead(s'.procs[p].pc) <==> InRead(s.procs[p].pc))
            && !Copied(s'.procs[p].pc)
  {
  }

  lemma {:induction false} CopyPiece(s: System, p: int)
    requires Step(s, p, Go).Some? && s.procs[p].pc.RCopy? && PieceOk(s, p)
    ensures IsProc(Step(s, p, Go).value, p) && PieceOk(Step(s, p, Go).value, p)
  {
    TailGrows(s.procs[p].got, s.q.delivered, First(s.q));
  }

  lemma {:induction false} TailGrows(g: seq<Byte>, d: seq<Byte>, b: Byte)
    requires IsTail(g, d)
    ensures IsTail(g + [b], d + [b])
  {
  }

  lemma {:induction false} OwnPiece(s: System, p: int, a: Action)
    requires Step(s, p, a).Some? && PieceOk(s, p)
    ensures IsProc(Step(s, p, a).value, p) && PieceOk(Step(s, p, a).value, p)
  {
    var x := s.procs[p];
    QueueAfter(s, p, a);
    if a == Go && Wakes(x.pc) {
      OwnAndWoken(s, p);
    } else if a == Go && x.pc.RCopy? {
      CopyPiece(s, p);
    } else {
      if InRead(x.pc) { GotKept(s, p, a); }
      NotCopying(s, p, a);
    }
  }

  lemma {:induction false} OtherPiece(s: System, p: int, a: Action, r: int)
    requires Core(s) && Step(s, p, a).Some? && IsProc(s, r) && r != p && PieceOk(s, r)
    ensures IsProc(Step(s, p, a).value, r) && PieceOk(Step(s, p, a).value, r)
  {
    QueueAfter(s, p, a);
    assert ProcOk(s, p) && ProcOk(s, r);
    if a == Go && Wakes(s.procs[p].pc) { OwnAndWoken(s, p); } else { OnlyOwn(s, p, a, r); }
  }

  ghost predicate Pieces(s: System) {
    forall p :: 0 <= p < |s.procs| ==> PieceOk(s, p)
  }

  lemma {:induction false} StepKeepsPieces(s: System, p: int, a: Action)
    requires Core(s) && Pieces(s) && Step(s, p, a).Some?
    ensures Pieces(Step(s, p, a).value)
  {
    var s' := Step(s, p, a).value;
    if a == Go && Wakes(s.procs[p].pc) { OwnAndWoken(s, p); } else { OnlyOwn(s, p, a, p); }
    forall q | 0 <= q < |s'.procs| ensures PieceOk(s', q) {
      assert PieceOk(s, q);
      if q == p { OwnPiece(s, p, a); } else { OtherPiece(s, p, a, q); }
    }
  }

  // In every run, what a call to piperead() has read is a contiguous part of the stream, no longer
  // than asked for.
  lemma {:induction false} ReadsAreContiguous(s0: System, sched: Schedule)
    requires Init(s0)
    ensures Run(s0, sched).Some? ==> Pieces(Run(s0, sched).value)
  {
    match sched
    case Start =>
    case Then(before, p, a) =>
      ReadsAreContiguous(s0, before);
      var r := Run(s0, before);
      if r.Some? && Step(r.value, p, a).Some? { StepKeepsPieces(r.value, p, a); }
  }

  // With the lock free, who sleeps on nread has nothing to read and may still get something.
  ghost predicate ReadersOk(s: System) {
    s.lk == -1 ==> forall r :: RestingReader(s, r) ==> Empty(s.q) && s.writeopen
  }

  // With the lock free, who sleeps on nwrite has no room and may still get some.
  ghost predicate WritersOk(s: System) {
    s.lk == -1 ==> forall r :: IsProc(s, r) && Resting(s.procs[r], NWrite) ==> Full(s.q) && s.readopen
  }

  // Readers miss no wakeup in any state of a run.
  ghost predicate NoneLost(s0: System, sched: Schedule)
    requires Init(s0)
  {
    match sched
    case Start => ReadersOk(s0)
    case Then(before, p, a) =>
      NoneLost(s0, before) && (Run(s0, sched).Some? ==> ReadersOk(Run(s0, sched).value))
  }

  // No killed writer returns while a reader sleeps.
  ghost predicate NoBadExit(s0: System, sched: Schedule)
    requires Init(s0)
  {
    match sched
    case Start => true
    case Then(before, p, a) =>
      NoBadExit(s0, before) && (Run(s0, before).Some? ==> !BadExit(Run(s0, before).value, p, a))
  }

  lemma {:induction false} QuietRun(s0: System, sched: Schedule)
    requires Init(s0) && NoBadExit(s0, sched)
    ensures NoneLost(s0, sched) && (Run(s0, sched).Some? ==> Quiet(Run(s0, sched).value))
  {
    match sched
    case Start =>
    case Then(before, p, a) =>
      QuietRun(s0, before);
      var r := Run(s0, before);
      if r.Some? && Step(r.value, p, a).Some? {
        StepKeeps(r.value, p, a);
        QuietReaders(Step(r.value, p, a).value);
      }
  }

  lemma {:induction false} QuietReaders(s: System)
    requires Core(s) && Quiet(s)
    ensures ReadersOk(s)
  {
    forall r | RestingReader(s, r) && s.lk == -1 ensures Empty(s.q) && s.writeopen { assert QuietAt(s, r); }
  }

  lemma {:induction false} BadExitLoses(s: System, p: int, a: Action)
    requires Core(s) && BadExit(s, p, a)
    ensures Step(s, p, a).Some? && !ReadersOk(Step(s, p, a).value)
  {
    CountersDecide(s.q);
    var s' := Step(s, p, a).value;
    var r :| RestingReader(s, r);
    assert RestingReader(s', r);
  }

  // Readers miss no wakeup in a run if and only if no killed writer returns from a full pipe
  // while a reader sleeps.
  lemma {:induction false} NoneLostExactly(s0: System, sched: Schedule)
    requires Init(s0) && Run(s0, sched).Some?
    ensures NoneLost(s0, sched) <==> NoBadExit(s0, sched)
  {
    if NoBadExit(s0, sched) {
      QuietRun(s0, sched);
    } else {
      match sched
      case Then(before, p, a) =>
        NoneLostExactly(s0, before);
        if BadExit(Run(s0, before).value, p, a) { BadExitLoses(Run(s0, before).value, p, a); }
    }
  }

  // Writers never miss one, and then readers and writers do not sleep at the same time.
  lemma {:induction false} WritersNeverLost(s0: System, sched: Schedule)
    requires Init(s0) && Run(s0, sched).Some?
    ensures WritersOk(Run(s0, sched).value)
    ensures NoBadExit(s0, sched) && Run(s0, sched).value.lk == -1 ==>
              forall p, r :: RestingReader(Run(s0, sched).value, p) && IsProc(Run(s0, sched).value, r) ==>
                !Resting(Run(s0, sched).value.procs[r], NWrite)
  {
    var s := Run(s0, sched).value;
    forall r | IsProc(s, r) && Resting(s.procs[r], NWrite) && s.lk == -1 ensures Full(s.q) && s.readopen {
      assert ProcOk(s, r);
    }
    CountersDecide(s.q);
    if NoBadExit(s0, sched) { QuietRun(s0, sched); QuietReaders(s); }
  }

  // ----- A run that loses a wakeup -----

  // Two processes at an empty pipe.
  ghost function Two(x: Proc, y: Proc, lk: int, pt: int): (s: System) {
    System([x, y], lk, pt, Queue(seq(PIPESIZE, _ => 0), 0, 0, [], []), true, true)
  }

  ghost function Waiter(pc: Pc, n: int, sleeping: bool): (x: Proc) {
    Proc(pc, sleeping, false, [], n, [])
  }

  ghost function Beginning(): (s: System)
    ensures Init(s)
  {
    Two(Waiter(Idle, 0, false), Waiter(Idle, 0, false), -1, -1)
  }

  // One byte more than the pipe holds.
  ghost function Message(): (m: seq<Byte>)
    ensures |m| == PIPESIZE + 1
  {
    seq(PIPESIZE + 1, _ => 7)
  }

  // Process 0 sleeps in piperead() and process 1 has stored k bytes.
  ghost predicate Storing(s: System, k: nat) {
    && |s.procs| == 2 && s.lk == 1 && s.pt == -1 && s.readopen && s.writeopen
    && s.procs[0].pc == Asleep(NRead, 0) && s.procs[0].sleeping
    && s.procs[1].pc == WTest(k) && s.procs[1].addr == Message()
    && |s.q.accepted| == k && s.q.delivered == []
  }

  lemma {:induction false} Extend(sched: Schedule, s: System, p: int, a: Action, s': System) returns (longer: Schedule)
    requires Run(Beginning(), sched) == Some(s) && Step(s, p, a) == Some(s')
    ensures Run(Beginning(), longer) == Some(s')
  {
    longer := Then(sched, p, a);
  }

  // Process 0 on its way to sleep, with process 1 idle.
  ghost function Reader(pc: Pc, lk: int, pt: int): (s: System) {
    Two(Waiter(pc, 1, pc.Asleep?), Waiter(Idle, 0, false), lk, pt)
  }

  lemma {:induction false} ReaderCalls() returns (sched: Schedule)
    ensures Run(Beginning(), sched) == Some(Reader(RStart, -1, -1))
  {
    var s := Reader(RStart, -1, -1);
    assert Beginning().procs[0 := s.procs[0]] == s.procs;
    sched := Extend(Start, Beginning(), 0, Read(1), s);
  }

  lemma {:induction false} ReaderGoes(sched: Schedule, pc: Pc, lk: int, pt: int, pc': Pc, lk': int, pt': int)
    returns (longer: Schedule)
    requires Run(Beginning(), sched) == Some(Reader(pc, lk, pt))
    requires || (pc == RStart && lk == -1 && pc' == RTest && lk' == 0 && pt == pt')
             || (pc == RTest && pc' == Sleep1(NRead, 0) && lk' == lk && pt' == pt)
             || (pc == Sleep1(NRead, 0) && pt == -1 && pc' == Sleep2(NRead, 0) && lk' == lk && pt' == 0)
             || (pc == Sleep2(NRead, 0) && pc' == Sleep3(NRead, 0) && lk' == -1 && pt' == pt)
             || (pc == Sleep3(NRead, 0) && pc' == Asleep(NRead, 0) && lk' == lk && pt' == -1)
    ensures Run(Beginning(), longer) == Some(Reader(pc', lk', pt'))
  {
    var s, s' := Reader(pc, lk, pt), Reader(pc', lk', pt');
    assert s.procs[0 := s'.procs[0]] == s'.procs;
    longer := Extend(sched, s, 0, Go, s');
  }

  lemma {:induction false} ReaderSleeps() returns (sched: Schedule)
    ensures Run(Beginning(), sched) == Some(Reader(Asleep(NRead, 0), -1, -1))
  {
    sched := ReaderCalls();
    sched := ReaderGoes(sched, RStart, -1, -1, RTest, 0, -1);
    sched := ReaderGoes(sched, RTest, 0, -1, Sleep1(NRead, 0), 0, -1);
    sched := ReaderGoes(sched, Sleep1(NRead, 0), 0, -1, Sleep2(NRead, 0), 0, 0);
    sched := ReaderGoes(sched, Sleep2(NRead, 0), 0, 0, Sleep3(NRead, 0), -1, 0);
    sched := ReaderGoes(sched, Sleep3(NRead, 0), -1, 0, Asleep(NRead, 0), -1, -1);
  }

  lemma {:induction false} WriterStarts() returns (sched: Schedule)
    ensures Run(Beginning(), sched).Some? && Storing(Run(Beginning(), sched).value, 0)
  {
    var before := ReaderSleeps();
    var called := Then(before, 1, Write(Message()));
    var s := Run(Beginning(), called).value;
    assert s.procs[1].pc == WStart && s.lk == -1;
    sched := Then(called, 1, Go);
  }

  lemma {:induction false} WriterFills(k: nat) returns (sched: Schedule)
    requires k <= PIPESIZE
    ensures Run(Beginning(), sched).Some? && Storing(Run(Beginning(), sched).value, k)
  {
    if k == 0 {
      sched := WriterStarts();
    } else {
      var before := WriterFills(k - 1);
      var s := Run(Beginning(), before).value;
      CountersDecide(s.q);
      sched := Then(before, 1, Go);
    }
  }

  // A reader sleeps, a writer fills the pipe, is killed and returns: the reader sleeps on.
  lemma {:induction false} WakeupLost() returns (sched: Schedule, s: System)
    ensures Run(Beginning(), sched) == Some(s) && !NoneLost(Beginning(), sched)
    ensures s.lk == -1 && Full(s.q) && RestingReader(s, 0)
    ensures forall p :: IsProc(s, p) && p != 0 ==> s.procs[p].pc == Idle
  {
    var full := WriterFills(PIPESIZE);
    var s1 := Run(Beginning(), full).value;
    CountersDecide(s1.q);
    var killed := Then(full, 1, Kill);
    var s2 := Run(Beginning(), killed).value;
    assert RestingReader(s2, 0);
    assert BadExit(s2, 1, Go);
    sched := Then(killed, 1, Go);
    BadExitLoses(s2, 1, Go);
    s := Run(Beginning(), sched).value;
  }
}
