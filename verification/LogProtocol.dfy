/**
 The logging protocol in every interleaving: any number of processes run file-system
 operations between begin_op() and end_op(), the last one out commits, and the machine
 may crash after any block write.

 A run is a sequence of actions. `history` records the actions of the operations, and a
 prefix of it is whole when no operation is open at its end. As long as what is committed fits
 the log, the disk is bound to recover to the effect of a whole prefix. A panic stops the run and
 leaves the disk as it was.
 */
module LogProtocol {
  import opened Params
  import opened Options
  import opened LogDisk

  datatype Action =
    | Begin(p: nat)  // begin_op() gets past its waits
    | Guard(p: nat, bn: int)  // the tests of log_write(), which holds no lock then
    | Put(p: nat, bn: int, data: Block)  // its critical section, for a block the process has changed
    | End(p: nat)  // the critical section of end_op()
    | WriteBlock  // commit() writes its next block
    | Finish  // the end of end_op(), after commit()

  datatype History = Empty | Then(past: History, act: Action)

  // ready is the block whose tests have been passed.
  datatype Op = Out | In(logged: set<int>, calls: nat, ready: Option<int>)

  // log as the superblock has it; boot is the disk the system starts from.
  datatype Config = Config(log: Area, boot: Disk, procs: nat)

  datatype Panic = TooBig | LogCommitting | NoBuffers | OutOfRange

  datatype State =
    | Stopped(panic: Panic)
    | Up(ops: seq<Op>, outstanding: int, committing: bool, lh: seq<int>, logical: Disk, disk: Disk,
         from: Disk, written: nat, history: History, durable: History)

  ghost predicate Accepted(c: Config) {
    Idle(c.log, c.boot, c.boot)
  }

  predicate IsHome(c: Config, bn: int) {
    0 <= bn < |c.boot| && !InLog(c.log, bn)
  }

  // ----- What the operations of a history do -----

  ghost function Replay(d: Disk, h: History): (r: Disk)
    ensures |r| == |d|
  {
    match h
    case Empty => d
    case Then(past, Put(p, bn, data)) =>
      var r := Replay(d, past);
      if 0 <= bn < |d| then r[bn := data] else r
    case Then(past, _) => Replay(d, past)
  }

  // The processes inside an operation at the end of a history.
  ghost function Open(h: History): (s: set<nat>) {
    match h
    case Empty => {}
    case Then(past, Begin(p)) => Open(past) + {p}
    case Then(past, End(p)) => Open(past) - {p}
    case Then(past, _) => Open(past)
  }

  ghost predicate Whole(h: History) {
    Open(h) == {}
  }

  ghost predicate Prefix(a: History, b: History) {
    a == b || (b.Then? && Prefix(a, b.past))
  }

  // The blocks written after the prefix a of b.
  ghost function Since(a: History, b: History): (s: set<int>) {
    if a == b || b.Empty? then {}
    else Since(a, b.past) + if b.act.Put? then {b.act.bn} else {}
  }

  // ----- The steps -----

  ghost function Txn(lh: seq<int>, logical: Disk): (txn: seq<Write>)
    requires forall i :: 0 <= i < |lh| ==> 0 <= lh[i] < |logical|
    ensures |txn| == |lh| && forall i :: 0 <= i < |lh| ==> txn[i] == Write(lh[i], logical[lh[i]])
  {
    seq(|lh|, i requires 0 <= i < |lh| => Write(lh[i], logical[lh[i]]))
  }

  function Absorb(lh: seq<int>, bn: int): (r: seq<int>)
    ensures bn in r && forall b :: b in r <==> b in lh || b == bn
  {
    if bn in lh then lh else lh + [bn]
  }

  function SetOp(s: State, p: nat, op: Op): (r: State)
    requires s.Up? && p < |s.ops|
  {
    s.(ops := s.ops[p := op])
  }

  // None when the process is not at that point or has to wait.
  ghost function Step(c: Config, s: State, a: Action): (r: Option<State>)
    requires Inv(c, s)
  {
    if s.Stopped? then None
    else match a
      case Begin(p) =>
        if p < |s.ops| && s.ops[p].Out? && !s.committing
           && |s.lh| + (s.outstanding + 1) * MAXOPBLOCKS <= LOGSIZE
        then Some(SetOp(s, p, In({}, 0, None)).(outstanding := s.outstanding + 1, history := Then(s.history, a)))
        else None
      case Guard(p, bn) =>
        if !(p < |s.ops| && s.ops[p].In? && s.ops[p].ready.None? && MayLog(c, s.ops[p], bn)) then None
        else if |s.lh| >= LOGSIZE || |s.lh| >= c.log.size - 1 then Some(Stopped(TooBig))
        else Some(SetOp(s, p, s.ops[p].(ready := Some(bn))))
      case Put(p, bn, data) =>
        if !(p < |s.ops| && s.ops[p].In? && s.ops[p].ready == Some(bn)) then None
        else
          Some(SetOp(s, p, In(s.ops[p].logged + {bn}, s.ops[p].calls + 1, None))
            .(lh := Absorb(s.lh, bn), logical := s.logical[bn := data], history := Then(s.history, a)))
      case End(p) =>
        if !(p < |s.ops| && s.ops[p].In? && s.ops[p].ready.None?) then None
        else if s.committing then Some(Stopped(LogCommitting))
        else
          Some(SetOp(s, p, Out).(outstanding := s.outstanding - 1, committing := s.outstanding - 1 == 0,
                                 from := s.disk, written := 0, history := Then(s.history, a)))
      case WriteBlock =>
        if !(s.committing && |s.lh| > 0 && s.written < 2 * |s.lh| + 2) then None
        else if |s.lh| >= NBUF then Some(Stopped(NoBuffers))
        else
          var w := CommitWrite(c.log, s.from, Txn(s.lh, s.logical), s.written);
          if 0 <= w.bn < |s.disk| then Some(s.(disk := s.disk[w.bn := w.data], written := s.written + 1))
          else Some(Stopped(OutOfRange))
      case Finish =>
        if s.committing && (|s.lh| == 0 || s.written == 2 * |s.lh| + 2)
        then Some(s.(committing := false, lh := [], durable := s.history, written := 0))
        else None
  }

  // An operation logs home blocks, and no more than it may.
  predicate MayLog(c: Config, op: Op, bn: int)
    requires op.In?
  {
    IsHome(c, bn) && |op.logged + {bn}| <= MAXOPBLOCKS
  }

  ghost predicate Init(c: Config, s: State) {
    && Accepted(c) && s.Up? && s.disk == s.logical == c.boot
    && |s.ops| == c.procs && (forall p :: 0 <= p < c.procs ==> s.ops[p] == Out)
    && s.outstanding == 0 && !s.committing && s.lh == [] && s.history == s.durable == Empty && s.written == 0
  }

  // ----- The invariant -----

  ghost function Count(ops: seq<Op>, n: nat): (k: nat)
    requires n <= |ops|
  {
    if n == 0 then 0 else Count(ops, n - 1) + if ops[n - 1].In? then 1 else 0
  }

  // Blocks the open operations may still add to the log.
  ghost function Unused(ops: seq<Op>, n: nat): (k: int)
    requires n <= |ops|
  {
    if n == 0 then 0 else Unused(ops, n - 1) + if ops[n - 1].In? then MAXOPBLOCKS - |ops[n - 1].logged| else 0
  }

  ghost predicate Distinct(lh: seq<int>, i: int, j: int)
    requires 0 <= i < |lh| && 0 <= j < |lh|
  {
    lh[i] != lh[j]
  }

  ghost predicate ListOk(c: Config, lh: seq<int>) {
    && |lh| <= LOGSIZE && (forall i :: 0 <= i < |lh| ==> IsHome(c, lh[i]))
    && (forall i, j :: 0 <= i < j < |lh| ==> Distinct(lh, i, j))
  }

  ghost predicate OpOk(c: Config, op: Op, p: int, history: History, lh: seq<int>) {
    && (op.In? <==> p in Open(history))
    && (op.In? ==> |op.logged| <= MAXOPBLOCKS && forall b :: b in op.logged ==> b in lh)
    && (op.In? && op.ready.Some? ==> MayLog(c, op, op.ready.value))
  }

  // The operations that are open, and the space reserved for them.
  ghost predicate OpsOk(c: Config, s: State)
    requires s.Up?
  {
    && |s.ops| == c.procs && (forall p :: 0 <= p < c.procs ==> OpOk(c, s.ops[p], p, s.history, s.lh))
    && (forall p :: p in Open(s.history) ==> p < c.procs)
    && s.outstanding == Count(s.ops, c.procs) && (s.committing ==> s.outstanding == 0)
    && |s.lh| + Unused(s.ops, c.procs) <= LOGSIZE
  }

  ghost predicate HistoryOk(c: Config, s: State)
    requires s.Up?
  {
    && s.logical == Replay(c.boot, s.history) && Prefix(s.durable, s.history) && Whole(s.durable)
    && forall b :: b in s.lh <==> b in Since(s.durable, s.history)
  }

  // What every run keeps.
  ghost predicate Inv(c: Config, s: State) {
    && Accepted(c)
    && (s.Up? ==>
          && OpsOk(c, s) && HistoryOk(c, s) && ListOk(c, s.lh)
          && |s.logical| == |s.disk| == |c.boot| && (s.committing ==> |s.from| == |c.boot|)
          && (s.committing && |s.lh| >= NBUF ==> s.written == 0))
    && s != Stopped(LogCommitting)
  }

  // The log has room for the blocks that are logged.
  ghost predicate LogFits(c: Config, s: State) {
    s.Up? ==> |s.lh| < c.log.size
  }

  // It has, or every buffer holds one of them and none is left to write the log with.
  ghost predicate CommitFits(c: Config, s: State) {
    LogFits(c, s) || |s.lh| >= NBUF
  }

  // The disk, as the last commit left it or as the current one has got.
  ghost predicate DiskOk(c: Config, s: State)
    requires Inv(c, s)
  {
    s.Up? ==>
      if s.committing && 0 < |s.lh| < NBUF then Midway(c, s) else Idle(c.log, s.disk, Replay(c.boot, s.durable))
  }

  ghost predicate Midway(c: Config, s: State)
    requires s.Up? && ListOk(c, s.lh) && |s.logical| == |c.boot|
  {
    && Idle(c.log, s.from, Replay(c.boot, s.durable)) && s.written <= 2 * |s.lh| + 2
    && Transaction(c.log, s.from, Txn(s.lh, s.logical))
    && s.disk == AfterCommit(c.log, s.from, Txn(s.lh, s.logical), s.written)
  }

  lemma {:induction false} InitInv(c: Config, s: State)
    requires Init(c, s)
    ensures Inv(c, s) && CommitFits(c, s) && DiskOk(c, s)
  {
    NoneOpen(s.ops, c.procs);
  }

  lemma {:induction false} NoneOpen(ops: seq<Op>, n: nat)
    requires n <= |ops| && forall p :: 0 <= p < n ==> ops[p] == Out
    ensures Count(ops, n) == 0 && Unused(ops, n) == 0
  {
    if n > 0 { NoneOpen(ops, n - 1); }
  }

  // ----- Counting open operations -----

  lemma {:induction false} Changed(ops: seq<Op>, p: nat, op: Op, n: nat)
    requires p < |ops| && n <= |ops|
    ensures Count(ops[p := op], n) == Count(ops, n)
              + if p >= n then 0 else (if op.In? then 1 else 0) - (if ops[p].In? then 1 else 0)
    ensures Unused(ops[p := op], n) == Unused(ops, n)
              + if p >= n then 0
                else (if op.In? then MAXOPBLOCKS - |op.logged| else 0)
                     - (if ops[p].In? then MAXOPBLOCKS - |ops[p].logged| else 0)
  {
    if n > 0 { Changed(ops, p, op, n - 1); }
  }

  lemma {:induction false} UnusedBound(ops: seq<Op>, n: nat)
    requires n <= |ops| && forall p :: 0 <= p < n && ops[p].In? ==> |ops[p].logged| <= MAXOPBLOCKS
    ensures 0 <= Unused(ops, n) <= Count(ops, n) * MAXOPBLOCKS
  {
    if n > 0 { UnusedBound(ops, n - 1); }
  }

  lemma {:induction false} OpenCounts(ops: seq<Op>, n: nat, p: nat)
    requires p < n <= |ops| && ops[p].In?
    ensures Count(ops, n) > 0
  {
    if p < n - 1 { OpenCounts(ops, n - 1, p); }
  }

  lemma {:induction false} NotWhileCommitting(c: Config, s: State, p: nat)
    requires Inv(c, s) && s.Up? && p < c.procs && s.ops[p].In?
    ensures !s.committing && s.outstanding > 0
  {
    OpenCounts(s.ops, c.procs, p);
  }

  // ----- Histories -----

  ghost function Length(h: History): (n: nat) {
    if h.Empty? then 0 else 1 + Length(h.past)
  }

  lemma {:induction false} PrefixShorter(a: History, b: History)
    requires Prefix(a, b)
    ensures Length(a) <= Length(b)
  {
    if a != b { PrefixShorter(a, b.past); }
  }

  lemma {:induction false} SinceGrows(a: History, b: History, act: Action)
    requires Prefix(a, b)
    ensures Prefix(a, Then(b, act))
    ensures Since(a, Then(b, act)) == Since(a, b) + if act.Put? then {act.bn} else {}
  {
    PrefixShorter(a, b);
  }

  // A block that is not written after a prefix has the contents it had there.
  lemma {:induction false} Untouched(d: Disk, a: History, b: History, bn: int)
    requires Prefix(a, b) && 0 <= bn < |d| && bn !in Since(a, b)
    ensures Replay(d, b)[bn] == Replay(d, a)[bn]
  {
    if a != b { Untouched(d, a, b.past, bn); }
  }

  // ----- Every step keeps the invariant -----

  lemma {:induction false} BeginKeeps(c: Config, s: State, a: Action)
    requires Inv(c, s) && a.Begin? && Step(c, s, a).Some?
    ensures Inv(c, Step(c, s, a).value)
  {
    var s' := Step(c, s, a).value;
    SinceGrows(s.durable, s.history, a);
    Changed(s.ops, a.p, In({}, 0, None), c.procs);
    assert forall p :: 0 <= p < c.procs && s.ops[p].In? ==> OpOk(c, s.ops[p], p, s.history, s.lh);
    UnusedBound(s.ops, c.procs);
    forall p | 0 <= p < c.procs ensures OpOk(c, s'.ops[p], p, s'.history, s'.lh) {
      assert OpOk(c, s.ops[p], p, s.history, s.lh);
    }
  }

  lemma {:induction false} GuardKeeps(c: Config, s: State, a: Action)
    requires Inv(c, s) && a.Guard? && Step(c, s, a).Some?
    ensures Inv(c, Step(c, s, a).value)
  {
    var s' := Step(c, s, a).value;
    if s'.Up? {
      Changed(s.ops, a.p, s'.ops[a.p], c.procs);
      forall p | 0 <= p < c.procs ensures OpOk(c, s'.ops[p], p, s'.history, s'.lh) {
        assert OpOk(c, s.ops[p], p, s.history, s.lh);
      }
    }
  }

  lemma {:induction false} PutKeeps(c: Config, s: State, a: Action)
    requires Inv(c, s) && a.Put? && Step(c, s, a).Some?
    ensures Inv(c, Step(c, s, a).value)
  {
    NotWhileCommitting(c, s, a.p);
    assert OpOk(c, s.ops[a.p], a.p, s.history, s.lh);
    PutOps(c, s, a);
    SinceGrows(s.durable, s.history, a);
    PutLog(c, s, a);
  }

  lemma {:induction false} PutOps(c: Config, s: State, a: Action)
    requires Inv(c, s) && a.Put? && Step(c, s, a).Some?
    ensures Step(c, s, a).value.Up? && OpsOk(c, Step(c, s, a).value)
  {
    var s' := Step(c, s, a).value;
    NotWhileCommitting(c, s, a.p);
    Changed(s.ops, a.p, s'.ops[a.p], c.procs);
    assert OpOk(c, s.ops[a.p], a.p, s.history, s.lh);
    PutSpace(c, s, a.p, a.bn);
    forall p | 0 <= p < c.procs ensures OpOk(c, s'.ops[p], p, s'.history, s'.lh) {
      assert OpOk(c, s.ops[p], p, s.history, s.lh);
    }
  }

  // The reservations keep the list short enough for its array, whatever the tests of log_write() say.
  lemma {:induction false} PutLog(c: Config, s: State, a: Action)
    requires Inv(c, s) && a.Put? && Step(c, s, a).Some?
    ensures ListOk(c, Step(c, s, a).value.lh)
  {
    var s' := Step(c, s, a).value;
    PutOps(c, s, a);
    assert forall p :: 0 <= p < c.procs && s'.ops[p].In? ==> OpOk(c, s'.ops[p], p, s'.history, s'.lh);
    UnusedBound(s'.ops, c.procs);
    assert OpOk(c, s.ops[a.p], a.p, s.history, s.lh);
    forall i, j | 0 <= i < j < |s'.lh| ensures Distinct(s'.lh, i, j) {
      if j < |s.lh| { assert Distinct(s.lh, i, j); }
    }
  }

  // A block that grows the log is paid for by the operation's reservation.
  lemma {:induction false} PutSpace(c: Config, s: State, p: nat, bn: int)
    requires s.Up? && p < |s.ops| && s.ops[p].In? && OpOk(c, s.ops[p], p, s.history, s.lh)
    ensures |Absorb(s.lh, bn)| - |s.lh| <= |s.ops[p].logged + {bn}| - |s.ops[p].logged|
  {
    if bn in s.ops[p].logged {
      assert s.ops[p].logged + {bn} == s.ops[p].logged;
    }
  }

  lemma {:induction false} EndKeeps(c: Config, s: State, a: Action)
    requires Inv(c, s) && a.End? && Step(c, s, a).Some?
    ensures Step(c, s, a).value.Up? && Inv(c, Step(c, s, a).value)
  {
    NotWhileCommitting(c, s, a.p);
    var s' := Step(c, s, a).value;
    SinceGrows(s.durable, s.history, a);
    Changed(s.ops, a.p, Out, c.procs);
    assert OpOk(c, s.ops[a.p], a.p, s.history, s.lh);
    forall p | 0 <= p < c.procs ensures OpOk(c, s'.ops[p], p, s'.history, s'.lh) {
      assert OpOk(c, s.ops[p], p, s.history, s.lh);
    }
  }

  lemma {:induction false} FinishKeeps(c: Config, s: State, a: Action)
    requires Inv(c, s) && a.Finish? && Step(c, s, a).Some?
    ensures Inv(c, Step(c, s, a).value)
  {
    var s' := Step(c, s, a).value;
    QuietWhole(c, s);
    forall p | 0 <= p < c.procs ensures OpOk(c, s'.ops[p], p, s'.history, s'.lh) {
      assert OpOk(c, s.ops[p], p, s.history, s.lh);
    }
    NoneOpen(s.ops, c.procs);
  }

  // A commit starts with every operation ended.
  lemma {:induction false} QuietWhole(c: Config, s: State)
    requires Inv(c, s) && s.Up? && s.committing
    ensures Whole(s.history) && forall p :: 0 <= p < c.procs ==> s.ops[p] == Out
  {
    forall p | 0 <= p < c.procs ensures s.ops[p] == Out && p !in Open(s.history) {
      assert OpOk(c, s.ops[p], p, s.history, s.lh);
      if s.ops[p].In? { OpenCounts(s.ops, c.procs, p); }
    }
  }

  lemma {:induction false} StepKeeps(c: Config, s: State, a: Action)
    requires Inv(c, s) && Step(c, s, a).Some?
    ensures Inv(c, Step(c, s, a).value)
  {
    match a {
      case Begin(_) => BeginKeeps(c, s, a);
      case Guard(_, _) => GuardKeeps(c, s, a);
      case Put(_, _, _) => PutKeeps(c, s, a);
      case End(_) => EndKeeps(c, s, a);
      case WriteBlock =>
      case Finish => FinishKeeps(c, s, a);
    }
  }

  // ----- A log that fits keeps the disk in order -----

  lemma {:induction false} LoggedTransaction(c: Config, lh: seq<int>, logical: Disk, d: Disk)
    requires ListOk(c, lh) && |lh| < c.log.size && |logical| == |d| == |c.boot| && Fits(c.log, d)
    ensures Transaction(c.log, d, Txn(lh, logical))
  {
    var txn := Txn(lh, logical);
    forall i, j | 0 <= i < j < |txn| ensures Differ(txn, i, j) { assert Distinct(lh, i, j); }
  }

  lemma {:induction false} NothingLogged(c: Config, s: State)
    requires Inv(c, s) && s.Up? && s.lh == []
    ensures Replay(c.boot, s.history) == Replay(c.boot, s.durable)
  {
    forall b | 0 <= b < |c.boot| ensures Replay(c.boot, s.history)[b] == Replay(c.boot, s.durable)[b] {
      assert b !in s.lh;
      Untouched(c.boot, s.durable, s.history, b);
    }
  }

  // The home blocks a complete commit ends with are those of the whole history.
  lemma {:induction false} CommittedHome(c: Config, s: State)
    requires Inv(c, s) && CommitFits(c, s) && DiskOk(c, s) && s.Up? && s.committing
    requires |s.lh| == 0 || s.written == 2 * |s.lh| + 2
    ensures Idle(c.log, s.disk, Replay(c.boot, s.history))
  {
    var base, txn := Replay(c.boot, s.durable), Txn(s.lh, s.logical);
    if |s.lh| > 0 {
      CommitDone(c.log, s.from, base, txn);
      AppliedIsLogical(c, s);
    } else {
      NothingLogged(c, s);
    }
  }

  lemma {:induction false} AppliedIsLogical(c: Config, s: State)
    requires Inv(c, s) && CommitFits(c, s) && s.Up? && s.committing && 0 < |s.lh| < NBUF
    ensures var base, txn := Replay(c.boot, s.durable), Txn(s.lh, s.logical);
            Transaction(c.log, base, txn) && SameHome(c.log, Apply(base, txn, |txn|), s.logical)
  {
    var base, txn := Replay(c.boot, s.durable), Txn(s.lh, s.logical);
    LoggedTransaction(c, s.lh, s.logical, base);
    forall b | 0 <= b < |base| && !InLog(c.log, b) ensures Apply(base, txn, |txn|)[b] == s.logical[b] {
      Installed(c.log, base, txn, |txn|, b);
      if b in s.lh {
        var i :| 0 <= i < |s.lh| && s.lh[i] == b;
        assert txn[i].bn == b;
      } else {
        Untouched(c.boot, s.durable, s.history, b);
        forall i | 0 <= i < |txn| ensures txn[i].bn != b { assert s.lh[i] in s.lh; }
      }
    }
  }

  // Ending the last operation starts a commit from an orderly disk.
  lemma {:induction false} EndKeepsDisk(c: Config, s: State, a: Action)
    requires Inv(c, s) && CommitFits(c, s) && DiskOk(c, s) && a.End? && Step(c, s, a).Some?
    ensures Inv(c, Step(c, s, a).value) && DiskOk(c, Step(c, s, a).value)
  {
    EndKeeps(c, s, a);
    NotWhileCommitting(c, s, a.p);
    if |s.lh| < NBUF { LoggedTransaction(c, s.lh, s.logical, s.disk); }
  }

  lemma {:induction false} WriteKeepsDisk(c: Config, s: State)
    requires Inv(c, s) && CommitFits(c, s) && DiskOk(c, s) && Step(c, s, WriteBlock).Some?
    ensures Step(c, s, WriteBlock).value.Up? <==> |s.lh| < NBUF
    ensures Step(c, s, WriteBlock).value != Stopped(OutOfRange)
    ensures Inv(c, Step(c, s, WriteBlock).value) && DiskOk(c, Step(c, s, WriteBlock).value)
  {
  }

  lemma {:induction false} FinishKeepsDisk(c: Config, s: State)
    requires Inv(c, s) && CommitFits(c, s) && DiskOk(c, s) && Step(c, s, Finish).Some?
    ensures Inv(c, Step(c, s, Finish).value) && DiskOk(c, Step(c, s, Finish).value)
  {
    StepKeeps(c, s, Finish);
    CommittedHome(c, s);
  }

  lemma {:induction false} StepKeepsDisk(c: Config, s: State, a: Action)
    requires Inv(c, s) && CommitFits(c, s) && DiskOk(c, s) && Step(c, s, a).Some?
    ensures Inv(c, Step(c, s, a).value) && DiskOk(c, Step(c, s, a).value)
  {
    StepKeeps(c, s, a);
    match a {
      case Begin(_) =>
      case Guard(_, _) =>
      case Put(p, _, _) => NotWhileCommitting(c, s, p);
      case End(_) => EndKeepsDisk(c, s, a);
      case WriteBlock => WriteKeepsDisk(c, s);
      case Finish => FinishKeepsDisk(c, s);
    }
  }

  // ----- Runs -----

  datatype Schedule = Start | Next(before: Schedule, act: Action)

  // The state a schedule leads to; None if it asks for an action that cannot be taken.
  ghost function Run(c: Config, s0: State, sched: Schedule): (r: Option<State>)
    requires Init(c, s0)
    ensures r.Some? ==> Inv(c, r.value)
  {
    match sched
    case Start => InitInv(c, s0); Some(s0)
    case Next(before, a) =>
      var r := Run(c, s0, before);
      if r.None? || Step(c, r.value, a).None? then None
      else
        StepKeeps(c, r.value, a);
        Step(c, r.value, a)
  }

  // What is committed fits the log in every state of a run.
  ghost predicate AlwaysFits(c: Config, s0: State, sched: Schedule)
    requires Init(c, s0)
  {
    && (sched.Next? ==> AlwaysFits(c, s0, sched.before))
    && var r := Run(c, s0, sched); r.Some? ==> CommitFits(c, r.value)
  }

  lemma {:induction false} RunKeepsDisk(c: Config, s0: State, sched: Schedule)
    requires Init(c, s0) && AlwaysFits(c, s0, sched)
    ensures var r := Run(c, s0, sched); r.Some? ==> CommitFits(c, r.value) && DiskOk(c, r.value)
  {
    match sched {
      case Start => InitInv(c, s0);
      case Next(before, a) =>
        RunKeepsDisk(c, s0, before);
        var r := Run(c, s0, before);
        if r.Some? && Step(c, r.value, a).Some? { StepKeepsDisk(c, r.value, a); }
    }
  }

  // The part of the history that a crash now would preserve.
  ghost function Bound(s: State): (h: History)
    requires s.Up?
  {
    if s.committing && s.written > |s.lh| then s.history else s.durable
  }

  // Recovery from the disk would yield the effect of the operations of h.
  ghost predicate Leaves(c: Config, s: State, h: History)
    requires s.Up?
  {
    exists home: Disk :: Recoverable(c.log, s.disk, home) && SameHome(c.log, home, Replay(c.boot, h))
  }

  // It would yield the effect of whole operations only.
  ghost predicate CrashAtomic(c: Config, s: State) {
    s.Up? ==> exists h: History :: Prefix(h, s.history) && Whole(h) && Leaves(c, s, h)
  }

  // In every reachable state the reservations fit the log, the panic of end_op() is not reached and no
  // operation is open while a commit is under way.
  lemma {:induction false} Reserved(c: Config, s0: State, sched: Schedule)
    requires Init(c, s0)
    ensures var r := Run(c, s0, sched);
            r.Some? ==>
              && r.value != Stopped(LogCommitting)
              && (r.value.Up? ==>
                    var s := r.value;
                    && |s.lh| + Unused(s.ops, |s.ops|) <= LOGSIZE
                    && (s.committing ==> forall p :: 0 <= p < |s.ops| ==> s.ops[p].Out?))
  {
    var r := Run(c, s0, sched);
    if r.Some? && r.value.Up? && r.value.committing { QuietWhole(c, r.value); }
  }

  // As long as what is committed fits the log, recovery from the disk would yield the effect of whole operations only.
  lemma {:induction false} NoPartialOperation(c: Config, s0: State, sched: Schedule)
    requires Init(c, s0) && AlwaysFits(c, s0, sched)
    ensures var r := Run(c, s0, sched);
            r.Some? ==>
              && CrashAtomic(c, r.value) && r.value != Stopped(OutOfRange)
              && (r.value.Up? ==>
                    var s := r.value; Prefix(Bound(s), s.history) && Whole(Bound(s)) && Leaves(c, s, Bound(s)))
  {
    RunKeepsDisk(c, s0, sched);
    var r := Run(c, s0, sched);
    if r.Some? && r.value.Up? {
      var s := r.value;
      if s.committing { QuietWhole(c, s); }
      BoundHome(c, s);
    }
    InRange(c, s0, sched);
  }

  lemma {:induction false} StaysInRange(c: Config, s: State, a: Action)
    requires Inv(c, s) && CommitFits(c, s) && DiskOk(c, s)
    ensures Step(c, s, a) != Some(Stopped(OutOfRange))
  {
    if a.WriteBlock? && Step(c, s, a).Some? { WriteKeepsDisk(c, s); }
  }

  // A commit that fits writes to the disk only where it is.
  lemma {:induction false} InRange(c: Config, s0: State, sched: Schedule)
    requires Init(c, s0) && AlwaysFits(c, s0, sched)
    ensures Run(c, s0, sched) != Some(Stopped(OutOfRange))
  {
    if sched.Next? {
      RunKeepsDisk(c, s0, sched.before);
      var r := Run(c, s0, sched.before);
      if r.Some? { StaysInRange(c, r.value, sched.act); }
    }
  }

  lemma {:induction false} BoundHome(c: Config, s: State)
    requires Inv(c, s) && CommitFits(c, s) && DiskOk(c, s) && s.Up?
    ensures Leaves(c, s, Bound(s))
  {
    var base := Replay(c.boot, s.durable);
    if s.committing && 0 < |s.lh| < NBUF {
      var txn := Txn(s.lh, s.logical);
      AppliedIsLogical(c, s);
      CrashInCommit(c.log, s.from, base, txn, s.written);
      assert SameHome(c.log, Outcome(base, txn, s.written), Replay(c.boot, Bound(s)));
    } else {
      assert Recoverable(c.log, s.disk, base);
      if |s.lh| == 0 { NothingLogged(c, s); }
    }
  }

  // What is preserved is never lost again.
  lemma {:induction false} NeverLost(c: Config, s: State, a: Action)
    requires Inv(c, s) && s.Up? && Step(c, s, a).Some? && Step(c, s, a).value.Up?
    ensures Prefix(Bound(s), Bound(Step(c, s, a).value))
  {
    if a.End? { NotWhileCommitting(c, s, a.p); }
    if a.Put? { NotWhileCommitting(c, s, a.p); }
  }
}
