/**
 How much of the log the operations can fill: when log_write() panics, when the log overflows into the
 blocks behind it, and what that means for a crash.

 begin_op() reserves MAXOPBLOCKS log blocks for an operation. log_write() panics when the log
 is full, also for a block that is logged already, but it looks before it takes the lock: two
 processes can both find room for one more block. A commit needs a buffer besides those that hold the
 logged blocks. An operation can be limited in its calls of
 log_write() or, as MAXOPBLOCKS has it, in the blocks it logs.
 */
module LogSpace {
  import opened Params
  import opened Options
  import opened LogDisk
  import opened LogProtocol

  datatype Limit = Calls(n: nat) | Blocks(n: nat)

  ghost function Used(l: Limit, op: Op): (k: nat)
    requires op.In?
  {
    match l
    case Calls(_) => op.calls
    case Blocks(_) => |op.logged|
  }

  // What it will have used once block bn is logged.
  ghost function UsedWith(l: Limit, op: Op, bn: int): (k: nat)
    requires op.In?
  {
    Used(l, In(op.logged + {bn}, op.calls + 1, None))
  }

  // The operation that acts is still within its limit afterwards.
  ghost predicate Within(l: Limit, s: State, a: Action) {
    a.Guard? && s.Up? && a.p < |s.ops| && s.ops[a.p].In? ==> UsedWith(l, s.ops[a.p], a.bn) <= l.n
  }

  ghost predicate RunWithin(c: Config, s0: State, l: Limit, sched: Schedule)
    requires Init(c, s0)
  {
    match sched
    case Start => true
    case Next(before, a) =>
      RunWithin(c, s0, l, before) && var r := Run(c, s0, before); r.Some? ==> Within(l, r.value, a)
  }

  // The longest log. Two operations are open at the time, one of which began with MAXOPBLOCKS blocks
  // in the log.
  function Longest(l: Limit): (k: int) {
    MAXOPBLOCKS + 2 * l.n
  }

  // The longest log that log_write() can meet.
  function Highest(l: Limit): (k: int) {
    match l
    case Calls(n) => Longest(l) - 1
    case Blocks(n) => Longest(l)
  }

  // ----- Operations within a limit fill no more than that -----

  // What the open operations may still use.
  ghost function Left(l: Limit, ops: seq<Op>, n: nat): (k: int)
    requires n <= |ops|
  {
    if n == 0 then 0 else Left(l, ops, n - 1) + if ops[n - 1].In? then l.n - Used(l, ops[n - 1]) else 0
  }

  ghost predicate OpLimited(l: Limit, op: Op) {
    op.In? ==> Used(l, op) <= l.n && (op.ready.Some? ==> UsedWith(l, op, op.ready.value) <= l.n)
  }

  ghost predicate Limited(l: Limit, ops: seq<Op>) {
    forall p :: 0 <= p < |ops| ==> OpLimited(l, ops[p])
  }

  lemma {:induction false} LeftChanged(l: Limit, ops: seq<Op>, p: nat, op: Op, n: nat)
    requires p < |ops| && n <= |ops|
    ensures Left(l, ops[p := op], n) == Left(l, ops, n)
              + if p >= n then 0
                else (if op.In? then l.n - Used(l, op) else 0)
                     - (if ops[p].In? then l.n - Used(l, ops[p]) else 0)
  {
    if n > 0 { LeftChanged(l, ops, p, op, n - 1); }
  }

  lemma {:induction false} LeftBound(l: Limit, ops: seq<Op>, n: nat)
    requires n <= |ops| && Limited(l, ops)
    ensures 0 <= Left(l, ops, n) <= LogProtocol.Count(ops, n) * l.n
  {
    if n > 0 {
      LeftBound(l, ops, n - 1);
      assert OpLimited(l, ops[n - 1]);
    }
  }

  lemma {:induction false} LeftOwn(l: Limit, ops: seq<Op>, n: nat, p: nat)
    requires p < n <= |ops| && Limited(l, ops) && ops[p].In?
    ensures Left(l, ops, n) >= l.n - Used(l, ops[p])
  {
    assert OpLimited(l, ops[n - 1]);
    if p < n - 1 { LeftOwn(l, ops, n - 1, p); } else { LeftBound(l, ops, n - 1); }
  }

  ghost predicate SpaceOk(l: Limit, s: State) {
    s.Up? ==>
      && |s.lh| + Left(l, s.ops, |s.ops|) <= Longest(l) && Limited(l, s.ops)
      && (s.outstanding == 0 && !s.committing ==> s.lh == [])
  }

  lemma {:induction false} BeginSpace(lh: int, open: int, left: int, n: int)
    requires 0 <= lh && 0 <= open && 0 <= left <= open * n && 0 <= n <= MAXOPBLOCKS
    requires lh + (open + 1) * MAXOPBLOCKS <= LOGSIZE && (open == 0 ==> lh == 0)
    ensures lh + left + n <= MAXOPBLOCKS + 2 * n
  {
    if open == 1 { assert open * n == n; }
    if open == 2 { assert open * n == 2 * n; }
  }

  lemma {:induction false} BeginWithin(c: Config, l: Limit, s: State, a: Action)
    requires Inv(c, s) && s.Up? && SpaceOk(l, s) && a.Begin? && Step(c, s, a).Some? && l.n <= MAXOPBLOCKS
    ensures SpaceOk(l, Step(c, s, a).value)
  {
    LeftChanged(l, s.ops, a.p, In({}, 0, None), c.procs);
    LeftBound(l, s.ops, c.procs);
    BeginSpace(|s.lh|, s.outstanding, Left(l, s.ops, c.procs), l.n);
  }

  lemma {:induction false} GuardWithin(c: Config, l: Limit, s: State, a: Action)
    requires Inv(c, s) && s.Up? && SpaceOk(l, s) && a.Guard? && Within(l, s, a) && Step(c, s, a).Some?
    ensures |s.lh| <= Highest(l) && SpaceOk(l, Step(c, s, a).value)
  {
    NotWhileCommitting(c, s, a.p);
    LeftOwn(l, s.ops, c.procs, a.p);
    assert OpLimited(l, s.ops[a.p]);
    LeftChanged(l, s.ops, a.p, s.ops[a.p].(ready := Some(a.bn)), c.procs);
  }

  lemma {:induction false} PutWithin(c: Config, l: Limit, s: State, a: Action)
    requires Inv(c, s) && s.Up? && SpaceOk(l, s) && a.Put? && Step(c, s, a).Some?
    ensures SpaceOk(l, Step(c, s, a).value)
  {
    NotWhileCommitting(c, s, a.p);
    assert OpLimited(l, s.ops[a.p]) && OpOk(c, s.ops[a.p], a.p, s.history, s.lh);
    PutSpace(c, s, a.p, a.bn);
    LeftChanged(l, s.ops, a.p, In(s.ops[a.p].logged + {a.bn}, s.ops[a.p].calls + 1, None), c.procs);
  }

  lemma {:induction false} EndWithin(c: Config, l: Limit, s: State, a: Action)
    requires Inv(c, s) && s.Up? && SpaceOk(l, s) && a.End? && Step(c, s, a).Some?
    ensures SpaceOk(l, Step(c, s, a).value)
  {
    NotWhileCommitting(c, s, a.p);
    assert OpLimited(l, s.ops[a.p]);
    LeftChanged(l, s.ops, a.p, Out, c.procs);
  }

  lemma {:induction false} FinishWithin(c: Config, l: Limit, s: State, a: Action)
    requires Inv(c, s) && s.Up? && SpaceOk(l, s) && a.Finish? && Step(c, s, a).Some?
    ensures SpaceOk(l, Step(c, s, a).value)
  {
    LeftBound(l, s.ops, c.procs);
  }

  lemma {:induction false} StepWithin(c: Config, l: Limit, s: State, a: Action)
    requires Inv(c, s) && SpaceOk(l, s) && Within(l, s, a) && Step(c, s, a).Some? && l.n <= MAXOPBLOCKS
    ensures SpaceOk(l, Step(c, s, a).value)
  {
    match a {
      case Begin(_) => BeginWithin(c, l, s, a);
      case Guard(_, _) => GuardWithin(c, l, s, a);
      case Put(_, _, _) => PutWithin(c, l, s, a);
      case End(_) => EndWithin(c, l, s, a);
      case WriteBlock =>
      case Finish => FinishWithin(c, l, s, a);
    }
  }

  lemma {:induction false} NoneLeft(l: Limit, ops: seq<Op>, n: nat)
    requires n <= |ops| && forall p :: 0 <= p < n ==> ops[p] == Out
    ensures Left(l, ops, n) == 0
  {
    if n > 0 { NoneLeft(l, ops, n - 1); }
  }

  // In every run of limited operations the log and what they may still add stay within Longest(l).
  lemma {:induction false} SpaceInvariant(c: Config, s0: State, l: Limit, sched: Schedule)
    requires Init(c, s0) && RunWithin(c, s0, l, sched) && l.n <= MAXOPBLOCKS
    ensures var r := Run(c, s0, sched); r.Some? ==> SpaceOk(l, r.value)
  {
    match sched {
      case Start =>
        NoneLeft(l, s0.ops, c.procs);
      case Next(before, a) =>
        SpaceInvariant(c, s0, l, before);
        var r := Run(c, s0, before);
        if r.Some? && Step(c, r.value, a).Some? { StepWithin(c, l, r.value, a); }
    }
  }

  lemma {:induction false} RoomForAll(c: Config, l: Limit, s: State, a: Action)
    requires Inv(c, s) && SpaceOk(l, s) && Within(l, s, a) && Highest(l) < LOGSIZE && Highest(l) < c.log.size - 1
    ensures Step(c, s, a) != Some(Stopped(TooBig))
  {
    if s.Up? && a.Guard? && Step(c, s, a).Some? { GuardWithin(c, l, s, a); }
  }

  lemma {:induction false} NeverPanics(c: Config, s0: State, l: Limit, sched: Schedule)
    requires Init(c, s0) && RunWithin(c, s0, l, sched)
    requires l.n <= MAXOPBLOCKS && Highest(l) < LOGSIZE && Highest(l) < c.log.size - 1
    ensures Run(c, s0, sched) != Some(Stopped(TooBig))
  {
    if sched.Next? {
      NeverPanics(c, s0, l, sched.before);
      SpaceInvariant(c, s0, l, sched.before);
      var r := Run(c, s0, sched.before);
      if r.Some? { RoomForAll(c, l, r.value, sched.act); }
    }
  }

  // ----- Runs that fill that much -----

  // LOGSIZE home blocks behind the log.
  ghost predicate Roomy(c: Config) {
    c.procs >= 2 && c.log.start + c.log.size + LOGSIZE <= |c.boot|
  }

  // The length at which log_write() panics.
  function Full(c: Config): (k: int) {
    if LOGSIZE < c.log.size - 1 then LOGSIZE else c.log.size - 1
  }

  // The m-th block of the run.
  function Fresh(c: Config, m: int): (bn: int) {
    c.log.start + c.log.size + m
  }

  // Process 0 is in an operation after every action of the history.
  ghost predicate Held(h: History) {
    h.Then? ==> 0 in Open(h) && Held(h.past)
  }

  ghost predicate Mark(c: Config, lh: seq<int>, logical: Disk, k: int, x: Block)
    requires 0 <= k < |lh|
  {
    0 <= Fresh(c, k) < |logical| && lh[k] == Fresh(c, k) && logical[Fresh(c, k)] == x
  }

  // The first m of those blocks are logged, in order, with contents x.
  ghost predicate Marks(c: Config, lh: seq<int>, logical: Disk, m: int, x: Block) {
    |lh| == m && forall k :: 0 <= k < m ==> Mark(c, lh, logical, k, x)
  }

  // They are, and there has been no commit.
  ghost predicate Marked(c: Config, s: State, m: int, x: Block) {
    && s.Up? && !s.committing && s.disk == c.boot && Held(s.history)
    && |s.ops| == c.procs >= 2 && Marks(c, s.lh, s.logical, m, x)
  }

  // Only process 0 is in an operation, which has not logged any block.
  ghost predicate Alone(c: Config, s: State, m: int, x: Block) {
    Marked(c, s, m, x) && s.outstanding == 1 && s.ops[0] == In({}, 0, None) && s.ops[1].Out?
  }

  // Process 1 has joined and logged the blocks from the m-th on, or q of them and process 0 the others.
  ghost predicate Both(c: Config, s: State, q: int, m: int, k: int, x: Block) {
    && Marked(c, s, k, x) && s.outstanding == 2 && s.ops[0].In? && s.ops[1].In?
    && s.ops[0].ready.None? && s.ops[1].ready.None?
    && |s.ops[1].logged| <= s.ops[1].calls == (if k - m <= q then k - m else q)
    && |s.ops[0].logged| <= s.ops[0].calls == (if k - m <= q then 0 else k - m - q)
    && (k - m > q ==> Fresh(c, k - 1) in s.ops[0].logged)
    && (k - m <= q ==> s.ops[0] == In({}, 0, None))
  }

  lemma {:induction false} MarksGrow(c: Config, lh: seq<int>, logical: Disk, m: nat, x: Block)
    requires Marks(c, lh, logical, m, x) && 0 <= Fresh(c, m) < |logical|
    ensures Marks(c, Absorb(lh, Fresh(c, m)), logical[Fresh(c, m) := x], m + 1, x)
  {
    var bn := Fresh(c, m);
    forall k | 0 <= k < m ensures lh[k] != bn { assert Mark(c, lh, logical, k, x); }
    var grown, changed := Absorb(lh, bn), logical[bn := x];
    forall k | 0 <= k < m + 1 ensures Mark(c, grown, changed, k, x) {
      if k < m { assert Mark(c, lh, logical, k, x); }
    }
  }

  lemma {:induction false} Joins(c: Config, s: State, q: nat, m: nat, x: Block)
    requires Inv(c, s) && Alone(c, s, m, x) && m <= MAXOPBLOCKS
    ensures Step(c, s, Begin(1)).Some? && Both(c, Step(c, s, Begin(1)).value, q, m, m, x)
  {
  }

  lemma {:induction false} Departs(c: Config, s: State, m: nat, x: Block)
    requires Inv(c, s) && 1 <= m && Both(c, s, 1, m - 1, m, x)
    ensures Step(c, s, End(1)).Some? && Alone(c, Step(c, s, End(1)).value, m, x)
  {
  }

  // Process p logs the next block.
  lemma {:induction false} Tests(c: Config, l: Limit, s: State, p: nat, k: int)
    requires Inv(c, s) && Roomy(c) && s.Up? && p < |s.ops| && 0 <= k < LOGSIZE && |s.lh| < Full(c)
    requires s.ops[p].In? && s.ops[p].ready.None? && |s.ops[p].logged| <= s.ops[p].calls < l.n <= MAXOPBLOCKS
    ensures var a := Guard(p, Fresh(c, k));
            Within(l, s, a) && Step(c, s, a) == Some(SetOp(s, p, s.ops[p].(ready := Some(Fresh(c, k)))))
  {
  }

  // ----- Schedules -----

  ghost predicate Reached(c: Config, s0: State, l: Limit, sched: Schedule, s: State)
    requires Init(c, s0)
  {
    RunWithin(c, s0, l, sched) && Run(c, s0, sched) == Some(s)
  }

  lemma {:induction false} Extend(c: Config, s0: State, l: Limit, before: Schedule, t: State, a: Action)
    returns (sched: Schedule, s: State)
    requires Init(c, s0) && Reached(c, s0, l, before, t) && Within(l, t, a) && Step(c, t, a).Some?
    ensures Reached(c, s0, l, sched, s) && s == Step(c, t, a).value
  {
    sched, s := Next(before, a), Step(c, t, a).value;
  }

  lemma {:induction false} TestOne(c: Config, s0: State, l: Limit, before: Schedule, t: State, p: nat, i: nat)
    returns (sched: Schedule, s: State)
    requires Init(c, s0) && Roomy(c) && Reached(c, s0, l, before, t) && t.Up? && p < |t.ops|
    requires i < LOGSIZE && |t.lh| < Full(c) && t.ops[p].In? && t.ops[p].ready.None?
    requires |t.ops[p].logged| <= t.ops[p].calls < l.n <= MAXOPBLOCKS
    ensures Reached(c, s0, l, sched, s) && s == SetOp(t, p, t.ops[p].(ready := Some(Fresh(c, i))))
  {
    Tests(c, l, t, p, i);
    sched, s := Extend(c, s0, l, before, t, Guard(p, Fresh(c, i)));
  }

  lemma {:induction false} Opened(c: Config, s0: State, l: Limit, x: Block) returns (sched: Schedule, s: State)
    requires Init(c, s0) && Roomy(c)
    ensures Reached(c, s0, l, sched, s) && Alone(c, s, 0, x)
  {
    assert Reached(c, s0, l, Start, s0);
    sched, s := Extend(c, s0, l, Start, s0, Begin(0));
  }

  lemma {:induction false} Joined(c: Config, s0: State, l: Limit, before: Schedule, t: State, q: nat, m: nat, x: Block)
    returns (sched: Schedule, s: State)
    requires Init(c, s0) && Reached(c, s0, l, before, t) && Alone(c, t, m, x) && m <= MAXOPBLOCKS
    ensures Reached(c, s0, l, sched, s) && Both(c, s, q, m, m, x)
  {
    Joins(c, t, q, m, x);
    sched, s := Extend(c, s0, l, before, t, Begin(1));
  }

  // Whose turn it is to log block i.
  function Turn(q: int, m: int, i: int): (p: nat) {
    if i - m < q then 1 else 0
  }

  lemma {:induction false} Adds(c: Config, t: State, s: State, q: nat, m: nat, i: nat, k: nat, x: Block)
    requires Inv(c, s) && Roomy(c) && m <= i < m + 2 * q && i < LOGSIZE && k == i + 1 && Both(c, t, q, m, i, x)
    requires s == SetOp(t, Turn(q, m, i), t.ops[Turn(q, m, i)].(ready := Some(Fresh(c, i))))
    ensures var a := Put(Turn(q, m, i), Fresh(c, i), x);
            Step(c, s, a).Some? && Both(c, Step(c, s, a).value, q, m, k, x)
  {
    MarksGrow(c, t.lh, t.logical, i, x);
  }

  lemma {:induction false} Added(c: Config, s0: State, l: Limit, before: Schedule, t: State,
                                 q: nat, m: nat, i: nat, k: nat, x: Block)
    returns (sched: Schedule, s: State)
    requires Init(c, s0) && Roomy(c) && Reached(c, s0, l, before, t) && q <= l.n <= MAXOPBLOCKS
    requires m <= i < m + 2 * q && Both(c, t, q, m, i, x) && i < Full(c) && k == i + 1
    ensures Reached(c, s0, l, sched, s) && Both(c, s, q, m, k, x)
  {
    sched, s := TestOne(c, s0, l, before, t, Turn(q, m, i), i);
    Adds(c, t, s, q, m, i, k, x);
    sched, s := Extend(c, s0, l, sched, s, Put(Turn(q, m, i), Fresh(c, i), x));
  }

  lemma {:induction false} Parted(c: Config, s0: State, l: Limit, before: Schedule, t: State, m: nat, x: Block)
    returns (sched: Schedule, s: State)
    requires Init(c, s0) && 1 <= m && Reached(c, s0, l, before, t) && Both(c, t, 1, m - 1, m, x)
    ensures Reached(c, s0, l, sched, s) && Alone(c, s, m, x)
  {
    Departs(c, t, m, x);
    sched, s := Extend(c, s0, l, before, t, End(1));
  }

  // Process 1 has logged m blocks, in an operation each.
  lemma {:induction false} FillTo(c: Config, s0: State, l: Limit, m: nat, x: Block)
    returns (sched: Schedule, s: State)
    requires Init(c, s0) && Roomy(c) && 1 <= l.n <= MAXOPBLOCKS && m <= MAXOPBLOCKS && m <= Full(c)
    ensures Reached(c, s0, l, sched, s) && Alone(c, s, m, x)
    decreases m
  {
    if m == 0 {
      sched, s := Opened(c, s0, l, x);
    } else {
      sched, s := FillTo(c, s0, l, m - 1, x);
      sched, s := Joined(c, s0, l, sched, s, 1, m - 1, x);
      sched, s := Added(c, s0, l, sched, s, 1, m - 1, m - 1, m, x);
      sched, s := Parted(c, s0, l, sched, s, m, x);
    }
  }

  // The two processes have then logged more, up to the k-th.
  lemma {:induction false} DealTo(c: Config, s0: State, l: Limit, q: nat, m: nat, k: nat, x: Block)
    returns (sched: Schedule, s: State)
    requires Init(c, s0) && Roomy(c) && 1 <= l.n <= MAXOPBLOCKS && q <= l.n && m <= MAXOPBLOCKS
    requires m <= k <= m + 2 * q && k <= Full(c)
    ensures Reached(c, s0, l, sched, s) && Both(c, s, q, m, k, x)
    decreases k
  {
    if k == m {
      sched, s := FillTo(c, s0, l, m, x);
      sched, s := Joined(c, s0, l, sched, s, q, m, x);
    } else {
      sched, s := DealTo(c, s0, l, q, m, k - 1, x);
      sched, s := Added(c, s0, l, sched, s, q, m, k - 1, k, x);
    }
  }

  // ----- When log_write() panics -----

  lemma {:induction false} Refused(c: Config, l: Limit, s: State, p: nat, bn: int)
    requires Inv(c, s) && s.Up? && p < |s.ops| && s.ops[p].In? && s.ops[p].ready.None? && |s.lh| >= Full(c)
    requires MayLog(c, s.ops[p], bn) && UsedWith(l, s.ops[p], bn) <= l.n
    ensures Within(l, s, Guard(p, bn)) && Step(c, s, Guard(p, bn)) == Some(Stopped(TooBig))
  {
  }

  // The test that panics: of another block or, when the operations have no block left, a repeated one.
  lemma {:induction false} Overflows(c: Config, l: Limit, s: State, m: nat, k: nat, x: Block) returns (a: Action)
    requires Inv(c, s) && Roomy(c) && 1 <= l.n <= MAXOPBLOCKS && m <= MAXOPBLOCKS && m <= k == Full(c)
    requires Both(c, s, l.n, m, k, x) && (if l.Blocks? then k - m <= 2 * l.n else k - m < 2 * l.n)
    ensures Within(l, s, a) && Step(c, s, a) == Some(Stopped(TooBig))
  {
    if k - m < 2 * l.n {
      a := Guard(Turn(l.n, m, k), Fresh(c, k));
      Refused(c, l, s, a.p, a.bn);
    } else {
      a := Guard(0, Fresh(c, k - 1));
      assert s.ops[0].logged + {a.bn} == s.ops[0].logged;
      Refused(c, l, s, 0, a.bn);
    }
  }

  lemma {:induction false} PanicRun(c: Config, s0: State, l: Limit) returns (sched: Schedule)
    requires Init(c, s0) && Roomy(c) && 1 <= l.n <= MAXOPBLOCKS && Full(c) <= Highest(l)
    ensures Reached(c, s0, l, sched, Stopped(TooBig))
  {
    var m := if Full(c) <= MAXOPBLOCKS then Full(c) else MAXOPBLOCKS;
    var before, s := DealTo(c, s0, l, l.n, m, Full(c), c.boot[0]);
    var a := Overflows(c, l, s, m, Full(c), c.boot[0]);
    sched, s := Extend(c, s0, l, before, s, a);
  }

  ghost predicate NeverTooBig(c: Config, s0: State, l: Limit, sched: Schedule)
    requires Init(c, s0)
  {
    RunWithin(c, s0, l, sched) ==> Run(c, s0, sched) != Some(Stopped(TooBig))
  }

  // Operations within a limit never make log_write() panic exactly when the longest log they can make
  // it meet is shorter than the full one.
  lemma {:induction false} NeverTooBigExactly(c: Config, s0: State, l: Limit)
    requires Init(c, s0) && Roomy(c) && 1 <= l.n <= MAXOPBLOCKS
    ensures (forall sched :: NeverTooBig(c, s0, l, sched)) <==>
              Highest(l) < LOGSIZE && Highest(l) < c.log.size - 1
  {
    if Highest(l) < Full(c) {
      forall sched ensures NeverTooBig(c, s0, l, sched) {
        if RunWithin(c, s0, l, sched) { NeverPanics(c, s0, l, sched); }
      }
    } else {
      var sched := PanicRun(c, s0, l);
      assert !NeverTooBig(c, s0, l, sched);
    }
  }

  // An operation that logs as many blocks as MAXOPBLOCKS allows can panic whatever the size of the log.
  lemma {:induction false} AllowedOperationsPanic(c: Config, s0: State) returns (sched: Schedule)
    requires Init(c, s0) && Roomy(c)
    ensures Reached(c, s0, Blocks(MAXOPBLOCKS), sched, Stopped(TooBig))
  {
    sched := PanicRun(c, s0, Blocks(MAXOPBLOCKS));
  }

  // ----- When the log overflows -----

  lemma {:induction false} LimitedFit(c: Config, s0: State, l: Limit, sched: Schedule)
    requires Init(c, s0) && RunWithin(c, s0, l, sched) && l.n <= MAXOPBLOCKS
    ensures var r := Run(c, s0, sched); r.Some? && r.value.Up? ==> |r.value.lh| <= Longest(l)
  {
    SpaceInvariant(c, s0, l, sched);
    var r := Run(c, s0, sched);
    if r.Some? && r.value.Up? { LeftBound(l, r.value.ops, |r.value.ops|); }
  }

  ghost predicate NothingReady(s: State) {
    s.Up? ==> s.lh == [] && forall p :: 0 <= p < |s.ops| && s.ops[p].In? ==> s.ops[p].ready.None?
  }

  lemma {:induction false} NeverReady(c: Config, s: State, a: Action)
    requires Inv(c, s) && c.log.size == 1 && NothingReady(s) && Step(c, s, a).Some?
    ensures NothingReady(Step(c, s, a).value)
  {
  }

  // A log of one block has room for its header only, and log_write() never succeeds.
  lemma {:induction false} HeaderOnlyFits(c: Config, s0: State, sched: Schedule)
    requires Init(c, s0) && c.log.size == 1
    ensures var r := Run(c, s0, sched); r.Some? ==> NothingReady(r.value)
  {
    if sched.Next? {
      HeaderOnlyFits(c, s0, sched.before);
      var r := Run(c, s0, sched.before);
      if r.Some? && Step(c, r.value, sched.act).Some? { NeverReady(c, r.value, sched.act); }
    }
  }

  // Two processes have found room for the last block at the same time, for block k and for block i.
  ghost predicate Racing(c: Config, s: State, k: int, i: int, x: Block) {
    && Marked(c, s, k, x) && s.outstanding == 2 && s.ops[0].In? && s.ops[1].In?
    && s.ops[1].ready == Some(Fresh(c, k)) && s.ops[0].ready == Some(Fresh(c, i))
  }

  // As many blocks are logged as the log has, header included.
  ghost predicate Raced(c: Config, s: State, x: Block) {
    && Marked(c, s, c.log.size, x) && s.outstanding == 2 && s.ops[0].In? && s.ops[1].In?
    && s.ops[0].ready.None? && s.ops[1].ready.None?
  }

  // Process 1 has found room for it and process 0 can still look.
  ghost predicate Half(c: Config, s: State, k: int, x: Block) {
    && Marked(c, s, k, x) && s.outstanding == 2 && s.ops[0].In? && s.ops[1].In?
    && s.ops[1].ready == Some(Fresh(c, k)) && s.ops[0].ready == None
  }

  lemma {:induction false} TestFirst(c: Config, s0: State, l: Limit, before: Schedule, t: State,
                                     q: nat, m: nat, k: nat, x: Block)
    returns (sched: Schedule, s: State)
    requires Init(c, s0) && Roomy(c) && Reached(c, s0, l, before, t) && q < l.n <= MAXOPBLOCKS
    requires Both(c, t, q, m, k, x) && m <= k <= m + 2 * q && k + 2 == c.log.size <= LOGSIZE
    ensures Reached(c, s0, l, sched, s) && Half(c, s, k, x) && |s.ops[0].logged| <= s.ops[0].calls <= q
  {
    sched, s := TestOne(c, s0, l, before, t, 1, k);
  }

  lemma {:induction false} TestSecond(c: Config, s0: State, l: Limit, before: Schedule, t: State,
                                      k: nat, i: nat, x: Block)
    returns (sched: Schedule, s: State)
    requires Init(c, s0) && Roomy(c) && Reached(c, s0, l, before, t) && Half(c, t, k, x)
    requires |t.ops[0].logged| <= t.ops[0].calls < l.n <= MAXOPBLOCKS && k < i == c.log.size - 1 < LOGSIZE
    ensures Reached(c, s0, l, sched, s) && Racing(c, s, k, i, x)
  {
    sched, s := TestOne(c, s0, l, before, t, 0, i);
  }

  lemma {:induction false} PutBoth(c: Config, s0: State, l: Limit, before: Schedule, t: State,
                                   k: nat, i: nat, x: Block)
    returns (sched: Schedule, s: State)
    requires Init(c, s0) && Roomy(c) && Reached(c, s0, l, before, t) && Racing(c, t, k, i, x)
    requires k + 1 == i == c.log.size - 1 < LOGSIZE
    ensures Reached(c, s0, l, sched, s) && Raced(c, s, x)
  {
    MarksGrow(c, t.lh, t.logical, k, x);
    sched, s := Extend(c, s0, l, before, t, Put(1, Fresh(c, k), x));
    MarksGrow(c, s.lh, s.logical, i, x);
    sched, s := Extend(c, s0, l, sched, s, Put(0, Fresh(c, i), x));
  }

  lemma {:induction false} HalfRun(c: Config, s0: State, l: Limit, k: nat, x: Block) returns (sched: Schedule, s: State)
    requires Init(c, s0) && Roomy(c) && 1 <= l.n <= MAXOPBLOCKS && k == c.log.size - 2 && c.log.size <= Longest(l)
    ensures Reached(c, s0, l, sched, s) && Half(c, s, k, x) && |s.ops[0].logged| <= s.ops[0].calls < l.n
  {
    var m, q := if k <= MAXOPBLOCKS then k else MAXOPBLOCKS, l.n - 1;
    sched, s := DealTo(c, s0, l, q, m, k, x);
    sched, s := TestFirst(c, s0, l, sched, s, q, m, k, x);
  }

  lemma {:induction false} RaceRun(c: Config, s0: State, l: Limit, x: Block) returns (sched: Schedule, s: State)
    requires Init(c, s0) && Roomy(c) && 1 <= l.n <= MAXOPBLOCKS && 1 < c.log.size <= Longest(l)
    ensures Reached(c, s0, l, sched, s) && Raced(c, s, x)
  {
    var k, i := c.log.size - 2, c.log.size - 1;
    sched, s := HalfRun(c, s0, l, k, x);
    sched, s := TestSecond(c, s0, l, sched, s, k, i, x);
    sched, s := PutBoth(c, s0, l, sched, s, k, i, x);
  }

  ghost predicate FittingRun(c: Config, s0: State, l: Limit, sched: Schedule)
    requires Init(c, s0)
  {
    RunWithin(c, s0, l, sched) && Run(c, s0, sched).Some? ==> LogFits(c, Run(c, s0, sched).value)
  }

  lemma {:induction false} SafeFit(c: Config, s0: State, l: Limit, sched: Schedule)
    requires Init(c, s0) && l.n <= MAXOPBLOCKS && (Longest(l) < c.log.size || c.log.size == 1)
    ensures FittingRun(c, s0, l, sched)
  {
    if RunWithin(c, s0, l, sched) {
      if c.log.size == 1 { HeaderOnlyFits(c, s0, sched); } else { LimitedFit(c, s0, l, sched); }
    }
  }

  // The blocks of operations within a limit always fit the log exactly when it is longer than they can
  // make it, or so short that none is ever logged.
  lemma {:induction false} FitsExactly(c: Config, s0: State, l: Limit)
    requires Init(c, s0) && Roomy(c) && 1 <= l.n <= MAXOPBLOCKS
    ensures (forall sched :: FittingRun(c, s0, l, sched)) <==> Longest(l) < c.log.size || c.log.size == 1
  {
    if Longest(l) < c.log.size || c.log.size == 1 {
      forall sched ensures FittingRun(c, s0, l, sched) { SafeFit(c, s0, l, sched); }
    } else {
      var sched, s := RaceRun(c, s0, l, c.boot[0]);
      assert !FittingRun(c, s0, l, sched);
    }
  }

  // ----- When a crash leaves part of an operation -----

  // Process 0 ends the only group of operations there has been, whose commit has written k log blocks.
  ghost predicate Spilling(c: Config, s: State, k: int, x: Block) {
    && s.Up? && s.committing && s.history.Then? && Held(s.history.past) && s.written == k
    && Marks(c, s.lh, s.logical, c.log.size, x) && |s.disk| == |c.boot|
    && (forall b :: 0 <= b < |c.boot| && !(c.log.start < b <= c.log.start + k) ==> s.disk[b] == c.boot[b])
    && 0 <= Fresh(c, 0) < |c.boot| && (k == c.log.size ==> s.disk[Fresh(c, 0)] == x)
  }

  lemma {:induction false} Closed(c: Config, s0: State, l: Limit, before: Schedule, t: State, x: Block)
    returns (sched: Schedule, s: State)
    requires Init(c, s0) && Roomy(c) && Reached(c, s0, l, before, t) && Raced(c, t, x) && 1 < c.log.size
    ensures Reached(c, s0, l, sched, s) && Spilling(c, s, 0, x)
  {
    sched, s := Extend(c, s0, l, before, t, End(1));
    sched, s := Extend(c, s0, l, sched, s, End(0));
  }

  lemma {:induction false} Spilled(c: Config, s0: State, l: Limit, before: Schedule, t: State, k: nat, x: Block)
    returns (sched: Schedule, s: State)
    requires Init(c, s0) && Roomy(c) && Reached(c, s0, l, before, t)
    requires 1 <= k <= c.log.size && 1 < c.log.size < NBUF && Spilling(c, t, k - 1, x)
    ensures Reached(c, s0, l, sched, s) && Spilling(c, s, k, x)
  {
    assert Mark(c, t.lh, t.logical, k - 1, x);
    sched, s := Extend(c, s0, l, before, t, WriteBlock);
  }

  lemma {:induction false} SpillTo(c: Config, s0: State, l: Limit, k: nat, x: Block)
    returns (sched: Schedule, s: State)
    requires Init(c, s0) && Roomy(c) && 1 <= l.n <= MAXOPBLOCKS && 1 < c.log.size <= Longest(l)
    requires k <= c.log.size && (k == 0 || c.log.size < NBUF)
    ensures Reached(c, s0, l, sched, s) && Spilling(c, s, k, x)
    decreases k
  {
    if k == 0 {
      sched, s := RaceRun(c, s0, l, x);
      sched, s := Closed(c, s0, l, sched, s, x);
    } else {
      sched, s := SpillTo(c, s0, l, k - 1, x);
      sched, s := Spilled(c, s0, l, sched, s, k, x);
    }
  }

  lemma {:induction false} HeldPrefix(h: History, a: History)
    requires Held(h) && Prefix(a, h) && Whole(a)
    ensures a == Empty
  {
    if a != h { HeldPrefix(h.past, a); }
  }

  // One block of the group is on its home block and another is not.
  lemma {:induction false} SpillIsPartial(c: Config, s: State, x: Block)
    requires Inv(c, s) && Roomy(c) && 1 < c.log.size && Spilling(c, s, c.log.size, x)
    requires x != c.boot[Fresh(c, 0)] && x != c.boot[Fresh(c, 1)]
    ensures !CrashAtomic(c, s)
  {
    assert Mark(c, s.lh, s.logical, 1, x);
    forall h | Prefix(h, s.history) && Whole(h) ensures !Leaves(c, s, h) {
      if h != s.history { HeldPrefix(s.history.past, h); }
      var e := Replay(c.boot, h);
      assert e[Fresh(c, 0)] != x || e[Fresh(c, 1)] == x;
      forall home: Disk | Recoverable(c.log, s.disk, home) ensures !SameHome(c.log, home, e) {
        assert Idle(c.log, s.disk, home);
      }
    }
  }

  ghost predicate AtomicRun(c: Config, s0: State, l: Limit, sched: Schedule)
    requires Init(c, s0)
  {
    RunWithin(c, s0, l, sched) && Run(c, s0, sched).Some? ==> CrashAtomic(c, Run(c, s0, sched).value)
  }

  lemma {:induction false} PartialRun(c: Config, s0: State, l: Limit) returns (sched: Schedule, s: State)
    requires Init(c, s0) && Roomy(c) && 1 <= l.n <= MAXOPBLOCKS && 1 < c.log.size <= Longest(l) && c.log.size < NBUF
    ensures Reached(c, s0, l, sched, s) && s.Up? && !CrashAtomic(c, s)
  {
    var a, b := c.boot[Fresh(c, 0)], c.boot[Fresh(c, 1)];
    var x: Block := a[0 := if a[0] < b[0] then b[0] + 1 else a[0] + 1];
    assert x[0] != a[0] && x[0] != b[0];
    sched, s := SpillTo(c, s0, l, c.log.size, x);
    SpillIsPartial(c, s, x);
  }

  // No log can overflow, or an overflow leaves no buffer.
  lemma {:induction false} SafeCommits(c: Config, s0: State, l: Limit, sched: Schedule)
    requires Init(c, s0) && RunWithin(c, s0, l, sched) && l.n <= MAXOPBLOCKS
    requires Longest(l) < c.log.size || c.log.size == 1 || c.log.size >= NBUF
    ensures AlwaysFits(c, s0, sched)
  {
    if sched.Next? { SafeCommits(c, s0, l, sched.before); }
    if c.log.size < NBUF { SafeFit(c, s0, l, sched); }
  }

  // Every crash in every run of operations within a limit leaves whole operations only, exactly when
  // their blocks always fit the log or the log has as many blocks as there are buffers.
  lemma {:induction false} AtomicExactly(c: Config, s0: State, l: Limit)
    requires Init(c, s0) && Roomy(c) && 1 <= l.n <= MAXOPBLOCKS
    ensures (forall sched :: AtomicRun(c, s0, l, sched)) <==>
              Longest(l) < c.log.size || c.log.size == 1 || c.log.size >= NBUF
  {
    if Longest(l) < c.log.size || c.log.size == 1 || c.log.size >= NBUF {
      forall sched ensures AtomicRun(c, s0, l, sched) {
        if RunWithin(c, s0, l, sched) {
          SafeCommits(c, s0, l, sched);
          NoPartialOperation(c, s0, sched);
        }
      }
    } else {
      var sched, s := PartialRun(c, s0, l);
      assert !AtomicRun(c, s0, l, sched);
    }
  }

  // Operations that keep to MAXOPBLOCKS overflow a smaller log than that, and a crash leaves part of them.
  lemma {:induction false} AllowedOperationsTear(c: Config, s0: State) returns (sched: Schedule, s: State)
    requires Init(c, s0) && Roomy(c) && 1 < c.log.size < NBUF
    ensures Reached(c, s0, Blocks(MAXOPBLOCKS), sched, s) && s.Up? && !CrashAtomic(c, s)
  {
    sched, s := PartialRun(c, s0, Blocks(MAXOPBLOCKS));
  }

  // ----- The log that mkfs makes, LOGSIZE blocks long -----

  // They overflow it too.
  lemma {:induction false} AllowedOperationsOverflow(c: Config, s0: State) returns (sched: Schedule, s: State)
    requires Init(c, s0) && Roomy(c) && c.log.size == LOGSIZE
    ensures Reached(c, s0, Blocks(MAXOPBLOCKS), sched, s) && s.Up? && |s.lh| == c.log.size
  {
    sched, s := RaceRun(c, s0, Blocks(MAXOPBLOCKS), c.boot[0]);
  }

  lemma {:induction false} AllFit(c: Config, s0: State, sched: Schedule)
    requires Init(c, s0) && c.log.size >= NBUF
    ensures AlwaysFits(c, s0, sched)
  {
    if sched.Next? { AllFit(c, s0, sched.before); }
  }

  // But a commit finds no buffer for its first block then, and every crash leaves whole operations only,
  // whatever the operations do.
  lemma {:induction false} MkfsAtomic(c: Config, s0: State, sched: Schedule)
    requires Init(c, s0) && c.log.size == LOGSIZE
    ensures var r := Run(c, s0, sched); r.Some? ==> CrashAtomic(c, r.value) && r.value != Stopped(OutOfRange)
  {
    AllFit(c, s0, sched);
    NoPartialOperation(c, s0, sched);
  }

  lemma {:induction false} BufferLeft(c: Config, s: State, a: Action)
    requires Inv(c, s) && (s.Up? ==> |s.lh| < NBUF)
    ensures Step(c, s, a) != Some(Stopped(NoBuffers))
  {
  }

  lemma {:induction false} NeverOutOfBuffers(c: Config, s0: State, l: Limit, sched: Schedule)
    requires Init(c, s0) && RunWithin(c, s0, l, sched) && l.n <= MAXOPBLOCKS && Longest(l) < NBUF
    ensures Run(c, s0, sched) != Some(Stopped(NoBuffers))
  {
    if sched.Next? {
      LimitedFit(c, s0, l, sched.before);
      var r := Run(c, s0, sched.before);
      if r.Some? { BufferLeft(c, r.value, sched.act); }
    }
  }

  // The two open operations of t end, and the commit has no buffer.
  lemma {:induction false} RunsOut(c: Config, s0: State, l: Limit, before: Schedule, t: State)
    returns (sched: Schedule)
    requires Init(c, s0) && Reached(c, s0, l, before, t) && t.Up? && |t.ops| >= 2 && t.outstanding == 2
    requires t.ops[0].In? && t.ops[1].In? && t.ops[0].ready.None? && t.ops[1].ready.None? && |t.lh| >= NBUF
    ensures Reached(c, s0, l, sched, Stopped(NoBuffers))
  {
    NotWhileCommitting(c, t, 0);
    var s;
    sched, s := Extend(c, s0, l, before, t, End(1));
    NotWhileCommitting(c, s, 0);
    sched, s := Extend(c, s0, l, sched, s, End(0));
    sched, s := Extend(c, s0, l, sched, s, WriteBlock);
  }

  ghost predicate NeverNoBuffers(c: Config, s0: State, l: Limit, sched: Schedule)
    requires Init(c, s0)
  {
    RunWithin(c, s0, l, sched) ==> Run(c, s0, sched) != Some(Stopped(NoBuffers))
  }

  // With that log or a longer one a commit never lacks a buffer, exactly when the operations cannot log as
  // many blocks as there are buffers.
  lemma {:induction false} NoBuffersExactly(c: Config, s0: State, l: Limit)
    requires Init(c, s0) && Roomy(c) && 1 <= l.n <= MAXOPBLOCKS && c.log.size >= LOGSIZE
    ensures (forall sched :: NeverNoBuffers(c, s0, l, sched)) <==> Longest(l) < NBUF
  {
    if Longest(l) < NBUF {
      forall sched ensures NeverNoBuffers(c, s0, l, sched) {
        if RunWithin(c, s0, l, sched) { NeverOutOfBuffers(c, s0, l, sched); }
      }
    } else {
      var sched, s;
      if c.log.size == LOGSIZE {
        sched, s := RaceRun(c, s0, l, c.boot[0]);
      } else {
        sched, s := DealTo(c, s0, l, l.n, MAXOPBLOCKS, LOGSIZE, c.boot[0]);
      }
      sched := RunsOut(c, s0, l, sched, s);
      assert !NeverNoBuffers(c, s0, l, sched);
    }
  }

  // The transactions of filewrite() neither panic nor overflow it.
  lemma {:induction false} ChunksNeverPanic(c: Config, s0: State, sched: Schedule)
    requires Init(c, s0) && c.log.size == LOGSIZE && RunWithin(c, s0, Blocks(CHUNK_BLOCKS), sched)
    ensures var r := Run(c, s0, sched); r.Some? ==> r.value.Up? && LogFits(c, r.value) && CrashAtomic(c, r.value)
  {
    NeverPanics(c, s0, Blocks(CHUNK_BLOCKS), sched);
    LimitedFit(c, s0, Blocks(CHUNK_BLOCKS), sched);
    NeverOutOfBuffers(c, s0, Blocks(CHUNK_BLOCKS), sched);
    MkfsAtomic(c, s0, sched);
  }
}
