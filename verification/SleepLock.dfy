/**
 acquiresleep() and releasesleep() as interleaved steps, with the spinlock inside the sleeplock,
 the lock of the process table and the steps of sleep() and wakeup().
 */
module SleepLock {
  import opened Options

  datatype Pc =
    | Idle
    | Acquire | Test | Taken  // the lock is taken, the spinlock still held
    | Sleep1  // before acquire(&ptable.lock)
    | Sleep2  // before release(lk)
    | Sleep3  // before the process is marked as sleeping
    | Asleep
    | Reacquire
    | Holding
    | Release | Signal | Done

  datatype Proc = Proc(pc: Pc, sleeping: bool)

  // lk and pt are the holders of the two spinlocks, or -1. pid is the holder of the sleeplock as
  // the lock records it; processes are their own pids.
  datatype System = System(procs: seq<Proc>, lk: int, pt: int, locked: bool, pid: int)

  // Call acquiresleep() or releasesleep(), take the next step, or be killed.
  datatype Action = Call | Go | Kill

  predicate IsProc(s: System, p: int) {
    0 <= p < |s.procs|
  }

  function Goto(s: System, p: int, pc: Pc): (r: System)
    requires IsProc(s, p)
  {
    s.(procs := s.procs[p := s.procs[p].(pc := pc)])
  }

  // wakeup1()
  function Woken(procs: seq<Proc>): (r: seq<Proc>)
    ensures |r| == |procs|
    ensures forall i :: 0 <= i < |r| ==> r[i] == procs[i].(sleeping := false)
  {
    seq(|procs|, i requires 0 <= i < |procs| => procs[i].(sleeping := false))
  }

  // releasesleep() is called by the holder of the lock.
  function Step(s: System, p: int, a: Action): (r: Option<System>) {
    if !IsProc(s, p) then None else
      match a
      case Call =>
        if s.procs[p].pc == Idle then Some(Goto(s, p, Acquire))
        else if s.procs[p].pc == Holding then Some(Goto(s, p, Release))
        else None
      case Kill => if s.pt == -1 then Some(s.(procs := s.procs[p := s.procs[p].(sleeping := false)])) else None
      case Go => Advance(s, p)
  }

  function Advance(s: System, p: int): (r: Option<System>)
    requires IsProc(s, p)
  {
    match s.procs[p].pc
    case Idle => None
    case Acquire => if s.lk == -1 then Some(Goto(s, p, Test).(lk := p)) else None
    case Test => if s.locked then Some(Goto(s, p, Sleep1)) else Some(Goto(s, p, Taken).(locked := true, pid := p))
    case Taken => Some(Goto(s, p, Holding).(lk := -1))
    case Sleep1 => if s.pt == -1 then Some(Goto(s, p, Sleep2).(pt := p)) else None
    case Sleep2 => Some(Goto(s, p, Sleep3).(lk := -1))
    case Sleep3 => Some(s.(procs := s.procs[p := Proc(Asleep, true)], pt := -1))
    case Asleep => if !s.procs[p].sleeping && s.pt == -1 then Some(Goto(s, p, Reacquire)) else None
    case Reacquire => if s.lk == -1 then Some(Goto(s, p, Test).(lk := p)) else None
    case Holding => None
    case Release => if s.lk == -1 then Some(Goto(s, p, Signal).(lk := p, locked := false, pid := -1)) else None
    case Signal => if s.pt == -1 then Some(Goto(s.(procs := Woken(s.procs)), p, Done)) else None
    case Done => Some(Goto(s, p, Idle).(lk := -1))
  }

  // ----- The invariant -----

  predicate HoldsLk(pc: Pc) {
    pc == Test || pc == Taken || pc == Sleep1 || pc == Sleep2 || pc == Signal || pc == Done
  }

  predicate HoldsPt(pc: Pc) {
    pc == Sleep2 || pc == Sleep3
  }

  // acquiresleep() has taken the lock and releasesleep() has not given it back.
  predicate Owns(pc: Pc) {
    pc == Taken || pc == Holding || pc == Release
  }

  predicate Resting(x: Proc) {
    x.pc == Sleep3 || (x.pc == Asleep && x.sleeping)
  }

  predicate ProcOk(s: System, p: int)
    requires IsProc(s, p)
  {
    var x := s.procs[p];
    && (HoldsLk(x.pc) <==> s.lk == p) && (HoldsPt(x.pc) <==> s.pt == p) && (x.sleeping ==> x.pc == Asleep)
    && (Owns(x.pc) <==> s.locked && s.pid == p)
    && (x.pc == Sleep1 || x.pc == Sleep2 ==> s.locked)
    && (Resting(x) ==> s.locked || (IsProc(s, s.lk) && s.procs[s.lk].pc == Signal))
  }

  ghost predicate Inv(s: System) {
    && (s.lk == -1 || IsProc(s, s.lk)) && (s.pt == -1 || IsProc(s, s.pt)) && (s.locked ==> IsProc(s, s.pid))
    && forall p :: 0 <= p < |s.procs| ==> ProcOk(s, p)
  }

  lemma {:induction false} AcquireKeeps(s: System, p: int)
    requires Inv(s) && Step(s, p, Go).Some?
    requires var pc := s.procs[p].pc; pc == Acquire || pc == Reacquire || pc == Test || pc == Taken
    ensures Inv(Step(s, p, Go).value)
  {
    var s' := Step(s, p, Go).value;
    assert ProcOk(s, p);
    forall r | 0 <= r < |s'.procs| ensures ProcOk(s', r) { assert ProcOk(s, r); }
  }

  // Between release(lk) and the moment it sleeps a process holds ptable.lock.
  lemma {:induction false} SleepKeeps(s: System, p: int)
    requires Inv(s) && Step(s, p, Go).Some?
    requires var pc := s.procs[p].pc; pc == Sleep1 || pc == Sleep2 || pc == Sleep3 || pc == Asleep
    ensures Inv(Step(s, p, Go).value)
  {
    var s' := Step(s, p, Go).value;
    assert ProcOk(s, p);
    forall r | 0 <= r < |s'.procs| ensures ProcOk(s', r) { assert ProcOk(s, r); }
  }

  // The lock is free from Release on, and all sleepers are woken before the spinlock is.
  lemma {:induction false} ReleaseKeeps(s: System, p: int)
    requires Inv(s) && Step(s, p, Go).Some? && var pc := s.procs[p].pc; pc == Release || pc == Signal || pc == Done
    ensures Inv(Step(s, p, Go).value)
  {
    var s' := Step(s, p, Go).value;
    assert ProcOk(s, p);
    forall r | 0 <= r < |s'.procs| ensures ProcOk(s', r) { assert ProcOk(s, r); }
  }

  lemma {:induction false} StepKeeps(s: System, p: int, a: Action)
    requires Inv(s) && Step(s, p, a).Some?
    ensures Inv(Step(s, p, a).value)
  {
    var pc := s.procs[p].pc;
    if a != Go {
      var s' := Step(s, p, a).value;
      assert ProcOk(s, p);
      forall r | 0 <= r < |s'.procs| ensures ProcOk(s', r) { assert ProcOk(s, r); }
    } else if pc == Acquire || pc == Reacquire || pc == Test || pc == Taken {
      AcquireKeeps(s, p);
    } else if pc == Release || pc == Signal || pc == Done {
      ReleaseKeeps(s, p);
    } else {
      SleepKeeps(s, p);
    }
  }

  // ----- Runs -----

  ghost predicate Init(s: System) {
    s.lk == -1 && s.pt == -1 && !s.locked && forall p :: 0 <= p < |s.procs| ==> s.procs[p] == Proc(Idle, false)
  }

  datatype Schedule = Start | Then(before: Schedule, p: int, a: Action)

  // The state a schedule leads to; None if it asks for a step that cannot be taken.
  ghost function Run(s0: System, sched: Schedule): (r: Option<System>)
    requires Init(s0)
    ensures r.Some? ==> Inv(r.value)
  {
    match sched
    case Start => Some(s0)
    case Then(before, p, a) =>
      var r := Run(s0, before);
      if r.None? || Step(r.value, p, a).None? then None
      else
        StepKeeps(r.value, p, a);
        Step(r.value, p, a)
  }

  // In every run at most one process owns the lock, which is then marked as locked by it, and
  // while the spinlock is free nobody sleeps for a lock that no process owns.
  lemma {:induction false} MutualExclusion(s0: System, sched: Schedule)
    requires Init(s0)
    ensures var r := Run(s0, sched);
            r.Some? ==>
              var s := r.value;
              && (forall p, q :: IsProc(s, p) && IsProc(s, q) && Owns(s.procs[p].pc) && Owns(s.procs[q].pc) ==> p == q)
              && (s.locked <==> exists p :: IsProc(s, p) && Owns(s.procs[p].pc))
              && (s.lk == -1 ==> forall p :: IsProc(s, p) && Resting(s.procs[p]) ==>
                    s.locked && IsProc(s, s.pid) && Owns(s.procs[s.pid].pc))
  {
    var r := Run(s0, sched);
    if r.Some? {
      var s := r.value;
      forall p | IsProc(s, p) && Owns(s.procs[p].pc) ensures s.locked && s.pid == p { assert ProcOk(s, p); }
      if s.locked { assert ProcOk(s, s.pid); }
      forall p | IsProc(s, p) && Resting(s.procs[p]) && s.lk == -1 ensures s.locked { assert ProcOk(s, p); }
    }
  }
}
