/**
 fork(), exit(), wait(), sleep(), wakeup() and kill() as steps of processes that share the
 process table.

 The lock of the table is held from one step to a later one in loops over the table. Steps
 that the code takes without the lock may come in between.
 */
module Process {
  import opened Options

  datatype State = UNUSED | EMBRYO | SLEEPING | RUNNABLE | RUNNING | ZOMBIE

  // Processes are numbered by their slots in the table. -1 is the null pointer.
  datatype Proc = Proc(state: State, parent: int, chan: int, pid: int, killed: bool)

  // Where a process is in the code.
  datatype Pc =
    | Elsewhere
    | Alloc(k: int)  // the loop of allocproc(), looking at slot k
    | Forking(np: int)  // allocproc() has taken slot np
    | Parented(np: int)  // fork() has set the parent of np
    | Exiting(k: int)  // the loop of exit()
    | Waiting(k: int, haveKids: bool)  // the loop of wait()
    | Asleep  // in the sleep() of wait()
    | Dead

  datatype Table = Table(procs: seq<Proc>, pc: seq<Pc>, init: int, lock: int, nextPid: int,
                         exited: set<int>, reaped: multiset<int>)

  datatype Action =
    | AllocStart | AllocScan | ForkFail | ForkParent | ForkEnd
    | ExitStart | ExitScan | WaitStart | WaitScan
    | Dispatch | Yield | Sleep(chan: int) | Wakeup(chan: int) | Kill(pid: int)

  predicate IsSlot(s: Table, p: int) {
    0 <= p < |s.procs| == |s.pc|
  }

  // wakeup1()
  function Woken(procs: seq<Proc>, chan: int): (r: seq<Proc>)
    ensures |r| == |procs|
    ensures forall i :: 0 <= i < |r| ==>
              r[i] == if procs[i].state == SLEEPING && procs[i].chan == chan
                      then procs[i].(state := RUNNABLE) else procs[i]
  {
    seq(|procs|, i requires 0 <= i < |procs| =>
      if procs[i].state == SLEEPING && procs[i].chan == chan then procs[i].(state := RUNNABLE) else procs[i])
  }

  function Put(s: Table, p: int, x: Proc): (r: Table)
    requires IsSlot(s, p)
  {
    s.(procs := s.procs[p := x])
  }

  function Goto(s: Table, p: int, pc: Pc): (r: Table)
    requires IsSlot(s, p)
  {
    s.(pc := s.pc[p := pc])
  }

  // Process p can take a step. A spinlock keeps the processor, so a holder is not preempted.
  predicate Enabled(s: Table, p: int, a: Action) {
    && IsSlot(s, p)
    && var x, pc := s.procs[p], s.pc[p];
       match a
       case AllocStart => x.state == RUNNING && pc == Elsewhere && s.lock == -1
       case AllocScan => x.state == RUNNING && pc.Alloc? && s.lock == p
       case ForkFail => x.state == RUNNING && pc.Forking? && IsSlot(s, pc.np)
       case ForkParent => x.state == RUNNING && pc.Forking? && IsSlot(s, pc.np)
       case ForkEnd => x.state == RUNNING && pc.Parented? && IsSlot(s, pc.np) && s.lock == -1
       case ExitStart => x.state == RUNNING && pc == Elsewhere && p != s.init && s.lock == -1
       case ExitScan => x.state == RUNNING && pc.Exiting? && s.lock == p
       case WaitStart => x.state == RUNNING && pc == Elsewhere && s.lock == -1
       case WaitScan => x.state == RUNNING && pc.Waiting? && s.lock == p
       case Dispatch => x.state == RUNNABLE && s.lock == -1
       case Yield => x.state == RUNNING && s.lock == -1
       case Sleep(c) => x.state == RUNNING && pc == Elsewhere && s.lock == -1 && !IsSlot(s, c)
       case Wakeup(c) => s.lock == -1 && !IsSlot(s, c)
       case Kill(pid) => s.lock == -1
  }

  function Next(s: Table, p: int, a: Action): (s': Table)
    requires Enabled(s, p, a)
  {
    match a
    case AllocStart => Goto(s, p, Alloc(0)).(lock := p)
    case AllocScan => AllocNext(s, p, s.pc[p].k)
    case ForkFail => var np := s.pc[p].np; Goto(Put(s, np, s.procs[np].(state := UNUSED)), p, Elsewhere)
    case ForkParent => var np := s.pc[p].np; Goto(Put(s, np, s.procs[np].(parent := p)), p, Parented(np))
    case ForkEnd => var np := s.pc[p].np; Goto(Put(s, np, s.procs[np].(state := RUNNABLE)), p, Elsewhere)
    case ExitStart => Goto(s, p, Exiting(0)).(lock := p, procs := Woken(s.procs, s.procs[p].parent))
    case ExitScan => ExitNext(s, p, s.pc[p].k)
    case WaitStart => Goto(s, p, Waiting(0, false)).(lock := p)
    case WaitScan => WaitNext(s, p, s.pc[p].k, s.pc[p].haveKids)
    case Dispatch =>
      var s1 := Put(s, p, s.procs[p].(state := RUNNING, chan := -1));
      if s.pc[p] == Asleep then Goto(s1, p, Waiting(0, false)).(lock := p) else s1
    case Yield => Put(s, p, s.procs[p].(state := RUNNABLE))
    case Sleep(c) => Put(s, p, s.procs[p].(state := SLEEPING, chan := c))
    case Wakeup(c) => s.(procs := Woken(s.procs, c))
    case Kill(pid) => KillFrom(s, pid, 0)
  }

  // allocproc(): take slot k if it is unused.
  function AllocNext(s: Table, p: int, k: int): (s': Table)
    requires IsSlot(s, p)
  {
    if !IsSlot(s, k) then Goto(s, p, Elsewhere).(lock := -1)
    else if s.procs[k].state == UNUSED then
      var s1 := Put(s, k, s.procs[k].(state := EMBRYO, pid := s.nextPid));
      Goto(s1, p, Forking(k)).(nextPid := s.nextPid + 1, lock := -1)
    else Goto(s, p, Alloc(k + 1))
  }

  // exit(): pass child k to init, or become a zombie and give up the processor with the lock.
  function ExitNext(s: Table, p: int, k: int): (s': Table)
    requires IsSlot(s, p)
  {
    if !IsSlot(s, k) then
      Goto(Put(s, p, s.procs[p].(state := ZOMBIE)), p, Dead).(lock := -1, exited := s.exited + {s.procs[p].pid})
    else if s.procs[k].parent != p then Goto(s, p, Exiting(k + 1))
    else
      var s1 := Put(s, k, s.procs[k].(parent := s.init));
      var s2 := if s.procs[k].state == ZOMBIE then s1.(procs := Woken(s1.procs, s.init)) else s1;
      Goto(s2, p, Exiting(k + 1))
  }

  // wait(): reap child k if it is a zombie; behind the last slot, return or sleep.
  function WaitNext(s: Table, p: int, k: int, haveKids: bool): (s': Table)
    requires IsSlot(s, p)
  {
    if !IsSlot(s, k) then
      if !haveKids || s.procs[p].killed then Goto(s, p, Elsewhere).(lock := -1)
      else Goto(Put(s, p, s.procs[p].(state := SLEEPING, chan := p)), p, Asleep).(lock := -1)
    else if s.procs[k].parent != p then Goto(s, p, Waiting(k + 1, haveKids))
    else if s.procs[k].state == ZOMBIE then
      var s1 := Put(s, k, s.procs[k].(state := UNUSED, parent := -1, pid := 0, killed := false));
      s1.(pc := s1.pc[k := Elsewhere][p := Elsewhere], lock := -1, reaped := s.reaped + multiset{s.procs[k].pid})
    else Goto(s, p, Waiting(k + 1, true))
  }

  // kill(): the first process with that pid.
  function KillFrom(s: Table, pid: int, k: int): (s': Table)
    requires |s.procs| == |s.pc| && 0 <= k
    decreases |s.procs| - k
  {
    if k >= |s.procs| then s
    else if s.procs[k].pid == pid then
      var x := s.procs[k].(killed := true);
      Put(s, k, if x.state == SLEEPING then x.(state := RUNNABLE) else x)
    else KillFrom(s, pid, k + 1)
  }

  // ----- The invariant -----

  predicate Holds(pc: Pc) {
    pc.Alloc? || pc.Exiting? || pc.Waiting?
  }

  predicate Live(st: State) {
    st == SLEEPING || st == RUNNABLE || st == RUNNING
  }

  // Process p sleeps in wait().
  predicate InWait(s: Table, p: int) {
    IsSlot(s, p) && s.procs[p].state == SLEEPING && s.pc[p] == Asleep
  }

  predicate Forks(pc: Pc, c: int) {
    (pc.Forking? || pc.Parented?) && pc.np == c
  }

  // A process past EMBRYO has a parent that can still wait for it.
  predicate ParentOk(s: Table, p: int)
    requires IsSlot(s, p)
  {
    IsSlot(s, s.procs[p].parent) && Live(s.procs[s.procs[p].parent].state)
  }

  // State and program counter fit together.
  predicate PcOk(s: Table, p: int)
    requires IsSlot(s, p)
  {
    var x, pc := s.procs[p], s.pc[p];
    && (Holds(pc) <==> s.lock == p) && (Holds(pc) ==> x.state == RUNNING)
    && (pc == Dead <==> x.state == ZOMBIE)
    && (pc == Asleep ==> (x.state == SLEEPING && x.chan == p) || x.state == RUNNABLE)
    && (x.state == SLEEPING && IsSlot(s, x.chan) ==> pc == Asleep)
    && (x.state == SLEEPING ==> pc == Asleep || pc == Elsewhere)
    && (x.state == UNUSED || x.state == EMBRYO ==> pc == Elsewhere)
    && (pc.Forking? || pc.Parented? ==> x.state == RUNNING || x.state == RUNNABLE)
    && (pc.Forking? ==> IsSlot(s, pc.np) && s.procs[pc.np].state == EMBRYO && s.procs[pc.np].parent == -1)
    && (pc.Parented? ==> IsSlot(s, pc.np) && s.procs[pc.np].state == EMBRYO && s.procs[pc.np].parent == p)
    && (pc.Alloc? || pc.Exiting? || pc.Waiting? ==> 0 <= pc.k)
  }

  predicate FamilyOk(s: Table, p: int)
    requires IsSlot(s, p)
  {
    var x := s.procs[p];
    && x.parent != p && (x.state == UNUSED || p == s.init ==> x.parent == -1)
    && (x.state == EMBRYO ==> x.parent == -1 || (IsSlot(s, x.parent) && s.pc[x.parent] == Parented(p)))
    && ((Live(x.state) || x.state == ZOMBIE) && p != s.init ==> ParentOk(s, p))
    && (x.state == ZOMBIE ==> !InWait(s, x.parent) && p != s.init)
    && (s.pc[p].Exiting? ==> !InWait(s, x.parent) && p != s.init)
  }

  // What the loops have established for slot c.
  predicate LoopOk(s: Table, p: int, c: int)
    requires IsSlot(s, p) && IsSlot(s, c)
  {
    && (s.pc[p].Exiting? && c < s.pc[p].k ==> s.procs[c].parent != p)
    && (s.pc[p].Waiting? && c < s.pc[p].k && s.procs[c].parent == p ==> s.procs[c].state != ZOMBIE && s.pc[p].haveKids)
    && (p != c && (s.pc[p].Forking? || s.pc[p].Parented?) ==> !Forks(s.pc[c], s.pc[p].np))
  }

  predicate IsChild(s: Table, p: int, c: int) {
    IsSlot(s, c) && s.procs[c].parent == p
  }

  predicate Waits(s: Table, p: int) {
    IsSlot(s, p) && (s.pc[p] == Asleep || (s.pc[p].Waiting? && s.pc[p].haveKids))
  }

  // Who waits has a child to wait for.
  ghost predicate KidsOk(s: Table, p: int) {
    Waits(s, p) ==> exists c :: IsChild(s, p, c)
  }

  ghost predicate Kin(s: Table) {
    && |s.procs| == |s.pc| && IsSlot(s, s.init) && Live(s.procs[s.init].state) && (s.lock == -1 || IsSlot(s, s.lock))
    && (forall p :: 0 <= p < |s.procs| ==> PcOk(s, p))
    && (forall p :: 0 <= p < |s.procs| ==> FamilyOk(s, p))
    && (forall p, c :: 0 <= p < |s.procs| && 0 <= c < |s.procs| ==> LoopOk(s, p, c))
    && (forall p :: KidsOk(s, p))
  }

  // ----- Every process is counted once -----

  // A pid in use is new. Its process has exited exactly if it is a zombie.
  predicate PidOk(s: Table, p: int)
    requires IsSlot(s, p)
  {
    var x := s.procs[p];
    x.state != UNUSED ==> x.pid < s.nextPid && s.reaped[x.pid] == 0 && (x.pid in s.exited <==> x.state == ZOMBIE)
  }

  predicate PidsDiffer(s: Table, p: int, c: int)
    requires IsSlot(s, p) && IsSlot(s, c)
  {
    p != c && s.procs[p].state != UNUSED && s.procs[c].state != UNUSED ==> s.procs[p].pid != s.procs[c].pid
  }

  predicate IsZombie(s: Table, p: int, pid: int) {
    IsSlot(s, p) && s.procs[p].state == ZOMBIE && s.procs[p].pid == pid
  }

  // Every exited process is a zombie or has been reaped, once.
  ghost predicate CountOk(s: Table, pid: int) {
    && (pid in s.exited ==> pid < s.nextPid)
    && s.reaped[pid] == if pid in s.exited && !(exists p :: IsZombie(s, p, pid)) then 1 else 0
  }

  ghost predicate Pids(s: Table) {
    && |s.procs| == |s.pc|
    && (forall p :: 0 <= p < |s.procs| ==> PidOk(s, p))
    && (forall p, c :: 0 <= p < |s.procs| && 0 <= c < |s.procs| ==> PidsDiffer(s, p, c))
    && (forall pid :: CountOk(s, pid))
  }

  ghost predicate SameLives(s: Table, s': Table) {
    && |s'.procs| == |s.procs| == |s.pc| == |s'.pc| && s'.nextPid == s.nextPid && s'.exited == s.exited
    && s'.reaped == s.reaped
    && forall p :: 0 <= p < |s.procs| ==> SameLife(s.procs[p], s'.procs[p])
  }

  predicate SameLife(x: Proc, x': Proc) {
    x'.pid == x.pid && (x'.state == UNUSED <==> x.state == UNUSED) && (x'.state == ZOMBIE <==> x.state == ZOMBIE)
  }

  lemma {:induction false} PidsKept(s: Table, s': Table)
    requires Pids(s) && SameLives(s, s')
    ensures Pids(s')
  {
    forall p | 0 <= p < |s'.procs| ensures PidOk(s', p) {
      assert PidOk(s, p) && SameLife(s.procs[p], s'.procs[p]);
    }
    forall p, c | 0 <= p < |s'.procs| && 0 <= c < |s'.procs| ensures PidsDiffer(s', p, c) {
      assert PidsDiffer(s, p, c) && SameLife(s.procs[p], s'.procs[p]) && SameLife(s.procs[c], s'.procs[c]);
    }
    forall pid ensures CountOk(s', pid) {
      assert CountOk(s, pid);
      forall p ensures IsZombie(s, p, pid) <==> IsZombie(s', p, pid) {
        assert 0 <= p < |s.procs| ==> SameLife(s.procs[p], s'.procs[p]);
      }
    }
  }

  lemma {:induction false} KidsKept(s: Table, s': Table)
    requires forall p :: KidsOk(s, p)
    requires forall p :: Waits(s', p) ==> Waits(s, p) || exists c :: IsChild(s, p, c)
    requires forall p, c :: Waits(s', p) && IsChild(s, p, c) ==> IsChild(s', p, c)
    ensures forall p :: KidsOk(s', p)
  {
    forall p ensures KidsOk(s', p) {
      assert KidsOk(s, p);
    }
  }

  // What is known when p takes a step that may also change slot k.
  predicate Near(s: Table, p: int, k: int)
    requires IsSlot(s, p) && IsSlot(s, s.init)
  {
    PcOk(s, p) && FamilyOk(s, p) && PcOk(s, s.init) && (IsSlot(s, k) ==> PcOk(s, k) && FamilyOk(s, k))
  }

  // And what is known about slot q.
  predicate Before(s: Table, p: int, k: int, q: int)
    requires IsSlot(s, p) && IsSlot(s, s.init) && IsSlot(s, q)
  {
    Near(s, p, k) && PcOk(s, q) && FamilyOk(s, q) && LoopOk(s, p, q) && LoopOk(s, q, p)
  }

  predicate LoopsKept(s: Table, s': Table, p: int, k: int)
    requires IsSlot(s, p) && IsSlot(s, s.init) && |s'.procs| == |s'.pc| == |s.procs|
  {
    forall q, c ::
      (&& 0 <= q < |s.procs| && 0 <= c < |s.procs| && LoopOk(s, q, c)
       && Before(s, p, k, q) && Before(s, p, k, c)) ==> LoopOk(s', q, c)
  }

  // A step keeps the invariant if it does so slot by slot.
  lemma {:induction false} KinKept(s: Table, s': Table, p: int, k: int)
    requires Kin(s) && IsSlot(s, p) && |s'.procs| == |s'.pc| == |s.procs|
    requires Near(s, p, k) ==>
               IsSlot(s', s'.init) && Live(s'.procs[s'.init].state) && (s'.lock == -1 || IsSlot(s', s'.lock))
    requires forall q :: 0 <= q < |s.procs| && Before(s, p, k, q) ==> PcOk(s', q)
    requires forall q :: 0 <= q < |s.procs| && Before(s, p, k, q) ==> FamilyOk(s', q)
    requires LoopsKept(s, s', p, k)
    requires Near(s, p, k) ==> forall q :: Waits(s', q) ==> Waits(s, q) || exists c :: IsChild(s, q, c)
    requires Near(s, p, k) ==> forall q, c :: Waits(s', q) && IsChild(s, q, c) ==> IsChild(s', q, c)
    ensures Kin(s')
  {
    forall q | 0 <= q < |s.procs| ensures Before(s, p, k, q) {
      assert PcOk(s, q) && FamilyOk(s, q) && LoopOk(s, p, q) && LoopOk(s, q, p);
    }
    forall q, c | 0 <= q < |s.procs| && 0 <= c < |s.procs| ensures LoopOk(s', q, c) { assert LoopOk(s, q, c); }
    KidsKept(s, s');
  }

  lemma {:induction false} AllocStartKeeps(s: Table, p: int)
    requires Kin(s) && Enabled(s, p, AllocStart)
    ensures Kin(Next(s, p, AllocStart))
  {
    KinKept(s, Next(s, p, AllocStart), p, p);
  }

  lemma {:induction false} ForkFailLoops(s: Table, p: int)
    requires Kin(s) && Enabled(s, p, ForkFail)
    ensures LoopsKept(s, Next(s, p, ForkFail), p, s.pc[p].np)
  {
  }

  lemma {:induction false} ForkFailKeeps(s: Table, p: int)
    requires Kin(s) && Enabled(s, p, ForkFail)
    ensures Kin(Next(s, p, ForkFail))
  {
    ForkFailLoops(s, p);
    KinKept(s, Next(s, p, ForkFail), p, s.pc[p].np);
  }

  lemma {:induction false} ForkParentKeeps(s: Table, p: int)
    requires Kin(s) && Enabled(s, p, ForkParent)
    ensures Kin(Next(s, p, ForkParent))
  {
    ForkParentLoops(s, p);
    KinKept(s, Next(s, p, ForkParent), p, s.pc[p].np);
  }

  lemma {:induction false} ForkParentLoops(s: Table, p: int)
    requires Kin(s) && Enabled(s, p, ForkParent)
    ensures LoopsKept(s, Next(s, p, ForkParent), p, s.pc[p].np)
  {
  }

  lemma {:induction false} ForkEndKeeps(s: Table, p: int)
    requires Kin(s) && Enabled(s, p, ForkEnd)
    ensures Kin(Next(s, p, ForkEnd))
  {
    KinKept(s, Next(s, p, ForkEnd), p, s.pc[p].np);
  }

  lemma {:induction false} WokenLoops(s: Table, p: int, chan: int)
    requires Kin(s) && IsSlot(s, p)
    ensures LoopsKept(s, s.(procs := Woken(s.procs, chan)), p, p)
  {
  }

  lemma {:induction false} WokenKeeps(s: Table, p: int, chan: int)
    requires Kin(s) && IsSlot(s, p)
    ensures Kin(s.(procs := Woken(s.procs, chan)))
  {
    WokenLoops(s, p, chan);
    KinKept(s, s.(procs := Woken(s.procs, chan)), p, p);
  }

  // A process whose parent is not asleep in wait() can begin to exit.
  lemma {:induction false} ExitBegins(s: Table, p: int)
    requires Kin(s) && IsSlot(s, p) && s.procs[p].state == RUNNING && s.pc[p] == Elsewhere && s.lock == -1
    requires p != s.init && !InWait(s, s.procs[p].parent)
    ensures Kin(Goto(s, p, Exiting(0)).(lock := p))
  {
    KinKept(s, Goto(s, p, Exiting(0)).(lock := p), p, s.procs[p].parent);
  }

  lemma {:induction false} ExitStartKeeps(s: Table, p: int)
    requires Kin(s) && Enabled(s, p, ExitStart)
    ensures Kin(Next(s, p, ExitStart))
  {
    var parent := s.procs[p].parent;
    WokenKeeps(s, p, parent);
    assert FamilyOk(s, p) && PcOk(s, p) && (IsSlot(s, parent) ==> PcOk(s, parent));
    var woken := s.(procs := Woken(s.procs, parent));
    assert Next(s, p, ExitStart) == Goto(woken, p, Exiting(0)).(lock := p);
    ExitBegins(woken, p);
  }

  lemma {:induction false} WaitStartKeeps(s: Table, p: int)
    requires Kin(s) && Enabled(s, p, WaitStart)
    ensures Kin(Next(s, p, WaitStart))
  {
    KinKept(s, Next(s, p, WaitStart), p, p);
  }

  lemma {:induction false} DispatchKeeps(s: Table, p: int)
    requires Kin(s) && Enabled(s, p, Dispatch)
    ensures Kin(Next(s, p, Dispatch))
  {
    KinKept(s, Next(s, p, Dispatch), p, p);
  }

  lemma {:induction false} YieldKeeps(s: Table, p: int)
    requires Kin(s) && Enabled(s, p, Yield)
    ensures Kin(Next(s, p, Yield))
  {
    KinKept(s, Next(s, p, Yield), p, p);
  }

  lemma {:induction false} SleepKeeps(s: Table, p: int, n: int)
    requires Kin(s) && Enabled(s, p, Sleep(n))
    ensures Kin(Next(s, p, Sleep(n)))
  {
    KinKept(s, Next(s, p, Sleep(n)), p, p);
  }

  lemma {:induction false} WakeupKeeps(s: Table, p: int, n: int)
    requires Kin(s) && Enabled(s, p, Wakeup(n))
    ensures Kin(Next(s, p, Wakeup(n)))
  {
    WokenKeeps(s, p, n);
  }

  // allocproc() takes an unused slot.
  lemma {:induction false} SlotTaken(s: Table, p: int)
    requires Kin(s) && Enabled(s, p, AllocScan) && IsSlot(s, s.pc[p].k) && s.procs[s.pc[p].k].state == UNUSED
    ensures Kin(Next(s, p, AllocScan))
  {
    KinKept(s, Next(s, p, AllocScan), p, s.pc[p].k);
  }

  // allocproc() looks at the next slot or gives up.
  lemma {:induction false} SlotPassed(s: Table, p: int)
    requires Kin(s) && Enabled(s, p, AllocScan) && !(IsSlot(s, s.pc[p].k) && s.procs[s.pc[p].k].state == UNUSED)
    ensures Kin(Next(s, p, AllocScan))
  {
    KinKept(s, Next(s, p, AllocScan), p, p);
  }

  // exit() passes a child to init, which wakes up if the child is a zombie.
  predicate Passes(s: Table, p: int) {
    Enabled(s, p, ExitScan) && IsSlot(s, s.init) && IsSlot(s, s.pc[p].k) && s.procs[s.pc[p].k].parent == p
  }

  lemma {:induction false} ChildPassedPc(s: Table, p: int, q: int)
    requires Passes(s, p) && IsSlot(s, q) && Before(s, p, s.pc[p].k, q)
    ensures PcOk(Next(s, p, ExitScan), q)
  {
  }

  lemma {:induction false} ChildPassedFamily(s: Table, p: int, q: int)
    requires Passes(s, p) && IsSlot(s, q) && Before(s, p, s.pc[p].k, q) && Live(s.procs[s.init].state)
    ensures FamilyOk(Next(s, p, ExitScan), q)
  {
    var s', k := Next(s, p, ExitScan), s.pc[p].k;
    SameOrWoken(s, s', s.procs[q].parent);
    if q == k { SameOrWoken(s, s', s.init); }
  }

  // A step that only wakes processes up keeps them alive.
  lemma {:induction false} SameOrWoken(s: Table, s': Table, q: int)
    requires |s.procs| == |s.pc| == |s'.procs| == |s'.pc|
    requires IsSlot(s, q) ==>
               || s'.procs[q].state == s.procs[q].state
               || (s.procs[q].state == SLEEPING && s'.procs[q].state == RUNNABLE)
    requires IsSlot(s, q) ==> (s'.pc[q] == Asleep ==> s.pc[q] == Asleep)
    ensures IsSlot(s, q) ==> (Live(s.procs[q].state) <==> Live(s'.procs[q].state))
    ensures InWait(s', q) ==> InWait(s, q)
  {
  }

  lemma {:induction false} ChildPassedLoop(s: Table, p: int, q: int, c: int)
    requires Passes(s, p) && IsSlot(s, q) && IsSlot(s, c) && Before(s, p, s.pc[p].k, q) && LoopOk(s, q, c)
    ensures LoopOk(Next(s, p, ExitScan), q, c)
  {
  }

  lemma {:induction false} ChildPassed(s: Table, p: int)
    requires Kin(s) && Passes(s, p)
    ensures Kin(Next(s, p, ExitScan))
  {
    var s', k := Next(s, p, ExitScan), s.pc[p].k;
    forall q | 0 <= q < |s.procs| && Before(s, p, k, q) ensures PcOk(s', q) { ChildPassedPc(s, p, q); }
    forall q | 0 <= q < |s.procs| && Before(s, p, k, q) ensures FamilyOk(s', q) { ChildPassedFamily(s, p, q); }
    forall q, c | 0 <= q < |s.procs| && 0 <= c < |s.procs| && LoopOk(s, q, c) && Before(s, p, k, q)
      ensures LoopOk(s', q, c)
    {
      ChildPassedLoop(s, p, q, c);
    }
    KinKept(s, s', p, k);
  }

  // exit() looks at the next slot.
  lemma {:induction false} NoChild(s: Table, p: int)
    requires Kin(s) && Enabled(s, p, ExitScan) && IsSlot(s, s.pc[p].k) && s.procs[s.pc[p].k].parent != p
    ensures Kin(Next(s, p, ExitScan))
  {
    KinKept(s, Next(s, p, ExitScan), p, p);
  }

  // exit() is behind the last slot: no child is left.
  lemma {:induction false} BecomesZombie(s: Table, p: int)
    requires Kin(s) && Enabled(s, p, ExitScan) && !IsSlot(s, s.pc[p].k)
    ensures Kin(Next(s, p, ExitScan))
  {
    KinKept(s, Next(s, p, ExitScan), p, p);
  }

  // wait() reaps a zombie, which has no children.
  lemma {:induction false} Reaps(s: Table, p: int)
    requires Kin(s) && Enabled(s, p, WaitScan) && IsSlot(s, s.pc[p].k) && s.procs[s.pc[p].k].parent == p
    requires s.procs[s.pc[p].k].state == ZOMBIE
    ensures Kin(Next(s, p, WaitScan))
  {
    KinKept(s, Next(s, p, WaitScan), p, s.pc[p].k);
  }

  // wait() looks at the next slot.
  lemma {:induction false} NothingToReap(s: Table, p: int)
    requires Kin(s) && Enabled(s, p, WaitScan) && IsSlot(s, s.pc[p].k)
    requires !(s.procs[s.pc[p].k].parent == p && s.procs[s.pc[p].k].state == ZOMBIE)
    ensures Kin(Next(s, p, WaitScan))
  {
    assert s.procs[s.pc[p].k].parent == p ==> IsChild(s, p, s.pc[p].k);
    KinKept(s, Next(s, p, WaitScan), p, p);
  }

  // wait() is behind the last slot: it returns -1.
  lemma {:induction false} WaitReturns(s: Table, p: int)
    requires Kin(s) && Enabled(s, p, WaitScan) && !IsSlot(s, s.pc[p].k) && (!s.pc[p].haveKids || s.procs[p].killed)
    ensures Kin(Next(s, p, WaitScan))
  {
    KinKept(s, Next(s, p, WaitScan), p, p);
  }

  // wait() is behind the last slot: it sleeps, and no child is a zombie.
  lemma {:induction false} WaitSleeps(s: Table, p: int)
    requires Kin(s) && Enabled(s, p, WaitScan) && !IsSlot(s, s.pc[p].k) && s.pc[p].haveKids && !s.procs[p].killed
    ensures Kin(Next(s, p, WaitScan))
  {
    KinKept(s, Next(s, p, WaitScan), p, p);
  }

  // What kill() does: nothing, or one process is marked and taken from its sleep.
  lemma {:induction false} KillEffect(s: Table, pid: int, k: int) returns (j: int)
    requires |s.procs| == |s.pc| && 0 <= k
    ensures var s' := KillFrom(s, pid, k);
            || s' == s
            || (IsSlot(s, j) && var x := s.procs[j].(killed := true);
                                s' == Put(s, j, if x.state == SLEEPING then x.(state := RUNNABLE) else x))
    decreases |s.procs| - k
  {
    j := k;
    if k < |s.procs| && s.procs[k].pid != pid {
      j := KillEffect(s, pid, k + 1);
    }
  }

  lemma {:induction false} KillKeeps(s: Table, p: int, n: int)
    requires Kin(s) && Enabled(s, p, Kill(n))
    ensures Kin(Next(s, p, Kill(n)))
  {
    var j := KillEffect(s, n, 0);
    KinKept(s, Next(s, p, Kill(n)), p, j);
  }

  lemma {:induction false} KillLives(s: Table, p: int, n: int)
    requires Kin(s) && Enabled(s, p, Kill(n))
    ensures SameLives(s, Next(s, p, Kill(n)))
  {
    var j := KillEffect(s, n, 0);
  }

  lemma {:induction false} StepKeepsKin(s: Table, p: int, a: Action)
    requires Kin(s) && Enabled(s, p, a)
    ensures Kin(Next(s, p, a))
  {
    match a {
      case AllocStart => AllocStartKeeps(s, p);
      case AllocScan =>
        if IsSlot(s, s.pc[p].k) && s.procs[s.pc[p].k].state == UNUSED { SlotTaken(s, p); } else { SlotPassed(s, p); }
      case ForkFail => ForkFailKeeps(s, p);
      case ForkParent => ForkParentKeeps(s, p);
      case ForkEnd => ForkEndKeeps(s, p);
      case ExitStart => ExitStartKeeps(s, p);
      case ExitScan => ExitScanKeeps(s, p);
      case WaitStart => WaitStartKeeps(s, p);
      case WaitScan => WaitScanKeeps(s, p);
      case Dispatch => DispatchKeeps(s, p);
      case Yield => YieldKeeps(s, p);
      case Sleep(c) => SleepKeeps(s, p, c);
      case Wakeup(c) => WakeupKeeps(s, p, c);
      case Kill(pid) => KillKeeps(s, p, pid);
    }
  }

  // wait() returns without a child exactly if the process has none or has been killed.
  lemma {:induction false} WaitGivesUp(s: Table, p: int)
    requires Kin(s) && Enabled(s, p, WaitScan) && !IsSlot(s, s.pc[p].k)
    ensures Next(s, p, WaitScan).pc[p] == Elsewhere <==> s.procs[p].killed || forall c :: !IsChild(s, p, c)
    ensures Next(s, p, WaitScan).pc[p] != Elsewhere ==> InWait(Next(s, p, WaitScan), p)
  {
    assert PcOk(s, p) && KidsOk(s, p);
    forall c | IsChild(s, p, c) ensures s.pc[p].haveKids { assert LoopOk(s, p, c); }
    assert s.pc[p].haveKids ==> Waits(s, p);
  }

  lemma {:induction false} ExitScanKeeps(s: Table, p: int)
    requires Kin(s) && Enabled(s, p, ExitScan)
    ensures Kin(Next(s, p, ExitScan))
  {
    var k := s.pc[p].k;
    if !IsSlot(s, k) {
      BecomesZombie(s, p);
    } else if s.procs[k].parent != p {
      NoChild(s, p);
    } else {
      ChildPassed(s, p);
    }
  }

  lemma {:induction false} WaitScanKeeps(s: Table, p: int)
    requires Kin(s) && Enabled(s, p, WaitScan)
    ensures Kin(Next(s, p, WaitScan))
  {
    var k := s.pc[p].k;
    if IsSlot(s, k) {
      if s.procs[k].parent == p && s.procs[k].state == ZOMBIE { Reaps(s, p); } else { NothingToReap(s, p); }
    } else if s.pc[p].haveKids && !s.procs[p].killed {
      WaitSleeps(s, p);
    } else {
      WaitReturns(s, p);
    }
  }

  // ----- Births and deaths -----

  lemma {:induction false} Born(s: Table, p: int)
    requires Kin(s) && Pids(s) && Enabled(s, p, AllocScan)
    requires IsSlot(s, s.pc[p].k) && s.procs[s.pc[p].k].state == UNUSED
    ensures Pids(Next(s, p, AllocScan))
  {
    var s', k := Next(s, p, AllocScan), s.pc[p].k;
    assert CountOk(s, s.nextPid);
    forall q | 0 <= q < |s'.procs| ensures PidOk(s', q) { assert PidOk(s, q); }
    forall q, c | 0 <= q < |s'.procs| && 0 <= c < |s'.procs| ensures PidsDiffer(s', q, c) {
      assert PidsDiffer(s, q, c) && PidOk(s, q) && PidOk(s, c);
    }
    forall pid ensures CountOk(s', pid) {
      assert CountOk(s, pid);
      assert forall q :: IsZombie(s, q, pid) <==> IsZombie(s', q, pid);
    }
  }

  lemma {:induction false} NotBorn(s: Table, p: int)
    requires Kin(s) && Pids(s) && Enabled(s, p, ForkFail)
    ensures Pids(Next(s, p, ForkFail))
  {
    var s', np := Next(s, p, ForkFail), s.pc[p].np;
    assert PcOk(s, p);
    forall q | 0 <= q < |s'.procs| ensures PidOk(s', q) { assert PidOk(s, q); }
    forall q, c | 0 <= q < |s'.procs| && 0 <= c < |s'.procs| ensures PidsDiffer(s', q, c) {
      assert PidsDiffer(s, q, c);
    }
    forall pid ensures CountOk(s', pid) {
      assert CountOk(s, pid);
      assert forall q :: IsZombie(s, q, pid) <==> IsZombie(s', q, pid);
    }
  }

  lemma {:induction false} Exits(s: Table, p: int)
    requires Kin(s) && Pids(s) && Enabled(s, p, ExitScan) && !IsSlot(s, s.pc[p].k)
    ensures Pids(Next(s, p, ExitScan)) && s.procs[p].pid !in s.exited
  {
    var s' := Next(s, p, ExitScan);
    assert PidOk(s, p);
    forall q | 0 <= q < |s'.procs| ensures PidOk(s', q) { assert PidOk(s, q) && PidsDiffer(s, p, q); }
    forall q, c | 0 <= q < |s'.procs| && 0 <= c < |s'.procs| ensures PidsDiffer(s', q, c) {
      assert PidsDiffer(s, q, c);
    }
    forall pid ensures CountOk(s', pid) {
      assert CountOk(s, pid);
      assert IsZombie(s', p, s.procs[p].pid);
      assert pid != s.procs[p].pid ==> forall q :: IsZombie(s, q, pid) <==> IsZombie(s', q, pid);
    }
  }

  lemma {:induction false} Reaped(s: Table, p: int)
    requires Kin(s) && Pids(s) && Enabled(s, p, WaitScan)
    requires IsSlot(s, s.pc[p].k) && s.procs[s.pc[p].k].parent == p && s.procs[s.pc[p].k].state == ZOMBIE
    ensures Pids(Next(s, p, WaitScan))
  {
    var s', k := Next(s, p, WaitScan), s.pc[p].k;
    assert PidOk(s, k);
    forall q | 0 <= q < |s'.procs| ensures PidOk(s', q) { assert PidOk(s, q) && PidsDiffer(s, k, q); }
    forall q, c | 0 <= q < |s'.procs| && 0 <= c < |s'.procs| ensures PidsDiffer(s', q, c) {
      assert PidsDiffer(s, q, c);
    }
    forall pid ensures CountOk(s', pid) {
      assert CountOk(s, pid) && IsZombie(s, k, s.procs[k].pid);
      forall q ensures IsZombie(s', q, pid) <==> IsZombie(s, q, pid) && pid != s.procs[k].pid {
        assert IsSlot(s, q) ==> PidsDiffer(s, k, q);
      }
    }
  }

  // A slot is taken or given back, a process exits or is reaped.
  predicate ChangesLives(s: Table, p: int, a: Action)
    requires Enabled(s, p, a)
  {
    match a
    case AllocScan => IsSlot(s, s.pc[p].k) && s.procs[s.pc[p].k].state == UNUSED
    case ForkFail => true
    case ExitScan => !IsSlot(s, s.pc[p].k)
    case WaitScan =>
      IsSlot(s, s.pc[p].k) && s.procs[s.pc[p].k].parent == p && s.procs[s.pc[p].k].state == ZOMBIE
    case _ => false
  }

  lemma {:induction false} ForkLives(s: Table, p: int, a: Action)
    requires Kin(s) && Enabled(s, p, a) && !ChangesLives(s, p, a)
    requires a.AllocStart? || a.AllocScan? || a.ForkParent? || a.ForkEnd?
    ensures SameLives(s, Next(s, p, a))
  {
    assert PcOk(s, p);
  }

  lemma {:induction false} ExitLives(s: Table, p: int, a: Action)
    requires Kin(s) && Enabled(s, p, a) && !ChangesLives(s, p, a)
    requires a.ExitStart? || a.ExitScan? || a.WaitStart? || a.WaitScan?
    ensures SameLives(s, Next(s, p, a))
  {
    assert PcOk(s, p);
  }

  lemma {:induction false} LivesKept(s: Table, p: int, a: Action)
    requires Kin(s) && Enabled(s, p, a) && !ChangesLives(s, p, a)
    ensures SameLives(s, Next(s, p, a))
  {
    if a.Kill? {
      KillLives(s, p, a.pid);
    } else if a.AllocStart? || a.AllocScan? || a.ForkParent? || a.ForkEnd? {
      ForkLives(s, p, a);
    } else if a.ExitStart? || a.ExitScan? || a.WaitStart? || a.WaitScan? {
      ExitLives(s, p, a);
    }
  }

  lemma {:induction false} StepKeepsPids(s: Table, p: int, a: Action)
    requires Kin(s) && Pids(s) && Enabled(s, p, a)
    ensures Pids(Next(s, p, a))
  {
    if !ChangesLives(s, p, a) {
      LivesKept(s, p, a);
      PidsKept(s, Next(s, p, a));
    } else if a == AllocScan {
      Born(s, p);
    } else if a == ForkFail {
      NotBorn(s, p);
    } else if a == ExitScan {
      Exits(s, p);
    } else {
      Reaped(s, p);
    }
  }

  // ----- Runs -----

  // The state userinit() leaves: only init exists.
  ghost predicate Init(s: Table) {
    && |s.procs| == |s.pc| && IsSlot(s, s.init) && s.lock == -1 && s.nextPid == 2 && s.exited == {}
    && s.reaped == multiset{}
    && s.procs[s.init] == Proc(RUNNABLE, -1, -1, 1, false)
    && forall p :: 0 <= p < |s.procs| ==>
         s.pc[p] == Elsewhere && (p != s.init ==> s.procs[p].state == UNUSED && s.procs[p].parent == -1)
  }

  datatype Schedule = Start | Then(before: Schedule, p: int, a: Action)

  // The table a schedule leads to; None if it asks for a step that cannot be taken.
  ghost function Run(s0: Table, sched: Schedule): (r: Option<Table>)
    requires Init(s0)
    ensures r.Some? ==> Kin(r.value) && Pids(r.value)
  {
    match sched
    case Start => Some(s0)
    case Then(before, p, a) =>
      var r := Run(s0, before);
      if r.None? || !Enabled(r.value, p, a) then None
      else
        StepKeepsKin(r.value, p, a);
        StepKeepsPids(r.value, p, a);
        Some(Next(r.value, p, a))
  }

  // In every reachable state: zombies have no children; every other process but init that fork()
  // has finished has a parent that can wait for it, and the parent of a zombie is not asleep in
  // wait(); who sleeps in wait() has a child that has not exited; and the processes that have
  // exited are those reaped, each once, and the zombies.
  lemma {:induction false} ExitWait(s0: Table, sched: Schedule)
    requires Init(s0)
    ensures var r := Run(s0, sched);
            r.Some? ==>
              var s := r.value;
              && (forall z, c :: IsSlot(s, z) && IsSlot(s, c) && s.procs[z].state == ZOMBIE ==> s.procs[c].parent != z)
              && (forall p :: IsSlot(s, p) && p != s.init ==>
                    s.procs[p].state == UNUSED || s.procs[p].state == EMBRYO || ParentOk(s, p))
              && (forall z :: IsSlot(s, z) && s.procs[z].state == ZOMBIE ==> !InWait(s, s.procs[z].parent))
              && (forall p :: InWait(s, p) ==> exists c :: IsChild(s, p, c) && Live(s.procs[c].state))
              && (forall pid :: s.reaped[pid] <= 1)
              && (forall pid :: pid in s.exited <==> s.reaped[pid] == 1 || exists p :: IsZombie(s, p, pid))
  {
    var r := Run(s0, sched);
    if r.Some? {
      var s := r.value;
      forall z, c | IsSlot(s, z) && IsSlot(s, c) && s.procs[z].state == ZOMBIE ensures s.procs[c].parent != z {
        assert PcOk(s, z) && FamilyOk(s, c);
      }
      forall p | IsSlot(s, p) && p != s.init && s.procs[p].state != UNUSED && s.procs[p].state != EMBRYO
        ensures ParentOk(s, p)
      {
        assert FamilyOk(s, p);
      }
      forall z | IsSlot(s, z) && s.procs[z].state == ZOMBIE ensures !InWait(s, s.procs[z].parent) {
        assert FamilyOk(s, z);
      }
      forall p | InWait(s, p) ensures exists c :: IsChild(s, p, c) && Live(s.procs[c].state) {
        ChildOfSleeper(s, p);
      }
      forall pid ensures s.reaped[pid] <= 1 { assert CountOk(s, pid); }
      forall pid ensures pid in s.exited <==> s.reaped[pid] == 1 || exists p :: IsZombie(s, p, pid) {
        Counted(s, pid);
      }
    }
  }

  lemma {:induction false} ChildOfSleeper(s: Table, p: int)
    requires Kin(s) && InWait(s, p)
    ensures exists c :: IsChild(s, p, c) && Live(s.procs[c].state)
  {
    assert KidsOk(s, p);
    var c :| IsChild(s, p, c);
    assert FamilyOk(s, c);
    assert IsChild(s, p, c) && Live(s.procs[c].state);
  }

  lemma {:induction false} Counted(s: Table, pid: int)
    requires Pids(s)
    ensures pid in s.exited <==> s.reaped[pid] == 1 || exists p :: IsZombie(s, p, pid)
  {
    assert CountOk(s, pid);
    if p :| IsZombie(s, p, pid) { assert PidOk(s, p); }
  }
}
