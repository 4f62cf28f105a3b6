/**
 The bounded-buffer program: one producer and one consumer share an array of
 `size` slots guarded by two counting semaphores and a mutex.

 Each thread is a program counter over its atomic actions, and a run is an
 arbitrary schedule of the two threads. The theorems quantify over every size,
 every item count and every schedule.
 */
module BoundedBuffer {
  import opened Options

  datatype Thread = Producer | Consumer

  // The five actions of one loop iteration; Done once the loop test fails.
  datatype PC = Wait | Lock | Access | Unlock | Post | Done

  datatype Mutex = Free | HeldBy(owner: Thread)

  datatype Config = Config(size: nat, items: nat)

  // i and j are the loop counters of the producer and of the consumer.
  datatype State = State(
    buf: seq<int>, results: seq<int>, empty: nat, full: nat, mutex: Mutex,
    ppc: PC, i: nat, cpc: PC, j: nat)

  // main() rejects sizes and item counts that are not positive.
  predicate Accepted(c: Config) {
    c.size > 0 && c.items > 0
  }

  // The arrays come from malloc, so their contents are arbitrary.
  ghost predicate Init(c: Config, s: State) {
    && |s.buf| == c.size && |s.results| == c.items
    && s.empty == c.size && s.full == 0 && s.mutex == Free
    && s.ppc == Wait && s.i == 0 && s.cpc == Wait && s.j == 0
  }

  predicate Sized(c: Config, s: State) {
    && Accepted(c) && |s.buf| == c.size && |s.results| == c.items
    && (s.ppc == Access ==> s.i < c.items) && (s.cpc == Access ==> s.j < c.items)
  }

  // One action of a thread; None when it is blocked or has finished.
  function Step(c: Config, s: State, t: Thread): (r: Option<State>)
    requires Sized(c, s)
  {
    match t
    case Producer => (
      match s.ppc
      case Wait => if s.empty > 0 then Some(s.(empty := s.empty - 1, ppc := Lock)) else None
      case Lock => if s.mutex == Free then Some(s.(mutex := HeldBy(Producer), ppc := Access)) else None
      case Access => Some(s.(buf := s.buf[s.i % c.size := s.i], ppc := Unlock))
      case Unlock => Some(s.(mutex := Free, ppc := Post))
      case Post => Some(s.(full := s.full + 1, i := s.i + 1, ppc := if s.i + 1 < c.items then Wait else Done))
      case Done => None
    )
    case Consumer => (
      match s.cpc
      case Wait => if s.full > 0 then Some(s.(full := s.full - 1, cpc := Lock)) else None
      case Lock => if s.mutex == Free then Some(s.(mutex := HeldBy(Consumer), cpc := Access)) else None
      case Access => Some(s.(results := s.results[s.j := s.buf[s.j % c.size]], cpc := Unlock))
      case Unlock => Some(s.(mutex := Free, cpc := Post))
      case Post => Some(s.(empty := s.empty + 1, j := s.j + 1, cpc := if s.j + 1 < c.items then Wait else Done))
      case Done => None
    )
  }

  // ----- The invariant -----

  // Has the thread passed its semaphore wait but not yet its post?
  function InFlight(pc: PC): (n: nat) {
    if pc == Wait || pc == Done then 0 else 1
  }

  // Has the thread touched the shared slot in this iteration?
  function Touched(pc: PC): (n: nat) {
    if pc == Unlock || pc == Post then 1 else 0
  }

  // The program counter fits the loop test.
  predicate AtLoop(pc: PC, k: nat, items: nat) {
    k <= items && (pc == Done <==> k == items)
  }

  // Item k is in its slot.
  predicate InSlot(buf: seq<int>, k: int)
    requires |buf| > 0
  {
    buf[k % |buf|] == k
  }

  ghost predicate Inv(c: Config, s: State) {
    && Sized(c, s)
    && AtLoop(s.ppc, s.i, c.items) && AtLoop(s.cpc, s.j, c.items)
    // The semaphores count exactly the produced-not-consumed and the free slots.
    && s.full == s.i - s.j - InFlight(s.cpc)
    && s.empty == c.size - (s.i + InFlight(s.ppc)) + s.j
    // The mutex is held exactly by the thread inside its critical section.
    && (s.mutex == HeldBy(Producer) <==> s.ppc == Access || s.ppc == Unlock)
    && (s.mutex == HeldBy(Consumer) <==> s.cpc == Access || s.cpc == Unlock)
    // Every item written and not yet given back sits in its slot.
    && (forall k :: s.j <= k < s.i + Touched(s.ppc) ==> InSlot(s.buf, k))
    && (forall k :: 0 <= k < s.j + Touched(s.cpc) ==> s.results[k] == k)
  }

  lemma {:induction false} DistinctSlots(a: int, b: int, n: int)
    requires 0 < n && a <= b < a + n
    ensures a % n == b % n <==> a == b
  {
    var d := b / n - a / n;
    assert b - a == n * d + b % n - a % n;
    assert d >= 1 ==> n * d >= n;
    assert d <= 0 ==> n * d <= 0;
  }

  // Item i goes to a slot that none of the items before it is in.
  lemma {:induction false} Stored(buf: seq<int>, lo: int, i: int)
    requires |buf| > 0 && lo <= i < lo + |buf| && forall k :: lo <= k < i ==> InSlot(buf, k)
    ensures var buf' := buf[i % |buf| := i]; forall k :: lo <= k < i + 1 ==> InSlot(buf', k)
  {
    var buf' := buf[i % |buf| := i];
    forall k | lo <= k < i + 1 ensures InSlot(buf', k) {
      assert k < i ==> InSlot(buf, k);
      DistinctSlots(k, i, |buf|);
    }
  }

  lemma {:induction false} ProduceKeeps(c: Config, s: State)
    requires Inv(c, s) && s.ppc == Access
    ensures Inv(c, Step(c, s, Producer).value)
  {
    Stored(s.buf, s.j, s.i);
  }

  lemma {:induction false} ConsumeKeeps(c: Config, s: State)
    requires Inv(c, s) && s.cpc == Access
    ensures Inv(c, Step(c, s, Consumer).value)
  {
    assert InSlot(s.buf, s.j);
  }

  lemma {:induction false} StepKeepsInv(c: Config, s: State, t: Thread)
    requires Inv(c, s) && Step(c, s, t).Some?
    ensures Inv(c, Step(c, s, t).value)
  {
    if t == Producer && s.ppc == Access {
      ProduceKeeps(c, s);
    } else if t == Consumer && s.cpc == Access {
      ConsumeKeeps(c, s);
    }
  }

  // ----- Runs -----

  // The state after a schedule; None when the schedule runs a thread that cannot move.
  ghost function Run(c: Config, s: State, schedule: seq<Thread>): (r: Option<State>)
    requires Inv(c, s)
    ensures r.Some? ==> Inv(c, r.value)
    decreases |schedule|
  {
    if schedule == [] then Some(s)
    else
      var t := schedule[0];
      var next := Step(c, s, t);
      if next.None? then None
      else
        StepKeepsInv(c, s, t);
        Run(c, next.value, schedule[1..])
  }

  // In every reachable state: slots are conserved, the values handed over are in order,
  // and the mutex excludes.
  lemma Safety(c: Config, s0: State, schedule: seq<Thread>)
    requires Accepted(c) && Init(c, s0)
    ensures Inv(c, s0)
    ensures var r := Run(c, s0, schedule);
            r.Some? ==>
              && r.value.empty + r.value.full + InFlight(r.value.ppc) + InFlight(r.value.cpc) == c.size
              && (forall k :: 0 <= k < r.value.j ==> r.value.results[k] == k)
              && !(r.value.ppc in {Access, Unlock} && r.value.cpc in {Access, Unlock})
  {
    var r := Run(c, s0, schedule);
  }

  ghost predicate Finished(s: State) {
    s.ppc == Done && s.cpc == Done
  }

  // Some thread can move in every reachable state short of completion.
  lemma NoDeadlock(c: Config, s: State)
    requires Inv(c, s) && !Finished(s)
    ensures Step(c, s, Producer).Some? || Step(c, s, Consumer).Some?
  {
    if s.ppc == Wait && s.empty == 0 && s.cpc == Wait {
      assert s.full == c.size;
    }
  }

  // ----- Termination -----

  function Remaining(pc: PC): (n: nat) {
    match pc
    case Wait => 5 case Lock => 4 case Access => 3 case Unlock => 2 case Post => 1 case Done => 0
  }

  // Actions a thread has left to run.
  ghost function Left(pc: PC, k: nat, items: nat): (n: nat)
    requires AtLoop(pc, k, items)
  {
    if pc == Done then 0 else 5 * (items - k - 1) + Remaining(pc)
  }

  ghost function Work(c: Config, s: State): (n: nat)
    requires AtLoop(s.ppc, s.i, c.items) && AtLoop(s.cpc, s.j, c.items)
  {
    Left(s.ppc, s.i, c.items) + Left(s.cpc, s.j, c.items)
  }

  lemma {:induction false} WorkDrops(c: Config, s: State, t: Thread)
    requires Sized(c, s) && AtLoop(s.ppc, s.i, c.items) && AtLoop(s.cpc, s.j, c.items) && Step(c, s, t).Some?
    ensures var s' := Step(c, s, t).value;
            && AtLoop(s'.ppc, s'.i, c.items) && AtLoop(s'.cpc, s'.j, c.items) && Work(c, s') + 1 == Work(c, s)
  {
  }

  lemma StepDoesOne(c: Config, s: State, t: Thread)
    requires Inv(c, s) && Step(c, s, t).Some?
    ensures Inv(c, Step(c, s, t).value) && Work(c, Step(c, s, t).value) + 1 == Work(c, s)
  {
    StepKeepsInv(c, s, t);
    WorkDrops(c, s, t);
  }

  lemma {:induction false} EachActionCounts(c: Config, s: State, schedule: seq<Thread>)
    requires Inv(c, s)
    ensures var r := Run(c, s, schedule); r.Some? ==> Work(c, r.value) + |schedule| == Work(c, s)
    decreases |schedule|
  {
    if schedule != [] && Step(c, s, schedule[0]).Some? {
      StepDoesOne(c, s, schedule[0]);
      EachActionCounts(c, Step(c, s, schedule[0]).value, schedule[1..]);
    }
  }

  // Every run takes at most ten actions per item, a run that has taken that many has finished,
  // and a run that cannot go on has finished with the consumer holding 0, 1, ..., items - 1.
  lemma EveryRunCompletes(c: Config, s0: State, schedule: seq<Thread>)
    requires Accepted(c) && Init(c, s0)
    ensures Inv(c, s0)
    ensures var r := Run(c, s0, schedule);
            r.Some? ==>
              && |schedule| <= 10 * c.items
              && (|schedule| == 10 * c.items <==> Finished(r.value))
              && (Step(c, r.value, Producer).None? && Step(c, r.value, Consumer).None? ==> Finished(r.value))
              && (Finished(r.value) ==> r.value.results == seq(c.items, k => k))
  {
    EachActionCounts(c, s0, schedule);
    var r := Run(c, s0, schedule);
    if r.Some? && !Finished(r.value) {
      NoDeadlock(c, r.value);
    }
  }
}
