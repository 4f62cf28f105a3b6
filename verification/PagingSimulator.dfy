/**
 The paging simulator: page tables, a frame table, a backing store whose slots are
 never given back, and two replacement queues, a ring ("fifo") and a shifting array
 ("lru").

 The reference definition is the list of page faults: a reference faults unless its
 last fault is among the last N, N being the number of frames. Every table and both
 queues are proved to be functions of that list, in closed form: fault k is loaded
 into frame k % N and, once N faults have happened, evicts fault k - N into storage
 slot k - N.
 */
module PagingSimulator {

  datatype Frame = Frame(pid: int, page: int)

  datatype Entry = Entry(frame: int, inMemory: bool, inStorage: int)

  datatype Algorithm = Fifo | Lru

  const NOBODY := Frame(-1, -1)

  // ----- Reference definition -----

  // How many of n faults have been evicted from the given number of frames.
  function Evicted(n: nat, frames: nat): (e: nat) {
    if n <= frames then 0 else n - frames
  }

  // Index of the last fault on page p, or -1.
  function LastFault(faults: seq<Frame>, p: Frame): (i: int)
    ensures -1 <= i < |faults|
  {
    if faults == [] then -1
    else if faults[|faults| - 1] == p then |faults| - 1
    else LastFault(faults[..|faults| - 1], p)
  }

  lemma {:induction false} LastFaultIsLast(faults: seq<Frame>, p: Frame)
    ensures var i := LastFault(faults, p);
            (i >= 0 ==> faults[i] == p) && forall k :: i < k < |faults| ==> faults[k] != p
  {
    if faults != [] { LastFaultIsLast(faults[..|faults| - 1], p); }
  }

  predicate Resident(faults: seq<Frame>, frames: nat, p: Frame) {
    LastFault(faults, p) >= Evicted(|faults|, frames)
  }

  // One more reference.
  ghost function AfterRef(faults: seq<Frame>, frames: nat, p: Frame): (f: seq<Frame>) {
    if Resident(faults, frames, p) then faults else faults + [p]
  }

  // The faults the first i references of a string cause.
  ghost function Faults(refs: seq<Frame>, i: nat, frames: nat): (f: seq<Frame>)
    requires i <= |refs|
  {
    if i == 0 then [] else AfterRef(Faults(refs, i - 1, frames), frames, refs[i - 1])
  }

  predicate Within(p: Frame, procs: nat, pages: nat) {
    0 <= p.pid < procs && 0 <= p.page < pages
  }

  // How many entries of a fault list were resident when they were recorded; a true one has none.
  ghost function Hits(faults: seq<Frame>, frames: nat): (h: nat) {
    if faults == [] then 0
    else
      var before := faults[..|faults| - 1];
      Hits(before, frames) + if Resident(before, frames, faults[|faults| - 1]) then 1 else 0
  }

  ghost predicate History(faults: seq<Frame>, frames: nat, procs: nat, pages: nat) {
    Hits(faults, frames) == 0 && forall k :: 0 <= k < |faults| ==> Within(faults[k], procs, pages)
  }

  // So a page is at most once among the last N faults.
  lemma {:induction false} ResidentOnce(faults: seq<Frame>, frames: nat, k: nat)
    requires Hits(faults, frames) == 0 && Evicted(|faults|, frames) <= k < |faults|
    ensures LastFault(faults, faults[k]) == k
  {
    var before := faults[..|faults| - 1];
    if k < |faults| - 1 {
      ResidentOnce(before, frames, k);
      assert Resident(before, frames, faults[k]);
    }
  }

  // ----- The tables as functions of the faults -----

  // k modulo n, by repeated subtraction.
  ghost function Slot(k: nat, n: nat): (s: nat)
    requires n > 0
    ensures s < n
    decreases k
  {
    if k < n then k else Slot(k - n, n)
  }

  // The last of `total` faults that went to frame f.
  ghost function LastLoad(total: nat, n: nat, f: nat): (k: nat)
    requires f < n && f < total
    ensures k < total
    decreases total
  {
    if f + n >= total then f else n + LastLoad(total - n, n, f)
  }

  ghost function MemoryOf(faults: seq<Frame>, n: nat): (m: seq<Frame>) {
    seq(n, f requires 0 <= f < n => if f < |faults| then faults[LastLoad(|faults|, n, f)] else NOBODY)
  }

  ghost function StorageOf(faults: seq<Frame>, n: nat, slots: nat): (s: seq<Frame>) {
    var gone := Evicted(|faults|, n);
    seq(slots, k requires 0 <= k < slots => if k < gone then faults[k] else NOBODY)
  }

  ghost function EntryOf(faults: seq<Frame>, n: nat, p: Frame): (e: Entry)
    requires n > 0
  {
    var k := LastFault(faults, p);
    if k >= Evicted(|faults|, n) then Entry(Slot(k, n), true, -1) else Entry(-1, false, k)
  }

  ghost function TablesOf(faults: seq<Frame>, n: nat, procs: nat, pages: nat): (t: seq<seq<Entry>>)
    requires n > 0
  {
    seq(procs, i requires 0 <= i < procs =>
      seq(pages, j requires 0 <= j < pages => EntryOf(faults, n, Frame(i, j))))
  }

  datatype Tables = Tables(memory: seq<Frame>, storage: seq<Frame>, processes: seq<seq<Entry>>)

  ghost function AllTables(faults: seq<Frame>, n: nat, slots: nat, procs: nat, pages: nat): (t: Tables)
    requires n > 0
  {
    Tables(MemoryOf(faults, n), StorageOf(faults, n, slots), TablesOf(faults, n, procs, pages))
  }

  // ----- Arithmetic of frame numbers -----

  lemma {:induction false} SlotIsMod(k: nat, n: nat)
    requires n > 0
    ensures Slot(k, n) == k % n
    decreases k
  {
    if k >= n {
      SlotIsMod(k - n, n);
      ModDrop(k, n);
    }
  }

  lemma {:induction false} ModDrop(k: int, n: int)
    requires 0 < n <= k
    ensures (k - n) % n == k % n
  {
    var d := k / n - (k - n) / n - 1;
    assert n * d == (k - n) % n - k % n;
    assert d >= 1 ==> n * d >= n;
    assert d <= -1 ==> n * d <= -n;
  }

  lemma {:induction false} SlotSucc(a: nat, n: nat)
    requires n > 0
    ensures Slot(a + 1, n) == if Slot(a, n) + 1 == n then 0 else Slot(a, n) + 1
    decreases a
  {
    if a >= n { SlotSucc(a - n, n); }
  }

  // Fault `total` goes to frame Slot(total), and no other frame's last load changes.
  lemma {:induction false} LastLoadNext(total: nat, n: nat, f: nat)
    requires n > 0 && f < n && f <= total
    ensures LastLoad(total + 1, n, f) == if f == Slot(total, n) then total else LastLoad(total, n, f)
    ensures f == total ==> f == Slot(total, n)
    decreases total
  {
    if total >= n && f + n <= total { LastLoadNext(total - n, n, f); }
  }

  // ----- What one more fault does to each table -----

  lemma {:induction false} MemoryNext(faults: seq<Frame>, p: Frame, n: nat)
    requires n > 0
    ensures MemoryOf(faults + [p], n) == MemoryOf(faults, n)[Slot(|faults|, n) := p]
  {
    var l, r := MemoryOf(faults + [p], n), MemoryOf(faults, n)[Slot(|faults|, n) := p];
    forall f | 0 <= f < n ensures l[f] == r[f] {
      if f <= |faults| { LastLoadNext(|faults|, n, f); } else { SlotSmall(|faults|, n); }
    }
  }

  lemma {:induction false} SlotSmall(k: nat, n: nat)
    requires k < n
    ensures Slot(k, n) == k
  {
  }

  lemma {:induction false} StorageNext(faults: seq<Frame>, p: Frame, n: nat, slots: nat)
    requires 0 < n <= |faults| < n + slots
    ensures StorageOf(faults + [p], n, slots) == StorageOf(faults, n, slots)[|faults| - n := faults[|faults| - n]]
  {
    var l, r := StorageOf(faults + [p], n, slots), StorageOf(faults, n, slots)[|faults| - n := faults[|faults| - n]];
    forall k | 0 <= k < slots ensures l[k] == r[k] {
    }
  }

  lemma {:induction false} StorageUnchanged(faults: seq<Frame>, p: Frame, n: nat, slots: nat)
    requires |faults| < n
    ensures StorageOf(faults + [p], n, slots) == StorageOf(faults, n, slots)
  {
    var l, r := StorageOf(faults + [p], n, slots), StorageOf(faults, n, slots);
    forall k | 0 <= k < slots ensures l[k] == r[k] {
    }
  }

  lemma {:induction false} LastFaultNext(faults: seq<Frame>, p: Frame, q: Frame)
    ensures LastFault(faults + [p], q) == if q == p then |faults| else LastFault(faults, q)
  {
    assert (faults + [p])[..|faults|] == faults;
  }

  lemma {:induction false} EntryNext(faults: seq<Frame>, p: Frame, n: nat, procs: nat, pages: nat, q: Frame)
    requires n > 0 && History(faults, n, procs, pages)
    ensures EntryOf(faults + [p], n, q) ==
            if q == p then Entry(Slot(|faults|, n), true, -1)
            else if |faults| >= n && q == faults[|faults| - n] then Entry(-1, false, |faults| - n)
            else EntryOf(faults, n, q)
  {
    LastFaultNext(faults, p, q);
    LastFaultIsLast(faults, q);
    if |faults| >= n { ResidentOnce(faults, n, |faults| - n); }
  }

  lemma {:induction false} TablesNext(faults: seq<Frame>, p: Frame, n: nat, procs: nat, pages: nat, i: int, j: int)
    requires n > 0 && History(faults, n, procs, pages) && 0 <= i < procs && 0 <= j < pages
    ensures TablesOf(faults + [p], n, procs, pages)[i][j] ==
            if Frame(i, j) == p then Entry(Slot(|faults|, n), true, -1)
            else if |faults| >= n && Frame(i, j) == faults[|faults| - n] then Entry(-1, false, |faults| - n)
            else TablesOf(faults, n, procs, pages)[i][j]
  {
    EntryNext(faults, p, n, procs, pages, Frame(i, j));
  }

  lemma {:induction false} HistoryNext(faults: seq<Frame>, p: Frame, n: nat, procs: nat, pages: nat)
    requires History(faults, n, procs, pages) && !Resident(faults, n, p) && Within(p, procs, pages)
    ensures History(faults + [p], n, procs, pages)
  {
    assert (faults + [p])[..|faults|] == faults;
  }

  // r is the first free place of t, or -1 if there is none.
  ghost predicate FirstFree(t: seq<Frame>, r: int) {
    && -1 <= r < |t|
    && (r >= 0 ==> t[r].pid == -1)
    && (forall i :: 0 <= i < |t| && (r == -1 || i < r) ==> t[i].pid != -1)
  }

  // Frames and storage slots are handed out in order and never given back.
  lemma {:induction false} FreeFrame(faults: seq<Frame>, n: nat, procs: nat, pages: nat, r: int)
    requires History(faults, n, procs, pages) && FirstFree(MemoryOf(faults, n), r)
    ensures r == if |faults| < n then |faults| else -1
  {
    assert forall f :: 0 <= f < n && f < |faults| ==> MemoryOf(faults, n)[f].pid != -1;
    if |faults| < n { assert MemoryOf(faults, n)[|faults|] == NOBODY; }
  }

  lemma {:induction false} FreeStorage(faults: seq<Frame>, n: nat, slots: nat, procs: nat, pages: nat, r: int)
    requires History(faults, n, procs, pages) && FirstFree(StorageOf(faults, n, slots), r)
    ensures r == if Evicted(|faults|, n) < slots then Evicted(|faults|, n) else -1
  {
    var gone := Evicted(|faults|, n);
    if gone < slots { assert StorageOf(faults, n, slots)[gone] == NOBODY; }
  }

  // Assigning table[pid][page] := e.
  function SetEntry(t: seq<seq<Entry>>, p: Frame, e: Entry): (u: seq<seq<Entry>>)
    requires 0 <= p.pid < |t| && 0 <= p.page < |t[p.pid]|
  {
    t[p.pid := t[p.pid][p.page := e]]
  }

  lemma {:induction false} TablesAfterLoad(faults: seq<Frame>, p: Frame, n: nat, procs: nat, pages: nat)
    requires |faults| < n && History(faults, n, procs, pages) && Within(p, procs, pages)
    ensures TablesOf(faults + [p], n, procs, pages) ==
            SetEntry(TablesOf(faults, n, procs, pages), p, Entry(Slot(|faults|, n), true, -1))
  {
    var t := TablesOf(faults, n, procs, pages);
    var l, r := TablesOf(faults + [p], n, procs, pages), SetEntry(t, p, Entry(Slot(|faults|, n), true, -1));
    forall i | 0 <= i < procs ensures l[i] == r[i] {
      forall j | 0 <= j < pages ensures l[i][j] == r[i][j] {
        TablesNext(faults, p, n, procs, pages, i, j);
      }
    }
  }

  lemma {:induction false} TablesAfterReplace(faults: seq<Frame>, p: Frame, n: nat, procs: nat, pages: nat,
                                              victim: Frame)
    requires |faults| >= n > 0 && History(faults, n, procs, pages) && Within(p, procs, pages)
    requires victim == faults[|faults| - n]
    ensures Within(victim, procs, pages)
    ensures var t := SetEntry(TablesOf(faults, n, procs, pages), victim, Entry(-1, false, |faults| - n));
            TablesOf(faults + [p], n, procs, pages) == SetEntry(t, p, Entry(Slot(|faults|, n), true, -1))
  {
    ResidentOnce(faults, n, |faults| - n);
    var t := SetEntry(TablesOf(faults, n, procs, pages), victim, Entry(-1, false, |faults| - n));
    var l, r := TablesOf(faults + [p], n, procs, pages), SetEntry(t, p, Entry(Slot(|faults|, n), true, -1));
    forall i | 0 <= i < procs ensures l[i] == r[i] {
      forall j | 0 <= j < pages ensures l[i][j] == r[i][j] {
        TablesNext(faults, p, n, procs, pages, i, j);
      }
    }
  }

  // The frame about to be reused holds the fault loaded longest ago.
  lemma {:induction false} OldestFrame(total: nat, n: nat)
    requires total >= n > 0
    ensures Slot(total, n) == Slot(total - n, n)
    ensures LastLoad(total, n, Slot(total, n)) == total - n
    decreases total
  {
    if total - n >= n { OldestFrame(total - n, n); } else { SlotSmall(total - n, n); }
  }

  // The four assignments of a replacement turn the tables of `faults` into those of faults + [p].
  lemma {:induction false} ReplaceTables(faults: seq<Frame>, p: Frame, n: nat, slots: nat, procs: nat, pages: nat)
    requires 0 < n <= |faults| < n + slots && History(faults, n, procs, pages) && Within(p, procs, pages)
    ensures var t, frame, slot := AllTables(faults, n, slots, procs, pages), Slot(|faults|, n), |faults| - n;
            var victim := t.memory[frame];
            && Within(victim, procs, pages)
            && AllTables(faults + [p], n, slots, procs, pages) ==
               Tables(t.memory[frame := p], t.storage[slot := victim],
                      SetEntry(SetEntry(t.processes, victim, Entry(-1, false, slot)), p, Entry(frame, true, -1)))
  {
    OldestFrame(|faults|, n);
    StorageNext(faults, p, n, slots);
    MemoryNext(faults, p, n);
    TablesAfterReplace(faults, p, n, procs, pages, faults[|faults| - n]);
  }

  // So do the two assignments of a load into a free frame.
  lemma {:induction false} LoadTables(faults: seq<Frame>, p: Frame, n: nat, slots: nat, procs: nat, pages: nat)
    requires |faults| < n && History(faults, n, procs, pages) && Within(p, procs, pages)
    ensures var t := AllTables(faults, n, slots, procs, pages);
            AllTables(faults + [p], n, slots, procs, pages) ==
            Tables(t.memory[|faults| := p], t.storage, SetEntry(t.processes, p, Entry(|faults|, true, -1)))
  {
    SlotSmall(|faults|, n);
    StorageUnchanged(faults, p, n, slots);
    MemoryNext(faults, p, n);
    TablesAfterLoad(faults, p, n, procs, pages);
  }

  // The ring after one more fault.
  lemma {:induction false} RingNext(total: nat, n: nat)
    requires n > 0
    ensures Slot(total + 1, n) == if Slot(total, n) + 1 == n then 0 else Slot(total, n) + 1
    ensures total >= n ==>
              Slot(Evicted(total, n), n) == Slot(total, n) && Slot(Evicted(total + 1, n), n) == Slot(total + 1, n)
    ensures total < n ==> Slot(total, n) == total
  {
    SlotSucc(total, n);
    if total >= n {
      OldestFrame(total, n);
      OldestFrame(total + 1, n);
    }
  }

  // ----- The simulator -----

  class Simulator {
    const algorithm: Algorithm
    const numFrames: nat
    const numStorage: nat
    const numProcesses: nat
    const numPages: nat

    var processes: seq<seq<Entry>>
    var memory: seq<Frame>
    var storage: seq<Frame>

    const fifoQueue: array<int>
    var fifoFront: int
    var fifoRear: int

    const lruStack: array<int>
    var lruTop: int

    // The faults so far; everything else is determined by them.
    ghost var faults: seq<Frame>

    predicate InRange(p: Frame) {
      Within(p, numProcesses, numPages)
    }

    ghost predicate TablesValid()
      reads this`faults, this`memory, this`storage, this`processes
    {
      && numFrames > 0 && |faults| <= numFrames + numStorage
      && History(faults, numFrames, numProcesses, numPages)
      && Tables(memory, storage, processes) == AllTables(faults, numFrames, numStorage, numProcesses, numPages)
    }

    ghost predicate FifoValid()
      reads this`faults, this`fifoFront, this`fifoRear, fifoQueue
    {
      && numFrames > 0 && fifoQueue.Length == numFrames
      && fifoFront == Slot(Evicted(|faults|, numFrames), numFrames) && fifoRear == Slot(|faults|, numFrames)
      && (forall f :: 0 <= f < numFrames && f < |faults| ==> fifoQueue[f] == f)
    }

    ghost predicate LruValid()
      reads this`faults, this`lruTop, lruStack
    {
      && numFrames > 0 && lruStack.Length == numFrames
      && lruTop == |faults| - Evicted(|faults|, numFrames) - 1
      && (forall i :: 0 <= i <= lruTop ==> lruStack[i] == Slot(Evicted(|faults|, numFrames) + i, numFrames))
    }

    ghost predicate Valid()
      reads this, fifoQueue, lruStack
    {
      TablesValid() && fifoQueue != lruStack && if algorithm == Fifo then FifoValid() else LruValid()
    }

    constructor (algorithm: Algorithm, numFrames: nat, numStorage: nat, numProcesses: nat, numPages: nat)
      requires numFrames > 0
      ensures Valid() && faults == [] && fresh(fifoQueue) && fresh(lruStack)
      ensures this.algorithm == algorithm && this.numFrames == numFrames && this.numStorage == numStorage
      ensures this.numProcesses == numProcesses && this.numPages == numPages
    {
      this.algorithm := algorithm;
      this.numFrames, this.numStorage := numFrames, numStorage;
      this.numProcesses, this.numPages := numProcesses, numPages;
      memory := seq(numFrames, _ => NOBODY);
      storage := seq(numStorage, _ => NOBODY);
      processes := seq(numProcesses, _ => seq(numPages, _ => Entry(-1, false, -1)));
      fifoQueue := new int[numFrames](_ => -1);
      lruStack := new int[numFrames](_ => -1);
      fifoFront, fifoRear, lruTop := 0, 0, -1;
      faults := [];
      new;
      forall k | 0 <= k < numStorage ensures storage[k] == StorageOf([], numFrames, numStorage)[k] {
      }
      forall i | 0 <= i < numProcesses
        ensures processes[i] == TablesOf([], numFrames, numProcesses, numPages)[i]
      {
      }
      assert processes == TablesOf([], numFrames, numProcesses, numPages);
    }

    // Frames and resident page-table entries agree one to one, and a page that was evicted
    // is recorded in a storage slot that holds it.
    lemma {:induction false} TablesAgree(f: nat, p: Frame)
      requires TablesValid() && InRange(p) && f < numFrames
      ensures memory[f] == p <==> processes[p.pid][p.page].inMemory && processes[p.pid][p.page].frame == f
      ensures var k := processes[p.pid][p.page].inStorage;
              k != -1 ==> 0 <= k < numStorage && storage[k] == p
    {
      LastFaultIsLast(faults, p);
      if f < |faults| {
        LoadedInto(|faults|, numFrames, f);
        ResidentOnce(faults, numFrames, LastLoad(|faults|, numFrames, f));
        var k := LastFault(faults, p);
        if k >= Evicted(|faults|, numFrames) {
          LastInto(|faults|, numFrames, k);
        }
      } else {
        var k := LastFault(faults, p);
        if k >= 0 { SlotSmall(k, numFrames); }
      }
    }

    method FindFreeFrame() returns (r: int)
      requires |memory| == numFrames
      ensures FirstFree(memory, r)
    {
      for i := 0 to numFrames
        invariant forall k :: 0 <= k < i ==> memory[k].pid != -1
      {
        if memory[i].pid == -1 { return i; }
      }
      return -1;
    }

    method FindFreeStorage() returns (r: int)
      requires |storage| == numStorage
      ensures FirstFree(storage, r)
    {
      for i := 0 to numStorage
        invariant forall k :: 0 <= k < i ==> storage[k].pid != -1
      {
        if storage[i].pid == -1 { return i; }
      }
      return -1;
    }

    // Evict the page in the given frame and load p there: the part the two replacement
    // functions share. False when the backing store is full.
    method Replace(frame: nat, p: Frame) returns (ok: bool)
      requires TablesValid() && InRange(p) && !Resident(faults, numFrames, p)
      requires |faults| >= numFrames && frame == Slot(|faults|, numFrames)
      modifies this`processes, this`memory, this`storage, this`faults
      ensures ok <==> old(|faults|) < numFrames + numStorage
      ensures ok ==> TablesValid() && faults == old(faults) + [p]
    {
      var slot := FindFreeStorage();
      FreeStorage(faults, numFrames, numStorage, numProcesses, numPages, slot);
      if slot == -1 { return false; }
      ReplaceTables(faults, p, numFrames, numStorage, numProcesses, numPages);
      var victim := memory[frame];
      var tables := SetEntry(processes, victim, Entry(-1, false, slot));
      tables := SetEntry(tables, p, Entry(frame, true, -1));
      HistoryNext(faults, p, numFrames, numProcesses, numPages);
      storage, memory, processes, faults := storage[slot := victim], memory[frame := p], tables, faults + [p];
      return true;
    }

    // Step a ring index.
    function Advance(i: int): (r: int)
      requires 0 <= i < numFrames
      ensures r == if i + 1 == numFrames then 0 else i + 1
    {
      (i + 1) % numFrames
    }

    method FifoReplace(p: Frame) returns (ok: bool)
      requires TablesValid() && FifoValid() && InRange(p)
      requires |faults| >= numFrames && !Resident(faults, numFrames, p)
      modifies this, fifoQueue
      ensures ok <==> old(|faults|) < numFrames + numStorage
      ensures ok ==> TablesValid() && FifoValid() && faults == old(faults) + [p]
    {
      RingNext(|faults|, numFrames);
      var frame := fifoQueue[fifoFront];
      fifoFront := Advance(fifoFront);
      ok := Replace(frame, p);
      if !ok { return; }
      fifoQueue[fifoRear] := frame;
      fifoRear := Advance(fifoRear);
    }

    // Take the bottom of the stack and move every other element down.
    method PopLru() returns (frame: int)
      requires 0 <= lruTop < lruStack.Length
      modifies this`lruTop, lruStack
      ensures lruTop == old(lruTop) - 1
      ensures frame == old(lruStack[0]) && forall k :: 0 <= k <= lruTop ==> lruStack[k] == old(lruStack[k + 1])
    {
      frame := lruStack[0];
      var i := 1;
      while i <= lruTop
        modifies lruStack
        invariant 1 <= i <= lruTop + 1
        invariant forall k :: 0 <= k < i - 1 ==> lruStack[k] == old(lruStack[k + 1])
        invariant forall k :: i <= k <= lruTop ==> lruStack[k] == old(lruStack[k])
      {
        lruStack[i - 1] := lruStack[i];
        i := i + 1;
      }
      lruTop := lruTop - 1;
    }

    method LruReplace(p: Frame) returns (ok: bool)
      requires TablesValid() && LruValid() && InRange(p)
      requires |faults| >= numFrames && !Resident(faults, numFrames, p)
      modifies this, lruStack
      ensures ok <==> old(|faults|) < numFrames + numStorage
      ensures ok ==> TablesValid() && LruValid() && faults == old(faults) + [p]
    {
      RingNext(|faults|, numFrames);
      var frame := PopLru();
      ok := Replace(frame, p);
      if !ok { return; }
      PushLru(frame);
    }

    // lru_stack[++lru_top] = frame
    method PushLru(frame: int)
      requires -1 <= lruTop < lruStack.Length - 1
      modifies this`lruTop, lruStack
      ensures lruTop == old(lruTop) + 1
      ensures lruStack[lruTop] == frame && forall k :: 0 <= k < lruTop ==> lruStack[k] == old(lruStack[k])
    {
      lruTop := lruTop + 1;
      lruStack[lruTop] := frame;
    }

    // Load a page into a free frame and queue the frame.
    method Load(free: nat, p: Frame)
      requires Valid() && InRange(p) && !Resident(faults, numFrames, p)
      requires free == |faults| < numFrames
      modifies this, fifoQueue, lruStack
      ensures Valid() && faults == old(faults) + [p]
    {
      LoadTables(faults, p, numFrames, numStorage, numProcesses, numPages);
      HistoryNext(faults, p, numFrames, numProcesses, numPages);
      RingNext(free, numFrames);
      memory := memory[free := p];
      processes := SetEntry(processes, p, Entry(free, true, -1));
      faults := faults + [p];
      if algorithm == Fifo {
        fifoQueue[fifoRear] := free;
        fifoRear := Advance(fifoRear);
      } else {
        PushLru(free);
      }
    }

    // One reference. False when the simulator exits because the backing store is full.
    method AllocatePage(p: Frame) returns (ok: bool)
      requires Valid() && InRange(p)
      modifies this, fifoQueue, lruStack
      ensures ok <==> |AfterRef(old(faults), numFrames, p)| <= numFrames + numStorage
      ensures ok ==> Valid() && faults == AfterRef(old(faults), numFrames, p)
    {
      if processes[p.pid][p.page].inMemory { return true; }
      var free := FindFreeFrame();
      FreeFrame(faults, numFrames, numProcesses, numPages, free);
      if free != -1 {
        Load(free, p);
        return true;
      }
      if algorithm == Fifo {
        ok := FifoReplace(p);
      } else {
        ok := LruReplace(p);
      }
    }

    // The whole run over a reference string; the simulator stops early exactly at the first
    // fault for which the backing store has no slot.
    method Simulate(refs: seq<Frame>) returns (done: nat)
      requires Valid() && faults == []
      requires forall k :: 0 <= k < |refs| ==> InRange(refs[k])
      modifies this, fifoQueue, lruStack
      ensures done <= |refs|
      ensures done == |refs| ==> Valid() && faults == Faults(refs, |refs|, numFrames)
      ensures done < |refs| ==>
                |Faults(refs, done, numFrames)| == numFrames + numStorage < |Faults(refs, done + 1, numFrames)|
    {
      done := 0;
      while done < |refs|
        invariant 0 <= done <= |refs|
        invariant Valid() && faults == Faults(refs, done, numFrames)
      {
        var ok := AllocatePage(refs[done]);
        if !ok { return; }
        done := done + 1;
      }
    }
  }

  lemma {:induction false} LoadedInto(total: nat, n: nat, f: nat)
    requires f < n && f < total
    ensures var k := LastLoad(total, n, f); Slot(k, n) == f && k >= Evicted(total, n)
    decreases total
  {
    if f + n < total { LoadedInto(total - n, n, f); }
  }

  lemma {:induction false} LastInto(total: nat, n: nat, k: nat)
    requires n > 0 && Evicted(total, n) <= k < total
    ensures Slot(k, n) < total && LastLoad(total, n, Slot(k, n)) == k
    decreases total
  {
    if total > n && k >= n {
      LastInto(total - n, n, k - n);
    } else {
      SlotSmall(k, n);
    }
  }

  // The ring and the shifting array always name the same victim: runs of the two algorithms that
  // have seen the same faults agree on every table and on the frame they would evict next, which
  // is the frame that was loaded longest ago.
  lemma {:induction false} SameVictims(a: Simulator, b: Simulator)
    requires a.Valid() && b.Valid() && a.algorithm == Fifo && b.algorithm == Lru && a.faults == b.faults
    requires a.numFrames == b.numFrames && a.numStorage == b.numStorage
    requires a.numProcesses == b.numProcesses && a.numPages == b.numPages
    ensures a.memory == b.memory && a.storage == b.storage && a.processes == b.processes
    ensures |a.faults| >= a.numFrames ==>
              && a.fifoQueue[a.fifoFront] == b.lruStack[0]
              && a.memory[b.lruStack[0]] == a.faults[|a.faults| - a.numFrames]
  {
    if |a.faults| >= a.numFrames {
      OldestFrame(|a.faults|, a.numFrames);
    }
  }

  // Load order is not recency: a page that was just referenced again is evicted, and one that was
  // not is kept.
  lemma {:induction false} NotLeastRecentlyUsed(a: Frame, b: Frame, c: Frame)
    requires a != b && b != c && a != c
    ensures var refs := [a, b, a, c];
            && Resident(Faults(refs, 3, 2), 2, a) && !Resident(Faults(refs, 4, 2), 2, a)
            && Resident(Faults(refs, 4, 2), 2, b) && Resident(Faults(refs, 4, 2), 2, c)
  {
    var refs := [a, b, a, c];
    assert Faults(refs, 1, 2) == [a];
    LastFaultNext([a], b, b);
    LastFaultNext([a], b, a);
    assert Faults(refs, 2, 2) == [a] + [b];
    assert Faults(refs, 3, 2) == [a] + [b];
    LastFaultNext([a] + [b], c, a);
    LastFaultNext([a] + [b], c, b);
    LastFaultNext([a] + [b], c, c);
    LastFaultNext([a], b, c);
    assert Faults(refs, 4, 2) == [a] + [b] + [c];
  }

  // ----- When load order is recency -----

  // Index of the last of the first i references to page p, or -1.
  ghost function LastRef(refs: seq<Frame>, i: nat, p: Frame): (t: int)
    requires i <= |refs|
    ensures -1 <= t < i
  {
    if i == 0 then -1 else if refs[i - 1] == p then i - 1 else LastRef(refs, i - 1, p)
  }

  // The reference that caused fault k.
  ghost function LoadedAt(refs: seq<Frame>, i: nat, n: nat, k: nat): (t: nat)
    requires i <= |refs| && k < |Faults(refs, i, n)|
    ensures t < i
  {
    if k < |Faults(refs, i - 1, n)| then LoadedAt(refs, i - 1, n, k) else i - 1
  }

  // The page that would be evicted next, as SameVictims has it.
  ghost function Victim(refs: seq<Frame>, i: nat, n: nat): (v: Frame)
    requires i <= |refs| && 0 < n <= |Faults(refs, i, n)|
  {
    Faults(refs, i, n)[|Faults(refs, i, n)| - n]
  }

  // No page in memory was last referenced before it.
  ghost predicate EvictsLeastRecent(refs: seq<Frame>, i: nat, n: nat)
    requires i <= |refs| && 0 < n <= |Faults(refs, i, n)|
  {
    forall p :: Resident(Faults(refs, i, n), n, p) ==> LastRef(refs, i, Victim(refs, i, n)) <= LastRef(refs, i, p)
  }

  // Faults are in the order of the references that caused them.
  lemma {:induction false} LoadOrder(refs: seq<Frame>, i: nat, n: nat, k: nat, l: nat)
    requires i <= |refs| && k < l < |Faults(refs, i, n)|
    ensures LoadedAt(refs, i, n, k) < LoadedAt(refs, i, n, l)
  {
    if l < |Faults(refs, i - 1, n)| { LoadOrder(refs, i - 1, n, k, l); }
  }

  lemma {:induction false} RefAfterLoad(refs: seq<Frame>, i: nat, n: nat, k: nat)
    requires i <= |refs| && k < |Faults(refs, i, n)|
    ensures LoadedAt(refs, i, n, k) <= LastRef(refs, i, Faults(refs, i, n)[k])
  {
    if k < |Faults(refs, i - 1, n)| { RefAfterLoad(refs, i - 1, n, k); }
  }

  // The page of fault k, which was in memory at time t, has been referenced since.
  ghost predicate UsedSince(refs: seq<Frame>, i: nat, n: nat, k: nat, t: int)
    requires i <= |refs| && k < |Faults(refs, i, n)|
  {
    LoadedAt(refs, i, n, k) < t ==> LastRef(refs, i, Faults(refs, i, n)[k]) >= t
  }

  ghost predicate AllUsedSince(refs: seq<Frame>, i: nat, n: nat, t: int)
    requires i <= |refs| && n <= |Faults(refs, i, n)|
  {
    forall k :: |Faults(refs, i, n)| - n <= k < |Faults(refs, i, n)| ==> UsedSince(refs, i, n, k, t)
  }

  // The page loaded longest ago is the least recently used one exactly when every page that was loaded
  // before its last reference has been referenced since.
  lemma {:induction false} VictimExactly(refs: seq<Frame>, i: nat, n: nat)
    requires i <= |refs| && 0 < n <= |Faults(refs, i, n)|
    ensures EvictsLeastRecent(refs, i, n) <==> AllUsedSince(refs, i, n, LastRef(refs, i, Victim(refs, i, n)))
  {
    var faults, t := Faults(refs, i, n), LastRef(refs, i, Victim(refs, i, n));
    if AllUsedSince(refs, i, n, t) {
      forall p | Resident(faults, n, p) ensures t <= LastRef(refs, i, p) {
        var k := LastFault(faults, p);
        LastFaultIsLast(faults, p);
        RefAfterLoad(refs, i, n, k);
        assert UsedSince(refs, i, n, k, t);
      }
    }
    if EvictsLeastRecent(refs, i, n) {
      forall k | |faults| - n <= k < |faults| ensures UsedSince(refs, i, n, k, t) {
        LastFaultIsLast(faults, faults[k]);
        assert Resident(faults, n, faults[k]);
      }
    }
  }

  // So it is the least recently used one if it was not referenced since it was loaded.
  lemma {:induction false} UnusedVictim(refs: seq<Frame>, i: nat, n: nat)
    requires i <= |refs| && 0 < n <= |Faults(refs, i, n)|
    requires LastRef(refs, i, Victim(refs, i, n)) == LoadedAt(refs, i, n, |Faults(refs, i, n)| - n)
    ensures EvictsLeastRecent(refs, i, n)
  {
    var faults, t := Faults(refs, i, n), LastRef(refs, i, Victim(refs, i, n));
    forall k | |faults| - n <= k < |faults| ensures UsedSince(refs, i, n, k, t) {
      if k > |faults| - n { LoadOrder(refs, i, n, |faults| - n, k); }
    }
    VictimExactly(refs, i, n);
  }

  // n different pages, and the first of them again.
  ghost function FirstAgain(n: nat): (refs: seq<Frame>) {
    seq(n, k => Frame(0, k)) + [Frame(0, 0)]
  }

  lemma {:induction false} NewPageFaults(faults: seq<Frame>, n: nat, p: Frame)
    requires |faults| < n && forall k :: 0 <= k < |faults| ==> faults[k] != p
    ensures AfterRef(faults, n, p) == faults + [p]
  {
    LastFaultIsLast(faults, p);
  }

  lemma {:induction false} FirstFaults(n: nat, i: nat)
    requires i <= n
    ensures var f := Faults(FirstAgain(n), i, n); |f| == i && forall k :: 0 <= k < i ==> f[k] == Frame(0, k)
  {
    if i > 0 {
      FirstFaults(n, i - 1);
      NewPageFaults(Faults(FirstAgain(n), i - 1, n), n, Frame(0, i - 1));
    }
  }

  lemma {:induction false} SeenOnce(n: nat, i: nat)
    requires 2 <= i <= n
    ensures LastRef(FirstAgain(n), i, Frame(0, 1)) == 1
  {
    if i > 2 { SeenOnce(n, i - 1); }
  }

  ghost predicate EvictsLeastRecentIfFull(refs: seq<Frame>, i: nat, n: nat)
    requires n > 0
  {
    i <= |refs| && n <= |Faults(refs, i, n)| ==> EvictsLeastRecent(refs, i, n)
  }

  // The queue called lru evicts the least recently used page on every reference string exactly when
  // there is one frame only.
  lemma {:induction false} LeastRecentExactly(n: nat)
    requires n > 0
    ensures (forall refs: seq<Frame>, i: nat :: EvictsLeastRecentIfFull(refs, i, n)) <==> n == 1
  {
    if n == 1 {
      forall refs: seq<Frame>, i: nat ensures EvictsLeastRecentIfFull(refs, i, n) {
        if i <= |refs| && n <= |Faults(refs, i, n)| { OnlyPage(refs, i); }
      }
    } else {
      SecondPageIsOlder(n);
      assert !EvictsLeastRecentIfFull(FirstAgain(n), n + 1, n);
    }
  }

  lemma {:induction false} OnlyPage(refs: seq<Frame>, i: nat)
    requires i <= |refs| && 1 <= |Faults(refs, i, 1)|
    ensures EvictsLeastRecent(refs, i, 1)
  {
    var faults := Faults(refs, i, 1);
    forall p | Resident(faults, 1, p) ensures p == Victim(refs, i, 1) { LastFaultIsLast(faults, p); }
  }

  lemma {:induction false} SecondPageIsOlder(n: nat)
    requires n >= 2
    ensures n == |Faults(FirstAgain(n), n + 1, n)| && !EvictsLeastRecent(FirstAgain(n), n + 1, n)
  {
    var refs := FirstAgain(n);
    FirstFaults(n, n);
    var faults := Faults(refs, n, n);
    LastFaultIsLast(faults, Frame(0, 0));
    LastFaultIsLast(faults, Frame(0, 1));
    assert faults[0] == Frame(0, 0) && faults[1] == Frame(0, 1);
    assert Faults(refs, n + 1, n) == faults;
    SeenOnce(n, n);
    assert Resident(faults, n, Frame(0, 1)) && LastRef(refs, n + 1, Frame(0, 1)) == 1;
    assert Victim(refs, n + 1, n) == Frame(0, 0) && LastRef(refs, n + 1, Frame(0, 0)) == n;
  }

  // ----- Two runs -----

  // Where a run stops that may have `room` faults.
  ghost predicate StopsAt(refs: seq<Frame>, n: nat, room: nat, done: nat) {
    && done <= |refs| && |Faults(refs, done, n)| <= room
    && (done < |refs| ==> room < |Faults(refs, done + 1, n)|)
  }

  lemma {:induction false} MoreFaults(refs: seq<Frame>, i: nat, j: nat, n: nat)
    requires i <= j <= |refs|
    ensures |Faults(refs, i, n)| <= |Faults(refs, j, n)|
    decreases j
  {
    if i < j { MoreFaults(refs, i, j - 1, n); }
  }

  lemma {:induction false} SameStop(refs: seq<Frame>, n: nat, room: nat, i: nat, j: nat)
    requires StopsAt(refs, n, room, i) && StopsAt(refs, n, room, j)
    ensures i == j
  {
    if i < j { MoreFaults(refs, i + 1, j, n); } else if j < i { MoreFaults(refs, j + 1, i, n); }
  }

  // main()
  ghost predicate AllWithin(refs: seq<Frame>, numProcesses: nat, numPages: nat) {
    forall k :: 0 <= k < |refs| ==> Within(refs[k], numProcesses, numPages)
  }

  method NewRun(algorithm: Algorithm, refs: seq<Frame>, numFrames: nat, numStorage: nat, numProcesses: nat,
                numPages: nat)
    returns (s: Simulator, done: nat)
    requires numFrames > 0 && AllWithin(refs, numProcesses, numPages)
    ensures s.algorithm == algorithm && s.numFrames == numFrames && s.numStorage == numStorage
    ensures s.numProcesses == numProcesses && s.numPages == numPages
    ensures StopsAt(refs, numFrames, numFrames + numStorage, done)
    ensures done == |refs| ==> s.Valid() && s.faults == Faults(refs, |refs|, numFrames)
  {
    s := new Simulator(algorithm, numFrames, numStorage, numProcesses, numPages);
    done := s.Simulate(refs);
  }

  method NewRuns(refs: seq<Frame>, numFrames: nat, numStorage: nat, numProcesses: nat, numPages: nat)
    returns (a: Simulator, b: Simulator, doneA: nat, doneB: nat)
    requires numFrames > 0 && AllWithin(refs, numProcesses, numPages)
    ensures a.algorithm == Fifo && b.algorithm == Lru && a.numFrames == b.numFrames == numFrames
    ensures a.numStorage == b.numStorage && a.numProcesses == b.numProcesses && a.numPages == b.numPages
    ensures doneA == doneB && StopsAt(refs, numFrames, numFrames + numStorage, doneA)
    ensures doneA == |refs| ==> a.Valid() && b.Valid() && a.faults == b.faults == Faults(refs, |refs|, numFrames)
  {
    a, doneA := NewRun(Fifo, refs, numFrames, numStorage, numProcesses, numPages);
    b, doneB := NewRun(Lru, refs, numFrames, numStorage, numProcesses, numPages);
    SameStop(refs, numFrames, numFrames + numStorage, doneA, doneB);
  }

  // Runs of the two algorithms on the same references stop at the same one, and agree on every table
  // and on the next victim.
  method RunBoth(refs: seq<Frame>, numFrames: nat, numStorage: nat, numProcesses: nat, numPages: nat)
    returns (a: Simulator, b: Simulator, doneA: nat, doneB: nat)
    requires numFrames > 0 && AllWithin(refs, numProcesses, numPages)
    ensures a.algorithm == Fifo && b.algorithm == Lru && a.numFrames == b.numFrames == numFrames
    ensures doneA == doneB && StopsAt(refs, numFrames, numFrames + numStorage, doneA)
    ensures doneA == |refs| ==>
              && a.Valid() && b.Valid() && a.faults == b.faults == Faults(refs, |refs|, numFrames)
              && a.memory == b.memory && a.storage == b.storage && a.processes == b.processes
              && (numFrames <= |a.faults| ==>
                    && a.fifoQueue[a.fifoFront] == b.lruStack[0]
                    && a.memory[b.lruStack[0]] == Victim(refs, |refs|, numFrames))
  {
    a, b, doneA, doneB := NewRuns(refs, numFrames, numStorage, numProcesses, numPages);
    if doneA == |refs| { SameVictims(a, b); }
  }
}
