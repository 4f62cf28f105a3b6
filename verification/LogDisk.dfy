/**
 The redo log on disk: what a commit writes, what recovery writes, and what a crash
 after any number of those writes leaves behind.

 A disk is a sequence of blocks and a block write is atomic. A crash is a prefix of a
 list of writes.
 */
module LogDisk {
  import opened Params

  const WORDS: nat := 128  // 32-bit words in a block

  type Block = b: seq<int> | |b| == WORDS witness seq(WORDS, _ => 0)

  type Disk = seq<Block>

  datatype Write = Write(bn: int, data: Block)

  // The log as the superblock describes it: `size` blocks from `start` on, the first of which is
  // the header.
  datatype Area = Area(start: int, size: int)

  predicate InLog(log: Area, b: int) {
    log.start <= b < log.start + log.size
  }

  predicate Fits(log: Area, d: Disk) {
    0 <= log.start && 0 < log.size && log.start + log.size <= |d|
  }

  // ----- Writes -----

  // The disk after the first k writes of ws.
  ghost function Apply(d: Disk, ws: seq<Write>, k: nat): (r: Disk)
    requires k <= |ws|
    requires forall i :: 0 <= i < |ws| ==> 0 <= ws[i].bn < |d|
    ensures |r| == |d|
    decreases k
  {
    if k == 0 then d else Apply(d, ws, k - 1)[ws[k - 1].bn := ws[k - 1].data]
  }

  // ----- The header block -----

  // Word 0 counts the entries; the words behind it name the home blocks.
  function Count(h: Block): (n: int) {
    h[0]
  }

  ghost predicate Lists(h: Block, txn: seq<Write>) {
    |txn| <= LOGSIZE && Count(h) == |txn| && forall i :: 0 <= i < |txn| ==> h[1 + i] == txn[i].bn
  }

  // The header block write_head() produces from its previous contents, i names into its loop.
  function HeaderFor(h: Block, names: seq<int>, i: nat): (r: Block)
    requires i <= |names| <= LOGSIZE
    ensures forall j :: i < j < WORDS ==> r[j] == h[j]
    ensures r[0] == |names| && forall j :: 0 <= j < i ==> r[1 + j] == names[j]
  {
    if i == 0 then h[0 := |names|] else HeaderFor(h, names, i - 1)[i := names[i - 1]]
  }

  function Header(h: Block, names: seq<int>): (r: Block)
    requires |names| <= LOGSIZE
    ensures r[0] == |names| && forall j :: 0 <= j < |names| ==> r[1 + j] == names[j]
  {
    HeaderFor(h, names, |names|)
  }

  ghost function Names(txn: seq<Write>): (names: seq<int>) {
    seq(|txn|, i requires 0 <= i < |txn| => txn[i].bn)
  }

  lemma {:induction false} HeaderLists(h: Block, txn: seq<Write>)
    requires |txn| <= LOGSIZE
    ensures Lists(Header(h, Names(txn)), txn)
  {
    forall i | 0 <= i < |txn| ensures Header(h, Names(txn))[1 + i] == txn[i].bn {
      assert Names(txn)[i] == txn[i].bn;
    }
  }

  // ----- Transactions -----

  ghost predicate Differ(txn: seq<Write>, i: int, j: int)
    requires 0 <= i < |txn| && 0 <= j < |txn|
  {
    txn[i].bn != txn[j].bn
  }

  // The home blocks of a transaction are distinct, exist and are not log blocks, and the log has room.
  ghost predicate Transaction(log: Area, d: Disk, txn: seq<Write>) {
    && Fits(log, d) && |txn| <= LOGSIZE && |txn| < log.size
    && (forall i :: 0 <= i < |txn| ==> 0 <= txn[i].bn < |d| && !InLog(log, txn[i].bn))
    && (forall i, j :: 0 <= i < j < |txn| ==> Differ(txn, i, j))
  }

  ghost predicate Touches(txn: seq<Write>, b: int) {
    exists i :: 0 <= i < |txn| && txn[i].bn == b
  }

  // The i-th write of commit(): the log, the header, the home blocks, the cleared header.
  ghost function CommitWrite(log: Area, d: Disk, txn: seq<Write>, i: nat): (w: Write)
    requires Fits(log, d) && |txn| <= LOGSIZE && i < 2 * |txn| + 2
    ensures Transaction(log, d, txn) ==> 0 <= w.bn < |d|
  {
    if i < |txn| then Write(log.start + 1 + i, txn[i].data)
    else if i == |txn| then Write(log.start, Header(d[log.start], Names(txn)))
    else if i <= 2 * |txn| then txn[i - |txn| - 1]
    else Write(log.start, Header(Header(d[log.start], Names(txn)), []))
  }

  // The disk after k of them.
  ghost function AfterCommit(log: Area, d: Disk, txn: seq<Write>, k: nat): (r: Disk)
    requires Transaction(log, d, txn) && k <= 2 * |txn| + 2
    ensures |r| == |d|
    decreases k
  {
    if k == 0 then d
    else
      var w := CommitWrite(log, d, txn, k - 1);
      AfterCommit(log, d, txn, k - 1)[w.bn := w.data]
  }

  // The contents a disk has had, the last one last: a crash may leave any of them.
  datatype Trace = Booted(disk: Disk) | Wrote(past: Trace, disk: Disk)

  // A trace followed by the first k writes of a commit.
  ghost function Commits(t: Trace, log: Area, d: Disk, txn: seq<Write>, k: nat): (r: Trace)
    requires Transaction(log, d, txn) && k <= 2 * |txn| + 2
    decreases k
  {
    if k == 0 then t else Wrote(Commits(t, log, d, txn, k - 1), AfterCommit(log, d, txn, k))
  }

  // A trace followed by the first k of the writes ws.
  ghost function Installs(t: Trace, d: Disk, ws: seq<Write>, k: nat): (r: Trace)
    requires k <= |ws| && forall i :: 0 <= i < |ws| ==> 0 <= ws[i].bn < |d|
    decreases k
  {
    if k == 0 then t else Wrote(Installs(t, d, ws, k - 1), Apply(d, ws, k))
  }

  // The header is one that some commit or mkfs wrote.
  ghost predicate Readable(log: Area, d: Disk) {
    && Fits(log, d) && 0 <= Count(d[log.start]) <= LOGSIZE && Count(d[log.start]) < log.size
    && forall i :: 1 <= i <= Count(d[log.start]) ==> 0 <= d[log.start][i] < |d| && !InLog(log, d[log.start][i])
  }

  // The i-th write of recover_from_log().
  ghost function RecoverWrite(log: Area, d: Disk, i: nat): (w: Write)
    requires Readable(log, d) && i <= Count(d[log.start])
    ensures 0 <= w.bn < |d|
  {
    if i < Count(d[log.start]) then Write(d[log.start][1 + i], d[log.start + 1 + i])
    else Write(log.start, Header(d[log.start], []))
  }

  // The disk after k of them.
  ghost function AfterRecovery(log: Area, d: Disk, k: nat): (r: Disk)
    requires Readable(log, d) && k <= Count(d[log.start]) + 1
    ensures |r| == |d|
    decreases k
  {
    if k == 0 then d
    else
      var w := RecoverWrite(log, d, k - 1);
      AfterRecovery(log, d, k - 1)[w.bn := w.data]
  }

  // A trace followed by the first k writes of a recovery.
  ghost function Recovers(t: Trace, log: Area, d: Disk, k: nat): (r: Trace)
    requires Readable(log, d) && k <= Count(d[log.start]) + 1
    decreases k
  {
    if k == 0 then t else Wrote(Recovers(t, log, d, k - 1), AfterRecovery(log, d, k))
  }

  // ----- What a disk means -----

  // Same contents outside the log.
  ghost predicate SameHome(log: Area, d: Disk, e: Disk) {
    |d| == |e| && forall b :: 0 <= b < |d| && !InLog(log, b) ==> d[b] == e[b]
  }

  // Nothing is logged, and the home blocks are those of base.
  ghost predicate Idle(log: Area, d: Disk, base: Disk) {
    Fits(log, d) && Count(d[log.start]) == 0 && SameHome(log, d, base)
  }

  // txn is logged; its home blocks may hold anything, the others are those of base.
  ghost predicate Committed(log: Area, d: Disk, txn: seq<Write>, base: Disk) {
    && Transaction(log, d, txn) && |d| == |base| && |txn| > 0 && Lists(d[log.start], txn)
    && (forall i :: 0 <= i < |txn| ==> d[log.start + 1 + i] == txn[i].data)
    && (forall b :: 0 <= b < |d| && !InLog(log, b) && !Touches(txn, b) ==> d[b] == base[b])
  }

  // ----- Applying a transaction to the home blocks -----

  lemma {:induction false} Installed(log: Area, d: Disk, txn: seq<Write>, k: nat, b: int)
    requires Transaction(log, d, txn) && k <= |txn| && 0 <= b < |d|
    ensures !Touches(txn, b) ==> Apply(d, txn, k)[b] == d[b]
    ensures forall i :: 0 <= i < k && txn[i].bn == b ==> Apply(d, txn, k)[b] == txn[i].data
    decreases k
  {
    if k > 0 {
      Installed(log, d, txn, k - 1, b);
      assert txn[k - 1].bn == b ==> Touches(txn, b);
      forall i | 0 <= i < k - 1 ensures txn[i].bn != txn[k - 1].bn { assert Differ(txn, i, k - 1); }
    }
  }

  // Installing the logged transaction reaches the same home blocks whatever was there before.
  lemma {:induction false} InstallReaches(log: Area, d: Disk, txn: seq<Write>, base: Disk)
    requires Committed(log, d, txn, base)
    ensures SameHome(log, Apply(d, txn, |txn|), Apply(base, txn, |txn|))
  {
    forall b | 0 <= b < |d| && !InLog(log, b)
      ensures Apply(d, txn, |txn|)[b] == Apply(base, txn, |txn|)[b]
    {
      Installed(log, d, txn, |txn|, b);
      Installed(log, base, txn, |txn|, b);
    }
  }

  // A partial install leaves the transaction committed.
  lemma {:induction false} InstallKeeps(log: Area, d: Disk, txn: seq<Write>, base: Disk, k: nat)
    requires Committed(log, d, txn, base) && k <= |txn|
    ensures Committed(log, Apply(d, txn, k), txn, base)
    decreases k
  {
    if k > 0 {
      InstallKeeps(log, d, txn, base, k - 1);
      assert Touches(txn, txn[k - 1].bn);
    }
  }

  // ----- Commit -----

  // Up to the header write the home blocks are the old ones and nothing is logged.
  lemma {:induction false} BeforeHeader(log: Area, d: Disk, base: Disk, txn: seq<Write>, k: nat)
    requires Transaction(log, d, txn) && Idle(log, d, base) && k <= |txn|
    ensures var e := AfterCommit(log, d, txn, k);
            && Idle(log, e, base) && e[log.start] == d[log.start]
            && forall i :: 0 <= i < k ==> e[log.start + 1 + i] == txn[i].data
    decreases k
  {
    if k > 0 { BeforeHeader(log, d, base, txn, k - 1); }
  }

  // The header write commits.
  lemma {:induction false} AtHeader(log: Area, d: Disk, base: Disk, txn: seq<Write>)
    requires Transaction(log, d, txn) && Idle(log, d, base) && |txn| > 0
    ensures Committed(log, AfterCommit(log, d, txn, |txn| + 1), txn, base)
  {
    BeforeHeader(log, d, base, txn, |txn|);
    HeaderLists(d[log.start], txn);
  }

  lemma {:induction false} AfterHeader(log: Area, d: Disk, base: Disk, txn: seq<Write>, k: nat)
    requires Transaction(log, d, txn) && Idle(log, d, base) && |txn| > 0 && k <= |txn|
    ensures AfterCommit(log, d, txn, |txn| + 1 + k) == Apply(AfterCommit(log, d, txn, |txn| + 1), txn, k)
    decreases k
  {
    if k > 0 { AfterHeader(log, d, base, txn, k - 1); }
  }

  lemma {:induction false} AfterInstall(log: Area, d: Disk, base: Disk, txn: seq<Write>)
    requires Transaction(log, d, txn) && Idle(log, d, base) && |txn| > 0
    ensures AfterCommit(log, d, txn, 2 * |txn| + 1) == Apply(AfterCommit(log, d, txn, |txn| + 1), txn, |txn|)
  {
    AfterHeader(log, d, base, txn, |txn|);
    assert |txn| + 1 + |txn| == 2 * |txn| + 1;
  }

  // The states after the header write are those of the installs.
  lemma {:induction false} CommitsInstall(t: Trace, log: Area, d: Disk, base: Disk, txn: seq<Write>, k: nat)
    requires Transaction(log, d, txn) && Idle(log, d, base) && |txn| > 0 && k <= |txn|
    ensures Commits(t, log, d, txn, |txn| + 1 + k) ==
            Installs(Commits(t, log, d, txn, |txn| + 1), AfterCommit(log, d, txn, |txn| + 1), txn, k)
    decreases k
  {
    if k > 0 {
      CommitsInstall(t, log, d, base, txn, k - 1);
      AfterHeader(log, d, base, txn, k);
      assert Commits(t, log, d, txn, |txn| + 1 + k) ==
             Wrote(Commits(t, log, d, txn, |txn| + 1 + (k - 1)), AfterCommit(log, d, txn, |txn| + 1 + k));
    }
  }

  // Clearing the header once the home blocks are installed.
  lemma {:induction false} Cleared(log: Area, d: Disk, txn: seq<Write>, base: Disk, h: Block)
    requires Committed(log, d, txn, base) && Count(h) == 0
    ensures Idle(log, Apply(d, txn, |txn|)[log.start := h], Apply(base, txn, |txn|))
  {
    InstallReaches(log, d, txn, base);
  }

  // A crash k writes after that of the header and before the last one.
  lemma {:induction false} CrashInInstall(log: Area, d: Disk, base: Disk, txn: seq<Write>, k: nat)
    requires Transaction(log, d, txn) && Idle(log, d, base) && |txn| > 0 && k <= |txn|
    ensures Committed(log, AfterCommit(log, d, txn, |txn| + 1 + k), txn, base)
    decreases k
  {
    if k == 0 {
      AtHeader(log, d, base, txn);
    } else {
      CrashInInstall(log, d, base, txn, k - 1);
      assert Touches(txn, txn[k - 1].bn);
    }
  }

  lemma {:induction false} CommitDone(log: Area, d: Disk, base: Disk, txn: seq<Write>)
    requires Transaction(log, d, txn) && Idle(log, d, base) && |txn| > 0
    ensures Idle(log, AfterCommit(log, d, txn, 2 * |txn| + 2), Apply(base, txn, |txn|))
  {
    AtHeader(log, d, base, txn);
    AfterInstall(log, d, base, txn);
    Cleared(log, AfterCommit(log, d, txn, |txn| + 1), txn, base, Header(Header(d[log.start], Names(txn)), []));
  }

  // The home blocks a commit that crashed after k writes is bound to end with.
  ghost function Outcome(base: Disk, txn: seq<Write>, k: nat): (home: Disk)
    requires forall i :: 0 <= i < |txn| ==> 0 <= txn[i].bn < |base|
  {
    if k <= |txn| then base else Apply(base, txn, |txn|)
  }

  // ----- Recovery -----

  // Recovery reads back the transaction that was committed.
  lemma {:induction false} ReadsBack(log: Area, d: Disk, txn: seq<Write>, base: Disk)
    requires Committed(log, d, txn, base)
    ensures Readable(log, d) && Count(d[log.start]) == |txn|
    ensures forall i :: 0 <= i < |txn| ==> RecoverWrite(log, d, i) == txn[i]
  {
    forall i | 1 <= i <= Count(d[log.start]) ensures 0 <= d[log.start][i] < |d| && !InLog(log, d[log.start][i]) {
      assert d[log.start][1 + (i - 1)] == txn[i - 1].bn;
    }
  }

  // A crash after j of the writes of a recovery.
  lemma {:induction false} CrashInRecovery(log: Area, d: Disk, txn: seq<Write>, base: Disk, j: nat)
    requires Committed(log, d, txn, base) && j <= |txn| + 1
    ensures Readable(log, d) && Count(d[log.start]) == |txn|
    ensures j <= |txn| ==> Committed(log, AfterRecovery(log, d, j), txn, base)
    ensures j == |txn| + 1 ==> Idle(log, AfterRecovery(log, d, j), Apply(base, txn, |txn|))
  {
    ReadsBack(log, d, txn, base);
    if j <= |txn| {
      RecoverApplies(log, d, txn, j);
      InstallKeeps(log, d, txn, base, j);
    } else {
      RecoverApplies(log, d, txn, |txn|);
      Cleared(log, d, txn, base, Header(d[log.start], []));
    }
  }

  lemma {:induction false} RecoverIdle(log: Area, d: Disk, base: Disk, j: nat)
    requires Idle(log, d, base) && j <= 1
    ensures Readable(log, d) && Idle(log, AfterRecovery(log, d, j), base)
  {
  }

  // A disk from which recovery can start, and the home blocks it will end with.
  ghost predicate Recoverable(log: Area, d: Disk, home: Disk) {
    || Idle(log, d, home)
    || exists txn: seq<Write>, base: Disk :: Committed(log, d, txn, base) && Apply(base, txn, |txn|) == home
  }

  // One recovery, crashing after j writes or, when j is large enough, completing.
  ghost function Recovery(log: Area, d: Disk, j: nat): (r: Disk)
    requires Readable(log, d)
  {
    AfterRecovery(log, d, if j <= Count(d[log.start]) then j else Count(d[log.start]) + 1)
  }

  lemma {:induction false} RecoveryStep(log: Area, d: Disk, home: Disk, j: nat)
    requires Recoverable(log, d, home)
    ensures Readable(log, d) && Recoverable(log, Recovery(log, d, j), home)
    ensures j > LOGSIZE ==> Idle(log, Recovery(log, d, j), home)
  {
    if Idle(log, d, home) {
      RecoverIdle(log, d, home, if j == 0 then 0 else 1);
    } else {
      var txn: seq<Write>, base: Disk :| Committed(log, d, txn, base) && Apply(base, txn, |txn|) == home;
      CrashInRecovery(log, d, txn, base, if j <= |txn| then j else |txn| + 1);
    }
  }

  lemma {:induction false} RecoverApplies(log: Area, d: Disk, ws: seq<Write>, k: nat)
    requires Readable(log, d) && |ws| == Count(d[log.start]) && k <= |ws|
    requires forall i :: 0 <= i < |ws| ==> 0 <= ws[i].bn < |d| && ws[i] == RecoverWrite(log, d, i)
    ensures AfterRecovery(log, d, k) == Apply(d, ws, k)
    decreases k
  {
    if k > 0 { RecoverApplies(log, d, ws, k - 1); }
  }

  // The installs of a recovery, as a list.
  ghost function RecoverInstalls(log: Area, d: Disk, k: nat): (ws: seq<Write>)
    requires Readable(log, d) && k <= Count(d[log.start])
    ensures |ws| == k && forall i :: 0 <= i < k ==> 0 <= ws[i].bn < |d| && ws[i] == RecoverWrite(log, d, i)
  {
    if k == 0 then [] else RecoverInstalls(log, d, k - 1) + [RecoverWrite(log, d, k - 1)]
  }

  lemma {:induction false} RecoversInstall(t: Trace, log: Area, d: Disk, ws: seq<Write>, k: nat)
    requires Readable(log, d) && |ws| == Count(d[log.start]) && k <= |ws|
    requires forall i :: 0 <= i < |ws| ==> 0 <= ws[i].bn < |d| && ws[i] == RecoverWrite(log, d, i)
    ensures Recovers(t, log, d, k) == Installs(t, d, ws, k)
    decreases k
  {
    if k > 0 {
      RecoversInstall(t, log, d, ws, k - 1);
      RecoverApplies(log, d, ws, k);
    }
  }

  // Every state since t0 is bound to the same home blocks.
  ghost predicate BoundSince(t0: Trace, t: Trace, log: Area, home: Disk) {
    t == t0 || (t.Wrote? && Recoverable(log, t.disk, home) && BoundSince(t0, t.past, log, home))
  }

  lemma {:induction false} BoundGrows(t0: Trace, t: Trace, d: Disk, log: Area, home: Disk)
    requires BoundSince(t0, t, log, home) && Recoverable(log, d, home)
    ensures BoundSince(t0, Wrote(t, d), log, home)
  {
  }

  lemma {:induction false} CrashedRecovery(log: Area, d: Disk, home: Disk, k: nat)
    requires Recoverable(log, d, home) && Readable(log, d) && k <= Count(d[log.start]) + 1
    ensures Recoverable(log, AfterRecovery(log, d, k), home)
  {
    RecoveryStep(log, d, home, k);
  }

  // A crash anywhere in a recovery leaves the disk bound to the same home blocks.
  lemma {:induction false} RecoveryBound(t: Trace, log: Area, d: Disk, home: Disk, k: nat)
    requires Recoverable(log, d, home) && Readable(log, d) && k <= Count(d[log.start]) + 1
    ensures BoundSince(t, Recovers(t, log, d, k), log, home)
    decreases k
  {
    if k > 0 {
      RecoveryBound(t, log, d, home, k - 1);
      CrashedRecovery(log, d, home, k);
      BoundGrows(t, Recovers(t, log, d, k - 1), AfterRecovery(log, d, k), log, home);
    }
  }

  // Clearing the header after the installs completes a recovery.
  lemma {:induction false} RecoveryEnds(log: Area, d: Disk, home: Disk, ws: seq<Write>)
    requires Recoverable(log, d, home) && Readable(log, d) && |ws| == Count(d[log.start])
    requires forall i :: 0 <= i < |ws| ==> 0 <= ws[i].bn < |d| && ws[i] == RecoverWrite(log, d, i)
    ensures var e := Apply(d, ws, |ws|);
            && e[log.start] == d[log.start] && Idle(log, e[log.start := Header(e[log.start], [])], home)
            && e[log.start := Header(e[log.start], [])] == AfterRecovery(log, d, |ws| + 1)
  {
    RecoverApplies(log, d, ws, |ws|);
    StartKept(log, d, |ws|);
    RecoveryStep(log, d, home, LOGSIZE + 1);
  }

  // What recover_from_log() ends with, and the states it goes through.
  lemma {:induction false} RecoveryDone(t: Trace, log: Area, d: Disk, home: Disk, ws: seq<Write>)
    requires Recoverable(log, d, home) && Readable(log, d) && |ws| == Count(d[log.start])
    requires forall i :: 0 <= i < |ws| ==> 0 <= ws[i].bn < |d| && ws[i] == RecoverWrite(log, d, i)
    ensures var e := Apply(d, ws, |ws|);
            && Idle(log, e[log.start := Header(e[log.start], [])], home)
            && Wrote(Installs(t, d, ws, |ws|), e[log.start := Header(e[log.start], [])])
               == Recovers(t, log, d, Count(d[log.start]) + 1)
  {
    RecoveryEnds(log, d, home, ws);
    RecoversInstall(t, log, d, ws, |ws|);
  }

  lemma {:induction false} StartKept(log: Area, d: Disk, k: nat)
    requires Readable(log, d) && k <= Count(d[log.start])
    ensures AfterRecovery(log, d, k)[log.start] == d[log.start]
    decreases k
  {
    if k > 0 { StartKept(log, d, k - 1); }
  }

  // The names in the header of a disk that recovery can start from are distinct.
  lemma {:induction false} NamesDistinct(log: Area, d: Disk, home: Disk, i: int, j: int)
    requires Recoverable(log, d, home) && 1 <= i < j <= Count(d[log.start])
    ensures j < WORDS && d[log.start][i] != d[log.start][j]
  {
    var txn: seq<Write>, base: Disk :| Committed(log, d, txn, base) && Apply(base, txn, |txn|) == home;
    assert Differ(txn, i - 1, j - 1);
    assert d[log.start][1 + (i - 1)] == txn[i - 1].bn && d[log.start][1 + (j - 1)] == txn[j - 1].bn;
  }

  // Any number of recoveries, recovery i crashing after crashes[i] of its writes.
  ghost function Crashes(log: Area, d: Disk, crashes: seq<nat>): (r: Disk)
    requires exists home: Disk :: Recoverable(log, d, home)
    decreases |crashes|
  {
    if crashes == [] then d
    else
      var home: Disk :| Recoverable(log, d, home);
      RecoveryStep(log, d, home, crashes[0]);
      Crashes(log, Recovery(log, d, crashes[0]), crashes[1..])
  }

  // Whatever crashes interrupt it, recovery never changes the home blocks it will end with.
  lemma {:induction false} RecoveryIsIdempotent(log: Area, d: Disk, home: Disk, crashes: seq<nat>)
    requires Recoverable(log, d, home)
    ensures Recoverable(log, Crashes(log, d, crashes), home)
    decreases |crashes|
  {
    if crashes != [] {
      RecoveryStep(log, d, home, crashes[0]);
      RecoveryIsIdempotent(log, Recovery(log, d, crashes[0]), home, crashes[1..]);
    }
  }

  lemma {:induction false} CrashInCommit(log: Area, d: Disk, base: Disk, txn: seq<Write>, k: nat)
    requires Transaction(log, d, txn) && Idle(log, d, base) && |txn| > 0 && k <= 2 * |txn| + 2
    ensures Recoverable(log, AfterCommit(log, d, txn, k), Outcome(base, txn, k))
  {
    if k <= |txn| {
      BeforeHeader(log, d, base, txn, k);
    } else if k <= 2 * |txn| + 1 {
      CrashInInstall(log, d, base, txn, k - |txn| - 1);
    } else {
      CommitDone(log, d, base, txn);
    }
  }

  // Crash atomicity. A commit that crashes after k writes, followed by any number of crashed
  // recoveries and a complete one, leaves the home blocks as they were if the header was not yet
  // written and all of them updated if it was; the log ends empty.
  lemma {:induction false} CrashAtomicity(log: Area, d: Disk, txn: seq<Write>, k: nat, crashes: seq<nat>)
    requires Transaction(log, d, txn) && Count(d[log.start]) == 0 && |txn| > 0 && k <= 2 * |txn| + 2
    ensures var e := AfterCommit(log, d, txn, k);
            && Recoverable(log, e, Outcome(d, txn, k))
            && var f := Crashes(log, e, crashes);
               && Readable(log, f)
               && Idle(log, AfterRecovery(log, f, Count(f[log.start]) + 1), Outcome(d, txn, k))
  {
    var e, home := AfterCommit(log, d, txn, k), Outcome(d, txn, k);
    CrashInCommit(log, d, d, txn, k);
    RecoveryIsIdempotent(log, e, home, crashes);
    RecoveryStep(log, Crashes(log, e, crashes), home, LOGSIZE + 1);
  }
}
