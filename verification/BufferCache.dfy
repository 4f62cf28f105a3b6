/**
 The list of buffers in order of use: circular, doubly linked, with a head.

 Nodes 0 .. n - 1 are buffers and node n is the head. `circle` is the abstract list,
 most recently used first behind the head; `pos` is its inverse.
 */
module MruList {

  datatype Links = Links(next: seq<int>, prev: seq<int>)

  ghost function Succ(i: int, n: int): (j: int) {
    if i == n then 0 else i + 1
  }

  ghost function Pred(i: int, n: int): (j: int) {
    if i == 0 then n else i - 1
  }

  ghost predicate NodeAt(circle: seq<int>, pos: seq<int>, l: Links, n: nat, i: int)
    requires |circle| == |pos| == |l.next| == |l.prev| == n + 1 && 0 <= i <= n
  {
    && 0 <= circle[i] <= n && pos[circle[i]] == i
    && l.next[circle[i]] == circle[Succ(i, n)] && l.prev[circle[i]] == circle[Pred(i, n)]
  }

  ghost predicate Placed(circle: seq<int>, pos: seq<int>, n: nat, x: int)
    requires |circle| == |pos| == n + 1 && 0 <= x <= n
  {
    0 <= pos[x] <= n && circle[pos[x]] == x
  }

  // The pointers form the circle, and every node is on it once.
  ghost predicate Valid(circle: seq<int>, pos: seq<int>, l: Links, n: nat) {
    && |circle| == |pos| == |l.next| == |l.prev| == n + 1 && circle[0] == n
    && (forall i :: 0 <= i <= n ==> NodeAt(circle, pos, l, n, i))
    && (forall x :: 0 <= x <= n ==> Placed(circle, pos, n, x))
  }

  // ----- Moving a node to the front -----

  // The six assignments of brelse().
  function MoveToFront(l: Links, head: nat, b: nat): (r: Links)
    requires |l.next| == |l.prev| == head + 1 && b < head
    requires 0 <= l.next[b] <= head && 0 <= l.prev[b] <= head && 0 <= l.next[head] <= head
  {
    var prev := l.prev[l.next[b] := l.prev[b]];
    var next := l.next[l.prev[b] := l.next[b]];
    var first := next[head];
    Links(next[b := first][head := b], prev[b := head][first := b])
  }

  ghost function FrontCircle(circle: seq<int>, k: int): (r: seq<int>)
    requires 1 <= k < |circle|
  {
    seq(|circle|, i requires 0 <= i < |circle| =>
      if i == 1 then circle[k] else if 2 <= i <= k then circle[i - 1] else circle[i])
  }

  ghost function FrontPos(pos: seq<int>, k: int, b: int): (r: seq<int>) {
    seq(|pos|, x requires 0 <= x < |pos| =>
      if x == b then 1 else if 1 <= pos[x] < k then pos[x] + 1 else pos[x])
  }

  lemma {:induction false} MovedToFront(circle: seq<int>, pos: seq<int>, l: Links, n: nat, b: nat)
    requires Valid(circle, pos, l, n) && b < n
    ensures Placed(circle, pos, n, b) && pos[b] >= 1 && NodeAt(circle, pos, l, n, pos[b])
    ensures NodeAt(circle, pos, l, n, 0)
    ensures 0 <= l.next[b] <= n && 0 <= l.prev[b] <= n && 0 <= l.next[n] <= n
    ensures Valid(FrontCircle(circle, pos[b]), FrontPos(pos, pos[b], b), MoveToFront(l, n, b), n)
  {
    var k := pos[b];
    assert Placed(circle, pos, n, b) && NodeAt(circle, pos, l, n, k) && NodeAt(circle, pos, l, n, 0);
    assert NodeAt(circle, pos, l, n, Succ(k, n)) && NodeAt(circle, pos, l, n, Pred(k, n));
    assert NodeAt(circle, pos, l, n, Succ(0, n));
    var c', p', l' := FrontCircle(circle, k), FrontPos(pos, k, b), MoveToFront(l, n, b);
    forall i | 0 <= i <= n ensures NodeAt(c', p', l', n, i) {
      FrontNode(circle, pos, l, n, b, i);
    }
    forall x | 0 <= x <= n ensures Placed(c', p', n, x) {
      assert Placed(circle, pos, n, x);
    }
  }

  lemma {:induction false} FrontNode(circle: seq<int>, pos: seq<int>, l: Links, n: nat, b: nat, i: int)
    requires Valid(circle, pos, l, n) && b < n && 0 <= i <= n && 1 <= pos[b] <= n && circle[pos[b]] == b
    requires 0 <= l.next[b] <= n && 0 <= l.prev[b] <= n && 0 <= l.next[n] <= n
    ensures NodeAt(FrontCircle(circle, pos[b]), FrontPos(pos, pos[b], b), MoveToFront(l, n, b), n, i)
  {
    if i > pos[b] { NodeBehind(circle, pos, l, n, b, i); } else { NodeBefore(circle, pos, l, n, b, i); }
  }

  lemma {:induction false} NodeBehind(circle: seq<int>, pos: seq<int>, l: Links, n: nat, b: nat, i: int)
    requires Valid(circle, pos, l, n) && b < n && i <= n && 1 <= pos[b] <= n && circle[pos[b]] == b && pos[b] < i
    requires 0 <= l.next[b] <= n && 0 <= l.prev[b] <= n && 0 <= l.next[n] <= n
    ensures NodeAt(FrontCircle(circle, pos[b]), FrontPos(pos, pos[b], b), MoveToFront(l, n, b), n, i)
  {
    var k := pos[b];
    assert NodeAt(circle, pos, l, n, k) && NodeAt(circle, pos, l, n, 0) && NodeAt(circle, pos, l, n, 1);
    assert NodeAt(circle, pos, l, n, Succ(k, n)) && NodeAt(circle, pos, l, n, Pred(k, n));
    assert NodeAt(circle, pos, l, n, i) && NodeAt(circle, pos, l, n, Succ(i, n));
  }

  lemma {:induction false} NodeBefore(circle: seq<int>, pos: seq<int>, l: Links, n: nat, b: nat, i: int)
    requires Valid(circle, pos, l, n) && b < n && 0 <= i <= n && 1 <= pos[b] <= n && circle[pos[b]] == b && i <= pos[b]
    requires 0 <= l.next[b] <= n && 0 <= l.prev[b] <= n && 0 <= l.next[n] <= n
    ensures NodeAt(FrontCircle(circle, pos[b]), FrontPos(pos, pos[b], b), MoveToFront(l, n, b), n, i)
  {
    var k := pos[b];
    assert NodeAt(circle, pos, l, n, k) && NodeAt(circle, pos, l, n, 0) && NodeAt(circle, pos, l, n, 1);
    assert NodeAt(circle, pos, l, n, Succ(k, n)) && NodeAt(circle, pos, l, n, Pred(k, n));
    if i > 1 {
      assert NodeAt(circle, pos, l, n, i - 1) && NodeAt(circle, pos, l, n, i) && NodeAt(circle, pos, l, n, i - 2);
    }
  }
}

/**
 The buffer cache under the redo log.

 `logical` is what clients of the cache see: for every block, the contents last passed
 to log_write() or bwrite(), or else those on disk. A buffer is `touched` while its
 holder has changed its data without having logged it.
 */
module CacheState {
  import opened Params
  import opened Sets
  import opened LogDisk

  const DISK_DEV := 1

  datatype Buf = Buf(dev: int, bn: int, valid: bool, dirty: bool, refcnt: nat, holder: int, data: Block)

  predicate Is(b: Buf, bn: int) {
    b.dev == DISK_DEV && b.bn == bn
  }

  predicate Recyclable(b: Buf) {
    b.refcnt == 0 && !b.dirty
  }

  ghost predicate Cached(bufs: seq<Buf>, bn: int) {
    exists i :: 0 <= i < |bufs| && Is(bufs[i], bn)
  }

  // The block has an update that is not yet on disk, and its buffer cannot be recycled.
  ghost predicate Pinned(bufs: seq<Buf>, bn: int) {
    exists i :: 0 <= i < |bufs| && Is(bufs[i], bn) && bufs[i].dirty
  }

  ghost predicate BufOk(bufs: seq<Buf>, i: int, logical: Disk, touched: set<int>, lh: seq<int>)
    requires 0 <= i < |bufs|
  {
    var b := bufs[i];
    && (b.holder != 0 ==> b.refcnt > 0)
    && (b.dirty ==> b.valid && b.bn in lh)
    && (i in touched ==> b.valid && b.holder != 0)
    && (b.valid || b.refcnt > 0 ==> b.dev == DISK_DEV)
    && (b.dev == DISK_DEV ==> 0 <= b.bn < |logical|)
    && (b.valid && i !in touched ==> b.data == logical[b.bn])
  }

  // No block has two buffers.
  ghost predicate Apart(bufs: seq<Buf>, i: int, j: int)
    requires 0 <= i < |bufs| && 0 <= j < |bufs|
  {
    bufs[i].dev == DISK_DEV && bufs[j].dev == DISK_DEV ==> bufs[i].bn != bufs[j].bn
  }

  ghost predicate Backed(bufs: seq<Buf>, disk: Disk, logical: Disk, b: int)
    requires |disk| == |logical| && 0 <= b < |disk|
  {
    logical[b] == disk[b] || Pinned(bufs, b)
  }

  ghost predicate Ok(bufs: seq<Buf>, disk: Disk, logical: Disk, touched: set<int>, lh: seq<int>) {
    && |logical| == |disk|
    && (forall i :: 0 <= i < |bufs| ==> BufOk(bufs, i, logical, touched, lh))
    && (forall i, j :: 0 <= i < j < |bufs| ==> Apart(bufs, i, j))
    && (forall b :: 0 <= b < |disk| ==> Backed(bufs, disk, logical, b))
  }

  lemma {:induction false} SameBlock(bufs: seq<Buf>, i: int, j: int, bn: int)
    requires 0 <= i < |bufs| && 0 <= j < |bufs| && forall a, b :: 0 <= a < b < |bufs| ==> Apart(bufs, a, b)
    ensures Is(bufs[i], bn) && Is(bufs[j], bn) ==> i == j
  {
    if i < j { assert Apart(bufs, i, j); } else if j < i { assert Apart(bufs, j, i); }
  }

  // Changing one buffer without changing what the cache means.
  lemma {:induction false} Replaced(bufs: seq<Buf>, disk: Disk, logical: Disk, touched: set<int>, lh: seq<int>,
                                    i: int, x: Buf, touched': set<int>)
    requires Ok(bufs, disk, logical, touched, lh) && 0 <= i < |bufs|
    requires BufOk(bufs[i := x], i, logical, touched', lh)
    requires forall j :: j != i ==> (j in touched <==> j in touched')
    requires (x.dev == bufs[i].dev && x.bn == bufs[i].bn) || (x.dev == DISK_DEV && !Cached(bufs, x.bn))
    requires bufs[i].dirty ==> x.dirty && x.dev == bufs[i].dev && x.bn == bufs[i].bn
    ensures Ok(bufs[i := x], disk, logical, touched', lh)
    ensures forall bn :: Pinned(bufs, bn) ==> Pinned(bufs[i := x], bn)
  {
    var bufs' := bufs[i := x];
    forall j | 0 <= j < |bufs| ensures BufOk(bufs', j, logical, touched', lh) {
      assert BufOk(bufs, j, logical, touched, lh);
    }
    forall a, b | 0 <= a < b < |bufs| ensures Apart(bufs', a, b) {
      assert Apart(bufs, a, b);
      if a == i && x.dev == DISK_DEV && !Cached(bufs, x.bn) { assert !Is(bufs[b], x.bn); }
      if b == i && x.dev == DISK_DEV && !Cached(bufs, x.bn) { assert !Is(bufs[a], x.bn); }
    }
    forall bn | Pinned(bufs, bn) ensures Pinned(bufs', bn) {
      var j :| 0 <= j < |bufs| && Is(bufs[j], bn) && bufs[j].dirty;
      assert Is(bufs'[j], bn) && bufs'[j].dirty;
    }
    forall b | 0 <= b < |disk| ensures Backed(bufs', disk, logical, b) {
      assert Backed(bufs, disk, logical, b);
    }
  }

  // Giving block x.bn new contents, in the cache and either on disk or in the log.
  lemma {:induction false} Updated(bufs: seq<Buf>, disk: Disk, logical: Disk, touched: set<int>, lh: seq<int>,
                                   i: int, x: Buf, disk': Disk, lh': seq<int>)
    requires Ok(bufs, disk, logical, touched, lh) && 0 <= i < |bufs|
    requires bufs[i].dev == x.dev == DISK_DEV && bufs[i].bn == x.bn && 0 <= x.bn < |disk|
    requires x.valid && (x.holder != 0 ==> x.refcnt > 0) && (x.dirty ==> x.bn in lh')
    requires forall b :: b in lh ==> b in lh'
    requires disk' == if x.dirty then disk else disk[x.bn := x.data]
    ensures Ok(bufs[i := x], disk', logical[x.bn := x.data], touched - {i}, lh')
    ensures forall bn :: bn != x.bn ==> (Pinned(bufs, bn) <==> Pinned(bufs[i := x], bn))
    ensures Pinned(bufs[i := x], x.bn) <==> x.dirty
  {
    var bufs', logical', touched' := bufs[i := x], logical[x.bn := x.data], touched - {i};
    forall j | 0 <= j < |bufs| ensures BufOk(bufs', j, logical', touched', lh') {
      assert BufOk(bufs, j, logical, touched, lh);
      if j < i { assert Apart(bufs, j, i); } else if i < j { assert Apart(bufs, i, j); }
    }
    forall a, b | 0 <= a < b < |bufs| ensures Apart(bufs', a, b) {
      assert Apart(bufs, a, b);
    }
    forall bn | bn != x.bn ensures Pinned(bufs, bn) <==> Pinned(bufs', bn) {
      PinnedElsewhere(bufs, i, x, bn);
    }
    assert Pinned(bufs', x.bn) <==> x.dirty by {
      assert Is(bufs'[i], x.bn);
      if j :| 0 <= j < |bufs'| && Is(bufs'[j], x.bn) && bufs'[j].dirty { SameBlock(bufs', i, j, x.bn); }
    }
    forall b | 0 <= b < |disk'| ensures Backed(bufs', disk', logical', b) {
      assert Backed(bufs, disk, logical, b);
    }
  }

  lemma {:induction false} PinnedElsewhere(bufs: seq<Buf>, i: int, x: Buf, bn: int)
    requires 0 <= i < |bufs| && bufs[i].dev == x.dev && bufs[i].bn == x.bn && bn != x.bn
    ensures Pinned(bufs, bn) <==> Pinned(bufs[i := x], bn)
  {
    var bufs' := bufs[i := x];
    if j :| 0 <= j < |bufs| && Is(bufs[j], bn) && bufs[j].dirty {
      assert Is(bufs'[j], bn) && bufs'[j].dirty;
    }
    if j :| 0 <= j < |bufs'| && Is(bufs'[j], bn) && bufs'[j].dirty {
      assert Is(bufs[j], bn) && bufs[j].dirty;
    }
  }

  // Fewer logged blocks than buffers leave a buffer that is not pinned.
  lemma {:induction false} SomeUnpinned(bufs: seq<Buf>, disk: Disk, logical: Disk, touched: set<int>, lh: seq<int>)
    requires Ok(bufs, disk, logical, touched, lh) && |lh| < |bufs|
    ensures exists i :: 0 <= i < |bufs| && !bufs[i].dirty
  {
    if forall i :: 0 <= i < |bufs| ==> bufs[i].dirty {
      AllPinned(bufs, disk, logical, touched, lh, |bufs|);
      var blocks := set i | 0 <= i < |bufs| :: bufs[i].bn;
      Distinct(lh);
      assert blocks <= set b | b in lh;
      NoLarger(blocks, set b | b in lh);
      assert false;
    }
  }

  lemma {:induction false} AllPinned(bufs: seq<Buf>, disk: Disk, logical: Disk, touched: set<int>, lh: seq<int>, n: nat)
    requires Ok(bufs, disk, logical, touched, lh) && n <= |bufs|
    requires forall i :: 0 <= i < |bufs| ==> bufs[i].dirty
    ensures |set i | 0 <= i < n :: bufs[i].bn| == n
    ensures forall i :: 0 <= i < |bufs| ==> bufs[i].bn in lh
    decreases n
  {
    forall i | 0 <= i < |bufs| ensures bufs[i].bn in lh { assert BufOk(bufs, i, logical, touched, lh); }
    if n > 0 {
      AllPinned(bufs, disk, logical, touched, lh, n - 1);
      var s := set i | 0 <= i < n - 1 :: bufs[i].bn;
      assert (set i | 0 <= i < n :: bufs[i].bn) == s + {bufs[n - 1].bn};
      forall i | 0 <= i < n - 1 ensures bufs[i].bn != bufs[n - 1].bn {
        assert Apart(bufs, i, n - 1);
        assert BufOk(bufs, i, logical, touched, lh) && BufOk(bufs, n - 1, logical, touched, lh);
      }
    }
  }

  lemma {:induction false} Distinct(s: seq<int>)
    ensures |set b | b in s| <= |s|
    decreases |s|
  {
    if s != [] {
      var t := s[..|s| - 1];
      Distinct(t);
      assert (set b | b in s) == (set b | b in t) + {s[|s| - 1]};
    }
  }
}

module BufferCache {
  import opened Params
  import opened Sets
  import opened LogDisk
  import opened CacheState
  import Mru = MruList

  class Cache {
    const nbuf: nat
    const log: Area  // as the superblock has it

    var disk: Disk
    var bufs: seq<Buf>
    var links: Mru.Links
    var lh: seq<int>  // the block numbers of the in-memory log header

    ghost var circle: seq<int>
    ghost var pos: seq<int>
    ghost var logical: Disk
    ghost var touched: set<int>
    ghost var trace: Trace  // all contents the disk has had: where a crash may leave it

    ghost predicate LogOk()
      reads this`lh, this`disk
    {
      && Fits(log, disk) && |lh| <= LOGSIZE && |lh| < log.size
      && (forall i :: 0 <= i < |lh| ==> 0 <= lh[i] < |disk| && !InLog(log, lh[i]))
      && (forall i, j :: 0 <= i < j < |lh| ==> Other(lh, i, j))
    }

    ghost predicate Valid()
      reads this
    {
      Mru.Valid(circle, pos, links, nbuf) && |bufs| == nbuf && Ok(bufs, disk, logical, touched, lh) && LogOk()
    }

    // binit(): put the buffers on the list one by one; the disk is whatever it was.
    constructor (nbuf: nat, log: Area, disk: Disk)
      requires Fits(log, disk)
      ensures Valid() && Quiet() && lh == [] && logical == disk == this.disk && trace == Booted(disk)
      ensures forall bn :: !Cached(bufs, bn)
      ensures this.nbuf == nbuf && this.log == log
    {
      this.nbuf, this.log := nbuf, log;
      this.disk, lh := disk, [];
      bufs := seq(nbuf, _ => Buf(0, 0, false, false, 0, 0, seq(WORDS, _ => 0)));
      logical, touched, trace := disk, {}, Booted(disk);
      var next, prev := seq(nbuf + 1, _ => nbuf), seq(nbuf + 1, _ => nbuf);
      var b := 0;
      while b < nbuf
        invariant 0 <= b <= nbuf && |next| == |prev| == nbuf + 1
        invariant forall x :: 0 <= x < b ==> next[x] == (if x == 0 then nbuf else x - 1)
        invariant forall x :: 0 <= x < b ==> prev[x] == (if x == b - 1 then nbuf else x + 1)
        invariant next[nbuf] == (if b == 0 then nbuf else b - 1) && prev[nbuf] == (if b == 0 then nbuf else 0)
      {
        next := next[b := next[nbuf]];
        prev := prev[b := nbuf];
        prev := prev[next[nbuf] := b];
        next := next[nbuf := b];
        b := b + 1;
      }
      links := Mru.Links(next, prev);
      circle := seq(nbuf + 1, i => if i == 0 then nbuf else nbuf - i);
      pos := seq(nbuf + 1, x => if x == nbuf then 0 else nbuf - x);
      new;
      forall i | 0 <= i <= nbuf ensures Mru.NodeAt(circle, pos, links, nbuf, i) {
      }
    }

    // No buffer is in use.
    ghost predicate Quiet()
      reads this`bufs, this`touched
    {
      touched == {} && forall i :: 0 <= i < |bufs| ==> bufs[i].refcnt == 0
    }

    // ----- bio.c -----

    // The critical section of bget(): find the block's buffer or recycle the least recently
    // used one that is neither referenced nor pinned. -1 is "bget: no buffers".
    method BGet(bn: int) returns (i: int)
      requires Valid() && 0 <= bn < |disk|
      modifies this`bufs
      ensures Valid() && -1 <= i < nbuf
      ensures i == -1 <==> !Cached(old(bufs), bn) && forall j :: 0 <= j < nbuf ==> !Recyclable(old(bufs)[j])
      ensures i == -1 ==> bufs == old(bufs)
      ensures i >= 0 && Cached(old(bufs), bn) ==>
                Is(old(bufs)[i], bn) && bufs == old(bufs)[i := old(bufs)[i].(refcnt := old(bufs)[i].refcnt + 1)]
      ensures i >= 0 && !Cached(old(bufs), bn) ==>
                && Recyclable(old(bufs)[i])
                && bufs == old(bufs)[i := Buf(DISK_DEV, bn, false, false, 1, 0, old(bufs)[i].data)]
                && forall j :: 0 <= j < nbuf && Recyclable(old(bufs)[j]) ==> pos[j] <= pos[i]
    {
      i := FindCached(bn);
      if i >= 0 {
        assert BufOk(bufs, i, logical, touched, lh);
        Replaced(bufs, disk, logical, touched, lh, i, bufs[i].(refcnt := bufs[i].refcnt + 1), touched);
        bufs := bufs[i := bufs[i].(refcnt := bufs[i].refcnt + 1)];
        return;
      }
      i := FindRecyclable();
      if i >= 0 {
        assert BufOk(bufs, i, logical, touched, lh);
        var b := Buf(DISK_DEV, bn, false, false, 1, 0, bufs[i].data);
        Replaced(bufs, disk, logical, touched, lh, i, b, touched);
        bufs := bufs[i := b];
      }
    }

    // Walk from the most recently used buffer.
    method FindCached(bn: int) returns (i: int)
      requires Valid()
      ensures -1 <= i < nbuf
      ensures i >= 0 ==> Is(bufs[i], bn)
      ensures i == -1 <==> !Cached(bufs, bn)
    {
      assert Mru.NodeAt(circle, pos, links, nbuf, 0);
      var b := links.next[nbuf];
      ghost var p := Mru.Succ(0, nbuf);
      while b != nbuf
        invariant 0 <= p <= nbuf && b == circle[p] && Mru.NodeAt(circle, pos, links, nbuf, p)
        invariant forall q :: 1 <= q < (if p == 0 then nbuf + 1 else p) ==>
                    0 <= circle[q] < nbuf && !Is(bufs[circle[q]], bn)
        decreases if p == 0 then 0 else nbuf + 1 - p
      {
        if bufs[b].dev == DISK_DEV && bufs[b].bn == bn {
          return b;
        }
        b := links.next[b];
        p := Mru.Succ(p, nbuf);
        assert Mru.NodeAt(circle, pos, links, nbuf, p);
      }
      forall j | 0 <= j < nbuf ensures !Is(bufs[j], bn) {
        assert Mru.Placed(circle, pos, nbuf, j);
      }
      return -1;
    }

    // Walk from the least recently used buffer.
    method FindRecyclable() returns (i: int)
      requires Valid()
      ensures -1 <= i < nbuf
      ensures i >= 0 ==> Recyclable(bufs[i]) && forall j :: 0 <= j < nbuf && Recyclable(bufs[j]) ==> pos[j] <= pos[i]
      ensures i == -1 <==> forall j :: 0 <= j < nbuf ==> !Recyclable(bufs[j])
    {
      assert Mru.NodeAt(circle, pos, links, nbuf, 0);
      var b := links.prev[nbuf];
      ghost var p := nbuf as int;
      while b != nbuf
        invariant 0 <= p <= nbuf && b == circle[p] && Mru.NodeAt(circle, pos, links, nbuf, p)
        invariant forall q :: p < q <= nbuf ==> 0 <= circle[q] < nbuf && !Recyclable(bufs[circle[q]])
        decreases p
      {
        if bufs[b].refcnt == 0 && !bufs[b].dirty {
          forall j | 0 <= j < nbuf && Recyclable(bufs[j]) ensures pos[j] <= p {
            assert Mru.Placed(circle, pos, nbuf, j);
          }
          return b;
        }
        b := links.prev[b];
        p := p - 1;
        assert Mru.NodeAt(circle, pos, links, nbuf, p);
      }
      forall j | 0 <= j < nbuf ensures !Recyclable(bufs[j]) {
        assert Mru.Placed(circle, pos, nbuf, j);
      }
      return -1;
    }

    // bread() once the buffer's lock is free: a locked buffer with the block's contents.
    method BRead(bn: int, me: int) returns (i: int)
      requires Valid() && 0 <= bn < |disk| && me != 0
      requires forall j :: 0 <= j < nbuf && Is(bufs[j], bn) ==> bufs[j].holder == 0
      modifies this`bufs
      ensures Valid() && -1 <= i < nbuf
      ensures i == -1 <==> !Cached(old(bufs), bn) && forall j :: 0 <= j < nbuf ==> !Recyclable(old(bufs)[j])
      ensures i == -1 ==> bufs == old(bufs)
      ensures i >= 0 ==>
                && Is(bufs[i], bn) && bufs[i].valid && bufs[i].data == logical[bn]
                && bufs[i].holder == me && i !in touched
                && bufs == old(bufs)[i := bufs[i]]
                && (bufs[i].dirty <==> Pinned(old(bufs), bn))
                && bufs[i].refcnt == 1 + (if Cached(old(bufs), bn) then old(bufs)[i].refcnt else 0)
                && (if Cached(old(bufs), bn) then Is(old(bufs)[i], bn) else Recyclable(old(bufs)[i]))
      ensures forall b :: Pinned(bufs, b) <==> Pinned(old(bufs), b)
    {
      i := BGet(bn);
      if i == -1 { return; }
      ghost var bufs0 := bufs;
      assert BufOk(bufs, i, logical, touched, lh);
      PinnedByOwn(bufs, i, bn);
      var b := bufs[i].(holder := me);
      if !b.valid {
        assert Backed(bufs, disk, logical, bn);
        b := b.(valid := true, data := disk[bn]);
      }
      Replaced(bufs, disk, logical, touched, lh, i, b, touched);
      bufs := bufs[i := b];
      PinsSame(old(bufs), bufs, i, bn);
    }

    // memmove into the buffer of a block one has locked.
    method Modify(i: int, me: int, data: Block)
      requires Valid() && 0 <= i < nbuf && me != 0 && bufs[i].holder == me && bufs[i].valid
      modifies this`bufs, this`touched
      ensures Valid() && bufs == old(bufs)[i := old(bufs)[i].(data := data)] && touched == old(touched) + {i}
      ensures forall b :: Pinned(bufs, b) <==> Pinned(old(bufs), b)
    {
      assert BufOk(bufs, i, logical, touched, lh);
      var b := bufs[i].(data := data);
      Replaced(bufs, disk, logical, touched, lh, i, b, touched + {i});
      bufs, touched := bufs[i := b], touched + {i};
      PinsSame(old(bufs), bufs, i, b.bn);
    }

    method BWrite(i: int, me: int)
      requires Valid() && 0 <= i < nbuf && me != 0 && bufs[i].holder == me && bufs[i].valid
      modifies this`bufs, this`touched, this`disk, this`logical, this`trace
      ensures Valid() && bufs == old(bufs)[i := old(bufs)[i].(dirty := false)] && touched == old(touched) - {i}
      ensures var w := Write(old(bufs)[i].bn, old(bufs)[i].data);
              && 0 <= w.bn < |old(disk)| && disk == old(disk)[w.bn := w.data]
              && logical == old(logical)[w.bn := w.data] && trace == Wrote(old(trace), disk)
              && !Pinned(bufs, w.bn) && forall b :: b != w.bn ==> (Pinned(bufs, b) <==> Pinned(old(bufs), b))
    {
      assert BufOk(bufs, i, logical, touched, lh);
      var b := bufs[i].(dirty := false);
      Updated(bufs, disk, logical, touched, lh, i, b, disk[b.bn := b.data], lh);
      bufs, touched := bufs[i := b], touched - {i};
      disk, logical := disk[b.bn := b.data], logical[b.bn := b.data];
      trace := Wrote(trace, disk);
    }

    // Release a buffer whose changes, if any, have been logged.
    method BRelse(i: int, me: int)
      requires Valid() && 0 <= i < nbuf && me != 0 && bufs[i].holder == me && i !in touched
      modifies this`bufs, this`links, this`circle, this`pos
      ensures Valid()
      ensures old(bufs)[i].refcnt > 0
      ensures bufs == old(bufs)[i := old(bufs)[i].(holder := 0, refcnt := old(bufs)[i].refcnt - 1)]
      ensures 1 <= old(pos)[i] < |old(circle)|
      // An unreferenced buffer becomes the most recently used one; the others keep their order.
      ensures circle == if bufs[i].refcnt == 0 then Mru.FrontCircle(old(circle), old(pos)[i]) else old(circle)
      ensures forall b :: Pinned(bufs, b) <==> Pinned(old(bufs), b)
    {
      assert BufOk(bufs, i, logical, touched, lh);
      var b := bufs[i].(holder := 0, refcnt := bufs[i].refcnt - 1);
      Replaced(bufs, disk, logical, touched, lh, i, b, touched);
      bufs := bufs[i := b];
      PinsSame(old(bufs), bufs, i, b.bn);
      assert Mru.Placed(circle, pos, nbuf, i) && Mru.NodeAt(circle, pos, links, nbuf, pos[i]);
      if b.refcnt == 0 {
        Mru.MovedToFront(circle, pos, links, nbuf, i);
        links, circle, pos :=
          Mru.MoveToFront(links, nbuf, i), Mru.FrontCircle(circle, pos[i]), Mru.FrontPos(pos, pos[i], i);
      }
    }

    // ----- log.c -----

    // Every logged block is pinned: the state of the log outside commit().
    ghost predicate LogPinned()
      reads this`bufs, this`lh
    {
      forall k :: 0 <= k < |lh| ==> Pinned(bufs, lh[k])
    }

    // False is "too big a transaction"; the guard runs before absorption.
    method LogWrite(i: int, me: int) returns (ok: bool)
      requires Valid() && 0 <= i < nbuf && me != 0 && bufs[i].holder == me && bufs[i].valid
      requires !InLog(log, bufs[i].bn)
      modifies this`bufs, this`touched, this`logical, this`lh
      ensures Valid()
      ensures ok <==> |old(lh)| < LOGSIZE && |old(lh)| < log.size - 1
      ensures !ok ==> unchanged(this)
      ensures ok ==>
                var b := old(bufs)[i];
                && bufs == old(bufs)[i := b.(dirty := true)] && touched == old(touched) - {i}
                && 0 <= b.bn < |old(logical)| && logical == old(logical)[b.bn := b.data]
                && lh == (if b.bn in old(lh) then old(lh) else old(lh) + [b.bn])
                && Pinned(bufs, b.bn) && forall bn :: bn != b.bn ==> (Pinned(bufs, bn) <==> Pinned(old(bufs), bn))
    {
      if |lh| >= LOGSIZE || |lh| >= log.size - 1 {
        return false;
      }
      assert BufOk(bufs, i, logical, touched, lh);
      var b := bufs[i].(dirty := true);
      var k := 0;
      while k < |lh|
        invariant 0 <= k <= |lh| && b.bn !in lh[..k]
      {
        if lh[k] == b.bn { break; }
        k := k + 1;
      }
      var names := if k < |lh| then lh[k := b.bn] else lh + [b.bn];
      assert k < |lh| ==> b.bn in lh && names == lh;
      assert k == |lh| ==> lh[..k] == lh;
      NamesGrow(lh, b.bn);
      Updated(bufs, disk, logical, touched, lh, i, b, disk, names);
      bufs, touched, logical, lh := bufs[i := b], touched - {i}, logical[b.bn := b.data], names;
      return true;
    }

    // One iteration of write_log() or install_trans(): read a log block and a home block, copy one
    // onto the other and write it. False is "bget: no buffers".
    method Copy(logBn: int, homeBn: int, toLog: bool, me: int) returns (ok: bool)
      requires Valid() && Quiet() && me != 0
      requires 0 <= logBn < |disk| && InLog(log, logBn) && 0 <= homeBn < |disk| && !InLog(log, homeBn)
      requires Pinned(bufs, homeBn) || (nbuf >= 2 && forall j :: 0 <= j < nbuf ==> !bufs[j].dirty)
      modifies this
      ensures ok <==> exists j :: 0 <= j < nbuf && !old(bufs)[j].dirty
      ensures ok ==> Valid() && Quiet() && lh == old(lh)
      ensures ok ==>
                var w := if toLog then Write(logBn, old(logical)[homeBn]) else Write(homeBn, old(logical)[logBn]);
                && disk == old(disk)[w.bn := w.data] && logical == old(logical)[w.bn := w.data]
                && trace == Wrote(old(trace), disk)
                && !Pinned(bufs, w.bn) && forall b :: b != w.bn ==> (Pinned(bufs, b) <==> Pinned(old(bufs), b))
    {
      var l, h := ReadPair(logBn, homeBn, me);
      if l == -1 { return false; }
      if toLog {
        Transfer(l, h, me);
      } else {
        Transfer(h, l, me);
      }
      return true;
    }

    // Nobody but me holds a buffer, and I hold exactly l and h.
    ghost predicate Holding(l: int, h: int, me: int)
      reads this`bufs, this`touched
    {
      && touched == {} && 0 <= l < |bufs| && 0 <= h < |bufs| && l != h
      && bufs[l].holder == me && bufs[l].refcnt == 1 && bufs[l].valid
      && bufs[h].holder == me && bufs[h].refcnt == 1 && bufs[h].valid
      && forall j :: 0 <= j < |bufs| && j != l && j != h ==> bufs[j].refcnt == 0
    }

    method ReadPair(logBn: int, homeBn: int, me: int) returns (l: int, h: int)
      requires Valid() && Quiet() && me != 0
      requires 0 <= logBn < |disk| && InLog(log, logBn) && 0 <= homeBn < |disk| && !InLog(log, homeBn)
      requires Pinned(bufs, homeBn) || (nbuf >= 2 && forall j :: 0 <= j < nbuf ==> !bufs[j].dirty)
      modifies this`bufs
      ensures Valid() && (l == -1 <==> forall j :: 0 <= j < nbuf ==> old(bufs)[j].dirty)
      ensures l != -1 ==>
                && Holding(l, h, me) && Is(bufs[l], logBn) && Is(bufs[h], homeBn)
                && bufs[l].data == logical[logBn] && bufs[h].data == logical[homeBn]
      ensures forall b :: Pinned(bufs, b) <==> Pinned(old(bufs), b)
    {
      LogBlockIsClean(logBn);
      Unheld();
      l := BRead(logBn, me);
      h := -1;
      if l == -1 { return; }
      assert !bufs[l].dirty && !old(bufs)[l].dirty;
      SecondFits(old(bufs), bufs, l, homeBn);
      h := BRead(homeBn, me);
    }

    lemma {:induction false} Unheld()
      requires Valid()
      ensures forall j :: 0 <= j < nbuf && bufs[j].refcnt == 0 ==> bufs[j].holder == 0
    {
      forall j | 0 <= j < nbuf && bufs[j].refcnt == 0 ensures bufs[j].holder == 0 {
        assert BufOk(bufs, j, logical, touched, lh);
      }
    }

    method ReleaseBoth(l: int, h: int, me: int)
      requires Valid() && me != 0 && Holding(l, h, me)
      modifies this`bufs, this`links, this`circle, this`pos
      ensures Valid() && Quiet() && forall b :: Pinned(bufs, b) <==> Pinned(old(bufs), b)
    {
      BRelse(h, me);
      BRelse(l, me);
    }

    // Copy src onto dst, write dst and release both.
    method Transfer(dst: int, src: int, me: int)
      requires Valid() && me != 0 && Holding(dst, src, me)
      modifies this`bufs, this`touched, this`disk, this`logical, this`trace, this`links, this`circle, this`pos
      ensures Valid() && Quiet()
      ensures var w := Write(old(bufs)[dst].bn, old(bufs)[src].data);
              && 0 <= w.bn < |old(disk)| && disk == old(disk)[w.bn := w.data]
              && logical == old(logical)[w.bn := w.data] && trace == Wrote(old(trace), disk)
              && !Pinned(bufs, w.bn) && forall b :: b != w.bn ==> (Pinned(bufs, b) <==> Pinned(old(bufs), b))
    {
      Modify(dst, me, bufs[src].data);
      BWrite(dst, me);
      ReleaseBoth(dst, src, me);
    }

    // Log blocks are never pinned, so a cached one is in a recyclable buffer.
    lemma {:induction false} LogBlockIsClean(logBn: int)
      requires Valid() && Quiet() && InLog(log, logBn)
      ensures !Pinned(bufs, logBn)
      ensures Cached(bufs, logBn) ==> exists j :: 0 <= j < nbuf && !bufs[j].dirty
    {
      forall j | 0 <= j < nbuf && Is(bufs[j], logBn) ensures !bufs[j].dirty {
        assert BufOk(bufs, j, logical, touched, lh);
      }
    }

    method WriteHead(me: int) returns (ok: bool)
      requires Valid() && Quiet() && me != 0
      modifies this
      ensures ok <==> exists j :: 0 <= j < nbuf && !old(bufs)[j].dirty
      ensures ok ==> Valid() && Quiet() && lh == old(lh)
      ensures ok ==>
                var w := Write(log.start, Header(old(disk)[log.start], lh));
                disk == old(disk)[log.start := w.data] && trace == Wrote(old(trace), disk)
      ensures ok ==> forall b :: 0 <= b < |disk| && b != log.start ==> logical[b] == old(logical)[b]
      ensures ok ==> forall b :: Pinned(bufs, b) <==> Pinned(old(bufs), b)
    {
      LogBlockIsClean(log.start);
      Unheld();
      assert Backed(bufs, disk, logical, log.start);
      var b := BRead(log.start, me);
      if b == -1 { return false; }
      assert !old(bufs)[b].dirty;
      ghost var h := bufs[b].data;
      var hb := bufs[b].data;
      hb := hb[0 := |lh|];
      var i := 0;
      while i < |lh|
        invariant 0 <= i <= |lh| && hb == HeaderFor(h, lh, i)
      {
        hb := hb[1 + i := lh[i]];
        i := i + 1;
      }
      Modify(b, me, hb);
      BWrite(b, me);
      BRelse(b, me);
      return true;
    }

    // The home blocks still to be installed are pinned or, in recovery, nothing is.
    ghost predicate Installable(tail: int)
      reads this`bufs, this`lh
    {
      StillPinned(tail) || (nbuf >= 2 && |bufs| == nbuf && forall j :: 0 <= j < nbuf ==> !bufs[j].dirty)
    }

    method InstallOne(tail: int, me: int)
      requires Valid() && Quiet() && me != 0 && 0 <= tail < |lh| && Installable(tail)
      modifies this
      ensures Valid() && Quiet() && lh == old(lh) && Installable(tail + 1)
      ensures var w := Write(lh[tail], old(logical)[log.start + 1 + tail]);
              && disk == old(disk)[w.bn := w.data] && logical == old(logical)[w.bn := w.data]
              && trace == Wrote(old(trace), disk)
    {
      if StillPinned(tail) {
        SomeUnpinned(bufs, disk, logical, touched, lh);
        assert Pinned(bufs, lh[tail]);
      } else {
        assert !bufs[0].dirty;
      }
      ghost var before := bufs;
      var ok := Copy(log.start + 1 + tail, lh[tail], false, me);
      NextPinned(before, tail);
    }

    // The next of the writes ws, which started from disk d and trace t.
    method InstallNext(tail: int, me: int, ghost ws: seq<Write>, ghost d: Disk, ghost t: Trace)
      requires Valid() && Quiet() && me != 0 && 0 <= tail < |lh| == |ws| && Installable(tail)
      requires (forall i :: 0 <= i < |ws| ==> 0 <= ws[i].bn < |d|) && disk == Apply(d, ws, tail)
      requires trace == Installs(t, d, ws, tail) && ws[tail] == Write(lh[tail], logical[log.start + 1 + tail])
      modifies this
      ensures Valid() && Quiet() && lh == old(lh) && Installable(tail + 1)
      ensures disk == Apply(d, ws, tail + 1) && trace == Installs(t, d, ws, tail + 1)
      ensures forall b :: 0 <= b < |disk| && InLog(log, b) ==> logical[b] == old(logical)[b]
    {
      InstallOne(tail, me);
    }

    // Copy the log to the home blocks: the writes ws.
    method InstallTrans(me: int, ghost ws: seq<Write>)
      requires Valid() && Quiet() && me != 0 && Installable(0)
      requires |ws| == |lh| && forall i :: 0 <= i < |ws| ==> ws[i] == Write(lh[i], logical[log.start + 1 + i])
      modifies this
      ensures Valid() && Quiet() && lh == old(lh)
      ensures forall i :: 0 <= i < |ws| ==> 0 <= ws[i].bn < |old(disk)|
      ensures disk == Apply(old(disk), ws, |ws|)
      ensures trace == Installs(old(trace), old(disk), ws, |ws|)
      ensures forall b :: 0 <= b < |disk| && InLog(log, b) ==> logical[b] == old(logical)[b]
      ensures forall j :: 0 <= j < nbuf ==> !bufs[j].dirty
    {
      var tail := 0;
      while tail < |lh|
        invariant 0 <= tail <= |lh| && lh == old(lh)
        invariant Valid() && Quiet() && Installable(tail)
        invariant disk == Apply(old(disk), ws, tail)
        invariant trace == Installs(old(trace), old(disk), ws, tail)
        invariant forall b :: 0 <= b < |disk| && InLog(log, b) ==> logical[b] == old(logical)[b]
      {
        InstallNext(tail, me, ws, old(disk), old(trace));
        tail := tail + 1;
      }
      NothingPinned();
    }

    // What is left to install is pinned; what is installed is not.
    ghost predicate StillPinned(tail: int)
      reads this`bufs, this`lh
    {
      && |lh| < nbuf
      && forall k :: 0 <= k < |lh| ==> (Pinned(bufs, lh[k]) <==> k >= tail)
    }

    lemma {:induction false} NextPinned(before: seq<Buf>, tail: int)
      requires Valid() && 0 <= tail < |lh| && !Pinned(bufs, lh[tail])
      requires forall b :: b != lh[tail] ==> (Pinned(bufs, b) <==> Pinned(before, b))
      ensures |lh| < nbuf && (forall k :: 0 <= k < |lh| ==> (Pinned(before, lh[k]) <==> k >= tail)) ==>
                StillPinned(tail + 1)
      ensures |before| == nbuf && (forall j :: 0 <= j < nbuf ==> !before[j].dirty) ==>
                forall j :: 0 <= j < nbuf ==> !bufs[j].dirty
    {
      forall k | 0 <= k < |lh| && k != tail ensures lh[k] != lh[tail] {
        assert k < tail ==> Other(lh, k, tail);
        assert k > tail ==> Other(lh, tail, k);
      }
      forall j | 0 <= j < nbuf && bufs[j].dirty ensures Pinned(before, bufs[j].bn) {
        assert BufOk(bufs, j, logical, touched, lh);
        assert Is(bufs[j], bufs[j].bn) && Pinned(bufs, bufs[j].bn);
      }
    }

    lemma {:induction false} NothingPinned()
      requires Valid()
      ensures StillPinned(|lh|) ==> forall j :: 0 <= j < nbuf ==> !bufs[j].dirty
    {
      if StillPinned(|lh|) {
        forall j | 0 <= j < nbuf ensures !bufs[j].dirty {
          assert BufOk(bufs, j, logical, touched, lh);
          assert bufs[j].dirty ==> Is(bufs[j], bufs[j].bn);
        }
      }
    }

    // The transaction a commit would write now.
    ghost predicate Represents(txn: seq<Write>)
      reads this`lh, this`logical
    {
      && |txn| == |lh|
      && forall i :: 0 <= i < |lh| ==> 0 <= lh[i] < |logical| && txn[i] == Write(lh[i], logical[lh[i]])
    }

    lemma {:induction false} IsTransaction(txn: seq<Write>)
      requires Valid() && Represents(txn)
      ensures Transaction(log, disk, txn)
    {
      forall i, j | 0 <= i < j < |txn| ensures Differ(txn, i, j) { assert Other(lh, i, j); }
    }

    // One block of write_log().
    method LogOne(tail: int, me: int, ghost txn: seq<Write>) returns (ok: bool)
      requires Valid() && Quiet() && me != 0 && LogPinned() && Represents(txn) && 0 <= tail < |lh|
      modifies this
      ensures ok <==> |old(lh)| < nbuf
      ensures ok ==> Valid() && Quiet() && LogPinned() && Represents(txn) && lh == old(lh)
      ensures ok ==>
                var w := Write(log.start + 1 + tail, txn[tail].data);
                disk == old(disk)[w.bn := w.data] && trace == Wrote(old(trace), disk)
    {
      AllTaken();
      if |lh| < nbuf { SomeUnpinned(bufs, disk, logical, touched, lh); }
      assert Pinned(bufs, lh[tail]);
      ok := Copy(log.start + 1 + tail, lh[tail], true, me);
    }

    // The next write of a commit that started from disk d and trace t.
    method LogNext(tail: int, me: int, ghost txn: seq<Write>, ghost d: Disk, ghost t: Trace) returns (ok: bool)
      requires Valid() && Quiet() && me != 0 && LogPinned() && Represents(txn) && 0 <= tail < |lh|
      requires Transaction(log, d, txn) && |txn| == |lh|
      requires disk == AfterCommit(log, d, txn, tail) && trace == Commits(t, log, d, txn, tail)
      modifies this
      ensures ok <==> |old(lh)| < nbuf
      ensures ok ==> Valid() && Quiet() && LogPinned() && Represents(txn) && lh == old(lh)
      ensures ok ==> disk == AfterCommit(log, d, txn, tail + 1) && trace == Commits(t, log, d, txn, tail + 1)
    {
      ok := LogOne(tail, me, txn);
    }

    // Copy the logged blocks from the cache to the log.
    method WriteLog(me: int, ghost txn: seq<Write>) returns (ok: bool)
      requires Valid() && Quiet() && me != 0 && LogPinned() && Represents(txn) && Transaction(log, disk, txn)
      modifies this
      ensures ok <==> |old(lh)| == 0 || |old(lh)| < nbuf
      ensures ok ==> Valid() && Quiet() && LogPinned() && lh == old(lh) && Represents(txn)
      ensures ok ==> disk == AfterCommit(log, old(disk), txn, |txn|)
      ensures ok ==> trace == Commits(old(trace), log, old(disk), txn, |txn|)
    {
      var tail := 0;
      while tail < |lh|
        invariant 0 <= tail <= |lh| && lh == old(lh) && (tail > 0 ==> |lh| < nbuf)
        invariant Valid() && Quiet() && LogPinned() && Represents(txn)
        invariant disk == AfterCommit(log, old(disk), txn, tail)
        invariant trace == Commits(old(trace), log, old(disk), txn, tail)
      {
        ok := LogNext(tail, me, txn, old(disk), old(trace));
        if !ok { return; }
        tail := tail + 1;
      }
      return true;
    }

    // As many logged blocks as buffers leave none that is not pinned.
    lemma {:induction false} AllTaken()
      requires Valid() && LogPinned()
      ensures |lh| >= nbuf ==> forall j :: 0 <= j < nbuf ==> bufs[j].dirty
    {
      forall j | 0 <= j < nbuf && !bufs[j].dirty ensures |lh| < nbuf {
        PinnedBound(bufs, lh, j);
      }
    }

    // Nothing in the cache is newer than the disk.
    ghost predicate Clean()
      reads this`bufs, this`disk, this`logical, this`lh
    {
      logical == disk && lh == [] && forall j :: 0 <= j < |bufs| ==> !bufs[j].dirty
    }

    lemma {:induction false} NothingDirty()
      requires Valid() && forall j :: 0 <= j < nbuf ==> !bufs[j].dirty
      ensures logical == disk && Ok(bufs, disk, logical, touched, [])
    {
      forall b | 0 <= b < |disk| ensures logical[b] == disk[b] { assert Backed(bufs, disk, logical, b); }
      forall i | 0 <= i < nbuf ensures BufOk(bufs, i, logical, touched, []) {
        assert BufOk(bufs, i, logical, touched, lh);
      }
    }

    // The second half of commit() and of recover_from_log(): the header of an empty log.
    method ClearLog(me: int)
      requires Valid() && Quiet() && me != 0 && nbuf >= 1 && forall j :: 0 <= j < nbuf ==> !bufs[j].dirty
      modifies this
      ensures Valid() && Quiet() && Clean()
      ensures var w := Write(log.start, Header(old(disk)[log.start], []));
              disk == old(disk)[log.start := w.data] && trace == Wrote(old(trace), disk)
    {
      NothingDirty();
      lh := [];
      assert !bufs[0].dirty;
      ghost var before := bufs;
      var ok := WriteHead(me);
      forall j | 0 <= j < nbuf ensures !bufs[j].dirty { assert BufOk(bufs, j, logical, touched, lh); }
      NothingDirty();
    }

    // The cache and the disk k writes into committing txn, a commit that started from disk d; `before`
    // is what the disk had been until then.
    ghost predicate Committing(d: Disk, before: Trace, txn: seq<Write>, k: nat)
      reads this
    {
      && Valid() && Quiet() && 0 < |txn| < nbuf && Names(txn) == lh
      && Written(log, d, before, txn, k, disk, trace)
    }

    method CommitHead(me: int, ghost d: Disk, ghost before: Trace, ghost txn: seq<Write>)
      requires Committing(d, before, txn, |txn|) && LogPinned() && me != 0
      modifies this
      ensures Committing(d, before, txn, |txn| + 1) && LogPinned()
    {
      SomeUnpinned(bufs, disk, logical, touched, lh);
      BeforeHeader(log, d, d, txn, |txn|);
      var ok := WriteHead(me);
    }

    method CommitInstall(me: int, ghost d: Disk, ghost before: Trace, ghost txn: seq<Write>)
      requires Committing(d, before, txn, |txn| + 1) && LogPinned() && me != 0
      modifies this
      ensures Committing(d, before, txn, 2 * |txn| + 1) && forall j :: 0 <= j < nbuf ==> !bufs[j].dirty
    {
      ReadyToInstall(d, before, txn);
      ghost var e, t := disk, trace;
      InstallTrans(me, txn);
      InstallsWritten(log, d, before, txn, e, t);
    }

    method CommitClear(me: int, ghost d: Disk, ghost before: Trace, ghost txn: seq<Write>)
      requires Committing(d, before, txn, 2 * |txn| + 1) && me != 0 && forall j :: 0 <= j < nbuf ==> !bufs[j].dirty
      modifies this
      ensures Valid() && Quiet() && Clean() && disk == AfterCommit(log, d, txn, 2 * |txn| + 2)
      ensures trace == Commits(before, log, d, txn, 2 * |txn| + 2)
    {
      HeaderKept(log, d, txn, |txn|);
      ClearLog(me);
    }

    // A commit takes the disk through the states AfterCommit(.., 0), AfterCommit(.., 1), ... and
    // no others, and ends with a clean cache. It runs out of buffers only if every one is pinned.
    method Commit(me: int, ghost txn: seq<Write>) returns (ok: bool)
      requires Valid() && Quiet() && me != 0 && LogPinned() && Represents(txn) && Count(disk[log.start]) == 0
      modifies this
      ensures ok <==> |txn| == 0 || |txn| < nbuf
      ensures ok && |txn| == 0 ==> unchanged(this)
      ensures ok && |txn| > 0 ==>
                && Valid() && Quiet() && Clean() && Transaction(log, old(disk), txn)
                && disk == AfterCommit(log, old(disk), txn, 2 * |txn| + 2)
                && trace == Commits(old(trace), log, old(disk), txn, 2 * |txn| + 2)
    {
      if |lh| == 0 { return true; }
      IsTransaction(txn);
      ghost var d, before := disk, trace;
      NamesOf(txn);
      ok := WriteLog(me, txn);
      if !ok { return; }
      CommitHead(me, d, before, txn);
      CommitInstall(me, d, before, txn);
      CommitClear(me, d, before, txn);
    }

    lemma {:induction false} NamesOf(txn: seq<Write>)
      requires Represents(txn)
      ensures Names(txn) == lh
    {
    }

    // What the log holds after the header write is the transaction.
    lemma {:induction false} ReadyToInstall(d: Disk, before: Trace, txn: seq<Write>)
      requires Committing(d, before, txn, |txn| + 1) && LogPinned()
      ensures forall i :: 0 <= i < |txn| ==> txn[i] == Write(lh[i], logical[log.start + 1 + i])
      ensures Installable(0)
    {
      AtHeader(log, d, d, txn);
      forall i | 0 <= i < |txn| ensures txn[i] == Write(lh[i], logical[log.start + 1 + i]) {
        assert Names(txn)[i] == lh[i];
        assert Backed(bufs, disk, logical, log.start + 1 + i);
        forall j | 0 <= j < nbuf && Is(bufs[j], log.start + 1 + i) ensures !bufs[j].dirty {
          assert BufOk(bufs, j, logical, touched, lh);
        }
      }
    }

    // The header on disk, read through the cache.
    method LoadNames(me: int) returns (names: seq<int>)
      requires Valid() && Quiet() && Clean() && me != 0 && nbuf >= 1 && Readable(log, disk)
      modifies this`bufs, this`links, this`circle, this`pos
      ensures Valid() && Quiet() && Clean() && |names| == Count(disk[log.start])
      ensures forall i :: 0 <= i < |names| ==> names[i] == disk[log.start][1 + i]
    {
      Unheld();
      assert Recyclable(bufs[0]);
      ghost var before := bufs;
      var b := BRead(log.start, me);
      NoneDirty(before);
      names := ReadNames(bufs[b].data);
      before := bufs;
      BRelse(b, me);
      NoneDirty(before);
    }

    // Copy the header on disk to the in-memory one.
    method ReadHead(me: int, ghost home: Disk)
      requires Valid() && Quiet() && Clean() && me != 0 && nbuf >= 1 && Recoverable(log, disk, home)
      modifies this`bufs, this`lh, this`links, this`circle, this`pos
      ensures Valid() && Quiet() && logical == disk && forall j :: 0 <= j < nbuf ==> !bufs[j].dirty
      ensures Readable(log, disk) && |lh| == Count(disk[log.start])
      ensures forall i :: 0 <= i < |lh| ==> lh[i] == disk[log.start][1 + i]
    {
      RecoveryStep(log, disk, home, 0);
      var names := LoadNames(me);
      NamesOk(names, home);
      lh := names;
    }

    lemma {:induction false} NoneDirty(before: seq<Buf>)
      requires Valid() && |before| == nbuf && forall j :: 0 <= j < nbuf ==> !before[j].dirty
      requires forall b :: Pinned(bufs, b) <==> Pinned(before, b)
      ensures forall j :: 0 <= j < nbuf ==> !bufs[j].dirty
    {
      forall j | 0 <= j < nbuf ensures !bufs[j].dirty {
        assert BufOk(bufs, j, logical, touched, lh);
        assert bufs[j].dirty ==> Is(bufs[j], bufs[j].bn);
        assert !Pinned(before, bufs[j].bn);
      }
    }

    lemma {:induction false} NamesOk(names: seq<int>, home: Disk)
      requires Valid() && Recoverable(log, disk, home) && Readable(log, disk) && |names| == Count(disk[log.start])
      requires forall k :: 0 <= k < |names| ==> names[k] == disk[log.start][1 + k]
      requires forall j :: 0 <= j < nbuf ==> !bufs[j].dirty
      ensures Ok(bufs, disk, logical, touched, names)
      ensures forall i :: 0 <= i < |names| ==> 0 <= names[i] < |disk| && !InLog(log, names[i])
      ensures forall i, j :: 0 <= i < j < |names| ==> Other(names, i, j)
    {
      forall i | 0 <= i < nbuf ensures BufOk(bufs, i, logical, touched, names) {
        assert BufOk(bufs, i, logical, touched, lh);
      }
      forall i, j | 0 <= i < j < |names| ensures Other(names, i, j) {
        NamesDistinct(log, disk, home, 1 + i, 1 + j);
      }
    }

    lemma {:induction false} ReadyToRecover() returns (ws: seq<Write>)
      requires Readable(log, disk) && |disk| == |logical| && |lh| == Count(disk[log.start]) && logical == disk
      requires forall i :: 0 <= i < |lh| ==> lh[i] == disk[log.start][1 + i]
      ensures |ws| == |lh|
      ensures forall i :: 0 <= i < |ws| ==> 0 <= ws[i].bn < |disk| && ws[i] == RecoverWrite(log, disk, i)
      ensures forall i :: 0 <= i < |ws| ==> ws[i] == Write(lh[i], logical[log.start + 1 + i])
    {
      ws := RecoverInstalls(log, disk, Count(disk[log.start]));
    }

    // Recovery at boot, when the cache is clean: it ends with the home blocks the disk was bound to
    // and an empty log, and a crash anywhere in it leaves a disk bound to the same home blocks.
    method Recover(me: int, ghost home: Disk)
      requires Valid() && Quiet() && Clean() && me != 0 && nbuf >= 2 && Recoverable(log, disk, home)
      modifies this
      ensures Valid() && Quiet() && Clean() && Idle(log, disk, home)
      ensures Readable(log, old(disk))
      ensures trace == Recovers(old(trace), log, old(disk), Count(old(disk)[log.start]) + 1)
      ensures BoundSince(old(trace), trace, log, home)
    {
      ghost var d := disk;
      ReadHead(me, home);
      ghost var ws := ReadyToRecover();
      InstallTrans(me, ws);
      RecoveryDone(old(trace), log, d, home, ws);
      ClearLog(me);
      RecoveryBound(old(trace), log, d, home, |ws| + 1);
    }
  }

  // The disk and its trace k writes into committing txn, a commit that started from disk d.
  ghost predicate Written(log: Area, d: Disk, before: Trace, txn: seq<Write>, k: nat, disk: Disk, trace: Trace) {
    && Transaction(log, d, txn) && Count(d[log.start]) == 0 && k <= 2 * |txn| + 1
    && disk == AfterCommit(log, d, txn, k) && trace == Commits(before, log, d, txn, k)
  }

  lemma {:induction false} InstallsWritten(log: Area, d: Disk, before: Trace, txn: seq<Write>, e: Disk, t: Trace)
    requires |txn| > 0 && Written(log, d, before, txn, |txn| + 1, e, t)
    ensures Written(log, d, before, txn, 2 * |txn| + 1, Apply(e, txn, |txn|), Installs(t, e, txn, |txn|))
  {
    AfterInstall(log, d, d, txn);
    CommitsInstall(before, log, d, d, txn, |txn|);
  }

  // The names in a header block.
  method ReadNames(h: Block) returns (names: seq<int>)
    requires 0 <= Count(h) <= LOGSIZE
    ensures |names| == Count(h) && forall i :: 0 <= i < |names| ==> names[i] == h[1 + i]
  {
    names := [];
    var i := 0;
    while i < h[0]
      invariant 0 <= i <= h[0] && |names| == i && forall k :: 0 <= k < i ==> names[k] == h[1 + k]
    {
      names := names + [h[1 + i]];
      i := i + 1;
    }
  }

  // Installing does not touch the header.
  lemma {:induction false} HeaderKept(log: Area, d: Disk, txn: seq<Write>, k: nat)
    requires Transaction(log, d, txn) && k <= |txn|
    ensures AfterCommit(log, d, txn, |txn| + 1 + k)[log.start] == Header(d[log.start], Names(txn))
    decreases k
  {
    if k > 0 { HeaderKept(log, d, txn, k - 1); }
  }

  // Distinct pinned blocks are in distinct dirty buffers.
  lemma {:induction false} PinnedBound(bufs: seq<Buf>, lh: seq<int>, j: int)
    requires forall k :: 0 <= k < |lh| ==> Pinned(bufs, lh[k])
    requires forall a, b :: 0 <= a < b < |lh| ==> Other(lh, a, b)
    requires 0 <= j < |bufs| && !bufs[j].dirty
    ensures |lh| < |bufs|
  {
    var picks := Picks(bufs, lh, |lh|);
    NoLarger(picks, Indices(|bufs|) - {j});
  }

  // A buffer for each of the first n names.
  lemma {:induction false} Picks(bufs: seq<Buf>, lh: seq<int>, n: nat) returns (picks: set<int>)
    requires n <= |lh| && forall k :: 0 <= k < |lh| ==> Pinned(bufs, lh[k])
    requires forall a, b :: 0 <= a < b < |lh| ==> Other(lh, a, b)
    ensures |picks| == n
    ensures forall i :: i in picks ==> 0 <= i < |bufs| && bufs[i].dirty && exists k :: 0 <= k < n && lh[k] == bufs[i].bn
    decreases n
  {
    if n == 0 {
      picks := {};
    } else {
      picks := Picks(bufs, lh, n - 1);
      var i :| 0 <= i < |bufs| && Is(bufs[i], lh[n - 1]) && bufs[i].dirty;
      forall k | 0 <= k < n - 1 ensures lh[k] != lh[n - 1] { assert Other(lh, k, n - 1); }
      picks := picks + {i};
    }
  }

  ghost function Indices(n: nat): (s: set<int>)
    ensures |s| == n && forall i :: i in s <==> 0 <= i < n
  {
    if n == 0 then {} else Indices(n - 1) + {n - 1}
  }

  // With one clean buffer taken, a pinned block is still there and an unpinned cache still has room.
  lemma {:induction false} SecondFits(old_: seq<Buf>, bufs: seq<Buf>, l: int, bn: int)
    requires |old_| == |bufs| && 0 <= l < |bufs| && bufs == old_[l := bufs[l]] && !old_[l].dirty
    requires forall j :: 0 <= j < |old_| ==> old_[j].refcnt == 0
    requires Pinned(old_, bn) || (|bufs| >= 2 && forall j :: 0 <= j < |old_| ==> !old_[j].dirty)
    ensures Cached(bufs, bn) || exists j :: 0 <= j < |bufs| && Recyclable(bufs[j])
    ensures forall j :: 0 <= j < |bufs| && j != l ==> bufs[j].refcnt == 0
  {
    if j :| 0 <= j < |old_| && Is(old_[j], bn) && old_[j].dirty {
      assert Is(bufs[j], bn);
    } else {
      assert Recyclable(bufs[if l == 0 then 1 else 0]);
    }
  }

  lemma {:induction false} NamesGrow(lh: seq<int>, bn: int)
    requires forall i, j :: 0 <= i < j < |lh| ==> Other(lh, i, j)
    ensures bn !in lh ==> forall i, j :: 0 <= i < j < |lh| + 1 ==> Other(lh + [bn], i, j)
  {
    if bn !in lh {
      forall i, j | 0 <= i < j < |lh| + 1 ensures Other(lh + [bn], i, j) {
        if j < |lh| { assert Other(lh, i, j); }
      }
    }
  }

  lemma {:induction false} PinnedByOwn(bufs: seq<Buf>, i: int, bn: int)
    requires 0 <= i < |bufs| && Is(bufs[i], bn)
    requires forall a, b :: 0 <= a < b < |bufs| ==> Apart(bufs, a, b)
    ensures Pinned(bufs, bn) <==> bufs[i].dirty
  {
    forall j | 0 <= j < |bufs| && j != i ensures !Is(bufs[j], bn) { SameBlock(bufs, i, j, bn); }
  }

  // A buffer that stays dirty for the same block, or stays clean, changes no pin.
  lemma {:induction false} PinsSame(old_: seq<Buf>, bufs: seq<Buf>, i: int, bn: int)
    requires |old_| == |bufs| && 0 <= i < |bufs| && bufs == old_[i := bufs[i]]
    requires old_[i].dirty == bufs[i].dirty
    requires bufs[i].dirty ==> old_[i].dev == bufs[i].dev && old_[i].bn == bufs[i].bn
    ensures forall b :: Pinned(bufs, b) <==> Pinned(old_, b)
  {
    forall b ensures Pinned(bufs, b) <==> Pinned(old_, b) {
      if j :| 0 <= j < |bufs| && Is(bufs[j], b) && bufs[j].dirty { assert Is(old_[j], b) && old_[j].dirty; }
      if j :| 0 <= j < |bufs| && Is(old_[j], b) && old_[j].dirty { assert Is(bufs[j], b) && bufs[j].dirty; }
    }
  }

  ghost predicate Other(s: seq<int>, i: int, j: int)
    requires 0 <= i < |s| && 0 <= j < |s|
  {
    s[i] != s[j]
  }
}
