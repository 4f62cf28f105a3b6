/**
 The K&R allocator: a circular, address-ordered, coalescing free list that starts at
 a zero-sized block `base`.

 Addresses count Header-sized units. `free` is the abstract free list: the blocks in
 address order, starting with base. The heap is specified by the set of units that are
 free and by the owner of every unit in use.
 */
module FreeList {

  datatype Block = Block(addr: int, size: int)

  function End(b: Block): (e: int) {
    b.addr + b.size
  }

  // Successor on the circle.
  function Next(i: int, n: int): (j: int) {
    if i + 1 == n then 0 else i + 1
  }

  ghost predicate Gap(free: seq<Block>, i: int, j: int)
    requires 0 <= i < |free| && 0 <= j < |free|
  {
    End(free[i]) < free[j].addr
  }

  // In address order, base first, with a gap after every block: nothing is left to coalesce.
  ghost predicate Ordered(base: int, free: seq<Block>) {
    && |free| > 0 && free[0] == Block(base, 0)
    && (forall i :: 1 <= i < |free| ==> free[i].size > 0)
    && (forall i, j :: 0 <= i < j < |free| ==> Gap(free, i, j))
  }

  ghost predicate LinkedAt(free: seq<Block>, ptr: map<int, int>, size: map<int, int>, i: int)
    requires 0 <= i < |free|
  {
    && free[i].addr in ptr && ptr[free[i].addr] == free[Next(i, |free|)].addr
    && free[i].addr in size && size[free[i].addr] == free[i].size
  }

  // The headers in memory form the circle.
  ghost predicate Linked(free: seq<Block>, ptr: map<int, int>, size: map<int, int>) {
    forall i :: 0 <= i < |free| ==> LinkedAt(free, ptr, size, i)
  }

  ghost predicate Holds(b: Block, u: int) {
    b.addr <= u < End(b)
  }

  ghost predicate Covers(free: seq<Block>, u: int) {
    exists i :: 0 <= i < |free| && Holds(free[i], u)
  }

  // ----- Three edits of a list, and what they do to the units it covers -----

  function InsertAt(s: seq<Block>, k: int, b: Block): (t: seq<Block>)
    requires 0 <= k <= |s|
    ensures |t| == |s| + 1 && t[k] == b
    ensures forall i :: 0 <= i < k ==> t[i] == s[i]
    ensures forall i :: k < i <= |s| ==> t[i] == s[i - 1]
  {
    s[..k] + [b] + s[k..]
  }

  function RemoveAt(s: seq<Block>, k: int): (t: seq<Block>)
    requires 0 <= k < |s|
    ensures |t| == |s| - 1
    ensures forall i :: 0 <= i < k ==> t[i] == s[i]
    ensures forall i :: k <= i < |s| - 1 ==> t[i] == s[i + 1]
  {
    s[..k] + s[k + 1..]
  }

  lemma {:induction false} InsertCovers(s: seq<Block>, k: int, b: Block, u: int)
    requires 0 <= k <= |s|
    ensures Covers(InsertAt(s, k, b), u) <==> Covers(s, u) || Holds(b, u)
  {
    var t := InsertAt(s, k, b);
    if i :| 0 <= i < |s| && Holds(s[i], u) {
      assert Holds(t[if i < k then i else i + 1], u);
    }
    if Holds(b, u) { assert Holds(t[k], u); }
    if i :| 0 <= i < |t| && Holds(t[i], u) {
      if i != k { assert Holds(s[if i < k then i else i - 1], u); }
    }
  }

  lemma {:induction false} RemoveCovers(s: seq<Block>, k: int, u: int)
    requires 0 <= k < |s|
    ensures Covers(s, u) <==> Covers(RemoveAt(s, k), u) || Holds(s[k], u)
  {
    var t := RemoveAt(s, k);
    if i :| 0 <= i < |s| && Holds(s[i], u) {
      if i != k { assert Holds(t[if i < k then i else i - 1], u); }
    }
    if i :| 0 <= i < |t| && Holds(t[i], u) {
      assert Holds(s[if i < k then i else i + 1], u);
    }
  }

  lemma {:induction false} ReplaceCovers(s: seq<Block>, k: int, b: Block, u: int)
    requires 0 <= k < |s|
    ensures Covers(s[k := b], u) || Holds(s[k], u) <==> Covers(s, u) || Holds(b, u)
  {
    var t := s[k := b];
    if i :| 0 <= i < |s| && Holds(s[i], u) {
      if i != k { assert Holds(t[i], u); }
    }
    if Holds(b, u) { assert Holds(t[k], u); }
    if i :| 0 <= i < |t| && Holds(t[i], u) {
      if i != k { assert Holds(s[i], u); }
    }
  }

  // ----- Releasing a block -----

  // The block that the search of free() stops at: the last one below address a.
  ghost function Position(free: seq<Block>, n: nat, a: int): (k: nat)
    requires n <= |free| && n > 0 && free[0].addr < a
    ensures k < n && free[k].addr < a
    ensures forall j :: k < j < n ==> free[j].addr >= a
  {
    if free[n - 1].addr < a then n - 1 else Position(free, n - 1, a)
  }

  ghost predicate Disjoint(free: seq<Block>, b: Block) {
    forall i :: 0 <= i < |free| ==> End(free[i]) <= b.addr || End(b) <= free[i].addr
  }

  ghost predicate JoinsNext(free: seq<Block>, k: int, b: Block) {
    0 <= k && k + 1 < |free| && End(b) == free[k + 1].addr
  }

  ghost predicate JoinsPrevious(free: seq<Block>, k: int, b: Block) {
    0 <= k < |free| && End(free[k]) == b.addr
  }

  // The free list after b, which lies behind block k, is released.
  ghost function Released(free: seq<Block>, k: int, b: Block): (r: seq<Block>)
    requires 0 <= k < |free|
  {
    if JoinsNext(free, k, b) then
      var joined := Block(b.addr, b.size + free[k + 1].size);
      if JoinsPrevious(free, k, b) then
        RemoveAt(free, k + 1)[k := Block(free[k].addr, free[k].size + joined.size)]
      else free[k + 1 := joined]
    else if JoinsPrevious(free, k, b) then free[k := Block(free[k].addr, free[k].size + b.size)]
    else InsertAt(free, k + 1, b)
  }

  // b fits between block k and the next one.
  ghost predicate FitsBehind(free: seq<Block>, k: int, b: Block) {
    && 0 <= k < |free| && b.size > 0 && End(free[k]) <= b.addr && free[k].addr < b.addr
    && (k + 1 < |free| ==> End(b) <= free[k + 1].addr)
  }

  lemma {:induction false} PositionFits(base: int, free: seq<Block>, b: Block)
    requires Ordered(base, free) && Disjoint(free, b) && b.addr > base && b.size > 0
    ensures FitsBehind(free, Position(free, |free|, b.addr), b)
  {
    var k := Position(free, |free|, b.addr);
    if k + 1 < |free| {
      assert End(free[k + 1]) <= b.addr || End(b) <= free[k + 1].addr;
    }
  }

  lemma {:induction false} ReleasedOrdered(base: int, free: seq<Block>, k: int, b: Block)
    requires Ordered(base, free) && FitsBehind(free, k, b)
    ensures Ordered(base, Released(free, k, b))
  {
    if JoinsNext(free, k, b) {
      ReleasedOrderedNext(base, free, k, b);
    } else if JoinsPrevious(free, k, b) {
      assert k > 0;
      var r := Released(free, k, b);
      forall i, j | 0 <= i < j < |r| ensures Gap(r, i, j) {
        assert Gap(free, i, j);
        assert i == k && j > k + 1 ==> Gap(free, k + 1, j);
      }
    } else {
      var r := InsertAt(free, k + 1, b);
      forall i, j | 0 <= i < j < |r| ensures Gap(r, i, j) {
        if i != k + 1 && j != k + 1 {
          assert Gap(free, if i <= k then i else i - 1, if j <= k then j else j - 1);
        } else if j == k + 1 {
          assert i < k ==> Gap(free, i, k);
        } else {
          assert j - 1 > k + 1 ==> Gap(free, k + 1, j - 1);
        }
      }
    }
  }

  lemma {:induction false} ReleasedOrderedNext(base: int, free: seq<Block>, k: int, b: Block)
    requires Ordered(base, free) && FitsBehind(free, k, b) && JoinsNext(free, k, b)
    ensures Ordered(base, Released(free, k, b))
  {
    var r := Released(free, k, b);
    if JoinsPrevious(free, k, b) {
      assert k > 0;
      forall i, j | 0 <= i < j < |r| ensures Gap(r, i, j) {
        var x, y := if i < k then i else i + 1, if j <= k then j else j + 1;
        assert Gap(free, x, y);
        assert r[j].addr == free[y].addr && End(r[i]) == End(free[x]);
      }
    } else {
      forall i, j | 0 <= i < j < |r| ensures Gap(r, i, j) {
        assert Gap(free, i, j);
        assert j == k + 1 && i < k ==> Gap(free, i, k);
      }
    }
  }

  lemma {:induction false} ReleasedCovers(base: int, free: seq<Block>, k: int, b: Block, u: int)
    requires Ordered(base, free) && FitsBehind(free, k, b)
    ensures Covers(Released(free, k, b), u) <==> Covers(free, u) || Holds(b, u)
  {
    if JoinsNext(free, k, b) {
      var next := free[k + 1];
      var joined := Block(b.addr, b.size + next.size);
      assert Holds(joined, u) <==> Holds(b, u) || Holds(next, u);
      assert Holds(next, u) ==> Covers(free, u);
      if JoinsPrevious(free, k, b) {
        var t := RemoveAt(free, k + 1);
        var all := Block(free[k].addr, free[k].size + joined.size);
        RemoveCovers(free, k + 1, u);
        ReplaceCovers(t, k, all, u);
        assert Holds(all, u) <==> Holds(free[k], u) || Holds(joined, u);
        assert Holds(all, u) ==> Holds(t[k := all][k], u);
        assert Holds(free[k], u) ==> Covers(free, u);
      } else {
        ReplaceCovers(free, k + 1, joined, u);
        assert Holds(joined, u) ==> Holds(free[k + 1 := joined][k + 1], u);
      }
    } else if JoinsPrevious(free, k, b) {
      var all := Block(free[k].addr, free[k].size + b.size);
      ReplaceCovers(free, k, all, u);
      assert Holds(all, u) <==> Holds(free[k], u) || Holds(b, u);
      assert Holds(all, u) ==> Holds(free[k := all][k], u);
      assert Holds(free[k], u) ==> Covers(free, u);
    } else {
      InsertCovers(free, k + 1, b, u);
    }
  }

  // ----- The free list is determined by the units it covers -----

  lemma {:induction false} Canonical(base: int, s: seq<Block>, t: seq<Block>)
    requires Ordered(base, s) && Ordered(base, t)
    requires forall u :: Covers(s, u) <==> Covers(t, u)
    ensures s == t
  {
    AgreeTo(base, s, t, |s|);
    AgreeTo(base, t, s, |t|);
  }

  lemma {:induction false} AgreeTo(base: int, s: seq<Block>, t: seq<Block>, n: nat)
    requires Ordered(base, s) && Ordered(base, t) && n <= |s|
    requires forall u :: Covers(s, u) <==> Covers(t, u)
    ensures n <= |t| && forall i :: 0 <= i < n ==> s[i] == t[i]
    decreases n
  {
    if n > 1 {
      var k := n - 1;
      AgreeTo(base, s, t, k);
      StartsNoLater(base, s, t, k);
      StartsNoLater(base, t, s, k);
      EndsNoLater(base, s, t, k);
      EndsNoLater(base, t, s, k);
    }
  }

  lemma {:induction false} StartsNoLater(base: int, s: seq<Block>, t: seq<Block>, k: nat)
    requires Ordered(base, s) && Ordered(base, t) && 1 <= k < |s| && k <= |t|
    requires forall i :: 0 <= i < k ==> s[i] == t[i]
    requires forall u :: Covers(s, u) <==> Covers(t, u)
    ensures k < |t| && t[k].addr <= s[k].addr
  {
    var u := s[k].addr;
    assert Holds(s[k], u) && Covers(s, u);
    forall j | 0 <= j < k ensures !Holds(t[j], u) {
      assert Gap(s, j, k);
    }
    var j :| 0 <= j < |t| && Holds(t[j], u);
    if j > k { assert Gap(t, k, j); }
  }

  lemma {:induction false} EndsNoLater(base: int, s: seq<Block>, t: seq<Block>, k: nat)
    requires Ordered(base, s) && Ordered(base, t) && 1 <= k < |s| && k < |t| && s[k].addr == t[k].addr
    requires forall u :: Covers(s, u) <==> Covers(t, u)
    ensures t[k].size <= s[k].size
  {
    var u := End(s[k]);
    forall j | 0 <= j < |s| ensures !Holds(s[j], u) {
      if j < k { assert Gap(s, j, k); } else if j > k { assert Gap(s, k, j); }
    }
    assert !Covers(s, u);
    assert !Holds(t[k], u);
  }
}

module Heap {
  import opened FreeList

  const HEADER_BYTES := 8
  const MIN_UNITS := 4096
  const UINT_RANGE := 0x1_0000_0000

  type Uint = n: int | 0 <= n < UINT_RANGE

  // The units a request takes, header included. The sum is a 32-bit unsigned one.
  function UnitsFor(nbytes: Uint): (n: nat)
    ensures 1 <= n <= UINT_RANGE / HEADER_BYTES
  {
    (nbytes + HEADER_BYTES - 1) % UINT_RANGE / HEADER_BYTES + 1
  }

  // The units morecore() asks for.
  function AtLeast(nunits: nat): (nu: nat) {
    if nunits < MIN_UNITS then MIN_UNITS else nunits
  }

  // The argument of sbrk(): a 32-bit unsigned product, passed as a signed int.
  function Request(nu: nat): (n: int) {
    var bytes := nu * HEADER_BYTES % UINT_RANGE;
    if bytes < UINT_RANGE / 2 then bytes else bytes - UINT_RANGE
  }

  // A block of that many units has room for the request exactly when the sum does not wrap.
  lemma RoomExactlyWithoutWrap(nbytes: Uint)
    ensures (UnitsFor(nbytes) - 1) * HEADER_BYTES >= nbytes <==> nbytes + HEADER_BYTES - 1 < UINT_RANGE
  {
    if nbytes + HEADER_BYTES - 1 >= UINT_RANGE {
      assert (nbytes + HEADER_BYTES - 1) % UINT_RANGE == nbytes + HEADER_BYTES - 1 - UINT_RANGE;
    }
  }

  // The units malloc() computes are few enough that the product is either the right number of bytes
  // or not positive. sbrk() takes a positive number as a demand for more memory and no other.
  lemma {:induction false} RequestExact(nu: nat)
    requires nu <= UINT_RANGE / HEADER_BYTES
    ensures nu < UINT_RANGE / 2 / HEADER_BYTES ==> Request(nu) == nu * HEADER_BYTES
    ensures nu >= UINT_RANGE / 2 / HEADER_BYTES ==> Request(nu) <= 0
  {
    if nu == UINT_RANGE / HEADER_BYTES {
      assert nu * HEADER_BYTES == UINT_RANGE;
    } else {
      assert nu * HEADER_BYTES % UINT_RANGE == nu * HEADER_BYTES;
    }
  }

  // A request can be served from new memory exactly up to 16 bytes less than half the address space:
  // the system is asked for the bytes of the block, and the block has room for the request.
  lemma {:induction false} ServedExactly(nbytes: Uint)
    ensures (var nu := AtLeast(UnitsFor(nbytes));
             Request(nu) == nu * HEADER_BYTES && (UnitsFor(nbytes) - 1) * HEADER_BYTES >= nbytes)
            <==> nbytes <= UINT_RANGE / 2 - 2 * HEADER_BYTES
  {
    RoomExactlyWithoutWrap(nbytes);
    RequestExact(AtLeast(UnitsFor(nbytes)));
  }

  // The largest request whose rounding does not wrap asks the system for nothing at all.
  lemma LargestRequest()
    ensures UnitsFor(0xFFFF_FFF8) == 0x2000_0000 && Request(AtLeast(UnitsFor(0xFFFF_FFF8))) == 0
  {
  }

  // ----- Rewriting the headers -----

  // The two assignments of free() that make bp and then p point and measure right.
  function JoinNext(ptr: map<int, int>, size: map<int, int>, p: int, bp: int): (m: (map<int, int>, map<int, int>))
    requires p in ptr && bp in size && (bp + size[bp] == ptr[p] ==> ptr[p] in ptr && ptr[p] in size)
  {
    if bp + size[bp] == ptr[p] then (ptr[bp := ptr[ptr[p]]], size[bp := size[bp] + size[ptr[p]]])
    else (ptr[bp := ptr[p]], size)
  }

  function JoinPrevious(ptr: map<int, int>, size: map<int, int>, p: int, bp: int): (m: (map<int, int>, map<int, int>))
    requires p in size && bp in ptr && bp in size
  {
    if p + size[p] == bp then (ptr[p := ptr[bp]], size[p := size[p] + size[bp]])
    else (ptr[p := bp], size)
  }

  // The addresses involved are pairwise different.
  lemma {:induction false} Apart(base: int, free: seq<Block>, k: int, b: Block)
    requires Ordered(base, free) && FitsBehind(free, k, b)
    ensures forall i :: 0 <= i < |free| ==> free[i].addr != b.addr
    ensures forall i :: 0 <= i < |free| && i != k ==> free[i].addr != free[k].addr
    ensures JoinsNext(free, k, b) <==> End(b) == free[Next(k, |free|)].addr
  {
    forall i | 0 <= i < |free| ensures free[i].addr != b.addr {
      assert i < k ==> Gap(free, i, k);
      assert i > k + 1 ==> Gap(free, k + 1, i);
    }
    forall i | 0 <= i < |free| && i != k ensures free[i].addr != free[k].addr {
      assert i < k ==> Gap(free, i, k);
      assert i > k ==> Gap(free, k, i);
    }
    if k + 1 == |free| && k > 0 { assert Gap(free, 0, k); }
  }

  lemma {:induction false} LinkInsert(base: int, free: seq<Block>, k: int, b: Block,
                                      ptr: map<int, int>, size: map<int, int>)
    requires Ordered(base, free) && Linked(free, ptr, size) && FitsBehind(free, k, b)
    requires b.addr in size && size[b.addr] == b.size
    ensures LinkedAt(free, ptr, size, k)
    ensures Linked(InsertAt(free, k + 1, b), ptr[b.addr := ptr[free[k].addr]][free[k].addr := b.addr], size)
  {
    Apart(base, free, k, b);
    assert LinkedAt(free, ptr, size, k);
    var r := InsertAt(free, k + 1, b);
    var ptr' := ptr[b.addr := ptr[free[k].addr]][free[k].addr := b.addr];
    forall i | 0 <= i < |r| ensures LinkedAt(r, ptr', size, i) {
      if i != k + 1 { assert LinkedAt(free, ptr, size, if i <= k then i else i - 1); }
    }
  }

  lemma {:induction false} LinkNext(base: int, free: seq<Block>, k: int, b: Block,
                                    ptr: map<int, int>, size: map<int, int>)
    requires Ordered(base, free) && Linked(free, ptr, size) && FitsBehind(free, k, b) && JoinsNext(free, k, b)
    requires b.addr in size && size[b.addr] == b.size
    ensures LinkedAt(free, ptr, size, k) && LinkedAt(free, ptr, size, k + 1)
    ensures var next := free[k + 1].addr;
            Linked(free[k + 1 := Block(b.addr, b.size + free[k + 1].size)],
                   ptr[b.addr := ptr[next]][free[k].addr := b.addr], size[b.addr := b.size + size[next]])
  {
    Apart(base, free, k, b);
    assert LinkedAt(free, ptr, size, k) && LinkedAt(free, ptr, size, k + 1);
    var next := free[k + 1].addr;
    var r := free[k + 1 := Block(b.addr, b.size + free[k + 1].size)];
    var ptr', size' := ptr[b.addr := ptr[next]][free[k].addr := b.addr], size[b.addr := b.size + size[next]];
    forall i | 0 <= i < |r| ensures LinkedAt(r, ptr', size', i) {
      assert LinkedAt(free, ptr, size, i);
    }
  }

  lemma {:induction false} LinkPrevious(base: int, free: seq<Block>, k: int, b: Block,
                                        ptr: map<int, int>, size: map<int, int>)
    requires Ordered(base, free) && Linked(free, ptr, size) && FitsBehind(free, k, b)
    requires b.addr in size && size[b.addr] == b.size
    ensures LinkedAt(free, ptr, size, k)
    ensures var p := free[k].addr;
            Linked(free[k := Block(p, free[k].size + b.size)],
                   ptr[b.addr := ptr[p]][p := ptr[p]], size[p := free[k].size + b.size])
  {
    Apart(base, free, k, b);
    assert LinkedAt(free, ptr, size, k);
    var p := free[k].addr;
    var r := free[k := Block(p, free[k].size + b.size)];
    var ptr', size' := ptr[b.addr := ptr[p]][p := ptr[p]], size[p := free[k].size + b.size];
    forall i | 0 <= i < |r| ensures LinkedAt(r, ptr', size', i) {
      assert LinkedAt(free, ptr, size, i);
    }
  }

  lemma {:induction false} LinkBoth(base: int, free: seq<Block>, k: int, b: Block,
                                    ptr: map<int, int>, size: map<int, int>)
    requires Ordered(base, free) && Linked(free, ptr, size) && FitsBehind(free, k, b) && JoinsNext(free, k, b)
    requires b.addr in size && size[b.addr] == b.size
    ensures LinkedAt(free, ptr, size, k) && LinkedAt(free, ptr, size, k + 1)
    ensures var p, next := free[k].addr, free[k + 1].addr;
            var whole := free[k].size + (b.size + free[k + 1].size);
            Linked(RemoveAt(free, k + 1)[k := Block(p, whole)],
                   ptr[b.addr := ptr[next]][p := ptr[next]], size[b.addr := b.size + size[next]][p := whole])
  {
    Apart(base, free, k, b);
    assert LinkedAt(free, ptr, size, k) && LinkedAt(free, ptr, size, k + 1);
    var p, next := free[k].addr, free[k + 1].addr;
    var whole := free[k].size + (b.size + free[k + 1].size);
    var r := RemoveAt(free, k + 1)[k := Block(p, whole)];
    var ptr', size' := ptr[b.addr := ptr[next]][p := ptr[next]], size[b.addr := b.size + size[next]][p := whole];
    forall i | 0 <= i < |r| ensures LinkedAt(r, ptr', size', i) {
      var o := if i <= k then i else i + 1;
      assert LinkedAt(free, ptr, size, o);
      assert r[i].addr == free[o].addr;
      assert i != k ==> r[Next(i, |r|)].addr == free[Next(o, |free|)].addr;
    }
  }

  // Both joins of free().
  ghost function Rejoined(ptr: map<int, int>, size: map<int, int>, p: int, bp: int): (m: (map<int, int>, map<int, int>))
    requires p in ptr && p in size && bp in size && (bp + size[bp] == ptr[p] ==> ptr[p] in ptr && ptr[p] in size)
  {
    var one := JoinNext(ptr, size, p, bp);
    JoinPrevious(one.0, one.1, p, bp)
  }

  lemma {:induction false} RejoinedElsewhere(ptr: map<int, int>, size: map<int, int>, p: int, bp: int)
    requires p in ptr && p in size && bp in size && (bp + size[bp] == ptr[p] ==> ptr[p] in ptr && ptr[p] in size)
    ensures var m := Rejoined(ptr, size, p, bp);
            forall a :: a != p && a != bp && a in size ==> a in m.1 && m.1[a] == size[a]
  {
  }

  lemma {:induction false} HeadersReleased(base: int, free: seq<Block>, k: int, b: Block,
                                           ptr: map<int, int>, size: map<int, int>)
    requires Ordered(base, free) && Linked(free, ptr, size) && FitsBehind(free, k, b)
    requires b.addr in size && size[b.addr] == b.size
    ensures LinkedAt(free, ptr, size, k)
    ensures var p := free[k].addr;
            var next := ptr[p];
            && (b.addr + size[b.addr] == next ==> next in ptr && next in size)
            && var m := Rejoined(ptr, size, p, b.addr);
               Linked(Released(free, k, b), m.0, m.1)
  {
    Apart(base, free, k, b);
    assert LinkedAt(free, ptr, size, k);
    if JoinsNext(free, k, b) {
      HeadersReleasedNext(base, free, k, b, ptr, size);
    } else if JoinsPrevious(free, k, b) {
      LinkPrevious(base, free, k, b, ptr, size);
    } else {
      LinkInsert(base, free, k, b, ptr, size);
    }
  }

  lemma {:induction false} HeadersReleasedNext(base: int, free: seq<Block>, k: int, b: Block,
                                               ptr: map<int, int>, size: map<int, int>)
    requires Ordered(base, free) && Linked(free, ptr, size) && FitsBehind(free, k, b) && JoinsNext(free, k, b)
    requires b.addr in size && size[b.addr] == b.size
    ensures LinkedAt(free, ptr, size, k) && LinkedAt(free, ptr, size, k + 1)
    ensures var m := Rejoined(ptr, size, free[k].addr, b.addr);
            Linked(Released(free, k, b), m.0, m.1)
  {
    Apart(base, free, k, b);
    if JoinsPrevious(free, k, b) {
      LinkBoth(base, free, k, b, ptr, size);
    } else {
      LinkNext(base, free, k, b, ptr, size);
    }
  }

  // ----- Taking units off the tail of a free block -----

  // The free list after n units are taken off the tail of block v.
  ghost function Carved(free: seq<Block>, v: int, n: int): (r: seq<Block>)
    requires 0 <= v < |free|
  {
    if free[v].size == n then RemoveAt(free, v) else free[v := Block(free[v].addr, free[v].size - n)]
  }

  ghost function Taken(free: seq<Block>, v: int, n: int): (b: Block)
    requires 0 <= v < |free|
  {
    Block(End(free[v]) - n, n)
  }

  lemma {:induction false} CarvedOrdered(base: int, free: seq<Block>, v: int, n: int)
    requires Ordered(base, free) && 1 <= v < |free| && 0 < n <= free[v].size
    ensures Ordered(base, Carved(free, v, n))
  {
    var r := Carved(free, v, n);
    forall i, j | 0 <= i < j < |r| ensures Gap(r, i, j) {
      if free[v].size == n {
        assert Gap(free, if i < v then i else i + 1, if j < v then j else j + 1);
      } else {
        assert Gap(free, i, j);
      }
    }
  }

  lemma {:induction false} CarvedCovers(base: int, free: seq<Block>, v: int, n: int, u: int)
    requires Ordered(base, free) && 1 <= v < |free| && 0 < n <= free[v].size
    ensures Covers(Carved(free, v, n), u) <==> Covers(free, u) && !Holds(Taken(free, v, n), u)
  {
    var r, b := Carved(free, v, n), Taken(free, v, n);
    assert Holds(b, u) ==> Holds(free[v], u);
    if i :| 0 <= i < |r| && Holds(r[i], u) {
      var o := if free[v].size == n && i >= v then i + 1 else i;
      assert Holds(free[o], u);
      if o < v { assert Gap(free, o, v); } else if o > v { assert Gap(free, v, o); }
    }
    if i :| 0 <= i < |free| && Holds(free[i], u) {
      if !Holds(b, u) {
        assert Holds(r[if free[v].size == n && i > v then i - 1 else i], u);
      }
    }
  }

  lemma {:induction false} HeadersUnlinked(base: int, free: seq<Block>, v: int, ptr: map<int, int>, size: map<int, int>)
    requires Ordered(base, free) && Linked(free, ptr, size) && 1 <= v < |free|
    ensures LinkedAt(free, ptr, size, v)
    ensures Linked(RemoveAt(free, v), ptr[free[v - 1].addr := ptr[free[v].addr]], size)
  {
    assert LinkedAt(free, ptr, size, v);
    var r, ptr' := RemoveAt(free, v), ptr[free[v - 1].addr := ptr[free[v].addr]];
    forall i | 0 <= i < |r| ensures LinkedAt(r, ptr', size, i) {
      var o := if i < v then i else i + 1;
      assert LinkedAt(free, ptr, size, o);
      if o < v - 1 { assert Gap(free, o, v - 1); } else if o > v - 1 { assert Gap(free, v - 1, o); }
      assert i != v - 1 ==> r[Next(i, |r|)] == free[Next(o, |free|)];
    }
  }

  lemma {:induction false} HeadersSplit(base: int, free: seq<Block>, v: int, n: int,
                                        ptr: map<int, int>, size: map<int, int>)
    requires Ordered(base, free) && Linked(free, ptr, size) && 1 <= v < |free| && 0 < n < free[v].size
    ensures var p, left := free[v].addr, free[v].size - n;
            Linked(free[v := Block(p, left)], ptr, size[p := left][p + left := n])
  {
    var p, left := free[v].addr, free[v].size - n;
    var r, size' := free[v := Block(p, left)], size[p := left][p + left := n];
    forall i | 0 <= i < |r| ensures LinkedAt(r, ptr, size', i) {
      assert LinkedAt(free, ptr, size, i);
      if i < v { assert Gap(free, i, v); } else if i > v { assert Gap(free, v, i); }
    }
  }

  // ----- Who owns each unit -----

  ghost function UnitsOf(b: Block): (s: set<int>)
    ensures forall u :: u in s <==> Holds(b, u)
  {
    set u | b.addr <= u < End(b) && Holds(b, u)
  }

  // Every unit in use belongs to one block, and a block owns all its units; so blocks in use
  // never overlap.
  ghost predicate Owned(owner: map<int, Block>) {
    && (forall u :: u in owner ==> Holds(owner[u], u))
    && (forall u, w :: u in owner && Holds(owner[u], w) ==> w in owner && owner[w] == owner[u])
  }

  // The units obtained from the system are the free ones and the ones in use, and none is both.
  ghost predicate Partition(free: seq<Block>, owner: map<int, Block>, region: set<int>) {
    && (forall u :: u in region <==> Covers(free, u) || u in owner)
    && (forall u :: u in owner ==> !Covers(free, u))
  }

  // The block at address a is in use.
  ghost predicate InUse(owner: map<int, Block>, b: Block) {
    b.addr in owner && owner[b.addr] == b
  }

  ghost function OwnerPlus(owner: map<int, Block>, b: Block): (o: map<int, Block>) {
    owner + map u | u in UnitsOf(b) :: b
  }

  lemma {:induction false} OwnedPlus(owner: map<int, Block>, b: Block)
    requires Owned(owner) && forall u :: Holds(b, u) ==> u !in owner
    ensures Owned(OwnerPlus(owner, b))
  {
    var o := OwnerPlus(owner, b);
    assert forall u :: u in o ==> o[u] == if Holds(b, u) then b else owner[u];
    forall u, w | u in o && Holds(o[u], w) ensures w in o && o[w] == o[u] {
      if !Holds(b, u) { assert w in owner && owner[w] == owner[u]; }
    }
  }

  lemma {:induction false} OwnerBack(owner: map<int, Block>, b: Block)
    requires forall u :: Holds(b, u) ==> u !in owner
    ensures OwnerPlus(owner, b) - UnitsOf(b) == owner
  {
  }

  lemma {:induction false} OwnedMinus(owner: map<int, Block>, b: Block)
    requires Owned(owner) && InUse(owner, b)
    ensures Owned(owner - UnitsOf(b))
  {
    var owner' := owner - UnitsOf(b);
    forall u, w | u in owner' && Holds(owner'[u], w) ensures w in owner' && owner'[w] == owner'[u] {
      assert w in owner && owner[w] == owner[u];
    }
  }

  lemma {:induction false} ReleasedPartition(base: int, free: seq<Block>, k: int, b: Block,
                                             owner: map<int, Block>, region: set<int>)
    requires Ordered(base, free) && FitsBehind(free, k, b)
    requires Owned(owner) && Partition(free, owner, region) && InUse(owner, b)
    ensures forall u :: Covers(Released(free, k, b), u) <==> Covers(free, u) || Holds(b, u)
    ensures Owned(owner - UnitsOf(b)) && Partition(Released(free, k, b), owner - UnitsOf(b), region)
  {
    forall u ensures Covers(Released(free, k, b), u) <==> Covers(free, u) || Holds(b, u) {
      ReleasedCovers(base, free, k, b, u);
    }
    OwnedMinus(owner, b);
    assert forall u :: Holds(owner[b.addr], u) ==> u in owner;
  }

  lemma {:induction false} CarvedPartition(base: int, free: seq<Block>, v: int, n: int,
                                           owner: map<int, Block>, region: set<int>)
    requires Ordered(base, free) && 1 <= v < |free| && 0 < n <= free[v].size
    requires Owned(owner) && Partition(free, owner, region)
    ensures var b := Taken(free, v, n);
            && (forall u :: Covers(Carved(free, v, n), u) <==> Covers(free, u) && !Holds(b, u))
            && (forall u :: Holds(b, u) ==> Covers(free, u))
            && Owned(OwnerPlus(owner, b)) && Partition(Carved(free, v, n), OwnerPlus(owner, b), region)
  {
    var b := Taken(free, v, n);
    forall u ensures Covers(Carved(free, v, n), u) <==> Covers(free, u) && !Holds(b, u) {
      CarvedCovers(base, free, v, n, u);
    }
    forall u | Holds(b, u) ensures Covers(free, u) { assert Holds(free[v], u); }
    OwnedPlus(owner, b);
  }

  ghost predicate Within(b: Block, c: Block) {
    c.addr <= b.addr && End(b) <= End(c)
  }

  lemma {:induction false} ReleasedTogether(free: seq<Block>, k: int, b: Block)
    requires FitsBehind(free, k, b) && forall i :: 0 <= i < |free| ==> free[i].size >= 0
    ensures var r := Released(free, k, b); exists i :: 0 <= i < |r| && Within(b, r[i])
  {
    var r := Released(free, k, b);
    assert Within(b, r[if JoinsPrevious(free, k, b) then k else k + 1]);
  }

  // ----- Going round the list -----

  // The index c steps after s on a circle of n.
  ghost function Rot(s: int, c: int, n: int): (i: int) {
    if s + c < n then s + c else s + c - n
  }

  // How many steps after s index i is first reached.
  ghost function Steps(s: int, i: int, n: int): (c: int) {
    if i > s then i - s else n - s + i
  }

  ghost predicate Fits(free: seq<Block>, n: int) {
    exists i :: 0 <= i < |free| && free[i].size >= n
  }

  ghost function Granted(grant: int, nbytes: Uint): (b: Block) {
    Block(grant, AtLeast(UnitsFor(nbytes)))
  }

  lemma {:induction false} GrantFits(free: seq<Block>, b: Block, n: int)
    requires b.size >= n && exists i :: 0 <= i < |free| && Within(b, free[i])
    ensures Fits(free, n)
  {
    var i :| 0 <= i < |free| && Within(b, free[i]);
    assert free[i].size >= n;
  }

  // ----- The allocator -----

  class Allocator {
    const base: int
    // The fields s.ptr and s.size of the header at an address.
    var ptr: map<int, int>
    var size: map<int, int>
    var freep: int  // 0 before the first call

    ghost var free: seq<Block>
    ghost var at: int  // where freep is in the list
    ghost var owner: map<int, Block>  // the block in use that a unit belongs to
    ghost var region: set<int>  // the units obtained so far
    ghost var top: int

    // The circular list and its abstraction.
    ghost predicate ListValid()
      reads this`ptr, this`size, this`freep, this`free, this`at
    {
      Ordered(base, free) && Linked(free, ptr, size) && 0 <= at < |free| && free[at].addr == freep && base > 0
    }

    ghost predicate Valid()
      reads this
    {
      && 0 < base < top && Owned(owner) && Partition(free, owner, region)
      && (forall u :: u in owner ==> owner[u].addr in size && size[owner[u].addr] == owner[u].size)
      && (forall u :: u in region ==> base < u < top)
      && if freep == 0 then free == [] && owner == map[] else ListValid()
    }

    constructor (base: int)
      requires base > 0
      ensures Valid() && freep == 0 && owner == map[] && region == {} && this.base == base
    {
      this.base := base;
      ptr, size, freep := map[], map[], 0;
      free, at, owner, region, top := [], 0, map[], {}, base + 1;
    }

    // The search of free(): the block behind which bp belongs.
    method FindSlot(bp: int) returns (p: int)
      requires ListValid() && base < bp && forall i :: 0 <= i < |free| ==> free[i].addr != bp
      ensures p == free[Position(free, |free|, bp)].addr
    {
      ghost var n, k, i := |free|, Position(free, |free|, bp), at;
      forall j | 0 <= j < k ensures free[j].addr < free[k].addr { assert Gap(free, j, k); }
      p := freep;
      assert LinkedAt(free, ptr, size, i);
      while !(bp > p && bp < ptr[p])
        invariant 0 <= i < n && p == free[i].addr && LinkedAt(free, ptr, size, i)
        decreases if i <= k then k - i else n - i + k
      {
        if i + 1 < n { assert Gap(free, i, i + 1); }
        if 0 < i { assert Gap(free, 0, i); }
        if p >= ptr[p] && (bp > p || bp < ptr[p]) {
          break;
        }
        p := ptr[p];
        i := Next(i, n);
        assert LinkedAt(free, ptr, size, i);
      }
    }

    // Where a block in use lies relative to the free list.
    lemma {:induction false} UsedIsApart(b: Block)
      requires Valid() && InUse(owner, b)
      ensures freep != 0 && base < b.addr && b.size > 0 && Disjoint(free, b)
      ensures forall i :: 0 <= i < |free| ==> free[i].addr != b.addr
    {
      forall i | 0 <= i < |free| ensures End(free[i]) <= b.addr || End(b) <= free[i].addr {
        if i > 0 {
          var u := if free[i].addr <= b.addr then b.addr else free[i].addr;
          assert Holds(free[i], u) ==> Covers(free, u);
          assert Holds(owner[b.addr], u) ==> u in owner;
        }
      }
    }

    // No free block starts where a block in use does.
    lemma {:induction false} FreeIsNotUsed(i: int, u: int)
      requires Valid() && freep != 0 && 0 <= i < |free| && u in owner
      ensures owner[u].addr != free[i].addr && free[i].addr > 0
    {
      assert Holds(owner[u], owner[u].addr);
      assert owner[u].addr in region;
      if i > 0 { assert Holds(free[i], free[i].addr) && Covers(free, free[i].addr); }
    }

    // Join the block at bp with its neighbours, p being the one before it.
    method Join(p: int, bp: int)
      requires p in ptr && p in size && bp in size && (bp + size[bp] == ptr[p] ==> ptr[p] in ptr && ptr[p] in size)
      modifies this`ptr, this`size
      ensures (ptr, size) == Rejoined(old(ptr), old(size), p, bp)
    {
      if bp + size[bp] == ptr[p] {
        size := size[bp := size[bp] + size[ptr[p]]];
        ptr := ptr[bp := ptr[ptr[p]]];
      } else {
        ptr := ptr[bp := ptr[p]];
      }
      if p + size[p] == bp {
        size := size[p := size[p] + size[bp]];
        ptr := ptr[p := ptr[bp]];
      } else {
        ptr := ptr[p := bp];
      }
    }

    // Put the block at bp on the list.
    method Relink(bp: int, ghost b: Block)
      requires ListValid() && b.addr == bp && bp in size && size[bp] == b.size
      requires base < bp && b.size > 0 && Disjoint(free, b) && forall i :: 0 <= i < |free| ==> free[i].addr != bp
      modifies this`ptr, this`size, this`freep, this`free, this`at
      ensures ListValid() && freep != 0
      ensures var k := old(Position(free, |free|, bp));
              && free == Released(old(free), k, b)
              && forall a :: a != bp && a != old(free)[k].addr && a in old(size) ==>
                   a in size && size[a] == old(size)[a]
    {
      PositionFits(base, free, b);
      ghost var k := Position(free, |free|, bp);
      HeadersReleased(base, free, k, b, ptr, size);
      ReleasedOrdered(base, free, k, b);
      RejoinedElsewhere(ptr, size, free[k].addr, bp);
      var p := FindSlot(bp);
      if k > 0 { assert Gap(free, 0, k); }
      Join(p, bp);
      freep := p;
      free, at := Released(free, k, b), k;
    }

    method Free(ap: int)
      requires Valid() && ap - 1 in owner && owner[ap - 1].addr == ap - 1
      modifies this
      ensures Valid() && freep != 0 && region == old(region) && top == old(top)
      ensures owner == old(owner) - UnitsOf(old(owner[ap - 1]))
      ensures forall u :: Covers(free, u) <==> Covers(old(free), u) || Holds(old(owner[ap - 1]), u)
      // The released units are together in one free block.
      ensures exists i :: 0 <= i < |free| && Within(old(owner[ap - 1]), free[i])
    {
      var bp := ap - 1;
      ghost var b := owner[bp];
      UsedIsApart(b);
      PositionFits(base, free, b);
      ghost var k := Position(free, |free|, bp);
      ReleasedPartition(base, free, k, b, owner, region);
      ReleasedTogether(free, k, b);
      forall u | u in owner ensures owner[u].addr != free[k].addr { FreeIsNotUsed(k, u); }
      Relink(bp, b);
      owner := owner - UnitsOf(b);
    }

    // Take nunits off block v, whose predecessor is at prevp.
    method Unlink(prevp: int, p: int, nunits: int, ghost v: int) returns (hp: int)
      requires ListValid() && 1 <= v < |free| && prevp == free[v - 1].addr && p == free[v].addr
      requires 0 < nunits <= free[v].size
      modifies this`ptr, this`size, this`freep, this`free, this`at
      ensures ListValid() && freep != 0
      ensures free == Carved(old(free), v, nunits) && hp == Taken(old(free), v, nunits).addr
      ensures hp in size && size[hp] == nunits
      ensures forall a :: a != hp && a != p && a in old(size) ==> a in size && size[a] == old(size)[a]
    {
      CarvedOrdered(base, free, v, nunits);
      assert LinkedAt(free, ptr, size, v) && LinkedAt(free, ptr, size, v - 1);
      if v > 1 { assert Gap(free, 0, v - 1); }
      if size[p] == nunits {
        HeadersUnlinked(base, free, v, ptr, size);
        ptr := ptr[prevp := ptr[p]];
        hp := p;
      } else {
        HeadersSplit(base, free, v, nunits, ptr, size);
        size := size[p := size[p] - nunits];
        hp := p + size[p];
        size := size[hp := nunits];
      }
      freep := prevp;
      free, at := Carved(free, v, nunits), v - 1;
    }

    method Take(prevp: int, p: int, nunits: int, ghost v: int) returns (ap: int)
      requires Valid() && freep != 0 && 1 <= v < |free| && prevp == free[v - 1].addr && p == free[v].addr
      requires 0 < nunits <= free[v].size
      modifies this
      ensures Valid() && freep != 0 && region == old(region) && top == old(top)
      ensures var b := Taken(old(free), v, nunits);
              && ap == b.addr + 1 && b.addr > 0 && owner == OwnerPlus(old(owner), b)
              && (forall u :: Holds(b, u) ==> Covers(old(free), u))
              && forall u :: Covers(free, u) <==> Covers(old(free), u) && !Holds(b, u)
    {
      ghost var b := Taken(free, v, nunits);
      assert Gap(free, 0, v);
      forall u | u in owner ensures owner[u].addr != free[v].addr && owner[u].addr != b.addr {
        FreeIsNotUsed(v, u);
        assert Holds(owner[u], owner[u].addr) && Holds(free[v], b.addr) && Covers(free, b.addr);
      }
      CarvedPartition(base, free, v, nunits, owner, region);
      var hp := Unlink(prevp, p, nunits, v);
      owner := OwnerPlus(owner, b);
      ap := hp + 1;
    }

    // Make the units the system granted a block in use.
    method Adopt(grant: int, nu: nat)
      requires Valid() && freep != 0 && grant >= top && nu > 0
      modifies this`size, this`owner, this`region, this`top
      ensures Valid() && owner == OwnerPlus(old(owner), Block(grant, nu)) && InUse(owner, Block(grant, nu))
      ensures owner - UnitsOf(Block(grant, nu)) == old(owner) && region == old(region) + UnitsOf(Block(grant, nu))
    {
      ghost var b := Block(grant, nu);
      NewUnits(b);
      size, owner, region, top := size[grant := nu], OwnerPlus(owner, b), region + UnitsOf(b), grant + nu;
    }

    // Units above everything obtained so far collide with nothing.
    lemma {:induction false} NewUnits(b: Block)
      requires Valid() && freep != 0 && b.addr >= top && b.size > 0
      ensures Owned(OwnerPlus(owner, b)) && OwnerPlus(owner, b) - UnitsOf(b) == owner
      ensures Partition(free, OwnerPlus(owner, b), region + UnitsOf(b))
      ensures Linked(free, ptr, size[b.addr := b.size])
      ensures forall u :: u in owner ==> owner[u].addr < b.addr
    {
      OwnedPlus(owner, b);
      OwnerBack(owner, b);
      var size' := size[b.addr := b.size];
      forall i | 0 <= i < |free| ensures LinkedAt(free, ptr, size', i) {
        assert LinkedAt(free, ptr, size, i);
        if i > 0 { assert Holds(free[i], free[i].addr) && Covers(free, free[i].addr); }
      }
      forall u | u in owner ensures owner[u].addr < b.addr {
        assert Holds(owner[u], owner[u].addr);
        assert owner[u].addr in region;
      }
    }

    // Ask the system for more units; grant is its answer, -1 when it refuses. An answer to a request
    // that was not for more memory has nothing behind it, so the header is written outside the memory
    // of the process: a fault.
    method MoreCore(nunits: nat, grant: int) returns (p: int, fault: bool)
      requires Valid() && freep != 0 && (grant == -1 || grant >= top)
      modifies this
      ensures Valid() && freep != 0 && owner == old(owner)
      ensures fault <==> grant != -1 && Request(AtLeast(nunits)) <= 0
      ensures grant == -1 || fault ==> p == 0 && free == old(free) && at == old(at) && region == old(region)
      ensures grant != -1 && !fault ==>
                var b := Block(grant, AtLeast(nunits));
                && p == freep && region == old(region) + UnitsOf(b)
                && (forall u :: Covers(free, u) <==> Covers(old(free), u) || Holds(b, u))
                && exists i :: 0 <= i < |free| && Within(b, free[i])
    {
      var nu := AtLeast(nunits);
      if grant == -1 { return 0, false; }
      if Request(nu) <= 0 { return 0, true; }
      Adopt(grant, nu);
      Free(grant + 1);
      return freep, false;
    }

    // The block that malloc and morecore see when they start a fresh heap.
    method Start()
      requires Valid()
      modifies this`ptr, this`size, this`freep, this`free, this`at
      ensures Valid() && freep != 0
      ensures old(freep) != 0 ==> free == old(free) && at == old(at)
      ensures forall u :: Covers(free, u) <==> Covers(old(free), u)
      ensures forall n :: n > 0 ==> (Fits(free, n) <==> Fits(old(free), n))
    {
      if freep == 0 {
        ptr, freep := ptr[base := base], base;
        size := size[base := 0];
        free, at := [Block(base, 0)], 0;
        assert LinkedAt(free, ptr, size, 0);
      }
    }

    // One pass over the list from freep. Either the block at p, which comes after the one at
    // prevp, is the first that is large enough, or none is and p is back at freep.
    method Search(nunits: nat) returns (found: bool, prevp: int, p: int, ghost v: int)
      requires ListValid() && nunits > 0
      ensures found <==> Fits(free, nunits)
      ensures found ==> 1 <= v < |free| && prevp == free[v - 1].addr && p == free[v].addr && free[v].size >= nunits
      ensures found ==> forall d :: 1 <= d <= Steps(at, v, |free|) - 1 ==> free[Rot(at, d, |free|)].size < nunits
      ensures !found ==> p == freep
    {
      ghost var n, c := |free|, 0;
      prevp := freep;
      assert LinkedAt(free, ptr, size, at);
      p := ptr[prevp];
      v := Next(at, n);
      assert LinkedAt(free, ptr, size, v);
      while true
        invariant 0 <= c < n && prevp == free[Rot(at, c, n)].addr && v == Rot(at, c + 1, n)
        invariant p == free[v].addr && LinkedAt(free, ptr, size, v)
        invariant forall d :: 1 <= d <= c ==> free[Rot(at, d, n)].size < nunits
        decreases n - c
      {
        if size[p] >= nunits {
          assert free[v].size >= nunits;
          return true, prevp, p, v;
        }
        if p == freep {
          SameBlock(v, at);
          forall i | 0 <= i < n ensures free[i].size < nunits {
            assert i == Rot(at, Steps(at, i, n), n);
          }
          return false, prevp, p, v;
        }
        prevp := p;
        p := ptr[p];
        v := Next(v, n);
        c := c + 1;
        assert LinkedAt(free, ptr, size, v);
      }
    }

    lemma {:induction false} SameBlock(i: int, j: int)
      requires ListValid() && 0 <= i < |free| && 0 <= j < |free|
      ensures free[i].addr == free[j].addr <==> i == j
    {
      if i < j { assert Gap(free, i, j); } else if j < i { assert Gap(free, j, i); }
    }

    // Nothing fits: ask for more and search the list once more, which is enough.
    method SearchAgain(nunits: nat, ghost nbytes: Uint, grant: int)
      returns (found: bool, fault: bool, prevp: int, p: int, ghost v: int)
      requires Valid() && freep != 0 && (grant == -1 || grant >= top) && nunits == UnitsFor(nbytes)
      modifies this
      ensures Valid() && freep != 0 && owner == old(owner)
      ensures fault <==> grant != -1 && nunits >= UINT_RANGE / 2 / HEADER_BYTES
      ensures found <==> grant != -1 && !fault
      ensures !found ==> free == old(free) && region == old(region)
      ensures found ==>
                && region == old(region) + UnitsOf(Granted(grant, nbytes))
                && (forall u :: Covers(free, u) <==> Covers(old(free), u) || Holds(Granted(grant, nbytes), u))
                && 1 <= v < |free| && prevp == free[v - 1].addr && p == free[v].addr && free[v].size >= nunits
    {
      RequestExact(AtLeast(nunits));
      prevp, v := 0, 0;
      p, fault := MoreCore(nunits, grant);
      found := grant != -1 && !fault;
      if found {
        GrantFits(free, Granted(grant, nbytes), nunits);
        found, prevp, p, v := Search(nunits);
      }
    }

    // A block of UnitsFor(nbytes) units, or 0. The list is searched once more after a grant, and
    // that search always succeeds. Nothing has changed when morecore() faults.
    method Malloc(nbytes: Uint, grant: int) returns (ap: int, fault: bool)
      requires Valid() && (grant == -1 || grant >= top)
      modifies this
      ensures Valid() && freep != 0
      ensures fault <==>
                !Fits(old(free), UnitsFor(nbytes)) && grant != -1 && UnitsFor(nbytes) >= UINT_RANGE / 2 / HEADER_BYTES
      ensures ap == 0 <==> fault || (!Fits(old(free), UnitsFor(nbytes)) && grant == -1)
      ensures ap == 0 ==> owner == old(owner) && region == old(region)
      ensures ap == 0 ==> forall u :: Covers(free, u) <==> Covers(old(free), u)
      // The system is asked only when nothing fits, and for at least MIN_UNITS units.
      ensures ap != 0 ==>
                region == old(region)
                          + if Fits(old(free), UnitsFor(nbytes)) then {} else UnitsOf(Granted(grant, nbytes))
      // The block is made of units that were free or just granted, and only they change hands.
      ensures ap != 0 ==>
                var b := Block(ap - 1, UnitsFor(nbytes));
                && owner == OwnerPlus(old(owner), b)
                && (forall u :: Holds(b, u) ==> u in region && u !in old(owner))
                && forall u :: Covers(free, u) <==> u in region && u !in old(owner) && !Holds(b, u)
    {
      var nunits := UnitsFor(nbytes);
      Start();
      var found, prevp, p, v := Search(nunits);
      fault := false;
      if !found {
        found, fault, prevp, p, v := SearchAgain(nunits, nbytes, grant);
        if !found { return 0, fault; }
      }
      ap := Take(prevp, p, nunits, v);
    }

    // Free and allocated units together are the units obtained.
    lemma {:induction false} Conservation()
      requires Valid()
      ensures |region| == |set u | u in region && Covers(free, u)| + |owner|
    {
      var f := set u | u in region && Covers(free, u);
      assert forall u :: u in owner ==> u in region;
      assert region == f + owner.Keys && f !! owner.Keys;
    }

    // Freeing a block just obtained restores the free list, block by block.
    method MallocThenFree(nbytes: Uint) returns (ap: int)
      requires Valid() && freep != 0
      modifies this
      ensures Valid() && free == old(free) && owner == old(owner) && region == old(region)
      ensures ap != 0 <==> Fits(old(free), UnitsFor(nbytes))
    {
      ghost var free0, owner0 := free, owner;
      var fault;
      ap, fault := Malloc(nbytes, -1);
      if ap != 0 {
        ghost var b := Block(ap - 1, UnitsFor(nbytes));
        assert Holds(b, ap - 1);
        OwnerBack(owner0, b);
        Free(ap);
      }
      Canonical(base, free, free0);
    }
  }
}
