/**
 The layout of files on disk: block addresses in an inode and in its indirect block, and
 the bitmap of blocks in use.
 */
module FsLayout {

  const BSIZE: nat := 512
  const NDIRECT: nat := 12
  const NINDIRECT: nat := 128  // BSIZE / sizeof(uint)
  const MAXFILE: nat := 140  // NDIRECT + NINDIRECT
  const BPB: nat := 4096  // bitmap bits per block
  const IPB: nat := 8  // inodes per block
  const UINT_RANGE := 0x1_0000_0000

  type Byte = x: int | 0 <= x < 256

  type Block = b: seq<Byte> | |b| == BSIZE witness seq(BSIZE, _ => 0)

  const ZERO: Block := seq(BSIZE, _ => 0)

  // The part of an inode that describes its contents. addrs[NDIRECT] is the indirect block.
  datatype Inode = Inode(addrs: seq<int>, size: int)

  // ----- Words in a block -----

  function Word(b: Block, j: int): (v: int)
    requires 0 <= j < NINDIRECT
    ensures 0 <= v < UINT_RANGE
  {
    var x0: int, x1: int, x2: int, x3: int := b[4 * j], b[4 * j + 1], b[4 * j + 2], b[4 * j + 3];
    x0 + 256 * x1 + 65536 * x2 + 16777216 * x3
  }

  function PutWord(b: Block, j: int, v: int): (r: Block)
    requires 0 <= j < NINDIRECT && 0 <= v < UINT_RANGE
  {
    b[4 * j := v % 256][4 * j + 1 := v / 256 % 256][4 * j + 2 := v / 65536 % 256][4 * j + 3 := v / 16777216 % 256]
  }

  lemma {:induction false} PutWordWorks(b: Block, j: int, v: int, i: int)
    requires 0 <= j < NINDIRECT && 0 <= v < UINT_RANGE && 0 <= i < NINDIRECT
    ensures Word(PutWord(b, j, v), i) == if i == j then v else Word(b, i)
  {
    if i == j {
      assert v == v % 256 + 256 * (v / 256);
      assert v / 256 == v / 256 % 256 + 256 * (v / 65536);
      assert v / 65536 == v / 65536 % 256 + 256 * (v / 16777216);
    }
  }

  function Words(b: Block): (w: seq<int>)
    ensures |w| == NINDIRECT
  {
    seq(NINDIRECT, j requires 0 <= j < NINDIRECT => Word(b, j))
  }

  lemma {:induction false} WordsAfterPut(b: Block, j: int, v: int)
    requires 0 <= j < NINDIRECT && 0 <= v < UINT_RANGE
    ensures Words(PutWord(b, j, v)) == Words(b)[j := v]
  {
    forall i | 0 <= i < NINDIRECT ensures Words(PutWord(b, j, v))[i] == Words(b)[j := v][i] {
      PutWordWorks(b, j, v, i);
    }
  }

  lemma {:induction false} ZeroWords()
    ensures forall j :: 0 <= j < NINDIRECT ==> Words(ZERO)[j] == 0
  {
    forall j | 0 <= j < NINDIRECT ensures Words(ZERO)[j] == 0 { assert Word(ZERO, j) == 0; }
  }

  // ----- Bits in the bitmap -----

  function Mask(k: int): (m: bv8)
    requires 0 <= k < 8
  {
    (1 as bv8) << k
  }

  predicate Bit(bits: seq<bv8>, b: int)
    requires 0 <= b < 8 * |bits|
  {
    bits[b / 8] & Mask(b % 8) != 0
  }

  function SetBit(bits: seq<bv8>, b: int): (r: seq<bv8>)
    requires 0 <= b < 8 * |bits|
    ensures |r| == |bits|
  {
    bits[b / 8 := bits[b / 8] | Mask(b % 8)]
  }

  function ClearBit(bits: seq<bv8>, b: int): (r: seq<bv8>)
    requires 0 <= b < 8 * |bits|
    ensures |r| == |bits|
  {
    bits[b / 8 := bits[b / 8] & !Mask(b % 8)]
  }

  lemma {:induction false} MaskSet(x: bv8, j: int, k: int)
    requires 0 <= j < 8 && 0 <= k < 8
    ensures (x | Mask(k)) & Mask(j) != 0 <==> j == k || x & Mask(j) != 0
  {
  }

  lemma {:induction false} MaskCleared(x: bv8, j: int, k: int)
    requires 0 <= j < 8 && 0 <= k < 8
    ensures (x & !Mask(k)) & Mask(j) != 0 <==> j != k && x & Mask(j) != 0
  {
  }

  lemma {:induction false} BitSet(bits: seq<bv8>, b: int, c: int)
    requires 0 <= b < 8 * |bits| && 0 <= c < 8 * |bits|
    ensures Bit(SetBit(bits, b), c) <==> c == b || Bit(bits, c)
  {
    if c / 8 == b / 8 {
      assert c % 8 == b % 8 <==> c == b;
      MaskSet(bits[b / 8], c % 8, b % 8);
    }
  }

  lemma {:induction false} BitCleared(bits: seq<bv8>, b: int, c: int)
    requires 0 <= b < 8 * |bits| && 0 <= c < 8 * |bits|
    ensures Bit(ClearBit(bits, b), c) <==> c != b && Bit(bits, c)
  {
    if c / 8 == b / 8 {
      assert c % 8 == b % 8 <==> c == b;
      MaskCleared(bits[b / 8], c % 8, b % 8);
    }
  }
}

/**
 Which slot of which inode refers to a block. Slots 0 .. NDIRECT - 1 are the direct
 addresses, slot NDIRECT is the indirect block and the slots behind it are its entries.
 */
module BlockOwnership {
  import opened FsLayout

  const SLOTS: nat := 141  // NDIRECT + 1 + NINDIRECT

  type Owner = map<int, (int, int)>

  ghost predicate InodeOk(blocks: seq<Block>, ip: Inode) {
    |ip.addrs| == NDIRECT + 1 && 0 <= ip.addrs[NDIRECT] < |blocks|
  }

  ghost function SlotAddr(blocks: seq<Block>, ip: Inode, s: int): (a: int)
    requires InodeOk(blocks, ip) && 0 <= s < SLOTS
  {
    if s <= NDIRECT then ip.addrs[s]
    else if ip.addrs[NDIRECT] == 0 then 0
    else Words(blocks[ip.addrs[NDIRECT]])[s - NDIRECT - 1]
  }

  // A slot is empty or it is the one recorded as the owner of its block.
  ghost predicate SlotOk(blocks: seq<Block>, inodes: seq<Inode>, owner: Owner, n: int, s: int)
    requires 0 <= n < |inodes| && InodeOk(blocks, inodes[n]) && 0 <= s < SLOTS
  {
    var a := SlotAddr(blocks, inodes[n], s);
    a == 0 || (a in owner && owner[a] == (n, s))
  }

  // A block recorded as owned is a data block and its slot refers to it.
  ghost predicate OwnerOk(blocks: seq<Block>, inodes: seq<Inode>, owner: Owner, nmeta: int, b: int)
    requires b in owner
  {
    && nmeta <= b < |blocks|
    && var (n, s) := owner[b];
       0 <= n < |inodes| && 0 <= s < SLOTS && InodeOk(blocks, inodes[n]) && SlotAddr(blocks, inodes[n], s) == b
  }

  // Every block is referred to by at most one slot, and `owner` knows which.
  ghost predicate Owned(blocks: seq<Block>, inodes: seq<Inode>, owner: Owner, nmeta: int) {
    && 0 < nmeta
    && (forall n :: 0 <= n < |inodes| ==> InodeOk(blocks, inodes[n]))
    && (forall n, s :: 0 <= n < |inodes| && 0 <= s < SLOTS ==> SlotOk(blocks, inodes, owner, n, s))
    && (forall b :: b in owner ==> OwnerOk(blocks, inodes, owner, nmeta, b))
  }

  // Owned except that the first k entries of the indirect block of inode n have been released.
  ghost predicate OwnedBut(blocks: seq<Block>, inodes: seq<Inode>, owner: Owner, nmeta: int, n: int, k: int) {
    && 0 < nmeta
    && (forall m :: 0 <= m < |inodes| ==> InodeOk(blocks, inodes[m]))
    && (forall m, s :: 0 <= m < |inodes| && 0 <= s < SLOTS && !(m == n && NDIRECT < s <= NDIRECT + k) ==>
          SlotOk(blocks, inodes, owner, m, s))
    && (forall s :: NDIRECT < s <= NDIRECT + k && s < SLOTS ==> Released(blocks, inodes, owner, n, s))
    && (forall b :: b in owner ==> OwnerOk(blocks, inodes, owner, nmeta, b))
  }

  ghost predicate Released(blocks: seq<Block>, inodes: seq<Inode>, owner: Owner, n: int, s: int) {
    0 <= n < |inodes| && InodeOk(blocks, inodes[n]) && 0 <= s < SLOTS && SlotAddr(blocks, inodes[n], s) !in owner
  }

  // ----- Writing a block that no address is read from -----

  // b is not an indirect block.
  ghost predicate HoldsNoAddresses(inodes: seq<Inode>, b: int) {
    forall m :: 0 <= m < |inodes| && |inodes[m].addrs| == NDIRECT + 1 && inodes[m].addrs[NDIRECT] != 0 ==>
      inodes[m].addrs[NDIRECT] != b
  }

  lemma {:induction false} SameAddresses(blocks: seq<Block>, inodes: seq<Inode>, b: int, x: Block, n: int, s: int)
    requires 0 <= b < |blocks| && HoldsNoAddresses(inodes, b)
    requires 0 <= n < |inodes| && InodeOk(blocks, inodes[n]) && 0 <= s < SLOTS
    ensures SlotAddr(blocks[b := x], inodes[n], s) == SlotAddr(blocks, inodes[n], s)
  {
  }

  lemma {:induction false} NotIndirect(blocks: seq<Block>, inodes: seq<Inode>, owner: Owner, nmeta: int, b: int)
    requires Owned(blocks, inodes, owner, nmeta) && (b in owner ==> owner[b].1 != NDIRECT)
    ensures HoldsNoAddresses(inodes, b)
  {
    forall m | 0 <= m < |inodes| && inodes[m].addrs[NDIRECT] != 0 ensures inodes[m].addrs[NDIRECT] != b {
      assert SlotOk(blocks, inodes, owner, m, NDIRECT);
    }
  }

  lemma {:induction false} DataWritten(blocks: seq<Block>, inodes: seq<Inode>, owner: Owner, nmeta: int, b: int,
                                       x: Block)
    requires Owned(blocks, inodes, owner, nmeta) && 0 <= b < |blocks| && (b in owner ==> owner[b].1 != NDIRECT)
    ensures Owned(blocks[b := x], inodes, owner, nmeta)
  {
    var blocks' := blocks[b := x];
    NotIndirect(blocks, inodes, owner, nmeta, b);
    forall n, s | 0 <= n < |inodes| && 0 <= s < SLOTS ensures SlotOk(blocks', inodes, owner, n, s) {
      assert SlotOk(blocks, inodes, owner, n, s);
      SameAddresses(blocks, inodes, b, x, n, s);
    }
    forall c | c in owner ensures OwnerOk(blocks', inodes, owner, nmeta, c) {
      assert OwnerOk(blocks, inodes, owner, nmeta, c);
      SameAddresses(blocks, inodes, b, x, owner[c].0, owner[c].1);
    }
  }

  // ----- Filling an empty slot -----

  lemma {:induction false} DirectFilled(blocks: seq<Block>, inodes: seq<Inode>, owner: Owner, nmeta: int,
                                        n: int, s: int, b: int)
    requires Owned(blocks, inodes, owner, nmeta) && 0 <= n < |inodes| && 0 <= s <= NDIRECT
    requires inodes[n].addrs[s] == 0 && nmeta <= b < |blocks| && b !in owner && blocks[b] == ZERO
    ensures var ip := inodes[n].(addrs := inodes[n].addrs[s := b]);
            Owned(blocks, inodes[n := ip], owner[b := (n, s)], nmeta)
    ensures var ip := inodes[n].(addrs := inodes[n].addrs[s := b]);
            InodeOk(blocks, ip) && forall t :: 0 <= t < SLOTS && t != s ==>
              SlotAddr(blocks, ip, t) == SlotAddr(blocks, inodes[n], t)
  {
    var ip := inodes[n].(addrs := inodes[n].addrs[s := b]);
    var inodes', owner' := inodes[n := ip], owner[b := (n, s)];
    ZeroWords();
    assert forall t :: 0 <= t < SLOTS && t != s ==> SlotAddr(blocks, ip, t) == SlotAddr(blocks, inodes[n], t);
    forall m, t | 0 <= m < |inodes'| && 0 <= t < SLOTS ensures SlotOk(blocks, inodes', owner', m, t) {
      assert SlotOk(blocks, inodes, owner, m, t);
    }
    forall c | c in owner' ensures OwnerOk(blocks, inodes', owner', nmeta, c) {
      if c != b { assert OwnerOk(blocks, inodes, owner, nmeta, c); }
    }
  }

  lemma {:induction false} EntryFilled(blocks: seq<Block>, inodes: seq<Inode>, owner: Owner, nmeta: int,
                                       n: int, j: int, b: int)
    requires Owned(blocks, inodes, owner, nmeta) && 0 <= n < |inodes| && 0 <= j < NINDIRECT
    requires inodes[n].addrs[NDIRECT] != 0 && Words(blocks[inodes[n].addrs[NDIRECT]])[j] == 0
    requires nmeta <= b < |blocks| && b !in owner && b < UINT_RANGE
    ensures var x := inodes[n].addrs[NDIRECT];
            var blocks' := blocks[x := PutWord(blocks[x], j, b)];
            && Owned(blocks', inodes, owner[b := (n, NDIRECT + 1 + j)], nmeta)
            && forall m, t :: 0 <= m < |inodes| && 0 <= t < SLOTS && !(m == n && t == NDIRECT + 1 + j) ==>
                 SlotAddr(blocks', inodes[m], t) == SlotAddr(blocks, inodes[m], t)
  {
    var x := inodes[n].addrs[NDIRECT];
    var blocks', owner' := blocks[x := PutWord(blocks[x], j, b)], owner[b := (n, NDIRECT + 1 + j)];
    WordsAfterPut(blocks[x], j, b);
    forall m, t | 0 <= m < |inodes| && 0 <= t < SLOTS && !(m == n && t == NDIRECT + 1 + j)
      ensures SlotAddr(blocks', inodes[m], t) == SlotAddr(blocks, inodes[m], t)
    {
      assert SlotOk(blocks, inodes, owner, m, NDIRECT) && SlotOk(blocks, inodes, owner, n, NDIRECT);
    }
    forall m, t | 0 <= m < |inodes| && 0 <= t < SLOTS ensures SlotOk(blocks', inodes, owner', m, t) {
      assert SlotOk(blocks, inodes, owner, m, t);
    }
    forall c | c in owner' ensures OwnerOk(blocks', inodes, owner', nmeta, c) {
      if c != b { assert OwnerOk(blocks, inodes, owner, nmeta, c); }
    }
  }

  // ----- Emptying slots -----

  lemma {:induction false} DirectReleased(blocks: seq<Block>, inodes: seq<Inode>, owner: Owner, nmeta: int, n: int,
                                          s: int)
    requires Owned(blocks, inodes, owner, nmeta) && 0 <= n < |inodes| && 0 <= s < NDIRECT
    ensures var a := inodes[n].addrs[s];
            var ip := inodes[n].(addrs := inodes[n].addrs[s := 0]);
            && (a != 0 ==> a in owner && nmeta <= a < |blocks|)
            && Owned(blocks, inodes[n := ip], owner - {a}, nmeta)
  {
    var a := inodes[n].addrs[s];
    var ip := inodes[n].(addrs := inodes[n].addrs[s := 0]);
    var inodes', owner' := inodes[n := ip], owner - {a};
    assert SlotOk(blocks, inodes, owner, n, s);
    if a in owner { assert OwnerOk(blocks, inodes, owner, nmeta, a); }
    forall m, t | 0 <= m < |inodes'| && 0 <= t < SLOTS ensures SlotOk(blocks, inodes', owner', m, t) {
      assert SlotOk(blocks, inodes, owner, m, t);
    }
    forall c | c in owner' ensures OwnerOk(blocks, inodes', owner', nmeta, c) {
      assert OwnerOk(blocks, inodes, owner, nmeta, c);
    }
  }

  lemma {:induction false} EntryReleased(blocks: seq<Block>, inodes: seq<Inode>, owner: Owner, nmeta: int, n: int,
                                         k: int)
    requires OwnedBut(blocks, inodes, owner, nmeta, n, k) && 0 <= n < |inodes| && 0 <= k < NINDIRECT
    requires inodes[n].addrs[NDIRECT] != 0
    ensures var a := Words(blocks[inodes[n].addrs[NDIRECT]])[k];
            && (a != 0 ==> a in owner && nmeta <= a < |blocks|)
            && OwnedBut(blocks, inodes, owner - {a}, nmeta, n, k + 1)
  {
    var a := Words(blocks[inodes[n].addrs[NDIRECT]])[k];
    var owner' := owner - {a};
    assert SlotOk(blocks, inodes, owner, n, NDIRECT + 1 + k);
    if a in owner { assert OwnerOk(blocks, inodes, owner, nmeta, a); }
    forall m, t | 0 <= m < |inodes| && 0 <= t < SLOTS && !(m == n && NDIRECT < t <= NDIRECT + k + 1)
      ensures SlotOk(blocks, inodes, owner', m, t)
    {
      assert SlotOk(blocks, inodes, owner, m, t);
    }
    forall t | NDIRECT < t <= NDIRECT + k + 1 && t < SLOTS ensures Released(blocks, inodes, owner', n, t) {
      if t <= NDIRECT + k { assert Released(blocks, inodes, owner, n, t); }
    }
    forall c | c in owner' ensures OwnerOk(blocks, inodes, owner', nmeta, c) {
      assert OwnerOk(blocks, inodes, owner, nmeta, c);
    }
  }

  lemma {:induction false} NothingReleased(blocks: seq<Block>, inodes: seq<Inode>, owner: Owner, nmeta: int, n: int)
    requires Owned(blocks, inodes, owner, nmeta)
    ensures OwnedBut(blocks, inodes, owner, nmeta, n, 0)
  {
  }

  lemma {:induction false} IndirectReleased(blocks: seq<Block>, inodes: seq<Inode>, owner: Owner, nmeta: int, n: int)
    requires OwnedBut(blocks, inodes, owner, nmeta, n, NINDIRECT) && 0 <= n < |inodes| && inodes[n].addrs[NDIRECT] != 0
    ensures var x := inodes[n].addrs[NDIRECT];
            var ip := inodes[n].(addrs := inodes[n].addrs[NDIRECT := 0]);
            && x in owner && nmeta <= x < |blocks|
            && Owned(blocks, inodes[n := ip], owner - {x}, nmeta)
  {
    var x := inodes[n].addrs[NDIRECT];
    var ip := inodes[n].(addrs := inodes[n].addrs[NDIRECT := 0]);
    var inodes', owner' := inodes[n := ip], owner - {x};
    assert SlotOk(blocks, inodes, owner, n, NDIRECT);
    assert OwnerOk(blocks, inodes, owner, nmeta, x);
    forall m, t | 0 <= m < |inodes'| && 0 <= t < SLOTS ensures SlotOk(blocks, inodes', owner', m, t) {
      if m != n || t <= NDIRECT { assert SlotOk(blocks, inodes, owner, m, t); }
    }
    forall t | NDIRECT < t < SLOTS ensures SlotAddr(blocks, inodes[n], t) !in owner {
      assert Released(blocks, inodes, owner, n, t);
    }
    forall c | c in owner' ensures OwnerOk(blocks, inodes', owner', nmeta, c) {
      assert OwnerOk(blocks, inodes, owner, nmeta, c);
    }
  }
}

/**
 The contents of files as flat byte arrays.

 A file has `nb` blocks, all of its first ones, and its bytes are spread over them.
 */
module FileContents {
  import opened FsLayout
  import opened BlockOwnership

  // The slot of block bn of a file.
  function FileSlot(bn: int): (s: int) {
    if bn < NDIRECT then bn else bn + 1
  }

  ghost function FileAddr(blocks: seq<Block>, ip: Inode, bn: int): (a: int)
    requires InodeOk(blocks, ip) && 0 <= bn < MAXFILE
  {
    SlotAddr(blocks, ip, FileSlot(bn))
  }

  // No holes: exactly the first nb blocks exist.
  ghost predicate HasBlock(blocks: seq<Block>, ip: Inode, nb: int, bn: int)
    requires InodeOk(blocks, ip) && 0 <= bn < MAXFILE
  {
    FileAddr(blocks, ip, bn) != 0 <==> bn < nb
  }

  ghost predicate ByteOk(blocks: seq<Block>, ip: Inode, c: seq<Byte>, i: int)
    requires InodeOk(blocks, ip) && 0 <= i < |c| && i / BSIZE < MAXFILE
  {
    var a := FileAddr(blocks, ip, i / BSIZE);
    0 <= a < |blocks| && blocks[a][i % BSIZE] == c[i]
  }

  ghost predicate FileOk(blocks: seq<Block>, ip: Inode, nb: int, c: seq<Byte>) {
    && InodeOk(blocks, ip) && 0 <= nb <= MAXFILE && |c| <= nb * BSIZE
    && (forall bn :: 0 <= bn < MAXFILE ==> HasBlock(blocks, ip, nb, bn))
    && (forall i :: 0 <= i < |c| ==> ByteOk(blocks, ip, c, i))
  }

  // Blocks needed for n bytes.
  function BlocksFor(n: int): (nb: nat) {
    if n <= 0 then 0 else BlocksFor(n - BSIZE) + 1
  }

  lemma {:induction false} BlocksForRounds(n: nat)
    ensures BlocksFor(n) == (n + BSIZE - 1) / BSIZE
  {
    if n > BSIZE { BlocksForRounds(n - BSIZE); }
  }

  // c with src written at off, growing it if needed.
  function Overwrite(c: seq<Byte>, off: int, src: seq<Byte>): (r: seq<Byte>)
    requires 0 <= off <= |c|
    ensures |r| == if off + |src| > |c| then off + |src| else |c|
    ensures forall i :: 0 <= i < |r| ==> r[i] == if off <= i < off + |src| then src[i - off] else c[i]
  {
    c[..off] + src + if off + |src| > |c| then [] else c[off + |src|..]
  }

  // A file none of whose addresses and blocks change keeps its contents.
  lemma {:induction false} Unaffected(blocks: seq<Block>, blocks': seq<Block>, ip: Inode, ip': Inode, nb: int,
                                      c: seq<Byte>)
    requires FileOk(blocks, ip, nb, c) && |blocks'| == |blocks| && InodeOk(blocks', ip')
    requires forall s :: 0 <= s < SLOTS && s != NDIRECT ==> SlotAddr(blocks', ip', s) == SlotAddr(blocks, ip, s)
    requires forall bn :: 0 <= bn < nb ==>
               var a := FileAddr(blocks, ip, bn); 0 <= a < |blocks| ==> blocks'[a] == blocks[a]
    ensures FileOk(blocks', ip', nb, c)
  {
    forall bn | 0 <= bn < MAXFILE ensures HasBlock(blocks', ip', nb, bn) {
      assert HasBlock(blocks, ip, nb, bn);
    }
    forall i | 0 <= i < |c| ensures ByteOk(blocks', ip', c, i) {
      assert ByteOk(blocks, ip, c, i);
      assert HasBlock(blocks, ip, nb, i / BSIZE);
    }
  }

  // Writing part of one existing block of a file writes the same bytes of its contents.
  lemma {:induction false} PieceWritten(blocks: seq<Block>, inodes: seq<Inode>, owner: Owner, nmeta: int,
                                        n: int, nb: int, c: seq<Byte>, off: int, src: seq<Byte>)
    requires Owned(blocks, inodes, owner, nmeta) && 0 <= n < |inodes| && FileOk(blocks, inodes[n], nb, c)
    requires 0 <= off <= |c| && |src| > 0 && off / BSIZE < nb && off % BSIZE + |src| <= BSIZE
    ensures var a := FileAddr(blocks, inodes[n], off / BSIZE);
            && nmeta <= a < |blocks| && a in owner && owner[a] == (n, FileSlot(off / BSIZE))
            && var x := Overwrite(blocks[a], off % BSIZE, src);
               && |x| == BSIZE && Owned(blocks[a := x], inodes, owner, nmeta)
               && FileOk(blocks[a := x], inodes[n], nb, Overwrite(c, off, src))
  {
    var bn := off / BSIZE;
    var a := FileAddr(blocks, inodes[n], bn);
    assert HasBlock(blocks, inodes[n], nb, bn) && SlotOk(blocks, inodes, owner, n, FileSlot(bn));
    assert OwnerOk(blocks, inodes, owner, nmeta, a);
    var x := Overwrite(blocks[a], off % BSIZE, src);
    var blocks', c' := blocks[a := x], Overwrite(c, off, src);
    DataWritten(blocks, inodes, owner, nmeta, a, x);
    NotIndirect(blocks, inodes, owner, nmeta, a);
    forall k | 0 <= k < MAXFILE ensures HasBlock(blocks', inodes[n], nb, k) {
      assert HasBlock(blocks, inodes[n], nb, k);
      SameAddresses(blocks, inodes, a, x, n, FileSlot(k));
    }
    forall i | 0 <= i < |c'| ensures ByteOk(blocks', inodes[n], c', i) {
      PieceByte(blocks, inodes, owner, nmeta, n, nb, c, off, src, i);
    }
  }

  lemma {:induction false} PieceByte(blocks: seq<Block>, inodes: seq<Inode>, owner: Owner, nmeta: int,
                                     n: int, nb: int, c: seq<Byte>, off: int, src: seq<Byte>, i: int)
    requires Owned(blocks, inodes, owner, nmeta) && 0 <= n < |inodes| && FileOk(blocks, inodes[n], nb, c)
    requires 0 <= off <= |c| && |src| > 0 && off / BSIZE < nb && off % BSIZE + |src| <= BSIZE
    requires 0 <= i < |Overwrite(c, off, src)|
    ensures var a := FileAddr(blocks, inodes[n], off / BSIZE);
            && 0 <= a < |blocks| && i / BSIZE < MAXFILE
            && var x := Overwrite(blocks[a], off % BSIZE, src);
               |x| == BSIZE && ByteOk(blocks[a := x], inodes[n], Overwrite(c, off, src), i)
  {
    var bn := off / BSIZE;
    var a := FileAddr(blocks, inodes[n], bn);
    assert HasBlock(blocks, inodes[n], nb, bn) && SlotOk(blocks, inodes, owner, n, FileSlot(bn));
    assert OwnerOk(blocks, inodes, owner, nmeta, a);
    NotIndirect(blocks, inodes, owner, nmeta, a);
    var x := Overwrite(blocks[a], off % BSIZE, src);
    var k := i / BSIZE;
    assert off <= i < off + |src| ==> k == bn && i % BSIZE == off % BSIZE + (i - off);
    SameAddresses(blocks, inodes, a, x, n, FileSlot(k));
    assert k < nb;
    assert HasBlock(blocks, inodes[n], nb, k) && SlotOk(blocks, inodes, owner, n, FileSlot(k));
    assert OwnerOk(blocks, inodes, owner, nmeta, FileAddr(blocks, inodes[n], k));
    if !(off <= i < off + |src|) {
      assert ByteOk(blocks, inodes[n], c, i);
      assert k == bn ==> i % BSIZE == off % BSIZE + (i - off);
    }
  }

  lemma {:induction false} OverwriteMore(c: seq<Byte>, off: int, src: seq<Byte>, tot: int, m: int)
    requires 0 <= off <= |c| && 0 <= tot && 0 <= m && tot + m <= |src|
    ensures Overwrite(Overwrite(c, off, src[..tot]), off + tot, src[tot..tot + m]) == Overwrite(c, off, src[..tot + m])
  {
  }

  // Writing a piece of one block keeps a file at the number of blocks its length needs.
  lemma {:induction false} BlocksAfter(len: int, off: int, m: int)
    requires 0 <= off <= len && 0 < m && off % BSIZE + m <= BSIZE
    ensures var nb := BlocksFor(len);
            var len' := if off + m > len then off + m else len;
            BlocksFor(len') == (if off / BSIZE < nb then nb else off / BSIZE + 1) && off / BSIZE <= nb
  {
    BlocksForRounds(len);
    BlocksForRounds(off + m);
  }

  ghost predicate FilesOk(blocks: seq<Block>, inodes: seq<Inode>, nb: seq<int>, contents: seq<seq<Byte>>) {
    && |nb| == |contents| == |inodes|
    && forall n :: 0 <= n < |inodes| ==> FileOk(blocks, inodes[n], nb[n], contents[n])
  }

  // A block that belongs to no other inode than n can change without changing any other file.
  lemma {:induction false} OthersKept(blocks: seq<Block>, inodes: seq<Inode>, owner: Owner, nmeta: int,
                                      b: int, x: Block, n: int, m: int, nb: int, c: seq<Byte>)
    requires Owned(blocks, inodes, owner, nmeta) && 0 <= b < |blocks| && (b in owner ==> owner[b].0 == n)
    requires 0 <= m < |inodes| && m != n && FileOk(blocks, inodes[m], nb, c)
    ensures FileOk(blocks[b := x], inodes[m], nb, c)
  {
    assert SlotOk(blocks, inodes, owner, m, NDIRECT);
    forall bn | 0 <= bn < nb ensures FileAddr(blocks, inodes[m], bn) != b {
      assert SlotOk(blocks, inodes, owner, m, FileSlot(bn)) && HasBlock(blocks, inodes[m], nb, bn);
    }
    Unaffected(blocks, blocks[b := x], inodes[m], inodes[m], nb, c);
  }

  // Zeroing a block nobody owns changes nothing.
  lemma {:induction false} FreeBlockZeroed(blocks: seq<Block>, inodes: seq<Inode>, owner: Owner, nmeta: int,
                                           b: int, nb: seq<int>, contents: seq<seq<Byte>>)
    requires Owned(blocks, inodes, owner, nmeta) && FilesOk(blocks, inodes, nb, contents)
    requires 0 <= b < |blocks| && b !in owner
    ensures Owned(blocks[b := ZERO], inodes, owner, nmeta) && FilesOk(blocks[b := ZERO], inodes, nb, contents)
    ensures forall m, s :: 0 <= m < |inodes| && 0 <= s < SLOTS ==>
              SlotAddr(blocks[b := ZERO], inodes[m], s) == SlotAddr(blocks, inodes[m], s)
  {
    DataWritten(blocks, inodes, owner, nmeta, b, ZERO);
    NotIndirect(blocks, inodes, owner, nmeta, b);
    forall m | 0 <= m < |inodes| ensures FileOk(blocks[b := ZERO], inodes[m], nb[m], contents[m]) {
      OthersKept(blocks, inodes, owner, nmeta, b, ZERO, -1, m, nb[m], contents[m]);
    }
    forall m, s | 0 <= m < |inodes| && 0 <= s < SLOTS
      ensures SlotAddr(blocks[b := ZERO], inodes[m], s) == SlotAddr(blocks, inodes[m], s)
    {
      SameAddresses(blocks, inodes, b, ZERO, m, s);
    }
  }

  // A file gains its next block, at address b.
  lemma {:induction false} BlockGained(blocks: seq<Block>, blocks': seq<Block>, ip: Inode, ip': Inode,
                                       nb: int, c: seq<Byte>, b: int)
    requires FileOk(blocks, ip, nb, c) && nb < MAXFILE && |blocks'| == |blocks| && InodeOk(blocks', ip') && b != 0
    requires SlotAddr(blocks', ip', FileSlot(nb)) == b
    requires forall s :: 0 <= s < SLOTS && s != NDIRECT && s != FileSlot(nb) ==>
               SlotAddr(blocks', ip', s) == SlotAddr(blocks, ip, s)
    requires forall bn :: 0 <= bn < nb ==>
               var a := FileAddr(blocks, ip, bn); 0 <= a < |blocks| ==> blocks'[a] == blocks[a]
    ensures FileOk(blocks', ip', nb + 1, c)
  {
    var nb' := nb + 1;
    forall bn | 0 <= bn < MAXFILE ensures HasBlock(blocks', ip', nb', bn) {
      assert HasBlock(blocks, ip, nb, bn);
    }
    forall i | 0 <= i < |c| ensures ByteOk(blocks', ip', c, i) {
      assert ByteOk(blocks, ip, c, i);
      assert HasBlock(blocks, ip, nb, i / BSIZE);
    }
  }
}

module FileSystem {
  import opened Params
  import opened Sets
  import opened FsLayout
  import opened BlockOwnership
  import opened FileContents

  // The bit of block b is set exactly when b is metadata or in use.
  ghost predicate BitOk(bits: seq<bv8>, used: set<int>, nmeta: int, b: int)
    requires 0 <= b < 8 * |bits|
  {
    Bit(bits, b) <==> b < nmeta || b in used
  }

  ghost predicate BitsOk(bits: seq<bv8>, used: set<int>, nmeta: int, size: int) {
    size <= 8 * |bits| && forall b :: 0 <= b < size ==> BitOk(bits, used, nmeta, b)
  }

  lemma {:induction false} BitTaken(bits: seq<bv8>, used: set<int>, nmeta: int, size: int, b: int)
    requires BitsOk(bits, used, nmeta, size) && 0 <= b < size
    ensures BitsOk(SetBit(bits, b), used + {b}, nmeta, size)
  {
    var bits', used' := SetBit(bits, b), used + {b};
    forall c | 0 <= c < size ensures BitOk(bits', used', nmeta, c) {
      assert BitOk(bits, used, nmeta, c);
      BitSet(bits, b, c);
    }
  }

  lemma {:induction false} BitFreed(bits: seq<bv8>, used: set<int>, nmeta: int, size: int, b: int)
    requires BitsOk(bits, used, nmeta, size) && 0 <= nmeta <= b < size
    ensures BitsOk(ClearBit(bits, b), used - {b}, nmeta, size)
  {
    var bits', used' := ClearBit(bits, b), used - {b};
    forall c | 0 <= c < size ensures BitOk(bits', used', nmeta, c) {
      assert BitOk(bits, used, nmeta, c);
      BitCleared(bits, b, c);
    }
  }

  // The bitmap of a new file system: the blocks before the first data block are in use.
  method UsedBits(nmeta: nat, size: nat) returns (bits: seq<bv8>)
    requires nmeta <= size
    ensures BitsOk(bits, {}, nmeta, size)
  {
    bits := seq(size / 8 + 1, _ => 0);
    for i := 0 to nmeta
      invariant BitsOk(bits, {}, i, size)
    {
      OneMoreUsed(bits, i, size);
      bits := SetBit(bits, i);
    }
  }

  lemma {:induction false} OneMoreUsed(bits: seq<bv8>, i: int, size: int)
    requires BitsOk(bits, {}, i, size) && 0 <= i < size
    ensures BitsOk(SetBit(bits, i), {}, i + 1, size)
  {
    var bits', none: set<int>, j := SetBit(bits, i), {}, i + 1;
    forall c | 0 <= c < size ensures BitOk(bits', none, j, c) {
      assert BitOk(bits, {}, i, c);
      BitSet(bits, i, c);
    }
  }

  // How many of the bytes left go into the block of offset at.
  function Piece(at: int, left: int): (m: int)
    requires 0 <= at && 0 < left
    ensures 0 < m <= left && at % BSIZE + m <= BSIZE
    ensures m == left || (at + m) % BSIZE == 0
  {
    if left < BSIZE - at % BSIZE then left else BSIZE - at % BSIZE
  }

  // Blocks that len bytes at offset off touch.
  function Span(off: int, len: int): (k: int) {
    if len <= 0 then 0 else (off + len - 1) / BSIZE - off / BSIZE + 1
  }

  lemma {:induction false} SpanMore(off: int, tot: int, m: int)
    requires 0 <= off && 0 <= tot && 0 < m && (off + tot) % BSIZE + m <= BSIZE
    requires tot == 0 || (off + tot) % BSIZE == 0
    ensures Span(off, tot + m) == Span(off, tot) + 1
  {
  }

  const CHUNK: nat := 1536  // ((MAXOPBLOCKS - 1 - 1 - 2) / 2) * 512

  lemma {:induction false} SpanOfChunk(off: int, len: int)
    requires 0 <= off && 0 <= len <= CHUNK
    ensures Span(off, len) <= 4
  {
  }

  // How many of len bytes filewrite() puts into a file of the given size: whole chunks.
  function Accepted(off: int, len: int, size: int): (a: int)
    requires 0 <= off && 0 <= len
    ensures 0 <= a <= len
  {
    if off > size then 0
    else if off + len <= MAXFILE * BSIZE then len
    else if off > MAXFILE * BSIZE then 0
    else (MAXFILE * BSIZE - off) / CHUNK * CHUNK
  }

  // filewrite() reports an error although it has written something, exactly when the file would get too
  // large and there is room for at least one whole chunk.
  lemma {:induction false} PartlyWrittenExactly(off: int, len: int, size: int)
    requires 0 <= off && 0 <= len
    ensures 0 < Accepted(off, len, size) < len <==>
              off <= size && off + len > MAXFILE * BSIZE && MAXFILE * BSIZE - off >= CHUNK
  {
    var room := MAXFILE * BSIZE - off;
    if room >= CHUNK { assert room / CHUNK >= 1; }
  }

  // One byte too many for an empty file.
  lemma {:induction false} PartlyWritten()
    ensures var len := MAXFILE * BSIZE + 1; 0 < Accepted(0, len, 0) == 46 * CHUNK < len
  {
  }

  function ChunkLen(left: int): (m: int)
    requires 0 < left
    ensures 0 < m <= left && m <= CHUNK
  {
    if left > CHUNK then CHUNK else left
  }

  // Between chunks: i bytes have gone in.
  predicate AtChunk(off: int, len: int, size: int, i: int) {
    && (i > 0 ==> off <= size && off + i <= MAXFILE * BSIZE)
    && (i == len || i % CHUNK == 0)
  }

  lemma {:induction false} ChunkDone(off: int, len: int, size: int, i: int)
    requires 0 <= off <= size && 0 <= i < len && AtChunk(off, len, size, i)
    requires off + i + ChunkLen(len - i) <= MAXFILE * BSIZE
    ensures AtChunk(off, len, size, i + ChunkLen(len - i))
  {
  }

  lemma {:induction false} AcceptedPart(off: int, len: int, size: int, i: int)
    requires 0 <= off && 0 <= i < len && AtChunk(off, len, size, i)
    requires off > size || off + i + ChunkLen(len - i) > MAXFILE * BSIZE
    ensures Accepted(off, len, size) == i < len
  {
    var room := MAXFILE * BSIZE - off;
    if off <= size && room >= 0 {
      assert i <= room < i + CHUNK && i == i / CHUNK * CHUNK;
      assert room / CHUNK == i / CHUNK;
    }
  }

  lemma {:induction false} AcceptedMore(off: int, len: int, size: int, i: int)
    requires 0 <= off <= size && 0 <= i < len && AtChunk(off, len, size, i)
    requires off + i + ChunkLen(len - i) <= MAXFILE * BSIZE
    ensures Accepted(off, len, size) >= i + ChunkLen(len - i)
    ensures Demand(size, off + i + ChunkLen(len - i)) <= Demand(size, off + Accepted(off, len, size))
  {
    var room := MAXFILE * BSIZE - off;
    if off + len > MAXFILE * BSIZE {
      assert room / CHUNK >= i / CHUNK + 1;
    }
    DemandMore(size, off + i + ChunkLen(len - i), off + Accepted(off, len, size));
  }

  class File {
    var writable: bool
    var off: int
  }

  // Every data block is in use.
  ghost predicate Full(owner: Owner, nmeta: int, size: int) {
    forall c :: nmeta <= c < size ==> c in owner
  }

  ghost function Free(owner: Owner, nmeta: int, size: int): (s: set<int>) {
    set c | nmeta <= c < size && c !in owner
  }

  lemma {:induction false} FullExactly(owner: Owner, nmeta: int, size: int)
    ensures |Free(owner, nmeta, size)| == 0 <==> Full(owner, nmeta, size)
  {
    if Free(owner, nmeta, size) != {} {
      var c :| c in Free(owner, nmeta, size);
    } else {
      forall c | nmeta <= c < size ensures c in owner { assert c !in Free(owner, nmeta, size); }
    }
  }

  lemma {:induction false} OneTaken(owner: Owner, nmeta: int, size: int, b: int, slot: (int, int))
    requires nmeta <= b < size && b !in owner
    ensures |Free(owner[b := slot], nmeta, size)| == |Free(owner, nmeta, size)| - 1
  {
    assert b in Free(owner, nmeta, size);
    assert Free(owner[b := slot], nmeta, size) == Free(owner, nmeta, size) - {b};
  }

  // The blocks a file of nb blocks takes, its indirect block included.
  function Taken(nb: int): (k: int) {
    if nb > NDIRECT then nb + 1 else nb
  }

  // The blocks a file of len bytes takes in addition when it is written up to offset end.
  function Demand(len: int, end: int): (k: int) {
    if end > len then Taken(BlocksFor(end)) - Taken(BlocksFor(len)) else 0
  }

  lemma {:induction false} DemandMore(len: int, mid: int, end: int)
    requires 0 <= len && mid <= end
    ensures 0 <= Demand(len, mid) <= Demand(len, end)
    ensures Demand(len, end) == Demand(len, mid) + Demand(if mid > len then mid else len, end)
  {
    BlocksForRounds(len);
    if mid > len { BlocksForRounds(mid); }
    if end > len { BlocksForRounds(end); }
  }

  // The blocks that writing block bn takes in a file of nb blocks.
  function Cost(nb: int, bn: int): (k: nat) {
    (if bn == nb then 1 else 0) + if bn >= NDIRECT && nb <= NDIRECT then 1 else 0
  }

  // What writing a piece of one block takes: that block if it is the next one, and the indirect block
  // if it is the first in it.
  lemma {:induction false} PieceDemand(len: int, nb: int, end: int, m: int)
    requires 0 <= end && 0 < m && end % BSIZE + m <= BSIZE && 0 <= len
    requires var now := if end > len then end else len; nb == BlocksFor(now)
    ensures var bn := end / BSIZE;
            Demand(len, end + m) == Demand(len, end) + Cost(nb, bn)
  {
    BlocksAfter(if end > len then end else len, end, m);
    DemandMore(len, end, end + m);
  }

  // How far a write has got: tot bytes, in `pieces` pieces, which took `paid` blocks.
  datatype Progress = Progress(tot: int, pieces: int, paid: int)

  // Between pieces, for len bytes at offset off of a file of `size` bytes.
  ghost predicate AtPiece(size: int, off: int, len: int, at: Progress) {
    match at
    case Progress(tot, pieces, paid) =>
      && 0 <= tot <= len && (tot < len ==> tot == 0 || (off + tot) % BSIZE == 0)
      && pieces == Span(off, tot) && paid == Demand(size, off + tot)
  }

  lemma {:induction false} PieceDone(size: int, off: int, len: int, at: Progress, tot: int, m: int, cost: int, nb: int)
    returns (next: Progress)
    requires 0 <= off <= size && AtPiece(size, off, len, at) && at.tot == tot < len
    requires nb == BlocksFor(if off + tot > size then off + tot else size)
    requires m == Piece(off + tot, len - tot) && cost == Cost(nb, (off + tot) / BSIZE)
    ensures next == Progress(tot + m, at.pieces + 1, at.paid + cost)
    ensures AtPiece(size, off, len, next) && next.paid <= Demand(size, off + len)
  {
    PieceDemand(size, nb, off + tot, m);
    SpanMore(off, tot, m);
    DemandMore(size, off + tot + m, off + len);
    next := Progress(tot + m, at.pieces + 1, at.paid + cost);
  }

  // The contents and the number of blocks of a file after it.
  lemma {:induction false} NextPiece(c: seq<Byte>, off: int, src: seq<Byte>, tot: int, m: int, nb: int)
    requires 0 <= off <= |c| && 0 <= tot < |src| && off + |src| <= MAXFILE * BSIZE
    requires nb == BlocksFor(|Overwrite(c, off, src[..tot])|) && m == Piece(off + tot, |src| - tot)
    ensures var bn, r := (off + tot) / BSIZE, Overwrite(Overwrite(c, off, src[..tot]), off + tot, src[tot..tot + m]);
            && bn <= nb && bn < MAXFILE && r == Overwrite(c, off, src[..tot + m])
            && BlocksFor(|r|) == if bn < nb then nb else bn + 1
  {
    BlocksAfter(|Overwrite(c, off, src[..tot])|, off + tot, m);
    OverwriteMore(c, off, src, tot, m);
  }

  // What is left when inode n owns nothing.
  ghost function Without(before: Owner, n: int): (after: Owner)
    ensures forall b :: b in after <==> b in before && before[b].0 != n
    ensures forall b :: b in after ==> after[b] == before[b]
  {
    map b | b in before && before[b].0 != n :: before[b]
  }

  // `after` is `before` without some of the blocks of inode n.
  ghost predicate Shrunk(before: Owner, after: Owner, n: int) {
    && (forall b :: b in after ==> b in before && after[b] == before[b])
    && (forall b :: b in before && before[b].0 != n ==> b in after)
  }

  // The state an operation starts from, apart from the blocks themselves.
  datatype Snapshot = Snapshot(inodes: seq<Inode>, dinodes: seq<Inode>, size: int, nb: seq<int>,
                               contents: seq<seq<Byte>>, logged: set<int>, spare: int)

  class Fs {
    const nmeta: int  // the first data block
    const bmapStart: int
    const inodeStart: int

    var bits: seq<bv8>
    var blocks: seq<Block>
    var inodes: seq<Inode>  // in memory
    var dinodes: seq<Inode>  // on disk

    ghost var owner: Owner
    ghost var nb: seq<int>  // blocks of each file
    ghost var contents: seq<seq<Byte>>
    ghost var logged: set<int>  // blocks passed to log_write()

    ghost predicate Valid()
      reads this
    {
      && Owned(blocks, inodes, owner, nmeta) && FilesOk(blocks, inodes, nb, contents)
      && BitsOk(bits, owner.Keys, nmeta, |blocks|) && |blocks| < UINT_RANGE && |dinodes| == |inodes|
    }

    // The file system mkfs makes, before any file has contents.
    constructor (nmeta: int, bmapStart: int, inodeStart: int, blocks: seq<Block>, ninodes: nat)
      requires 0 < nmeta <= |blocks| < UINT_RANGE
      ensures Valid() && this.nmeta == nmeta && this.bmapStart == bmapStart && this.inodeStart == inodeStart
      ensures this.blocks == blocks && |inodes| == ninodes && owner == map[] && logged == {}
      ensures forall n :: 0 <= n < ninodes ==> contents[n] == [] && Settled(n)
    {
      this.nmeta, this.bmapStart, this.inodeStart, this.blocks := nmeta, bmapStart, inodeStart, blocks;
      var bitmap := UsedBits(nmeta, |blocks|);
      bits := bitmap;
      var empty := Inode(seq(NDIRECT + 1, _ => 0), 0);
      inodes, dinodes := seq(ninodes, _ => empty), seq(ninodes, _ => empty);
      owner, nb, contents, logged := map[], seq(ninodes, _ => 0), seq(ninodes, _ => []), {};
      new;
      assert owner.Keys == {};
    }

    // The indirect block exists exactly when it is needed.
    ghost predicate Exact(n: int)
      reads this`inodes, this`nb
    {
      && 0 <= n < |inodes| && |nb| == |inodes| && |inodes[n].addrs| == NDIRECT + 1
      && (inodes[n].addrs[NDIRECT] != 0 <==> nb[n] > NDIRECT)
    }

    // No operation is under way on inode n: the in-memory and on-disk inodes describe the file.
    ghost predicate Settled(n: int)
      reads this`inodes, this`dinodes, this`nb, this`contents
    {
      && Exact(n) && |dinodes| == |contents| == |inodes| && dinodes[n] == inodes[n]
      && inodes[n].size == |contents[n]| && nb[n] == BlocksFor(|contents[n]|)
    }

    ghost function Now(): (s: Snapshot)
      reads this
    {
      Snapshot(inodes, dinodes, |blocks|, nb, contents, logged, Spare())
    }

    // Data blocks that are not in use.
    ghost function Spare(): (k: nat)
      reads this`owner, this`blocks
    {
      |Free(owner, nmeta, |blocks|)|
    }

    // Blocks that bmap() has to allocate for block bn of file n.
    ghost function Need(n: int, bn: int): (k: int)
      requires 0 <= n < |inodes| && |nb| == |inodes| && |inodes[n].addrs| == NDIRECT + 1
      reads this`inodes, this`nb
    {
      (if bn == nb[n] then 1 else 0) + if bn >= NDIRECT && inodes[n].addrs[NDIRECT] == 0 then 1 else 0
    }

    function BBlock(b: int): (r: int) {
      b / BPB + bmapStart
    }

    function IBlock(n: int): (r: int) {
      n / IPB + inodeStart
    }

    // Valid except that block b, which no slot refers to yet, is zeroed and its bit set.
    ghost predicate Allocated(b: int)
      reads this
    {
      && Owned(blocks, inodes, owner, nmeta) && FilesOk(blocks, inodes, nb, contents)
      && BitsOk(bits, owner.Keys + {b}, nmeta, |blocks|) && |blocks| < UINT_RANGE && |dinodes| == |inodes|
      && nmeta <= b < |blocks| && b !in owner && blocks[b] == ZERO
    }

    // Allocate a zeroed block: the first whose bit is clear. -1 is "balloc: out of blocks".
    method BAlloc() returns (b: int)
      requires Valid()
      modifies this`bits, this`blocks, this`logged
      ensures b == -1 <==> Full(owner, nmeta, |old(blocks)|)
      ensures b == -1 ==> unchanged(this)
      ensures b != -1 ==>
                && Allocated(b) && (forall c :: nmeta <= c < b ==> c in owner)
                && b < 8 * |old(bits)| && bits == SetBit(old(bits), b) && blocks == old(blocks)[b := ZERO]
                && logged == old(logged) + {BBlock(b), b}
      ensures forall m, s :: 0 <= m < |inodes| && 0 <= s < SLOTS ==>
                SlotAddr(blocks, inodes[m], s) == SlotAddr(old(blocks), inodes[m], s)
    {
      var first := 0;
      while first < |blocks|
        invariant 0 <= first && forall c :: 0 <= c < first && c < |blocks| ==> c < nmeta || c in owner
        decreases |blocks| - first
      {
        var bi := 0;
        while bi < BPB && first + bi < |blocks|
          invariant 0 <= bi <= BPB
          invariant forall c :: 0 <= c < first + bi && c < |blocks| ==> c < nmeta || c in owner
        {
          assert BitOk(bits, owner.Keys, nmeta, first + bi);
          if !Bit(bits, first + bi) {
            b := first + bi;
            assert nmeta <= b && b !in owner && !Full(owner, nmeta, |blocks|);
            FreeBlockZeroed(blocks, inodes, owner, nmeta, b, nb, contents);
            BitTaken(bits, owner.Keys, nmeta, |blocks|, b);
            bits := SetBit(bits, b);
            blocks := blocks[b := ZERO];
            logged := logged + {BBlock(b), b};
            return;
          }
          bi := bi + 1;
        }
        first := first + BPB;
      }
      return -1;
    }

    // Free a block, which is in use: "freeing free block" would be a panic.
    method BFree(b: int)
      requires 0 <= nmeta <= b < |blocks| && BitsOk(bits, owner.Keys, nmeta, |blocks|) && Bit(bits, b)
      modifies this`bits, this`logged, this`owner
      ensures owner == old(owner) - {b} && BitsOk(bits, owner.Keys, nmeta, |blocks|)
      ensures bits == ClearBit(old(bits), b) && logged == old(logged) + {BBlock(b)}
    {
      BitFreed(bits, owner.Keys, nmeta, |blocks|, b);
      bits := ClearBit(bits, b);
      logged := logged + {BBlock(b)};
      owner := owner - {b};
      assert owner.Keys == old(owner).Keys - {b};
    }

    // Copy the in-memory inode to disk.
    method IUpdate(n: int)
      requires 0 <= n < |inodes| && |dinodes| == |inodes|
      modifies this`dinodes, this`logged
      ensures dinodes == old(dinodes)[n := inodes[n]] && logged == old(logged) + {IBlock(n)}
    {
      dinodes := dinodes[n := inodes[n]];
      logged := logged + {IBlock(n)};
    }

    // A slot is empty or refers to a data block.
    lemma {:induction false} SlotInRange(n: int, s: int)
      requires Owned(blocks, inodes, owner, nmeta) && 0 <= n < |inodes| && 0 <= s < SLOTS
      ensures var a := SlotAddr(blocks, inodes[n], s); a == 0 || (nmeta <= a < |blocks| && a in owner)
    {
      assert SlotOk(blocks, inodes, owner, n, s);
      var a := SlotAddr(blocks, inodes[n], s);
      if a != 0 { assert OwnerOk(blocks, inodes, owner, nmeta, a); }
    }

    // Store the address of an allocated block in the inode: the next direct block, or the still
    // empty indirect block.
    method FillDirect(n: int, s: int, b: int)
      requires Allocated(b) && 0 <= n < |inodes| && 0 <= s <= NDIRECT && inodes[n].addrs[s] == 0
      requires s < NDIRECT ==> s == nb[n]
      modifies this`inodes, this`owner, this`nb
      ensures Valid() && inodes == old(inodes)[n := old(inodes)[n].(addrs := old(inodes)[n].addrs[s := b])]
      ensures nb == if s < NDIRECT then old(nb)[n := s + 1] else old(nb)
      ensures Spare() == old(Spare()) - 1
      ensures forall t :: 0 <= t < SLOTS && t != s ==>
                SlotAddr(blocks, inodes[n], t) == SlotAddr(blocks, old(inodes)[n], t)
    {
      var ip := inodes[n].(addrs := inodes[n].addrs[s := b]);
      DirectFilled(blocks, inodes, owner, nmeta, n, s, b);
      if s < NDIRECT {
        BlockGained(blocks, blocks, inodes[n], ip, nb[n], contents[n], b);
        nb := nb[n := s + 1];
      } else {
        Unaffected(blocks, blocks, inodes[n], ip, nb[n], contents[n]);
      }
      OneTaken(owner, nmeta, |blocks|, b, (n, s));
      inodes, owner := inodes[n := ip], owner[b := (n, s)];
      assert owner.Keys == old(owner).Keys + {b};
    }

    method BMapDirect(n: int, bn: int) returns (addr: int)
      requires Valid() && 0 <= n < |inodes| && 0 <= bn < NDIRECT && bn <= nb[n]
      modifies this
      ensures addr == -1 <==> bn == old(nb)[n] && Full(old(owner), nmeta, |old(blocks)|)
      ensures addr == -1 <==> old(Spare()) < old(Need(n, bn))
      ensures addr == -1 ==> unchanged(this)
      ensures addr != -1 ==> Mapped(n, bn, addr)
      ensures bn < old(nb)[n] ==> unchanged(this)
    {
      assert HasBlock(blocks, inodes[n], nb[n], bn);
      SlotInRange(n, bn);
      FullExactly(owner, nmeta, |blocks|);
      addr := inodes[n].addrs[bn];
      if addr == 0 {
        addr := BAlloc();
        if addr == -1 { return; }
        FillDirect(n, bn, addr);
      }
    }

    // Store the address of an allocated block in the indirect block of file n.
    method FillEntry(n: int, j: int, b: int)
      requires Allocated(b) && 0 <= n < |inodes| && 0 <= j < NINDIRECT && inodes[n].addrs[NDIRECT] != 0
      requires Words(blocks[inodes[n].addrs[NDIRECT]])[j] == 0 && NDIRECT + j == nb[n]
      modifies this`blocks, this`owner, this`nb, this`logged
      ensures Valid() && nb == old(nb)[n := NDIRECT + j + 1] && |blocks| == |old(blocks)|
      ensures SlotAddr(blocks, inodes[n], NDIRECT + 1 + j) == b
      ensures logged == old(logged) + {inodes[n].addrs[NDIRECT]} && Spare() == old(Spare()) - 1
    {
      var x := inodes[n].addrs[NDIRECT];
      OneTaken(owner, nmeta, |blocks|, b, (n, NDIRECT + 1 + j));
      EntryFilled(blocks, inodes, owner, nmeta, n, j, b);
      EntryFiles(n, j, b);
      WordsAfterPut(blocks[x], j, b);
      blocks := blocks[x := PutWord(blocks[x], j, b)];
      logged := logged + {x};
      owner, nb := owner[b := (n, NDIRECT + 1 + j)], nb[n := NDIRECT + j + 1];
      assert owner.Keys == old(owner).Keys + {b};
    }

    lemma {:induction false} EntryFiles(n: int, j: int, b: int)
      requires Allocated(b) && 0 <= n < |inodes| && 0 <= j < NINDIRECT && inodes[n].addrs[NDIRECT] != 0
      requires Words(blocks[inodes[n].addrs[NDIRECT]])[j] == 0 && NDIRECT + j == nb[n]
      ensures var x := inodes[n].addrs[NDIRECT];
              FilesOk(blocks[x := PutWord(blocks[x], j, b)], inodes, nb[n := NDIRECT + j + 1], contents)
    {
      var x := inodes[n].addrs[NDIRECT];
      var blocks' := blocks[x := PutWord(blocks[x], j, b)];
      assert SlotOk(blocks, inodes, owner, n, NDIRECT);
      EntryFilled(blocks, inodes, owner, nmeta, n, j, b);
      WordsAfterPut(blocks[x], j, b);
      forall m | 0 <= m < |inodes| && m != n ensures FileOk(blocks', inodes[m], nb[m], contents[m]) {
        OthersKept(blocks, inodes, owner, nmeta, x, PutWord(blocks[x], j, b), n, m, nb[m], contents[m]);
      }
      forall bn | 0 <= bn < nb[n] ensures FileAddr(blocks, inodes[n], bn) != x {
        assert SlotOk(blocks, inodes, owner, n, FileSlot(bn)) && HasBlock(blocks, inodes[n], nb[n], bn);
      }
      BlockGained(blocks, blocks', inodes[n], inodes[n], nb[n], contents[n], b);
    }

    // The indirect block of file n, allocated if it does not exist yet.
    method Indirect(n: int) returns (x: int)
      requires Valid() && 0 <= n < |inodes|
      modifies this
      ensures x == -1 <==> old(inodes)[n].addrs[NDIRECT] == 0 && old(Spare()) == 0
      ensures x == -1 ==> unchanged(this) && Full(owner, nmeta, |blocks|)
      ensures x != -1 ==>
                && Valid() && |inodes| == |old(inodes)| && x == inodes[n].addrs[NDIRECT] != 0
                && Spare() == old(Spare()) - (if old(inodes)[n].addrs[NDIRECT] == 0 then 1 else 0)
                && inodes == old(inodes)[n := old(inodes)[n].(addrs := old(inodes)[n].addrs[NDIRECT := x])]
                && nb == old(nb) && contents == old(contents) && dinodes == old(dinodes) && |blocks| == |old(blocks)|
                && (forall t :: 0 <= t < SLOTS && t != NDIRECT ==>
                      SlotAddr(blocks, inodes[n], t) == SlotAddr(old(blocks), old(inodes)[n], t))
                && Logs(old(logged), logged, n, {})
                && (old(inodes)[n].addrs[NDIRECT] != 0 ==> unchanged(this))
    {
      SlotInRange(n, NDIRECT);
      FullExactly(owner, nmeta, |blocks|);
      x := inodes[n].addrs[NDIRECT];
      if x == 0 {
        x := BAlloc();
        if x == -1 { return; }
        FillDirect(n, NDIRECT, x);
      } else {
        assert inodes[n].addrs == inodes[n].addrs[NDIRECT := x];
        assert inodes == inodes[n := inodes[n]];
      }
    }

    // The entry of block bn in the indirect block, filled if it is the next one.
    method Entry(n: int, bn: int) returns (addr: int)
      requires Valid() && 0 <= n < |inodes| && NDIRECT <= bn < MAXFILE && bn <= nb[n]
      requires inodes[n].addrs[NDIRECT] != 0
      modifies this`bits, this`blocks, this`owner, this`nb, this`logged
      ensures addr == -1 <==> bn == old(nb)[n] && old(Spare()) == 0
      ensures addr == -1 ==> unchanged(this) && Full(owner, nmeta, |blocks|)
      ensures addr != -1 ==> Spare() == old(Spare()) - (if bn == old(nb)[n] then 1 else 0)
      ensures addr != -1 ==>
                && Valid() && addr == FileAddr(blocks, inodes[n], bn) && |blocks| == |old(blocks)|
                && nb == old(nb)[n := if bn < old(nb)[n] then old(nb)[n] else bn + 1]
                && Logs(old(logged), logged, n, {addr})
                && (bn < old(nb)[n] ==> unchanged(this))
    {
      var j := bn - NDIRECT;
      SlotInRange(n, NDIRECT + 1 + j);
      FullExactly(owner, nmeta, |blocks|);
      assert HasBlock(blocks, inodes[n], nb[n], bn);
      addr := Word(blocks[inodes[n].addrs[NDIRECT]], j);
      assert addr == SlotAddr(blocks, inodes[n], NDIRECT + 1 + j);
      if addr == 0 {
        addr := BAlloc();
        if addr == -1 { return; }
        FillEntry(n, j, addr);
      }
    }

    method BMapIndirect(n: int, bn: int) returns (addr: int)
      requires Valid() && 0 <= n < |inodes| && NDIRECT <= bn < MAXFILE && bn <= nb[n]
      modifies this
      ensures addr == -1 <==> old(Spare()) < old(Need(n, bn))
      ensures addr == -1 ==> bn == old(nb)[n] && Full(owner, nmeta, |blocks|)
      ensures addr != -1 ==> Mapped(n, bn, addr)
      ensures bn < old(nb)[n] ==> unchanged(this)
    {
      assert HasBlock(blocks, inodes[n], nb[n], bn) && HasBlock(blocks, inodes[n], nb[n], NDIRECT);
      var x := Indirect(n);
      if x == -1 { return -1; }
      addr := Entry(n, bn);
    }

    // The address of block bn of file n, allocating it if it is the next one. -1 is a panic of
    // balloc(); for bn >= MAXFILE the source panics with "bmap: out of range".
    method BMap(n: int, bn: int) returns (addr: int)
      requires Valid() && 0 <= n < |inodes| && 0 <= bn < MAXFILE && bn <= nb[n]
      modifies this
      ensures addr == -1 <==> old(Spare()) < old(Need(n, bn))
      ensures addr == -1 ==> bn == old(nb)[n] && Full(owner, nmeta, |blocks|)
      ensures addr != -1 ==> Mapped(n, bn, addr)
      ensures bn < old(nb)[n] ==> unchanged(this)
    {
      if bn < NDIRECT {
        addr := BMapDirect(n, bn);
      } else {
        addr := BMapIndirect(n, bn);
      }
    }

    // One iteration of writei(): part of one block of file n. False is a panic of balloc().
    method WritePiece(n: int, off: int, src: seq<Byte>) returns (ok: bool, addr: int)
      requires Valid() && 0 <= n < |inodes| && 0 <= off <= |contents[n]| && off / BSIZE <= nb[n]
      requires |src| > 0 && off % BSIZE + |src| <= BSIZE && off / BSIZE < MAXFILE
      modifies this
      ensures ok <==> old(Spare()) >= old(Need(n, off / BSIZE))
      ensures !ok ==> off / BSIZE == old(nb)[n] && Full(owner, nmeta, |blocks|)
      ensures ok ==>
                && Valid() && |inodes| == |old(inodes)| && Spare() == old(Spare() - Need(n, off / BSIZE))
                && contents == old(contents)[n := Overwrite(old(contents)[n], off, src)]
                && nb == old(nb)[n := if off / BSIZE < old(nb)[n] then old(nb)[n] else off / BSIZE + 1]
                && inodes == old(inodes)[n := inodes[n]] && inodes[n].size == old(inodes)[n].size
                && dinodes == old(dinodes) && |blocks| == |old(blocks)| && (old(Exact(n)) ==> Exact(n))
                && (old(inodes)[n].addrs[NDIRECT] != 0 ==> inodes[n].addrs[NDIRECT] == old(inodes)[n].addrs[NDIRECT])
                && (off / BSIZE < old(nb)[n] ==> inodes == old(inodes))
                && Logs(old(logged), logged, n, {addr})
    {
      addr := BMap(n, off / BSIZE);
      ok := addr != -1;
      if !ok { return; }
      PieceWritten(blocks, inodes, owner, nmeta, n, nb[n], contents[n], off, src);
      PieceFiles(n, off, src);
      var block := blocks[addr];
      blocks := blocks[addr := Overwrite(block, off % BSIZE, src)];
      logged := logged + {addr};
      contents := contents[n := Overwrite(contents[n], off, src)];
    }

    lemma {:induction false} PieceFiles(n: int, off: int, src: seq<Byte>)
      requires Valid() && 0 <= n < |inodes| && 0 <= off <= |contents[n]| && off / BSIZE < nb[n]
      requires |src| > 0 && off % BSIZE + |src| <= BSIZE
      ensures var a := FileAddr(blocks, inodes[n], off / BSIZE);
              && 0 <= a < |blocks|
              && var x := Overwrite(blocks[a], off % BSIZE, src);
                 && |x| == BSIZE
                 && FilesOk(blocks[a := x], inodes, nb, contents[n := Overwrite(contents[n], off, src)])
    {
      PieceWritten(blocks, inodes, owner, nmeta, n, nb[n], contents[n], off, src);
      var a := FileAddr(blocks, inodes[n], off / BSIZE);
      var x: Block := Overwrite(blocks[a], off % BSIZE, src);
      forall m | 0 <= m < |inodes| && m != n ensures FileOk(blocks[a := x], inodes[m], nb[m], contents[m]) {
        OthersKept(blocks, inodes, owner, nmeta, a, x, n, m, nb[m], contents[m]);
      }
    }

    // Since `start`, exactly the bytes src have been written at off of file n, one block after
    // another; the in-memory size may lag behind.
    ghost predicate Written(start: Snapshot, n: int, off: int, src: seq<Byte>, data: set<int>)
      requires 0 <= n < |start.contents| == |start.nb| == |start.inodes| && 0 <= off <= |start.contents[n]|
      reads this
    {
      match start
      case Snapshot(inodes0, dinodes0, size0, nb0, contents0, logged0, _) =>
        && Valid() && |inodes| == |inodes0| && Exact(n) && dinodes == dinodes0 && |blocks| == size0
        && contents == contents0[n := Overwrite(contents0[n], off, src)]
        && nb == nb0[n := BlocksFor(|contents[n]|)]
        && inodes == inodes0[n := inodes[n]] && inodes[n].size == inodes0[n].size
        && (off + |src| <= inodes0[n].size ==> inodes == inodes0)
        && Logs(logged0, logged, n, data)
    }

    lemma {:induction false} NothingWritten(n: int, off: int)
      requires Valid() && 0 <= n < |inodes| && Settled(n) && 0 <= off <= |contents[n]|
      ensures Written(Now(), n, off, [], {})
    {
      assert Overwrite(contents[n], off, []) == contents[n];
      assert contents[n := contents[n]] == contents && nb[n := nb[n]] == nb && inodes[n := inodes[n]] == inodes;
    }

    // One more piece of src, m bytes from index tot.
    method WriteStep(n: int, off: int, src: seq<Byte>, tot: int, m: int, ghost start: Snapshot, ghost data: set<int>,
                     ghost cost: int)
      returns (ok: bool, addr: int)
      requires 0 <= n < |start.contents| == |start.nb| == |start.inodes| && 0 <= off <= |start.contents[n]|
      requires start.inodes[n].size == |start.contents[n]| && off + |src| <= MAXFILE * BSIZE
      requires 0 <= tot < |src| && Written(start, n, off, src[..tot], data) && m == Piece(off + tot, |src| - tot)
      requires cost == Cost(nb[n], (off + tot) / BSIZE)
      modifies this
      ensures ok <==> old(Spare()) >= cost
      ensures !ok ==> Full(owner, nmeta, |blocks|)
      ensures ok ==>
                && Written(start, n, off, src[..tot + m], data + {addr})
                && Spare() == old(Spare()) - cost
    {
      NextPiece(start.contents[n], off, src, tot, m, nb[n]);
      ok, addr := WritePiece(n, off + tot, src[tot..tot + m]);
    }

    // One iteration of the loop of writei().
    method WriteNext(n: int, off: int, src: seq<Byte>, ghost start: Snapshot, ghost was: set<int>,
                     ghost before: Progress, done: int)
      returns (ok: bool, tot: int, ghost data: set<int>, ghost at: Progress)
      requires 0 <= n < |start.contents| == |start.nb| == |start.inodes| && 0 <= off <= |start.contents[n]|
      requires start.inodes[n].size == |start.contents[n]| && off + |src| <= MAXFILE * BSIZE
      requires done == before.tot < |src| && AtPiece(|start.contents[n]|, off, |src|, before)
      requires Written(start, n, off, src[..done], was) && |was| <= before.pieces
      requires Spare() == start.spare - before.paid
      modifies this
      ensures !ok ==> start.spare < Demand(|start.contents[n]|, off + |src|) && Full(owner, nmeta, |blocks|)
      ensures ok ==>
                && tot == at.tot > done && AtPiece(|start.contents[n]|, off, |src|, at)
                && Written(start, n, off, src[..tot], data) && |data| <= at.pieces && Spare() == start.spare - at.paid
    {
      var m := Piece(off + done, |src| - done);
      ghost var cost := Cost(nb[n], (off + done) / BSIZE);
      at := PieceDone(|start.contents[n]|, off, |src|, before, done, m, cost, nb[n]);
      tot := done + m;
      var addr;
      ok, addr := WriteStep(n, off, src, done, m, start, was, cost);
      data := was + {addr};
    }

    // The loop of writei().
    method WriteLoop(n: int, off: int, src: seq<Byte>, ghost start: Snapshot) returns (ok: bool, ghost data: set<int>)
      requires Valid() && 0 <= n < |inodes| && Settled(n) && start == Now()
      requires 0 <= off <= |contents[n]| && off + |src| <= MAXFILE * BSIZE
      modifies this
      ensures ok <==> start.spare >= Demand(|start.contents[n]|, off + |src|)
      ensures !ok ==> Full(owner, nmeta, |blocks|)
      ensures ok ==>
                && Written(start, n, off, src, data) && |data| <= Span(off, |src|)
                && Spare() == start.spare - Demand(|start.contents[n]|, off + |src|)
    {
      data := {};
      ghost var size, at := |contents[n]|, Progress(0, 0, 0);
      var tot := 0;
      NothingWritten(n, off);
      assert src[..0] == [];
      while tot < |src|
        invariant tot == at.tot && AtPiece(size, off, |src|, at) && Written(start, n, off, src[..tot], data)
        invariant |data| <= at.pieces && Spare() == start.spare - at.paid
      {
        ok, tot, data, at := WriteNext(n, off, src, start, data, at, tot);
        if !ok { return; }
      }
      assert src[..tot] == src;
      ok := true;
    }

    // Everything has been written and the size of the file is that of its contents.
    ghost predicate Finished(start: Snapshot, n: int, off: int, src: seq<Byte>, data: set<int>)
      requires 0 <= n < |start.contents| == |start.nb| == |start.inodes| && 0 <= off <= |start.contents[n]|
      requires |start.dinodes| == |start.inodes|
      reads this
    {
      && Valid() && |inodes| == |start.inodes| && Settled(n) && |blocks| == start.size
      && contents == start.contents[n := Overwrite(start.contents[n], off, src)]
      && inodes == start.inodes[n := inodes[n]] && dinodes == start.dinodes[n := dinodes[n]]
      && nb == start.nb[n := nb[n]]
      && logged <= start.logged + data + IndirectBlock(n) + BitmapBlocks() + {IBlock(n)}
    }

    // The end of writei(), behind its loop.
    method UpdateSize(n: int, off: int, src: seq<Byte>, ghost start: Snapshot, ghost data: set<int>)
      requires 0 <= n < |start.contents| == |start.nb| == |start.inodes| && 0 <= off <= |start.contents[n]|
      requires start.inodes[n].size == |start.contents[n]| && |start.dinodes| == |start.inodes|
      requires start.dinodes[n] == start.inodes[n] && Written(start, n, off, src, data)
      modifies this`inodes, this`dinodes, this`logged
      ensures Finished(start, n, off, src, data)
    {
      if |src| > 0 && off + |src| > inodes[n].size {
        SizeIrrelevant(n, off + |src|);
        inodes := inodes[n := inodes[n].(size := off + |src|)];
        IUpdate(n);
      }
    }

    // Write src at offset off of a file. -1 if off is behind the end or the file would be too large.
    // It succeeds exactly when there are blocks enough for what the file grows by.
    method WriteI(n: int, off: int, src: seq<Byte>) returns (ok: bool, r: int, ghost data: set<int>)
      requires Valid() && 0 <= n < |inodes| && Settled(n) && 0 <= off < UINT_RANGE && |src| < UINT_RANGE
      modifies this
      ensures ok && r == -1 <==> off > |old(contents)[n]| || off + |src| > MAXFILE * BSIZE
      ensures !ok <==>
                && off <= |old(contents)[n]| && off + |src| <= MAXFILE * BSIZE
                && old(Spare()) < Demand(|old(contents)[n]|, off + |src|)
      ensures !ok ==> Full(owner, nmeta, |blocks|)
      ensures r == -1 ==> unchanged(this)
      ensures ok && r != -1 ==>
                && r == |src| && Finished(old(Now()), n, off, src, data) && |data| <= Span(off, |src|)
                && Spare() == old(Spare()) - Demand(|old(contents)[n]|, off + |src|)
    {
      data := {};
      if off > inodes[n].size || (off + |src|) % UINT_RANGE < off {
        return true, -1, {};
      }
      if (off + |src|) % UINT_RANGE > MAXFILE * BSIZE {
        return true, -1, {};
      }
      ghost var start := Now();
      ok, data := WriteLoop(n, off, src, start);
      r := |src|;
      if !ok { return; }
      UpdateSize(n, off, src, start, data);
    }

    // The in-memory size plays no part in where the blocks are.
    lemma {:induction false} SizeIrrelevant(n: int, size: int)
      requires Valid() && 0 <= n < |inodes|
      ensures var inodes' := inodes[n := inodes[n].(size := size)];
              Owned(blocks, inodes', owner, nmeta) && FilesOk(blocks, inodes', nb, contents)
    {
      var ip := inodes[n].(size := size);
      var inodes' := inodes[n := ip];
      Unaffected(blocks, blocks, inodes[n], ip, nb[n], contents[n]);
      forall m, s | 0 <= m < |inodes'| && 0 <= s < SLOTS ensures SlotOk(blocks, inodes', owner, m, s) {
        assert SlotOk(blocks, inodes, owner, m, s);
      }
      forall b | b in owner ensures OwnerOk(blocks, inodes', owner, nmeta, b) {
        assert OwnerOk(blocks, inodes, owner, nmeta, b);
      }
    }

    // Read len bytes at offset off, or as many as there are. Nothing is allocated.
    method ReadI(n: int, off: int, len: int) returns (r: int, dst: seq<Byte>)
      requires Valid() && 0 <= n < |inodes| && Settled(n) && 0 <= off < UINT_RANGE && 0 <= len < UINT_RANGE
      modifies this
      ensures unchanged(this)
      ensures r == -1 <==> off > |contents[n]| || off + len >= UINT_RANGE
      ensures r == -1 ==> dst == []
      ensures r != -1 ==>
                && r == (if off + len > |contents[n]| then |contents[n]| - off else len)
                && dst == contents[n][off..off + r]
    {
      dst := [];
      if off > inodes[n].size || (off + len) % UINT_RANGE < off {
        return -1, dst;
      }
      var count := if off + len > inodes[n].size then inodes[n].size - off else len;
      var tot, at := 0, off;
      while tot < count
        invariant 0 <= tot <= count && at == off + tot && unchanged(this)
        invariant dst == contents[n][off..at]
      {
        var addr := BMap(n, at / BSIZE);
        var m := Piece(at, count - tot);
        BlockHoldsPiece(n, at, m);
        assert contents[n][off..at] + contents[n][at..at + m] == contents[n][off..at + m];
        dst := dst + blocks[addr][at % BSIZE..at % BSIZE + m];
        tot, at := tot + m, at + m;
      }
      return count, dst;
    }

    lemma {:induction false} BlockHoldsPiece(n: int, at: int, m: int)
      requires Valid() && 0 <= n < |inodes| && 0 <= at && 0 < m && at + m <= |contents[n]| && at % BSIZE + m <= BSIZE
      ensures at / BSIZE < MAXFILE
      ensures var a := FileAddr(blocks, inodes[n], at / BSIZE);
              0 <= a < |blocks| && blocks[a][at % BSIZE..at % BSIZE + m] == contents[n][at..at + m]
    {
      assert ByteOk(blocks, inodes[n], contents[n], at);
      var a := FileAddr(blocks, inodes[n], at / BSIZE);
      var piece, bytes := blocks[a][at % BSIZE..at % BSIZE + m], contents[n][at..at + m];
      forall k | 0 <= k < m ensures piece[k] == bytes[k] {
        assert (at + k) / BSIZE == at / BSIZE && (at + k) % BSIZE == at % BSIZE + k;
        assert ByteOk(blocks, inodes[n], contents[n], at + k);
      }
    }

    // One transaction of filewrite(). It logs no more blocks than an operation may.
    method WriteChunk(n: int, off: int, src: seq<Byte>) returns (ok: bool, r: int)
      requires Valid() && 0 <= n < |inodes| && Settled(n) && 0 <= off < UINT_RANGE && |src| <= CHUNK
      modifies this
      ensures ok && r == -1 <==> off > |old(contents)[n]| || off + |src| > MAXFILE * BSIZE
      ensures !ok <==>
                && off <= |old(contents)[n]| && off + |src| <= MAXFILE * BSIZE
                && old(Spare()) < Demand(|old(contents)[n]|, off + |src|)
      ensures !ok ==> Full(owner, nmeta, |blocks|)
      ensures ok ==>
                && Valid() && |inodes| == |old(inodes)| && Settled(n) && (r == -1 || r == |src|)
                && |blocks| == |old(blocks)|
                && (r == -1 ==> contents == old(contents) && Spare() == old(Spare()))
                && (r != -1 ==>
                      && contents == old(contents)[n := Overwrite(old(contents)[n], off, src)]
                      && Spare() == old(Spare()) - Demand(|old(contents)[n]|, off + |src|))
                && (|blocks| <= BPB ==> |logged| <= CHUNK_BLOCKS)
    {
      logged := {};
      ghost var data;
      ok, r, data := WriteI(n, off, src);
      if ok && r != -1 {
        SpanOfChunk(off, |src|);
        LoggedByChunk(n, data);
      }
    }

    lemma {:induction false} LoggedByChunk(n: int, data: set<int>)
      requires 0 <= n < |inodes| && |inodes[n].addrs| == NDIRECT + 1 && |data| <= 4
      requires logged <= data + IndirectBlock(n) + BitmapBlocks() + {IBlock(n)}
      ensures |blocks| <= BPB ==> |logged| <= CHUNK_BLOCKS
    {
      var rest := IndirectBlock(n) + {bmapStart} + {IBlock(n)};
      if |blocks| <= BPB {
        assert forall c :: 0 <= c < |blocks| ==> BBlock(c) == bmapStart;
        assert logged <= data + rest;
        NoLarger(logged, data + rest);
      }
    }

    // File n holds what it held before with `done` written at off, if off was not behind its end, and
    // has taken the blocks for it.
    ghost predicate Filled(n: int, before: Snapshot, off: int, done: seq<Byte>)
      requires 0 <= n < |before.contents| && 0 <= off
      reads this
    {
      && Valid() && |inodes| == |before.contents| && Settled(n)
      && if off > |before.contents[n]| then contents == before.contents && Spare() == before.spare
         else
           && contents == before.contents[n := Overwrite(before.contents[n], off, done)]
           && Spare() == before.spare - Demand(|before.contents[n]|, off + |done|)
    }

    // The next chunk of src, from index i. No chunk goes behind the end or beyond the largest size.
    method NextChunk(f: File, n: int, src: seq<Byte>, i: int, ghost before: Snapshot, ghost off: int)
      returns (ok: bool, r: int)
      requires 0 <= n < |before.contents| && 0 <= off && 0 <= i < |src| && Filled(n, before, off, src[..i])
      requires f.off == off + i < UINT_RANGE && (off > |before.contents[n]| ==> i == 0)
      modifies this, f`off
      ensures !ok <==>
                && off <= |before.contents[n]| && off + i + ChunkLen(|src| - i) <= MAXFILE * BSIZE
                && before.spare < Demand(|before.contents[n]|, off + i + ChunkLen(|src| - i))
      ensures !ok ==> Full(owner, nmeta, |blocks|)
      ensures ok && r == -1 ==>
                && Filled(n, before, off, src[..i]) && f.off == off + i
                && (off > |before.contents[n]| || off + i + ChunkLen(|src| - i) > MAXFILE * BSIZE)
      ensures ok && r != -1 ==>
                && r == ChunkLen(|src| - i) && Filled(n, before, off, src[..i + r]) && f.off == off + i + r
                && off <= |before.contents[n]| && off + i + r <= MAXFILE * BSIZE
    {
      var n1 := ChunkLen(|src| - i);
      if off <= |before.contents[n]| {
        OverwriteMore(before.contents[n], off, src, i, n1);
        DemandMore(|before.contents[n]|, off + i, off + i + n1);
      }
      ok, r := WriteChunk(n, f.off, src[i..i + n1]);
      if ok && r > 0 {
        f.off := f.off + r;
      }
    }

    // The loop of filewrite().
    method WriteChunks(f: File, n: int, src: seq<Byte>, ghost before: Snapshot, ghost off: int)
      returns (ok: bool, r: int)
      requires 0 <= n < |before.contents| && f.off == off && 0 <= off < UINT_RANGE && Filled(n, before, off, [])
      modifies this, f`off
      ensures var a := Accepted(off, |src|, |before.contents[n]|);
              && (ok <==> a == 0 || before.spare >= Demand(|before.contents[n]|, off + a))
              && (!ok ==> Full(owner, nmeta, |blocks|))
              && (ok ==>
                    && f.off == off + a && r == (if a == |src| then a else -1)
                    && Filled(n, before, off, src[..a]))
    {
      ghost var len := |before.contents[n]|;
      var i := 0;
      assert src[..0] == [];
      while i < |src|
        invariant 0 <= i <= |src| && f.off == off + i && f.off < UINT_RANGE && AtChunk(off, |src|, len, i)
        invariant Filled(n, before, off, src[..i])
      {
        ok, r := NextChunk(f, n, src, i, before, off);
        if !ok {
          AcceptedMore(off, |src|, len, i);
          return;
        }
        if r < 0 {
          AcceptedPart(off, |src|, len, i);
          return true, -1;
        }
        ChunkDone(off, |src|, len, i);
        i := i + r;
      }
      return true, |src|;
    }

    // Write to an open file, chunk by chunk. The result is -1 unless everything was written, even
    // though the chunks before the failing one stay written. It gets that far exactly when there are
    // blocks enough for all of what it accepts.
    method FileWrite(f: File, n: int, src: seq<Byte>) returns (ok: bool, r: int)
      requires Valid() && 0 <= n < |inodes| && Settled(n) && 0 <= f.off < UINT_RANGE
      modifies this, f`off
      ensures !f.writable ==> ok && r == -1 && unchanged(this) && unchanged(f)
      ensures f.writable ==>
                var a := Accepted(old(f.off), |src|, |old(contents)[n]|);
                ok <==> a == 0 || old(Spare()) >= Demand(|old(contents)[n]|, old(f.off) + a)
      ensures !ok ==> Full(owner, nmeta, |blocks|)
      ensures ok && f.writable ==>
                var a := Accepted(old(f.off), |src|, |old(contents)[n]|);
                && f.off == old(f.off) + a && r == (if a == |src| then a else -1)
                && Filled(n, old(Now()), old(f.off), src[..a])
    {
      if !f.writable { return true, -1; }
      ghost var off := f.off;
      assert off <= |contents[n]| ==> Overwrite(contents[n], off, []) == contents[n];
      assert contents[n := contents[n]] == contents;
      ok, r := WriteChunks(f, n, src, Now(), off);
    }

    // Valid except for what inode n itself contains: its blocks are being released.
    ghost predicate Truncating(start: Snapshot, before: Owner, n: int)
      reads this
    {
      && 0 <= n < |inodes| == |start.inodes| && inodes == start.inodes[n := inodes[n]]
      && |inodes[n].addrs| == NDIRECT + 1
      && contents == start.contents && nb == start.nb && |nb| == |contents| == |inodes|
      && dinodes == start.dinodes && |dinodes| == |inodes| && |blocks| == start.size < UINT_RANGE
      && (forall m :: 0 <= m < |inodes| && m != n ==> FileOk(blocks, inodes[m], nb[m], contents[m]))
      && BitsOk(bits, owner.Keys, nmeta, |blocks|) && Shrunk(before, owner, n)
      && start.logged <= logged <= start.logged + BitmapBlocks()
    }

    // Free one block of inode n.
    method Release(n: int, a: int, ghost start: Snapshot, ghost before: Owner)
      requires Truncating(start, before, n) && 0 < nmeta
      requires a != 0 ==> a in owner && owner[a].0 == n && nmeta <= a < |blocks|
      requires a == 0 ==> a !in owner
      modifies this`bits, this`logged, this`owner
      ensures Truncating(start, before, n) && owner == old(owner) - {a}
    {
      if a != 0 {
        assert BitOk(bits, owner.Keys, nmeta, a);
        BFree(a);
      }
    }

    // The loop over the direct blocks.
    method TruncDirect(n: int, ghost start: Snapshot, ghost before: Owner)
      requires Truncating(start, before, n) && Owned(blocks, inodes, owner, nmeta)
      modifies this`bits, this`logged, this`owner, this`inodes
      ensures Truncating(start, before, n) && Owned(blocks, inodes, owner, nmeta)
      ensures forall k :: 0 <= k < NDIRECT ==> inodes[n].addrs[k] == 0
    {
      var i := 0;
      while i < NDIRECT
        invariant 0 <= i <= NDIRECT
        invariant Truncating(start, before, n) && Owned(blocks, inodes, owner, nmeta)
        invariant forall k :: 0 <= k < i ==> inodes[n].addrs[k] == 0
      {
        assert SlotOk(blocks, inodes, owner, n, i);
        DirectReleased(blocks, inodes, owner, nmeta, n, i);
        assert 0 in owner ==> OwnerOk(blocks, inodes, owner, nmeta, 0);
        Release(n, inodes[n].addrs[i], start, before);
        inodes := inodes[n := inodes[n].(addrs := inodes[n].addrs[i := 0])];
        i := i + 1;
      }
    }

    // The loop over the entries of the indirect block, which is freed behind them.
    method TruncIndirect(n: int, ghost start: Snapshot, ghost before: Owner)
      requires Truncating(start, before, n) && Owned(blocks, inodes, owner, nmeta) && inodes[n].addrs[NDIRECT] != 0
      modifies this`bits, this`logged, this`owner, this`inodes
      ensures Truncating(start, before, n) && Owned(blocks, inodes, owner, nmeta)
      ensures inodes[n].addrs == old(inodes)[n].addrs[NDIRECT := 0]
    {
      var x := inodes[n].addrs[NDIRECT];
      NothingReleased(blocks, inodes, owner, nmeta, n);
      var j := 0;
      while j < NINDIRECT
        invariant 0 <= j <= NINDIRECT && inodes == old(inodes)
        invariant Truncating(start, before, n) && OwnedBut(blocks, inodes, owner, nmeta, n, j)
      {
        assert SlotOk(blocks, inodes, owner, n, NDIRECT + 1 + j);
        EntryReleased(blocks, inodes, owner, nmeta, n, j);
        assert 0 in owner ==> OwnerOk(blocks, inodes, owner, nmeta, 0);
        Release(n, Word(blocks[x], j), start, before);
        j := j + 1;
      }
      assert SlotOk(blocks, inodes, owner, n, NDIRECT);
      IndirectReleased(blocks, inodes, owner, nmeta, n);
      Release(n, x, start, before);
      inodes := inodes[n := inodes[n].(addrs := inodes[n].addrs[NDIRECT := 0])];
    }

    lemma {:induction false} Emptied(n: int, start: Snapshot, before: Owner)
      requires Truncating(start, before, n) && Owned(blocks, inodes, owner, nmeta)
      requires forall k :: 0 <= k <= NDIRECT ==> inodes[n].addrs[k] == 0
      ensures var inodes' := inodes[n := inodes[n].(size := 0)];
              Owned(blocks, inodes', owner, nmeta) && FilesOk(blocks, inodes', nb[n := 0], contents[n := []])
      ensures owner == Without(before, n)
    {
      var ip := inodes[n].(size := 0);
      var inodes' := inodes[n := ip];
      assert forall s :: 0 <= s < SLOTS ==> SlotAddr(blocks, inodes[n], s) == 0 == SlotAddr(blocks, ip, s);
      forall m, s | 0 <= m < |inodes'| && 0 <= s < SLOTS ensures SlotOk(blocks, inodes', owner, m, s) {
        assert SlotOk(blocks, inodes, owner, m, s);
      }
      forall b | b in owner ensures OwnerOk(blocks, inodes', owner, nmeta, b) && owner[b].0 != n {
        assert OwnerOk(blocks, inodes, owner, nmeta, b);
      }
      assert forall b :: b in owner <==> b in Without(before, n);
      assert forall b :: b in owner ==> owner[b] == Without(before, n)[b];
    }

    // Discard the contents of a file: exactly its blocks become free.
    method ITrunc(n: int)
      requires Valid() && 0 <= n < |inodes|
      modifies this
      ensures Valid() && |inodes| == |old(inodes)| && Settled(n)
      ensures contents == old(contents)[n := []] && inodes == old(inodes)[n := inodes[n]]
      ensures dinodes == old(dinodes)[n := inodes[n]] && blocks == old(blocks)
      ensures owner == Without(old(owner), n)
      ensures old(logged) <= logged <= old(logged) + BitmapBlocks() + {IBlock(n)}
    {
      ghost var start, before := Now(), owner;
      TruncDirect(n, start, before);
      if inodes[n].addrs[NDIRECT] != 0 {
        TruncIndirect(n, start, before);
      }
      Emptied(n, start, before);
      inodes := inodes[n := inodes[n].(size := 0)];
      nb, contents := nb[n := 0], contents[n := []];
      IUpdate(n);
    }

    // What bmap() leaves when it returns the address of block bn of file n.
    twostate predicate Mapped(n: int, bn: int, addr: int)
      reads this
    {
      && Valid() && 0 <= n < |inodes| && 0 <= bn < MAXFILE && addr == FileAddr(blocks, inodes[n], bn)
      && |old(nb)| == |inodes| == |old(inodes)|
      && nb == old(nb)[n := if bn < old(nb)[n] then old(nb)[n] else bn + 1]
      && contents == old(contents) && dinodes == old(dinodes) && |blocks| == |old(blocks)|
      && inodes == old(inodes)[n := inodes[n]] && inodes[n].size == old(inodes)[n].size
      && (old(Exact(n)) ==> Exact(n)) && |old(inodes)[n].addrs| == NDIRECT + 1
      && Spare() == old(Spare() - Need(n, bn))
      && (old(inodes)[n].addrs[NDIRECT] != 0 ==> inodes[n].addrs[NDIRECT] == old(inodes)[n].addrs[NDIRECT])
      && Logs(old(logged), logged, n, {addr})
    }

    // At most bitmap blocks, the indirect block of file n and the given blocks have been logged.
    ghost predicate Logs(before: set<int>, after: set<int>, n: int, data: set<int>)
      reads this`inodes, this`blocks
    {
      && 0 <= n < |inodes| && |inodes[n].addrs| == NDIRECT + 1
      && before <= after <= before + data + IndirectBlock(n) + BitmapBlocks()
    }

    ghost function IndirectBlock(n: int): (s: set<int>)
      requires 0 <= n < |inodes| && |inodes[n].addrs| == NDIRECT + 1
      reads this`inodes
    {
      if inodes[n].addrs[NDIRECT] == 0 then {} else {inodes[n].addrs[NDIRECT]}
    }

    ghost function BitmapBlocks(): (s: set<int>)
      reads this`blocks
    {
      set c | 0 <= c < |blocks| :: BBlock(c)
    }
  }
}
