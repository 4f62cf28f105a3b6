// The limits of param.h that several parts share.
module Params {
  const MAXOPBLOCKS: nat := 10  // blocks an operation may log
  const LOGSIZE: nat := MAXOPBLOCKS * 3
  const NBUF: nat := MAXOPBLOCKS * 3  // buffers in the block cache
  const CHUNK_BLOCKS: nat := 7  // blocks one transaction of filewrite() logs at most
}

module Options {
  datatype Option<T> = None | Some(value: T)
}

module Sets {
  lemma {:induction false} NoLarger(a: set<int>, b: set<int>)
    requires a <= b
    ensures |a| <= |b|
  {
    assert b == a + (b - a);
  }
}
