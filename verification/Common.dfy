/** What several parts of the system share: sizes (mmu.h, memlayout.h, param.h, fs.h), bytes,
    unsigned 32-bit arithmetic and small helpers. */
module Common {

  const PGSIZE := 4096
  const KERNBASE := 0x80000000
  const BSIZE := 512
  const MAXOPBLOCKS := 10
  const LOGSIZE := MAXOPBLOCKS * 3

  /** One more than the largest unsigned int. */
  const UINT := 0x1_0000_0000

  type Byte = b: int | 0 <= b < 256

  datatype Option<T> = None | Some(value: T)

  function Min(a: nat, b: nat): nat {
    if a < b then a else b
  }

  function Max(a: nat, b: nat): nat {
    if a < b then b else a
  }

  predicate NoDuplicates<T(==)>(s: seq<T>) {
    forall i, j :: 0 <= i < j < |s| ==> s[i] != s[j]
  }

  /** n - 1 on a uint. */
  function Decrement(n: nat): nat {
    if n == 0 then UINT - 1 else n - 1
  }
}
