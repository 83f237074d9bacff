/** What several modules share. */
module Basics {

  datatype Option<T> = None | Some(value: T)

  type Byte = x: nat | x < 256

  const PGSIZE: nat := 4096

  /** The flag bits of a page-table entry; rsw is the bit that software may use. */
  datatype Flags = Flags(r: bool, w: bool, x: bool, u: bool, rsw: bool)

  /** A page-table entry with PTE_V set. */
  datatype Pte = Pte(frame: nat, flags: Flags)

  /** The most blocks one file-system operation may log (param.h). */
  const MAXOPBLOCKS: nat := 10

  predicate NoDup(s: seq<nat>) {
    forall i, j :: 0 <= i < j < |s| ==> s[i] != s[j]
  }

  function Without(s: seq<nat>, k: nat): seq<nat>
    requires k < |s|
  {
    s[..k] + s[k + 1..]
  }
}
