/** Kinds of files and permission bits, as `stat` reports them. */
module FileModes {
  datatype Kind = Directory | Regular | Symlink | Special

  const GROUP_OR_WORLD_WRITE: bv16 := 0x12
  const GROUP_OR_WORLD: bv16 := 0x3F
  const OWNER_EXECUTE: bv16 := 0x40
  const OWNER_READ_WRITE: bv16 := 0x180
  const PERMISSIONS: bv16 := 0x1FF

  /** Whoever may not do anything may not write. */
  lemma PrivateIsStricter(mode: bv16)
    ensures mode & GROUP_OR_WORLD == 0 ==> mode & GROUP_OR_WORLD_WRITE == 0
  {
  }
}
