/** The constants of Python's `errno` and `stat` modules that the filesystem uses (Linux values). */
module Posix {

  /** File contents and link targets, as byte strings. */
  type Bytes = seq<bv8>

  const EPERM: int := 1
  const ENOENT: int := 2
  const EIO: int := 5
  const ENOTDIR: int := 20
  const EISDIR: int := 21
  const EINVAL: int := 22
  const ENOLINK: int := 67
  const ESTALE: int := 116

  const S_IFDIR: int := 0x4000
  const S_IFREG: int := 0x8000
  const S_IFLNK: int := 0xA000

  /** `S_IFDIR | 0755`: the mode reported for every directory. */
  const DIR_MODE: int := S_IFDIR + 0x1ED
}
