/** The requests the FUSE binding delivers to the filesystem, and the values it accepts back. */
module Fuse {
  import opened Wrappers
  import opened Posix

  datatype Request =
    | GetAttr(path: string)
    | GetXAttr(path: string, name: string)
    | ListXAttr(path: string)
    | Open(path: string, flags: int)
    | Read(path: string, size: nat, offset: nat)
    | ReadDir(path: string)
    | ReadLink(path: string)
    | StatFs(path: string)
    | Chmod(path: string, mode: int)
    | Chown(path: string, uid: int, gid: int)
    | Create(path: string, mode: int)
    | Mkdir(path: string, mode: int)
    | RemoveXAttr(path: string, name: string)
    | Rename(oldPath: string, newPath: string)
    | Rmdir(path: string)
    | SetXAttr(path: string, name: string, value: Bytes, options: int)
    | Symlink(target: string, source: string)
    | Truncate(path: string, length: int)
    | Unlink(path: string)
    | Utimens(path: string)
    | Write(path: string, data: Bytes, at: int)

  /** The operations that would change the tree. */
  predicate IsMutation(r: Request)
  {
    r.Chmod? || r.Chown? || r.Create? || r.Mkdir? || r.RemoveXAttr? || r.Rename? || r.Rmdir? ||
    r.SetXAttr? || r.Symlink? || r.Truncate? || r.Unlink? || r.Utimens? || r.Write?
  }

  /** The `getattr` dict without its timestamps; directories carry no `st_size`. */
  datatype Attrs = Attrs(mode: int, nlink: int, size: Option<int>)

  /** The `statfs` dict. */
  datatype FsStats = FsStats(bsize: int, blocks: int, bavail: int)

  /** What an operation returns to the binding. */
  datatype Reply =
    | AttrsReply(attrs: Attrs)
    | IntReply(n: int)
    | BytesReply(data: Bytes)
    | NamesReply(names: seq<string>)
    | StatsReply(stats: FsStats)
    | TextReply(text: string)
    | NoneReply
}
