/**
  The node constructors of the earlier node model, src/main/python/awsfs/vfs.py,
  expressed as nodes of `Vfs`. Its VNode, VDir, VFile and VLink are the
  current ones; its lazy classes are the current LDir, CLDir and LFile with
  the size always computed from the contents, and its StaticFile is a lazy
  file over a constant.
*/
module LegacyVfs {
  import opened Wrappers
  import opened Posix
  import Vfs

  /** `LazyReadOnlyDir(get_children_func)` */
  function LazyReadOnlyDir(supplier: Vfs.SupplierId): Vfs.Node
  {
    Vfs.LDir(supplier)
  }

  /** A LazyReadOnlyDir is a directory of size 0 that asks its supplier on every listing. */
  lemma LazyDirAsksSupplier(supplier: Vfs.SupplierId, env: Vfs.Env)
    ensures var n := LazyReadOnlyDir(supplier);
            Vfs.IsDir(n) && Vfs.GetType(n) == S_IFDIR &&
            Vfs.GetChildren(n, env) == env.listing(n) && Vfs.GetSize(n, env) == Success(0)
  {
  }

  /**
    `CachedLazyReadOnlyDir(get_children_func, ttl_sec)`: the listing goes
    through a fresh LoadingCache under the key 'children'. Unlike the current
    CLDir, the TTL has no default.
  */
  method CachedLazyReadOnlyDir(supplier: Vfs.SupplierId, ttlSecs: int) returns (n: Vfs.Node)
    ensures n.CLDir? && fresh(n.dir) && fresh(n.dir.cache) && n.dir.Valid()
    ensures n.dir.supplier == supplier && n.dir.cache.ttlSecs == ttlSecs && n.dir.cache.table == map[]
  {
    var dir := new Vfs.CachedLazyDir(supplier, ttlSecs);
    n := Vfs.CLDir(dir);
  }

  /** `LazyReadOnlyFile(get_contents_func)` */
  function LazyReadOnlyFile(supplier: Vfs.SupplierId): Vfs.Node
  {
    Vfs.LFile(supplier, Vfs.Auto)
  }

  /**
    A LazyReadOnlyFile is a regular file whose every read asks the supplier,
    whose size is the length of such a read, and whose writes do nothing.
  */
  lemma LazyFileSizeIsReadLength(supplier: Vfs.SupplierId, data: Bytes, env: Vfs.Env)
    ensures var n := LazyReadOnlyFile(supplier);
            !Vfs.IsDir(n) && Vfs.GetType(n) == S_IFREG &&
            Vfs.Read(n, env) == env.content(n) &&
            Vfs.GetSize(n, env) == Vfs.LengthOf(env.content(n)) &&
            Vfs.Write(n, data) == Success(())
  {
  }

  /**
    `StaticFile(contents)`: in the source, a LazyReadOnlyFile whose supplier
    always returns `contents`; here the SFile node, which behaves the same
    (`StaticFileActsAsLazyFile`).
  */
  function StaticFile(contents: Bytes): Vfs.Node
  {
    Vfs.SFile(contents)
  }

  /** A StaticFile reads its contents, whatever the suppliers answer, and its size is their length. */
  lemma StaticFileIsConstantLazyFile(contents: Bytes, env: Vfs.Env)
    ensures var n := StaticFile(contents);
            !Vfs.IsDir(n) && Vfs.GetType(n) == S_IFREG &&
            Vfs.Read(n, env) == Success(contents) &&
            Vfs.GetSize(n, env) == Vfs.LengthOf(Vfs.Read(n, env)) == Success(|contents|)
  {
  }

  /**
    A StaticFile is indistinguishable from a LazyReadOnlyFile whose supplier
    answers its contents: same type, reads, size and writes.
  */
  lemma StaticFileActsAsLazyFile(contents: Bytes, supplier: Vfs.SupplierId, data: Bytes, env: Vfs.Env)
    requires env.content(LazyReadOnlyFile(supplier)) == Success(contents)
    ensures var s, l := StaticFile(contents), LazyReadOnlyFile(supplier);
            Vfs.IsDir(s) == Vfs.IsDir(l) && Vfs.GetType(s) == Vfs.GetType(l) &&
            Vfs.Read(s, env) == Vfs.Read(l, env) && Vfs.GetSize(s, env) == Vfs.GetSize(l, env) &&
            Vfs.Write(s, data) == Vfs.Write(l, data)
  {
  }
}
