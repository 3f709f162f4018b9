/**
  `AwsOps` of src/main/python/awsfs/awsfs.py, the version before the error
  framework: no `__call__` classifier (exceptions go to the binding as
  raised), two providers at the root, every non-directory reported as a
  regular file, `readlink` refused like the mutators, and fixed statfs numbers.
  `open`, `read`, `readdir` and the xattr operations are the current code.
*/
module EarlyOps {
  import opened Wrappers
  import opened Posix
  import opened Failures
  import opened Resolver
  import Vfs
  import Fuse
  import AwsOps

  /** The root of this version: "dynamo" then "ec2". */
  function RootDir(dynamo: Vfs.Node, ec2: Vfs.Node): Vfs.Node
  {
    Vfs.SDir([("dynamo", dynamo), ("ec2", ec2)])
  }

  /** `getattr`: as now, except that every non-directory, links included, is a regular file. */
  function GetAttr(root: Vfs.Node, path: string, env: Vfs.Env): (r: Result<Fuse.Attrs, Exception>)
    ensures var p := ResolvePath(root, path, env);
            p.Failure? ==> r == Failure(p.error)
    ensures var p := ResolvePath(root, path, env);
            p.Success? && Vfs.IsDir(p.value) ==> r == Success(Fuse.Attrs(DIR_MODE, 2, None))
    ensures var p := ResolvePath(root, path, env);
            p.Success? && !Vfs.IsDir(p.value) ==>
              (r.Success? <==> Vfs.GetSize(p.value, env).Success?) &&
              (r.Success? ==> r.value == Fuse.Attrs(S_IFREG, 1, Some(Vfs.GetSize(p.value, env).value))) &&
              (r.Failure? ==> r.error == Vfs.GetSize(p.value, env).error)
  {
    match ResolvePath(root, path, env)
    case Failure(e) => Failure(e)
    case Success(n) =>
      if Vfs.IsDir(n) then Success(Fuse.Attrs(DIR_MODE, 2, None))
      else
        match Vfs.GetSize(n, env)
        case Failure(e) => Failure(e)
        case Success(size) => Success(Fuse.Attrs(S_IFREG, 1, Some(size)))
  }

  /** `statfs`: fixed numbers. */
  const STATS: Fuse.FsStats := Fuse.FsStats(512, 4096, 2048)

  /** `Operations.__call__` for this version. */
  function Invoke(req: Fuse.Request, root: Vfs.Node, env: Vfs.Env): (r: Result<Fuse.Reply, Exception>)
    ensures Fuse.IsMutation(req) || req.ReadLink? ==> r == Failure(FuseOSError(EPERM))
    ensures req.StatFs? ==> r == Success(Fuse.StatsReply(Fuse.FsStats(512, 4096, 2048)))
  {
    match req
    case GetAttr(path) => AwsOps.Reply(GetAttr(root, path, env), (a: Fuse.Attrs) => Fuse.AttrsReply(a))
    case GetXAttr(_, _) => Success(Fuse.TextReply(""))
    case ListXAttr(_) => Success(Fuse.NamesReply([]))
    case Open(path, _) => AwsOps.Reply(AwsOps.Open(root, path, env), (h: int) => Fuse.IntReply(h))
    case Read(path, size, offset) =>
      AwsOps.Reply(AwsOps.Read(root, path, size, offset, env), (b: Bytes) => Fuse.BytesReply(b))
    case ReadDir(path) => AwsOps.Reply(AwsOps.ReadDir(root, path, env), (names: seq<string>) => Fuse.NamesReply(names))
    case StatFs(_) => Success(Fuse.StatsReply(STATS))
    case _ => Failure(FuseOSError(EPERM))
  }

  /** Reading, opening, listing and the xattr requests answer exactly as the current version does. */
  lemma ReadsAsNow(req: Fuse.Request, root: Vfs.Node, env: Vfs.Env)
    requires req.Open? || req.Read? || req.ReadDir? || req.GetXAttr? || req.ListXAttr?
    ensures Invoke(req, root, env) == AwsOps.Invoke(req, root, env)
  {
  }

  /**
    `getattr` agrees with the current version on everything but links, where
    this version says S_IFREG and the current one S_IFLNK.
  */
  lemma GetAttrDiffersOnlyOnLinks(root: Vfs.Node, path: string, env: Vfs.Env)
    ensures var p := ResolvePath(root, path, env);
            GetAttr(root, path, env) == AwsOps.GetAttr(root, path, env) <==> !(p.Success? && p.value.VLink?)
    ensures var p := ResolvePath(root, path, env);
            p.Success? && p.value.VLink? ==>
              GetAttr(root, path, env) == Success(Fuse.Attrs(S_IFREG, 1, Some(|p.value.dest|))) &&
              AwsOps.GetAttr(root, path, env) == Success(Fuse.Attrs(S_IFLNK, 1, Some(|p.value.dest|)))
  {
  }

  /** The root lists "dynamo" then "ec2". */
  lemma RootListing(dynamo: Vfs.Node, ec2: Vfs.Node, env: Vfs.Env)
    ensures AwsOps.ReadDir(RootDir(dynamo, ec2), "/", env) == Success(["dynamo", "ec2"])
  {
    var root := RootDir(dynamo, ec2);
    ResolveRoot(root, env);
    assert AwsOps.Names(root.children) == ["dynamo", "ec2"];
  }
}
