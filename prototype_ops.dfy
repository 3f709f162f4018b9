/**
  `Awsfs` of src/main/python/awsfs.py, the first single-file prototype. Its
  tree operations are those of `EarlyOps`, but no mutating request raises:
  `chmod` returns 0, `chown` returns None, and every other mutator, and
  `readlink`, returns the number ENOENT as an ordinary value.
*/
module PrototypeOps {
  import opened Wrappers
  import opened Posix
  import opened Failures
  import opened Resolver
  import Vfs
  import Fuse
  import AwsOps
  import EarlyOps

  /** The root of the prototype: "dynamodb" then "ec2". */
  function RootDir(dynamodb: Vfs.Node, ec2: Vfs.Node): Vfs.Node
  {
    Vfs.SDir([("dynamodb", dynamodb), ("ec2", ec2)])
  }

  /** `Operations.__call__` for the prototype. */
  function Invoke(req: Fuse.Request, root: Vfs.Node, env: Vfs.Env): (r: Result<Fuse.Reply, Exception>)
    ensures r.Failure? ==> AwsOps.Resolves(req) && !req.ReadLink?
    ensures req.Chmod? ==> r == Success(Fuse.IntReply(0))
    ensures req.Chown? ==> r == Success(Fuse.NoneReply)
    ensures (Fuse.IsMutation(req) && !req.Chmod? && !req.Chown?) || req.ReadLink? ==> r == Success(Fuse.IntReply(ENOENT))
    ensures req.StatFs? ==> r == Success(Fuse.StatsReply(Fuse.FsStats(512, 4096, 2048)))
  {
    match req
    case GetAttr(path) => AwsOps.Reply(EarlyOps.GetAttr(root, path, env), (a: Fuse.Attrs) => Fuse.AttrsReply(a))
    case GetXAttr(_, _) => Success(Fuse.TextReply(""))
    case ListXAttr(_) => Success(Fuse.NamesReply([]))
    case Open(path, _) => AwsOps.Reply(AwsOps.Open(root, path, env), (h: int) => Fuse.IntReply(h))
    case Read(path, size, offset) =>
      AwsOps.Reply(AwsOps.Read(root, path, size, offset, env), (b: Bytes) => Fuse.BytesReply(b))
    case ReadDir(path) => AwsOps.Reply(AwsOps.ReadDir(root, path, env), (names: seq<string>) => Fuse.NamesReply(names))
    case StatFs(_) => Success(Fuse.StatsReply(EarlyOps.STATS))
    case Chmod(_, _) => Success(Fuse.IntReply(0))
    case Chown(_, _, _) => Success(Fuse.NoneReply)
    case _ => Success(Fuse.IntReply(ENOENT))
  }

  /**
    The prototype and the early version differ exactly on the requests the
    early version refuses: there they raise EPERM, here they return a value.
  */
  lemma AgreesWithEarlyOutsideRefusals(req: Fuse.Request, root: Vfs.Node, env: Vfs.Env)
    ensures Invoke(req, root, env) == EarlyOps.Invoke(req, root, env) <==> !(Fuse.IsMutation(req) || req.ReadLink?)
  {
  }

  /** The root lists "dynamodb" then "ec2". */
  lemma RootListing(dynamodb: Vfs.Node, ec2: Vfs.Node, env: Vfs.Env)
    ensures AwsOps.ReadDir(RootDir(dynamodb, ec2), "/", env) == Success(["dynamodb", "ec2"])
  {
    var root := RootDir(dynamodb, ec2);
    ResolveRoot(root, env);
    assert AwsOps.Names(root.children) == ["dynamodb", "ec2"];
  }
}
