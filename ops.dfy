/**
  The FUSE operations of `AwsOps` in awsfs/awsfs.py, and the root directory
  they resolve against. Every operation that reads the tree first resolves
  its path; every operation that would change it raises EPERM. `Call` is
  what the host sees once `__call__` has dispatched the operation.
*/
module AwsOps {
  import opened Wrappers
  import opened Posix
  import opened Failures
  import opened Resolver
  import opened Dispatcher
  import Vfs
  import Fuse

  /** The top of the tree: one static directory over the five providers' roots, in this order. */
  function RootDir(iam: Vfs.Node, dynamo: Vfs.Node, ec2: Vfs.Node, elb: Vfs.Node, s3: Vfs.Node): Vfs.Node
  {
    Vfs.SDir([("iam", iam), ("dynamo", dynamo), ("ec2", ec2), ("elb", elb), ("s3", s3)])
  }

  /** `getattr`: directories are 0755 with two links and no size; anything else reports its own type and size. */
  function GetAttr(root: Vfs.Node, path: string, env: Vfs.Env): (r: Result<Fuse.Attrs, Exception>)
    ensures var p := ResolvePath(root, path, env);
            p.Failure? ==> r == Failure(p.error)
    ensures var p := ResolvePath(root, path, env);
            p.Success? && Vfs.IsDir(p.value) ==> r == Success(Fuse.Attrs(DIR_MODE, 2, None))
    ensures var p := ResolvePath(root, path, env);
            p.Success? && !Vfs.IsDir(p.value) ==>
              (r.Success? <==> Vfs.GetSize(p.value, env).Success?) &&
              (r.Success? ==> r.value.mode == Vfs.GetType(p.value) != S_IFDIR && r.value.nlink == 1 &&
                              r.value.size == Some(Vfs.GetSize(p.value, env).value)) &&
              (r.Failure? ==> r.error == Vfs.GetSize(p.value, env).error)
  {
    match ResolvePath(root, path, env)
    case Failure(e) => Failure(e)
    case Success(n) =>
      if Vfs.IsDir(n) then Success(Fuse.Attrs(DIR_MODE, 2, None))
      else
        match Vfs.GetSize(n, env)
        case Failure(e) => Failure(e)
        case Success(size) => Success(Fuse.Attrs(Vfs.GetType(n), 1, Some(size)))
  }

  /** `open`: a nominal handle 0 for anything but a directory, EISDIR for a directory. */
  function Open(root: Vfs.Node, path: string, env: Vfs.Env): (r: Result<int, Exception>)
    ensures var p := ResolvePath(root, path, env);
            r.Success? <==> p.Success? && !Vfs.IsDir(p.value)
    ensures r.Success? ==> r.value == 0
    ensures var p := ResolvePath(root, path, env);
            p.Success? && Vfs.IsDir(p.value) ==> r == Failure(FuseOSError(EISDIR))
    ensures var p := ResolvePath(root, path, env);
            p.Failure? ==> r == Failure(p.error)
  {
    match ResolvePath(root, path, env)
    case Failure(e) => Failure(e)
    case Success(n) => if Vfs.IsDir(n) then Failure(FuseOSError(EISDIR)) else Success(0)
  }

  /**
    The bytes `read` hands back: nothing at all when the range runs past the
    end of the contents, otherwise exactly `size` bytes from `offset`.
  */
  function Slice(contents: Bytes, size: nat, offset: nat): (r: Bytes)
    ensures r == [] || |r| == size
    ensures |contents| < offset + size ==> r == []
    ensures |contents| >= offset + size ==>
              |r| == size && forall i :: 0 <= i < size ==> r[i] == contents[offset + i]
  {
    if |contents| < offset + size then [] else contents[offset..offset + size]
  }

  /** `read`: EISDIR on a directory, otherwise the slice of what the node reads. */
  function Read(root: Vfs.Node, path: string, size: nat, offset: nat, env: Vfs.Env): (r: Result<Bytes, Exception>)
    ensures var p := ResolvePath(root, path, env);
            p.Failure? ==> r == Failure(p.error)
    ensures var p := ResolvePath(root, path, env);
            p.Success? && Vfs.IsDir(p.value) ==> r == Failure(FuseOSError(EISDIR))
    ensures var p := ResolvePath(root, path, env);
            p.Success? && !Vfs.IsDir(p.value) ==>
              var contents := Vfs.Read(p.value, env);
              (r.Success? <==> contents.Success?) &&
              (r.Success? ==> r.value == Slice(contents.value, size, offset)) &&
              (r.Failure? ==> r.error == contents.error)
  {
    match ResolvePath(root, path, env)
    case Failure(e) => Failure(e)
    case Success(n) =>
      if Vfs.IsDir(n) then Failure(FuseOSError(EISDIR))
      else
        match Vfs.Read(n, env)
        case Failure(e) => Failure(e)
        case Success(contents) => Success(Slice(contents, size, offset))
  }

  /** The names of a listing, in its order. */
  function Names(children: Vfs.Listing): (names: seq<string>)
    ensures |names| == |children|
    ensures forall i :: 0 <= i < |children| ==> names[i] == children[i].0
  {
    seq(|children|, i requires 0 <= i < |children| => children[i].0)
  }

  /** `readdir`: the child names in `get_children` order, ENOTDIR for anything but a directory. */
  function ReadDir(root: Vfs.Node, path: string, env: Vfs.Env): (r: Result<seq<string>, Exception>)
    ensures var p := ResolvePath(root, path, env);
            p.Failure? ==> r == Failure(p.error)
    ensures var p := ResolvePath(root, path, env);
            p.Success? && !Vfs.IsDir(p.value) ==> r == Failure(FuseOSError(ENOTDIR))
    ensures var p := ResolvePath(root, path, env);
            p.Success? && Vfs.IsDir(p.value) ==>
              var children := Vfs.GetChildren(p.value, env);
              (r.Success? <==> children.Success?) &&
              (r.Success? ==> |r.value| == |children.value| &&
                              forall i :: 0 <= i < |children.value| ==> r.value[i] == children.value[i].0) &&
              (r.Failure? ==> r.error == children.error)
  {
    match ResolvePath(root, path, env)
    case Failure(e) => Failure(e)
    case Success(n) =>
      if !Vfs.IsDir(n) then Failure(FuseOSError(ENOTDIR))
      else
        match Vfs.GetChildren(n, env)
        case Failure(e) => Failure(e)
        case Success(children) => Success(Names(children))
  }

  /** `readlink`: the target of a link, EINVAL for a node of any other type. */
  function ReadLink(root: Vfs.Node, path: string, env: Vfs.Env): (r: Result<Bytes, Exception>)
    ensures var p := ResolvePath(root, path, env);
            p.Failure? ==> r == Failure(p.error)
    ensures var p := ResolvePath(root, path, env);
            p.Success? && !p.value.VLink? ==> r == Failure(FuseOSError(EINVAL))
    ensures var p := ResolvePath(root, path, env);
            r.Success? <==> p.Success? && p.value.VLink?
    ensures r.Success? ==> r.value == ResolvePath(root, path, env).value.dest
  {
    match ResolvePath(root, path, env)
    case Failure(e) => Failure(e)
    case Success(n) => if Vfs.GetType(n) != S_IFLNK then Failure(FuseOSError(EINVAL)) else Vfs.Read(n, env)
  }

  /** `statfs`: no meaningful block counts for a remote-backed tree. */
  const NO_STATS: Fuse.FsStats := Fuse.FsStats(0, 0, 0)

  /** A successful answer of one operation, wrapped as a reply. */
  function Reply<T>(r: Result<T, Exception>, wrap: T -> Fuse.Reply): Result<Fuse.Reply, Exception>
  {
    match r
    case Success(v) => Success(wrap(v))
    case Failure(e) => Failure(e)
  }

  /** `Operations.__call__`: the method named by the request, applied to its arguments. */
  function Invoke(req: Fuse.Request, root: Vfs.Node, env: Vfs.Env): (r: Result<Fuse.Reply, Exception>)
    ensures Fuse.IsMutation(req) ==> r == Failure(FuseOSError(EPERM))
  {
    match req
    case GetAttr(path) => Reply(GetAttr(root, path, env), (a: Fuse.Attrs) => Fuse.AttrsReply(a))
    case GetXAttr(_, _) => Success(Fuse.TextReply(""))
    case ListXAttr(_) => Success(Fuse.NamesReply([]))
    case Open(path, _) => Reply(Open(root, path, env), (h: int) => Fuse.IntReply(h))
    case Read(path, size, offset) => Reply(Read(root, path, size, offset, env), (b: Bytes) => Fuse.BytesReply(b))
    case ReadDir(path) => Reply(ReadDir(root, path, env), (names: seq<string>) => Fuse.NamesReply(names))
    case ReadLink(path) => Reply(ReadLink(root, path, env), (b: Bytes) => Fuse.BytesReply(b))
    case StatFs(_) => Success(Fuse.StatsReply(NO_STATS))
    case _ => Failure(FuseOSError(EPERM))
  }

  /** What the host sees of one request: the operation run under `__call__` with the standard classifier. */
  function Call(req: Fuse.Request, root: Vfs.Node, env: Vfs.Env): (o: Outcome<Fuse.Reply>)
    ensures o.Crash? <==> Invoke(req, root, env) == Failure(OtherException)
    ensures Invoke(req, root, env).Success? ==> o == Return(Invoke(req, root, env).value)
  {
    CrashOnlyOnUnknown(Invoke(req, root, env));
    Dispatch(Invoke(req, root, env), Standard)
  }

  /** The requests that resolve their path before anything else. */
  predicate Resolves(req: Fuse.Request)
  {
    req.GetAttr? || req.Open? || req.Read? || req.ReadDir? || req.ReadLink?
  }

  /** Every mutating request is refused with EPERM, whatever its arguments, and logged at DEBUG only. */
  lemma MutationsRefused(req: Fuse.Request, root: Vfs.Node, env: Vfs.Env)
    requires Fuse.IsMutation(req)
    ensures Call(req, root, env) == Raise(EPERM, Debug)
  {
  }

  /** The extended-attribute and statfs requests never resolve their path: they answer even for a missing one. */
  lemma ConstantAnswers(path: string, name: string, root: Vfs.Node, env: Vfs.Env)
    ensures Call(Fuse.GetXAttr(path, name), root, env) == Return(Fuse.TextReply(""))
    ensures Call(Fuse.ListXAttr(path), root, env) == Return(Fuse.NamesReply([]))
    ensures Call(Fuse.StatFs(path), root, env) == Return(Fuse.StatsReply(Fuse.FsStats(0, 0, 0)))
  {
  }

  /** A failed resolution is what the host sees of any request that resolves: its errno, classified or passed on. */
  lemma ResolutionFailureReachesHost(req: Fuse.Request, root: Vfs.Node, env: Vfs.Env)
    requires Resolves(req) && ResolvePath(root, req.path, env).Failure?
    ensures Invoke(req, root, env) == Failure(ResolvePath(root, req.path, env).error)
    ensures var e := ResolvePath(root, req.path, env).error;
            e.FuseOSError? ==> Call(req, root, env) == Raise(e.errno, Debug)
    ensures var e := ResolvePath(root, req.path, env).error;
            !e.FuseOSError? && e != OtherException ==>
              Call(req, root, env) == Raise(ToFuseEx(e).value.errno, ToFuseEx(e).value.level)
  {
    CrashOnlyOnUnknown(Invoke(req, root, env));
  }

  /** A request on a path with no '/' fails inside `resolve` with IndexError, and the process crashes. */
  lemma RelativePathCrashes(req: Fuse.Request, root: Vfs.Node, env: Vfs.Env)
    requires Resolves(req) && '/' !in req.path
    ensures Call(req, root, env) == Crash
  {
    ResolveWithoutSlash(root, req.path, env);
  }

  /** A request on a path containing a '/' and ending in '/' is answered as the same request without it. */
  lemma TrailingSlashIgnored(path: string, root: Vfs.Node, env: Vfs.Env)
    requires '/' in path && path[|path| - 1] != '/'
    ensures GetAttr(root, path + "/", env) == GetAttr(root, path, env)
    ensures ReadDir(root, path + "/", env) == ReadDir(root, path, env)
    ensures Open(root, path + "/", env) == Open(root, path, env)
  {
    ResolveTrailingSlash(root, path, env);
  }

  /** Two reads that tile a range inside the contents return that range: in-range reads concatenate. */
  lemma {:induction false} AdjacentReadsConcatenate(contents: Bytes, offset: nat, a: nat, b: nat)
    requires offset + a + b <= |contents|
    ensures Slice(contents, a, offset) + Slice(contents, b, offset + a) == Slice(contents, a + b, offset)
  {
    assert contents[offset..offset + a] + contents[offset + a..offset + a + b] == contents[offset..offset + a + b];
  }

  /**
    A reader stepping through a file in chunks of `size` gets nothing for
    the last, partial chunk: the bytes after the final full chunk are never
    returned at that chunk size.
  */
  lemma PartialTailUnreadable(contents: Bytes, size: nat, k: nat)
    requires size > 0 && k * size < |contents| < (k + 1) * size
    ensures Slice(contents, size, k * size) == []
    ensures forall j: nat :: j < k ==> |Slice(contents, size, j * size)| == size
  {
    forall j: nat | j < k
      ensures |Slice(contents, size, j * size)| == size
    {
      assert j * size + size == (j + 1) * size;
      assert (j + 1) * size <= k * size by {
        assert j + 1 <= k;
      }
    }
  }

  const HELLO: Bytes := [0x68, 0x65, 0x6c, 0x6c, 0x6f]

  /** A tree holding one file "/hello". */
  function HelloTree(): Vfs.Node
  {
    Vfs.SDir([("hello", Vfs.SFile(HELLO))])
  }

  lemma HelloResolves(env: Vfs.Env)
    ensures ResolvePath(HelloTree(), "/hello", env) == Success(Vfs.SFile(HELLO))
  {
    ResolvePieces(HelloTree(), ["hello"], env);
    assert "/" + Paths.Join(["hello"]) == "/hello";
  }

  /** "hello" read past its end is empty, and the in-range reads are exact: "hel" and "llo". */
  lemma HelloReads(env: Vfs.Env)
    ensures Call(Fuse.Read("/hello", 10, 0), HelloTree(), env) == Return(Fuse.BytesReply([]))
    ensures Call(Fuse.Read("/hello", 3, 0), HelloTree(), env) == Return(Fuse.BytesReply([0x68, 0x65, 0x6c]))
    ensures Call(Fuse.Read("/hello", 3, 2), HelloTree(), env) == Return(Fuse.BytesReply([0x6c, 0x6c, 0x6f]))
    ensures Call(Fuse.Read("/hello", 5, 0), HelloTree(), env) == Return(Fuse.BytesReply(HELLO))
  {
    HelloResolves(env);
    assert Read(HelloTree(), "/hello", 3, 0, env) == Success([0x68, 0x65, 0x6c]) by {
      assert HELLO[0..3] == [0x68, 0x65, 0x6c];
    }
    assert Read(HelloTree(), "/hello", 3, 2, env) == Success([0x6c, 0x6c, 0x6f]) by {
      assert HELLO[2..5] == [0x6c, 0x6c, 0x6f];
    }
    assert Read(HelloTree(), "/hello", 5, 0, env) == Success(HELLO) by {
      assert HELLO[0..5] == HELLO;
    }
  }

  /** The root lists the five providers in order, and "/s3" is the S3 provider's root. */
  lemma RootListing(iam: Vfs.Node, dynamo: Vfs.Node, ec2: Vfs.Node, elb: Vfs.Node, s3: Vfs.Node, env: Vfs.Env)
    ensures var root := RootDir(iam, dynamo, ec2, elb, s3);
            ReadDir(root, "/", env) == Success(["iam", "dynamo", "ec2", "elb", "s3"])
    ensures var root := RootDir(iam, dynamo, ec2, elb, s3);
            ResolvePath(root, "/s3", env) == Success(s3)
  {
    var root := RootDir(iam, dynamo, ec2, elb, s3);
    ResolveRoot(root, env);
    assert Names(root.children) == ["iam", "dynamo", "ec2", "elb", "s3"];
    ResolvePieces(root, ["s3"], env);
    assert "/" + Paths.Join(["s3"]) == "/s3";
    Vfs.LookupFindsFirstMatch(root.children, "s3", 4);
    assert ["s3"][1..] == [];
  }

  /** A link reports the link type and its target's length; `readlink` on a regular file is EINVAL. */
  lemma LinksAndFiles(dest: Bytes, contents: Bytes, env: Vfs.Env)
    ensures var root := Vfs.SDir([("l", Vfs.VLink(dest)), ("f", Vfs.SFile(contents))]);
            GetAttr(root, "/l", env) == Success(Fuse.Attrs(S_IFLNK, 1, Some(|dest|))) &&
            ReadLink(root, "/l", env) == Success(dest) &&
            GetAttr(root, "/f", env) == Success(Fuse.Attrs(S_IFREG, 1, Some(|contents|))) &&
            ReadLink(root, "/f", env) == Failure(FuseOSError(EINVAL)) &&
            ReadDir(root, "/f", env) == Failure(FuseOSError(ENOTDIR)) &&
            Read(root, "/", 1, 0, env) == Failure(FuseOSError(EISDIR))
  {
    var root := Vfs.SDir([("l", Vfs.VLink(dest)), ("f", Vfs.SFile(contents))]);
    ResolveRoot(root, env);
    ResolvePieces(root, ["l"], env);
    ResolvePieces(root, ["f"], env);
    assert "/" + Paths.Join(["l"]) == "/l";
    assert "/" + Paths.Join(["f"]) == "/f";
    Vfs.LookupFindsFirstMatch(root.children, "f", 1);
    assert ["f"][1..] == [];
  }
}
