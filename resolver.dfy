/**
  `RootDir.resolve` of awsfs/awsfs.py (the same code as `AwsOps.resolve` in
  src/main/python/awsfs/awsfs.py and `Awsfs.resolve` in src/main/python/awsfs.py).
  The path is split on '/', its first piece dropped, then at most one
  trailing empty piece dropped; the walk starts at the root and descends
  through the first matching child for each piece in turn.
*/
module Resolver {
  import opened Wrappers
  import opened Posix
  import opened Failures
  import opened Paths
  import opened Vfs

  /**
    The pieces `resolve` walks: `path.split("/")[1:]` with one trailing empty
    piece deleted. `parts[-1]` on an empty list raises IndexError: that is the
    case of a path with no '/' at all.
  */
  function Parts(path: string): Result<seq<string>, Exception>
  {
    var segs := Split(path)[1..];
    if segs == [] then Failure(OtherException)
    else if segs[|segs| - 1] == "" then Success(segs[..|segs| - 1])
    else Success(segs)
  }

  /**
    The walk from `cur` along `parts`: ENOTDIR when it must descend through
    a non-directory, ENOENT when no child matches, and a supplier's
    exception passed on as raised.
  */
  function Walk(cur: Node, parts: seq<string>, env: Env): Result<Node, Exception>
    decreases |parts|
  {
    if parts == [] then Success(cur)
    else if !IsDir(cur) then Failure(FuseOSError(ENOTDIR))
    else
      match ChildOf(cur, parts[0], env)
      case Failure(e) => Failure(e)
      case Success(None) => Failure(FuseOSError(ENOENT))
      case Success(Some(child)) => Walk(child, parts[1..], env)
  }

  /** What `resolve(path)` returns or raises. */
  function ResolvePath(root: Node, path: string, env: Env): Result<Node, Exception>
  {
    match Parts(path)
    case Failure(e) => Failure(e)
    case Success(parts) => Walk(root, parts, env)
  }

  /** `resolve`: the loop that moves `cur` down one piece at a time. */
  method Resolve(root: Node, path: string, env: Env) returns (r: Result<Node, Exception>)
    ensures r == ResolvePath(root, path, env)
  {
    var parts := Split(path)[1..];
    if parts == [] {
      return Failure(OtherException);
    }
    if parts[|parts| - 1] == "" {
      parts := parts[..|parts| - 1];
    }
    var cur := root;
    var i := 0;
    while i < |parts|
      invariant 0 <= i <= |parts|
      invariant Walk(root, parts, env) == Walk(cur, parts[i..], env)
    {
      assert parts[i..][0] == parts[i] && parts[i..][1..] == parts[i + 1..];
      if !IsDir(cur) {
        return Failure(FuseOSError(ENOTDIR));
      }
      var child := GetChild(cur, parts[i], env);
      if child.Failure? {
        return Failure(child.error);
      }
      if child.value.None? {
        return Failure(FuseOSError(ENOENT));
      }
      cur := child.value.value;
      i := i + 1;
    }
    return Success(cur);
  }

  /** `resolve("/")` is the root itself, whatever the suppliers would say. */
  lemma ResolveRoot(root: Node, env: Env)
    ensures ResolvePath(root, "/", env) == Success(root)
  {
    assert Split("/") == ["", ""] by {
      assert "/"[1..] == [];
    }
  }

  /** A path with no '/' (never an absolute path) raises IndexError at `parts[-1]`. */
  lemma ResolveWithoutSlash(root: Node, path: string, env: Env)
    requires '/' !in path
    ensures ResolvePath(root, path, env) == Failure(OtherException)
  {
    SplitCountsSlash(path);
  }

  /** Appending '/' to a path that contains a '/' and does not end in one resolves to the same result. */
  lemma ResolveTrailingSlash(root: Node, path: string, env: Env)
    requires '/' in path && path[|path| - 1] != '/'
    ensures ResolvePath(root, path + "/", env) == ResolvePath(root, path, env)
  {
    SplitTrailingSlash(path);
    SplitLastPiece(path);
    SplitCountsSlash(path);
    var segs := Split(path)[1..];
    assert (Split(path) + [""])[1..] == segs + [""];
    assert (segs + [""])[..|segs|] == segs;
  }

  /**
    Without any '/' the two differ: "abc" raises IndexError, while "abc/"
    drops its one piece after the first and resolves to the root.
  */
  lemma SlashFreeTrailingSlash(root: Node, env: Env)
    ensures ResolvePath(root, "abc", env) == Failure(OtherException)
    ensures ResolvePath(root, "abc/", env) == Success(root)
  {
    ResolveWithoutSlash(root, "abc", env);
    SplitTrailingSlash("abc");
    SplitSlashFree("abc");
    assert Split("abc/")[1..] == [""];
  }

  /** Only one trailing empty piece is dropped: "//" looks up the child named "" of the root. */
  lemma ResolveDoubleSlash(root: Node, env: Env)
    ensures ResolvePath(root, "//", env) == Walk(root, [""], env)
  {
    assert "//"[1..] == "/" && "/"[1..] == [];
    assert Split("//") == ["", "", ""];
  }

  /** An absolute path "/p1/.../pn" walks exactly the pieces p1, ..., pn. */
  lemma ResolvePieces(root: Node, pieces: seq<string>, env: Env)
    requires |pieces| >= 1 && pieces[|pieces| - 1] != ""
    requires forall i :: 0 <= i < |pieces| ==> '/' !in pieces[i]
    ensures ResolvePath(root, "/" + Join(pieces), env) == Walk(root, pieces, env)
  {
    var segs := [""] + pieces;
    assert segs[1..] == pieces;
    assert Join(segs) == "/" + Join(pieces);
    SplitJoin(segs);
  }

  /** Walking `a + b` is walking `a`, then walking `b` from where `a` ended. */
  lemma {:induction false} WalkAppend(cur: Node, a: seq<string>, b: seq<string>, env: Env)
    ensures Walk(cur, a + b, env) ==
            match Walk(cur, a, env)
            case Success(mid) => Walk(mid, b, env)
            case Failure(e) => Failure(e)
    decreases |a|
  {
    if a != [] {
      assert (a + b)[0] == a[0] && (a + b)[1..] == a[1..] + b;
      if IsDir(cur) && ChildOf(cur, a[0], env).Success? && ChildOf(cur, a[0], env).value.Some? {
        WalkAppend(ChildOf(cur, a[0], env).value.value, a[1..], b, env);
      }
    } else {
      assert a + b == b;
    }
  }

  /** Descending below a file fails with ENOTDIR: "/a/b" when "/a" is a file. */
  lemma WalkBelowFile(root: Node, a: seq<string>, name: string, rest: seq<string>, env: Env)
    requires Walk(root, a, env).Success? && !IsDir(Walk(root, a, env).value)
    ensures Walk(root, a + [name] + rest, env) == Failure(FuseOSError(ENOTDIR))
  {
    assert a + [name] + rest == a + ([name] + rest);
    WalkAppend(root, a, [name] + rest, env);
  }

  /** A name absent from a directory's listing fails with ENOENT. */
  lemma WalkMissingChild(root: Node, a: seq<string>, name: string, rest: seq<string>, env: Env)
    requires Walk(root, a, env).Success?
    requires var dir := Walk(root, a, env).value;
             IsDir(dir) && GetChildren(dir, env).Success? &&
             forall j :: 0 <= j < |GetChildren(dir, env).value| ==> GetChildren(dir, env).value[j].0 != name
    ensures Walk(root, a + [name] + rest, env) == Failure(FuseOSError(ENOENT))
  {
    assert a + [name] + rest == a + ([name] + rest);
    WalkAppend(root, a, [name] + rest, env);
    var dir := Walk(root, a, env).value;
    LookupAbsent(GetChildren(dir, env).value, name);
    assert ([name] + rest)[0] == name;
  }

  /** A name present in a directory's listing descends into its first matching entry. */
  lemma WalkFirstMatch(root: Node, a: seq<string>, name: string, i: int, rest: seq<string>, env: Env)
    requires Walk(root, a, env).Success?
    requires var dir := Walk(root, a, env).value;
             IsDir(dir) && GetChildren(dir, env).Success? && FirstMatch(GetChildren(dir, env).value, name, i)
    ensures var children := GetChildren(Walk(root, a, env).value, env).value;
            Walk(root, a + [name] + rest, env) == Walk(children[i].1, rest, env)
  {
    assert a + [name] + rest == a + ([name] + rest);
    WalkAppend(root, a, [name] + rest, env);
    var dir := Walk(root, a, env).value;
    LookupFindsFirstMatch(GetChildren(dir, env).value, name, i);
    assert ([name] + rest)[0] == name && ([name] + rest)[1..] == rest;
  }
}
