/**
  The node model of awsfs/vfs.py. The class hierarchy VNode / VDir / VFile
  with its concrete classes SDir, LDir, CLDir, SFile, LFile and VLink becomes
  one closed datatype.

  A lazy node's supplier is a provider's closure that calls AWS. During one
  filesystem operation, what each supplier answers (a listing, some bytes, or
  a raised exception) is given by an oracle `Env`. A cached directory holds
  the `CachedLazyDir` object that owns its LoadingCache; in the `Env` its
  listing is whatever that cache answered.
*/
module Vfs {
  import opened Wrappers
  import opened Posix
  import opened Failures
  import Cache

  /** The identity of a supplier closure behind a lazy node. */
  type SupplierId = nat

  /** The declared size of a lazy file: 'auto' (compute from the contents) or a fixed byte count. */
  datatype Size = Auto | Fixed(bytes: int)

  datatype Node =
    /** SDir: a directory whose (name, node) list is fixed at construction */
    | SDir(children: Listing)
    /** LDir: a directory whose list comes from its supplier on every call */
    | LDir(supplier: SupplierId)
    /** CLDir: an LDir whose supplier is wrapped in a LoadingCache */
    | CLDir(dir: CachedLazyDir)
    /** SFile: a file with fixed contents */
    | SFile(contents: Bytes)
    /** LFile: a file whose contents come from its supplier */
    | LFile(supplier: SupplierId, size: Size)
    /** VLink: a symbolic link to `dest` */
    | VLink(dest: Bytes)

  /** What `get_children` returns: (name, node) pairs in order; names need not be unique. */
  type Listing = seq<(string, Node)>

  /** The answers of the lazy nodes' suppliers (or caches) during one operation. */
  datatype Env = Env(listing: Node -> Result<Listing, Exception>, content: Node -> Result<Bytes, Exception>)

  /** `is_dir`: true for the VDir classes, false for the VFile classes. */
  predicate IsDir(n: Node)
  {
    n.SDir? || n.LDir? || n.CLDir?
  }

  /** `get_type` */
  function GetType(n: Node): (t: int)
    ensures t == S_IFDIR <==> IsDir(n)
    ensures t == S_IFLNK <==> n.VLink?
    ensures t == S_IFREG <==> (n.SFile? || n.LFile?)
  {
    match n
    case SDir(_) => S_IFDIR
    case LDir(_) => S_IFDIR
    case CLDir(_) => S_IFDIR
    case SFile(_) => S_IFREG
    case LFile(_, _) => S_IFREG
    case VLink(_) => S_IFLNK
  }

  /** `get_children`. The files inherit VNode's, which raises Exception("Abstract!"). */
  function GetChildren(n: Node, env: Env): Result<Listing, Exception>
  {
    match n
    case SDir(children) => Success(children)
    case LDir(_) => env.listing(n)
    case CLDir(_) => env.listing(n)
    case _ => Failure(OtherException)
  }

  /** `read`. The directories inherit VNode's, which raises Exception("Abstract!"). */
  function Read(n: Node, env: Env): Result<Bytes, Exception>
  {
    match n
    case SFile(contents) => Success(contents)
    case LFile(_, _) => env.content(n)
    case VLink(dest) => Success(dest)
    case _ => Failure(OtherException)
  }

  /** The length of what a `read` returned, or its exception. */
  function LengthOf(r: Result<Bytes, Exception>): Result<int, Exception>
  {
    match r
    case Success(b) => Success(|b|)
    case Failure(e) => Failure(e)
  }

  /** `get_size` */
  function GetSize(n: Node, env: Env): Result<int, Exception>
  {
    match n
    case SFile(contents) => Success(|contents|)
    case LFile(_, Fixed(k)) => Success(k)
    case LFile(_, Auto) => LengthOf(Read(n, env))
    case VLink(dest) => Success(|dest|)
    case _ => Success(0)
  }

  /** `write`: a no-op on SFile and LFile; VNode's "Abstract!" exception on every other node. */
  function Write(n: Node, data: Bytes): Result<(), Exception>
  {
    if n.SFile? || n.LFile? then Success(()) else Failure(OtherException)
  }

  /** The first entry named `name`, if any. */
  function Lookup(children: Listing, name: string): Option<Node>
  {
    if children == [] then None
    else if children[0].0 == name then Some(children[0].1)
    else Lookup(children[1..], name)
  }

  /** Entry `i` carries `name` and no entry before it does. */
  predicate FirstMatch(children: Listing, name: string, i: int)
  {
    0 <= i < |children| && children[i].0 == name &&
    forall j :: 0 <= j < i ==> children[j].0 != name
  }

  /** The specification of `get_child`: list the children, then take the first match. */
  function ChildOf(n: Node, name: string, env: Env): Result<Option<Node>, Exception>
  {
    match GetChildren(n, env)
    case Success(children) => Success(Lookup(children, name))
    case Failure(e) => Failure(e)
  }

  /** `get_child`: a linear scan of `get_children()` that returns the first entry whose name matches. */
  method GetChild(n: Node, name: string, env: Env) returns (r: Result<Option<Node>, Exception>)
    ensures GetChildren(n, env).Failure? ==> r == Failure(GetChildren(n, env).error)
    ensures GetChildren(n, env).Success? ==>
              var children := GetChildren(n, env).value;
              r.Success? &&
              (r.value.None? <==> forall j :: 0 <= j < |children| ==> children[j].0 != name) &&
              (r.value.Some? ==> exists i :: FirstMatch(children, name, i) && r.value.value == children[i].1)
    ensures r == ChildOf(n, name, env)
  {
    var listed := GetChildren(n, env);
    if listed.Failure? {
      return Failure(listed.error);
    }
    var children := listed.value;
    var i := 0;
    while i < |children|
      invariant 0 <= i <= |children|
      invariant forall j :: 0 <= j < i ==> children[j].0 != name
      invariant Lookup(children[i..], name) == Lookup(children, name)
    {
      var (cname, cnode) := children[i];
      if name == cname {
        assert FirstMatch(children, name, i);
        return Success(Some(cnode));
      }
      assert children[i..][1..] == children[i + 1..];
      i := i + 1;
    }
    return Success(None);
  }

  /** Lookup finds the entry at the first index whose name matches. */
  lemma {:induction false} LookupFindsFirstMatch(children: Listing, name: string, i: int)
    requires FirstMatch(children, name, i)
    ensures Lookup(children, name) == Some(children[i].1)
    decreases i
  {
    if i > 0 {
      assert children[0].0 != name;
      LookupFindsFirstMatch(children[1..], name, i - 1);
    }
  }

  /** Lookup finds nothing exactly when no entry carries the name. */
  lemma {:induction false} LookupAbsent(children: Listing, name: string)
    ensures Lookup(children, name) == None <==> forall j :: 0 <= j < |children| ==> children[j].0 != name
    decreases |children|
  {
    if children != [] {
      LookupAbsent(children[1..], name);
      if children[0].0 != name {
        assert forall j :: 1 <= j < |children| ==> children[j] == children[1..][j - 1];
      }
    }
  }

  /** Whatever Lookup returns is the node of the first matching entry. */
  lemma {:induction false} LookupSound(children: Listing, name: string)
    requires Lookup(children, name).Some?
    ensures exists i :: FirstMatch(children, name, i) && children[i].1 == Lookup(children, name).value
    decreases |children|
  {
    if children[0].0 == name {
      assert FirstMatch(children, name, 0);
    } else {
      LookupSound(children[1..], name);
      var i :| FirstMatch(children[1..], name, i) && children[1..][i].1 == Lookup(children, name).value;
      assert FirstMatch(children, name, i + 1);
    }
  }

  /** Duplicate names: the earliest entry wins, whatever follows it. */
  lemma EarliestDuplicateWins(before: Listing, name: string, first: Node, second: Node, between: Listing, after: Listing)
    requires forall j :: 0 <= j < |before| ==> before[j].0 != name
    ensures Lookup(before + [(name, first)] + between + [(name, second)] + after, name) == Some(first)
  {
    var children := before + [(name, first)] + between + [(name, second)] + after;
    assert FirstMatch(children, name, |before|);
    LookupFindsFirstMatch(children, name, |before|);
  }

  /** Every directory: is_dir, type S_IFDIR, size 0 and no contents to read. */
  lemma DirectoryAttributes(n: Node, env: Env)
    requires IsDir(n)
    ensures GetType(n) == S_IFDIR && GetSize(n, env) == Success(0) && Read(n, env).Failure?
  {
  }

  /** Every file and link: not a directory, no children, and type S_IFREG or (links) S_IFLNK. */
  lemma FileAttributes(n: Node, env: Env)
    requires !IsDir(n)
    ensures GetType(n) == (if n.VLink? then S_IFLNK else S_IFREG)
    ensures GetChildren(n, env).Failure?
  {
  }

  /** A link reads as its target, and its size is the length of what it reads. */
  lemma LinkReadsTarget(dest: Bytes, env: Env)
    ensures Read(VLink(dest), env) == Success(dest)
    ensures GetSize(VLink(dest), env) == LengthOf(Read(VLink(dest), env))
  {
  }

  /** SFile reads back its contents unchanged; its size is their length. */
  lemma StaticFileContents(contents: Bytes, env: Env)
    ensures Read(SFile(contents), env) == Success(contents)
    ensures GetSize(SFile(contents), env) == Success(|contents|)
  {
  }

  /**
    LFile with size 'auto': the size is the length of what the supplier
    returns now, and a supplier failure is a size failure.
  */
  lemma AutoSizeReadsContents(s: SupplierId, env: Env)
    ensures GetSize(LFile(s, Auto), env) == LengthOf(env.content(LFile(s, Auto)))
    ensures Read(LFile(s, Auto), env) == env.content(LFile(s, Auto))
  {
  }

  /**
    LFile with an explicit size reports it without calling the supplier: the
    size is the same whatever the supplier would answer, even a failure, and
    even when it disagrees with the length of the contents.
  */
  lemma FixedSizeSkipsSupplier(s: SupplierId, k: int, env1: Env, env2: Env)
    ensures GetSize(LFile(s, Fixed(k)), env1) == GetSize(LFile(s, Fixed(k)), env2) == Success(k)
  {
  }

  /** A static node never consults a supplier: every accessor gives the same answer under any two envs. */
  lemma StaticNodesIgnoreSuppliers(n: Node, env1: Env, env2: Env)
    requires n.SDir? || n.SFile? || n.VLink?
    ensures GetChildren(n, env1) == GetChildren(n, env2)
    ensures Read(n, env1) == Read(n, env2)
    ensures GetSize(n, env1) == GetSize(n, env2)
    ensures forall name :: ChildOf(n, name, env1) == ChildOf(n, name, env2)
  {
  }

  /**
    SDir lists its construction list unchanged; an LDir lists its supplier's
    answer, and a CLDir what its cache's `get` answers (see
    `CachedLazyDir.GetChildren`): the oracle's listing for this call.
  */
  lemma DirectoryListings(children: Listing, n: Node, env: Env)
    ensures GetChildren(SDir(children), env) == Success(children)
    ensures n.LDir? || n.CLDir? ==> GetChildren(n, env) == env.listing(n)
  {
  }

  /** `write` on SFile and LFile does nothing and raises nothing. */
  lemma WritesAreNoOps(n: Node, data: Bytes)
    requires n.SFile? || n.LFile?
    ensures Write(n, data) == Success(())
  {
  }

  /** The cache key under which a CLDir keeps its listing. */
  const CHILDREN_KEY: string := "children"

  /** The state of a CLDir: a LoadingCache of its supplier's listing under the single key 'children'. */
  class CachedLazyDir {
    const supplier: SupplierId
    const cache: Cache.LoadingCache<string, Listing, Exception>

    /** `CLDir(get_children_func, ttl_sec=60)` */
    constructor (supplier: SupplierId, ttlSecs: int := 60)
      ensures this.supplier == supplier && fresh(cache)
      ensures cache.ttlSecs == ttlSecs && cache.table == map[] && cache.loaderCalls == []
    {
      this.supplier := supplier;
      cache := new Cache.LoadingCache(ttlSecs);
    }

    /** Only the key 'children' is ever stored. */
    ghost predicate Valid()
      reads this, cache
    {
      cache.table.Keys <= {CHILDREN_KEY}
    }

    /**
      `get_children`: `cache.get('children')`, whose loader calls the supplier;
      `supplied` is what the supplier answers if it is called.
    */
    method GetChildren(now: int, supplied: Result<Listing, Exception>, now2: int) returns (r: Result<Listing, Exception>)
      requires Valid()
      modifies cache
      ensures Valid()
      ensures var s := Cache.GetStep(old(cache.table), cache.ttlSecs, CHILDREN_KEY, now, supplied, now2);
              r == s.result && cache.table == s.table &&
              cache.loaderCalls == old(cache.loaderCalls) + (if s.loaded then [CHILDREN_KEY] else [])
    {
      r := cache.Get(CHILDREN_KEY, now, supplied, now2);
    }
  }

  /**
    Listing a CLDir with the default TTL of 60: a first listing at time 0,
    a second at 30 served from the cache, a third at 61 that calls the
    supplier again: two supplier calls in all.
  */
  lemma CachedListingWithDefaultTtl(first: Listing, third: Result<Listing, Exception>)
    ensures var reqs := [Cache.Request(CHILDREN_KEY, 0, Success(first), 0),
                         Cache.Request(CHILDREN_KEY, 30, third, 30),
                         Cache.Request(CHILDREN_KEY, 61, third, 61)];
            Cache.LoaderCalls(map[], 60, reqs[..2]) == 1 &&
            Cache.LoaderCalls(map[], 60, reqs) == 2
  {
    var empty: Cache.Table<string, Listing> := map[];
    var loaded: Result<Listing, Exception> := Success(first);
    var r0 := Cache.Request(CHILDREN_KEY, 0, loaded, 0);
    var r1 := Cache.Request(CHILDREN_KEY, 30, third, 30);
    var r2 := Cache.Request(CHILDREN_KEY, 61, third, 61);
    var stored := map[CHILDREN_KEY := (first, 60)];
    assert Cache.GetStep(empty, 60, CHILDREN_KEY, 0, loaded, 0) == Cache.Step(loaded, stored, true);
    assert Cache.GetStep(stored, 60, CHILDREN_KEY, 30, third, 30) == Cache.Step(loaded, stored, false);
    assert Cache.GetStep(stored, 60, CHILDREN_KEY, 61, third, 61).loaded;
    assert Cache.LoaderCalls(stored, 60, [r2]) == 1;
    assert Cache.LoaderCalls(stored, 60, [r1]) == 0;
    assert Cache.LoaderCalls(stored, 60, [r1, r2]) == 1 by {
      assert [r1, r2][1..] == [r2];
    }
    assert [r0, r1, r2][..2] == [r0, r1] && [r0, r1][1..] == [r1] && [r0, r1, r2][1..] == [r1, r2];
  }

  /**
    A new CLDir with the default TTL, listed at times 0, 30 and 61 while its
    supplier answers `first` and then `later`: the second listing is served
    from the cache, the third reloads, and the supplier is called twice.
  */
  method DefaultTtlListings(supplier: SupplierId, first: Listing, later: Result<Listing, Exception>)
    returns (second: Result<Listing, Exception>, ghost loads: nat)
    ensures second == Success(first)
    ensures loads == 2
  {
    var d := new CachedLazyDir(supplier);
    var r0 := d.GetChildren(0, Success(first), 0);
    second := d.GetChildren(30, later, 30);
    var r2 := d.GetChildren(61, later, 61);
    loads := |d.cache.loaderCalls|;
  }
}
