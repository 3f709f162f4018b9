# awsfs core, modelled in Dafny

awsfs mounts the resources of an AWS account as a read-only FUSE filesystem.
This project models its core in Dafny and proves properties of the model.
The core has four parts:

- **The node model**, in `Vfs`. Directories, files and symbolic links come in static, lazy and cached-lazy variants. `get_child` is a first-match scan of a directory's (name, node) list. A file's size is either fixed or the length of its contents.
- **The TTL loading cache**, in `Cache`. It holds a dictionary of `(value, expiry)` pairs. `get` serves an entry while the clock is strictly before its expiry. Otherwise it calls the loader and stores the loaded value with a new expiry.
- **The path resolver and the FUSE operations.**
  - `Paths` and `Resolver` cover `resolve`: split the path on '/', drop the first piece and at most one trailing empty piece, then walk down from the root.
  - `AwsOps` covers `getattr`, `open`, `read`, `readdir`, `readlink`, `statfs` and the xattr operations. Every mutating operation is refused with EPERM.
  - `Fuse` holds the request and reply vocabulary.
- **The error framework**, in `Dispatcher`. `to_fuse_ex` is the ordered table from an exception to an errno and a log level. `__call__` passes on a FuseOSError, raises the classified errno, and crashes the process on anything it cannot classify.

The earlier versions of the program are modelled where they differ:

- `EarlyOps` is the `AwsOps` of src/main/python/awsfs/awsfs.py.
- `PrototypeOps` is the `Awsfs` of src/main/python/awsfs.py.
- `LegacyVfs` holds the node constructors of src/main/python/awsfs/vfs.py.

The state the source changes in place is modelled as classes:

- `Cache.LoadingCache` has a `table: map<K, (V, int)>` that `Get` updates, and a ghost log of loader calls.
- `Vfs.CachedLazyDir` owns the LoadingCache of a cached directory.

Two loops are methods proved against specification functions:

- `Resolver.Resolve` is proved against `ResolvePath`.
- `Vfs.GetChild` is proved against `ChildOf` and `Lookup`.

Suppliers, clocks and AWS enter only as parameters:

- The cache's `Get` takes the clock reading before and after the load, `now` and `now2`, and the loader's answer, `load`.
- A lazy node's supplier is answered by an oracle `Vfs.Env`, which gives what each supplier (or cache) answers during one operation.
- "Never calls the supplier" is stated as "gives the same answer under any two `Env`s".

Exceptions are the datatype `Failures.Exception`:

- IOError, the two credential errors, and ClientError with an optional code and an optional HTTP status;
- FuseOSError with its errno;
- OtherException for everything else, including the IndexError of `resolve`, VNode's "Abstract!" exception and any programming error.

The source is Python 2, and the model follows its semantics. In particular, `None >= 500` is false, so a ClientError without a status that matches no code is classified as EIO logged at ERROR.

## Model

| member | source | states |
|---|---|---|
| Cache.LoadingCache.constructor | src/main/python/awsfs/cache.py:5-8 | a new cache has an empty table, the given TTL and no loader calls |
| Cache.LoadingCache.Get | src/main/python/awsfs/cache.py:10-18 | the result, the new table and the loader-call log are those of one `GetStep`: a fresh hit returns the stored value and changes nothing; otherwise the loader is called once with `key` and a successful value is stored with expiry `now2 + ttl` |
| Cache.HitServesStoredValue | src/main/python/awsfs/cache.py:11-14 | a key present with `now < expiry` returns its stored value, without a loader call and with the table unchanged |
| Cache.MissLoadsAndStores | src/main/python/awsfs/cache.py:16-18 | an absent or expired key calls the loader, and returns and stores its value with expiry `now2 + ttl` |
| Cache.ExpiryInstantIsStale | src/main/python/awsfs/cache.py:13 | freshness is strict: at `now == expiry` the loader is called |
| Cache.OtherKeysUntouched | src/main/python/awsfs/cache.py:17 | a `get` leaves the presence and the entry of every other key unchanged |
| Cache.FailedLoadKeepsTable | src/main/python/awsfs/cache.py:16-17 | a failing loader's exception is passed on and the table, stale entry included, is unchanged |
| Cache.SecondGet | src/main/python/awsfs/cache.py:10-18 | after a load stored at `now2`, a second get reloads exactly when it is at or after `now2 + ttl`, and otherwise returns the loaded value |
| Cache.NonPositiveTtlAlwaysLoads | src/main/python/awsfs/cache.py:13-17 | with TTL <= 0 and a clock that never goes back, every one of a series of gets calls the loader |
| Cache.FreshKeyNeverLoads | src/main/python/awsfs/cache.py:11-14 | gets that all find their key fresh make no loader call and leave the table unchanged |
| Cache.LoadsOnceWithinTtl | src/main/python/awsfs/cache.py:10-18 | a load followed by any number of gets of the same key before `now2 + ttl` makes exactly one loader call |
| Vfs.GetType | awsfs/vfs.py:35-60 | the type is S_IFDIR exactly for directories, S_IFLNK exactly for links and S_IFREG exactly for the other files |
| Vfs.GetChild | awsfs/vfs.py:19-23 | passes on the listing's exception; otherwise returns None exactly when no entry has the name, else the node of the first entry that has it |
| Vfs.LookupFindsFirstMatch | awsfs/vfs.py:19-23 | the lookup returns the node of the first entry whose name matches |
| Vfs.LookupAbsent | awsfs/vfs.py:19-23 | the lookup returns None exactly when no entry carries the name |
| Vfs.LookupSound | awsfs/vfs.py:19-23 | whatever the lookup returns is the node of the first matching entry |
| Vfs.EarliestDuplicateWins | awsfs/vfs.py:19-23 | of two entries with the same name, the earlier one is found, whatever surrounds them |
| Vfs.DirectoryAttributes | awsfs/vfs.py:35-43 | every directory has type S_IFDIR and size 0, and cannot be read |
| Vfs.FileAttributes | awsfs/vfs.py:46-60 | every non-directory is S_IFLNK if a link and S_IFREG otherwise, and has no children |
| Vfs.LinkReadsTarget | awsfs/vfs.py:62-66 | a link reads as its target and its size is the length of what it reads |
| Vfs.StaticFileContents | awsfs/vfs.py:106-118 | an SFile reads back its contents unchanged and its size is their length |
| Vfs.AutoSizeReadsContents | awsfs/vfs.py:136-143 | an LFile of size 'auto' reads what its supplier answers, and its size is the length of that answer (or its failure) |
| Vfs.FixedSizeSkipsSupplier | awsfs/vfs.py:142-143 | an LFile with a given size reports it whatever the supplier would answer, even a failure |
| Vfs.StaticNodesIgnoreSuppliers | awsfs/vfs.py:69-78 | an SDir, SFile or VLink gives the same listing, contents, size and children under any two supplier oracles |
| Vfs.DirectoryListings | awsfs/vfs.py:73-99 | an SDir lists its construction list unchanged; an LDir lists its supplier's answer, and a CLDir what its cache's `get` answers (see `Vfs.CachedLazyDir.GetChildren`) |
| Vfs.WritesAreNoOps | awsfs/vfs.py:111-140 | `write` on an SFile or LFile succeeds and does nothing |
| Vfs.CachedLazyDir.constructor | awsfs/vfs.py:97-99 | a CLDir gets a new, empty cache with the given TTL, 60 by default |
| Vfs.CachedLazyDir.GetChildren | awsfs/vfs.py:98-99 | the listing is the cache's `get` of the single key 'children', and no other key is ever stored |
| Vfs.CachedListingWithDefaultTtl | awsfs/vfs.py:97-99 | with a TTL of 60, listings at times 0 and 30 call the supplier once, and a third at 61 calls it again: two calls |
| Vfs.DefaultTtlListings | awsfs/vfs.py:97-99 | a new CLDir built without a TTL, listed at 0, 30 and 61: the second listing is the first one's answer from the cache, and the supplier is called twice in all |
| Paths.Split | awsfs/awsfs.py:229 | `str.split("/")` gives at least one piece and no piece contains '/' |
| Paths.JoinSplit | awsfs/awsfs.py:229 | joining the pieces with '/' gives back the path |
| Paths.SplitJoin | awsfs/awsfs.py:229 | splitting a '/'-join of slash-free pieces gives back the pieces |
| Paths.SplitSlashFree | awsfs/awsfs.py:229 | a string without '/' is a single piece |
| Paths.SplitAfterPiece | awsfs/awsfs.py:229 | a slash-free piece followed by '/' splits off as the first piece |
| Paths.SplitTrailingSlash | awsfs/awsfs.py:229 | a trailing '/' adds exactly one empty last piece |
| Paths.SplitLastPiece | awsfs/awsfs.py:229 | the last piece is empty exactly when the path is empty or ends in '/' |
| Paths.SplitCountsSlash | awsfs/awsfs.py:229 | there is more than one piece exactly when the path contains '/' |
| Resolver.Resolve | awsfs/awsfs.py:228-242 | the loop returns what the walk specification gives: ENOTDIR when descending through a non-directory, ENOENT when no child matches, a supplier's exception as raised, else the node reached |
| Resolver.ResolveRoot | awsfs/awsfs.py:228-242 | "/" resolves to the root whatever the suppliers answer |
| Resolver.ResolveWithoutSlash | awsfs/awsfs.py:229-230 | a path without '/' raises the IndexError of `parts[-1]` |
| Resolver.ResolveTrailingSlash | awsfs/awsfs.py:229-231 | a path that contains '/' and does not end in '/' resolves the same with '/' appended |
| Resolver.SlashFreeTrailingSlash | awsfs/awsfs.py:229-231 | without any '/', the two differ: "abc" raises IndexError while "abc/" resolves to the root |
| Resolver.ResolveDoubleSlash | awsfs/awsfs.py:229-231 | only one trailing empty piece is dropped: "//" looks up the child named "" |
| Resolver.ResolvePieces | awsfs/awsfs.py:229-242 | "/p1/.../pn" walks exactly the pieces p1, ..., pn from the root |
| Resolver.WalkAppend | awsfs/awsfs.py:233-242 | walking `a + b` is walking `a` and then `b` from where `a` ended, or `a`'s failure |
| Resolver.WalkBelowFile | awsfs/awsfs.py:234-236 | descending below a non-directory fails with ENOTDIR |
| Resolver.WalkMissingChild | awsfs/awsfs.py:237-239 | a name absent from a directory's listing fails with ENOENT |
| Resolver.WalkFirstMatch | awsfs/awsfs.py:237-240 | a present name descends into its first matching entry |
| Dispatcher.ToFuseEx | awsfs/awsfs.py:62-112 | None exactly for FuseOSError and other exceptions; every errno is EIO, ENOLINK, ENOENT, EPERM or ESTALE; the level is INFO exactly for ENOENT; ERROR only for an unrecognised ClientError, as EIO |
| Dispatcher.CodeBeforeStatus | awsfs/awsfs.py:82-102 | a recognised code decides the classification whatever the status |
| Dispatcher.StatusWithoutKnownCode | awsfs/awsfs.py:90-102 | with no recognised code, only the status decides |
| Dispatcher.UnrecognisedClientError | awsfs/awsfs.py:94-110 | a ClientError is (EIO, ERROR) exactly when neither its code nor its status is recognised, a missing status included |
| Dispatcher.ClassificationTable | tests/unit/test_error_framework.py:35-66 | every row of the unit-test table |
| Dispatcher.Dispatch | awsfs/awsfs.py:25-60 | a return passes through; a FuseOSError is re-raised with its errno; a crash happens exactly when the classifier raises or has no answer |
| Dispatcher.CrashOnlyOnUnknown | awsfs/awsfs.py:35-60 | with `to_fuse_ex`, an operation crashes exactly when its exception is outside the table, and otherwise raises the classified errno at its level |
| Dispatcher.BrokenClassifierCrashes | awsfs/awsfs.py:39-45 | a classifier that raises turns every non-FuseOSError exception into a crash |
| Dispatcher.DispatchTests | tests/unit/test_error_framework.py:14-33 | the five cases of the `__call__` unit tests |
| AwsOps.GetAttr | awsfs/awsfs.py:135-143 | directories: mode 0755 dir, nlink 2, no size; anything else: its own type, nlink 1 and its size, or the size's exception; resolve errors passed on |
| AwsOps.Open | awsfs/awsfs.py:154-158 | succeeds, with 0, exactly for a resolved non-directory; EISDIR for a directory |
| AwsOps.Slice | awsfs/awsfs.py:165-168 | empty when `offset + size` runs past the contents, otherwise exactly `size` bytes starting at `offset` |
| AwsOps.Read | awsfs/awsfs.py:160-168 | EISDIR on a directory; otherwise the slice of what the node reads, or the read's exception |
| AwsOps.Names | awsfs/awsfs.py:175 | the names of a listing, one per entry, in order |
| AwsOps.ReadDir | awsfs/awsfs.py:170-175 | ENOTDIR on a non-directory; otherwise the children's names in listing order, or the listing's exception |
| AwsOps.ReadLink | awsfs/awsfs.py:177-181 | succeeds exactly on a link, with its target; EINVAL on every other node |
| AwsOps.Invoke | awsfs/awsfs.py:126-211 | every mutating request fails with EPERM |
| AwsOps.Call | awsfs/awsfs.py:25-60 | a request crashes the process exactly when its operation raised an exception outside the table; a success reaches the host unchanged |
| AwsOps.MutationsRefused | awsfs/awsfs.py:126-211 | every mutating request, whatever its arguments, reaches the host as EPERM |
| AwsOps.ConstantAnswers | awsfs/awsfs.py:145-196 | getxattr, listxattr and statfs answer '', [] and zeros without resolving the path |
| AwsOps.ResolutionFailureReachesHost | awsfs/awsfs.py:135-181 | a resolving request whose path fails to resolve reports that failure: a FuseOSError as is, another exception as classified |
| AwsOps.RelativePathCrashes | awsfs/awsfs.py:229-230 | a resolving request on a path without '/' crashes the process |
| AwsOps.TrailingSlashIgnored | awsfs/awsfs.py:135-175 | on a path that contains '/', getattr, readdir and open answer the same with a trailing '/' |
| AwsOps.AdjacentReadsConcatenate | awsfs/awsfs.py:166-168 | two in-range reads that tile a range return that range |
| AwsOps.PartialTailUnreadable | awsfs/awsfs.py:166-167 | reading in chunks of `size`, the full chunks come back whole and the last partial chunk comes back empty |
| AwsOps.HelloResolves | awsfs/awsfs.py:228-242 | in a tree with one file "hello", "/hello" resolves to that file |
| AwsOps.HelloReads | awsfs/awsfs.py:160-168 | "hello" read at (size 10, offset 0) is empty, (3, 0) is "hel", (3, 2) is "llo", (5, 0) is all of it |
| AwsOps.RootListing | awsfs/awsfs.py:214-226 | the root lists iam, dynamo, ec2, elb, s3 in order, and "/s3" is the S3 root |
| AwsOps.LinksAndFiles | awsfs/awsfs.py:135-181 | a link reports S_IFLNK with its target's length and reads its target; a file reports S_IFREG, is EINVAL for readlink and ENOTDIR for readdir; reading "/" is EISDIR |
| LegacyVfs.LazyDirAsksSupplier | src/main/python/awsfs/vfs.py:69-75 | a LazyReadOnlyDir is a directory of size 0 that lists what its supplier answers on each call |
| LegacyVfs.CachedLazyReadOnlyDir | src/main/python/awsfs/vfs.py:78-81 | a new cached directory over a fresh, empty cache with the caller's TTL |
| LegacyVfs.LazyFileSizeIsReadLength | src/main/python/awsfs/vfs.py:84-97 | a LazyReadOnlyFile reads from its supplier, its size is always the length of such a read, and writes do nothing |
| LegacyVfs.StaticFileIsConstantLazyFile | src/main/python/awsfs/vfs.py:100-102 | a StaticFile reads its contents and its size is their length |
| LegacyVfs.StaticFileActsAsLazyFile | src/main/python/awsfs/vfs.py:100-102 | a StaticFile has the type, reads, size and writes of a LazyReadOnlyFile whose supplier answers its contents |
| EarlyOps.GetAttr | src/main/python/awsfs/awsfs.py:52-59 | as the current `getattr`, but every non-directory reports S_IFREG |
| EarlyOps.Invoke | src/main/python/awsfs/awsfs.py:43-124 | readlink and every mutator fail with EPERM; statfs is 512/4096/2048 |
| EarlyOps.ReadsAsNow | src/main/python/awsfs/awsfs.py:61-91 | open, read, readdir and the xattr requests answer exactly as in the current version |
| EarlyOps.GetAttrDiffersOnlyOnLinks | src/main/python/awsfs/awsfs.py:52-59 | `getattr` agrees with the current version exactly off links, where it says S_IFREG instead of S_IFLNK |
| EarlyOps.RootListing | src/main/python/awsfs/awsfs.py:12-18 | the root lists dynamo then ec2 |
| PrototypeOps.Invoke | src/main/python/awsfs.py:149-231 | only a resolving request can fail; chmod returns 0, chown None, readlink and the other mutators the number ENOENT; statfs is 512/4096/2048 |
| PrototypeOps.AgreesWithEarlyOutsideRefusals | src/main/python/awsfs.py:149-231 | the prototype answers as the early version exactly on the requests that version does not refuse |
| PrototypeOps.RootListing | src/main/python/awsfs.py:64-69 | the root lists dynamodb then ec2 |
| Vfs.IsDir | awsfs/vfs.py:35-48 | `is_dir`: true for the directory kinds, false for files and links; its consequences are stated by `Vfs.GetType`, `Vfs.DirectoryAttributes` and `Vfs.FileAttributes` |
| Vfs.GetChildren | awsfs/vfs.py:16-99 | `get_children`; stated by `Vfs.DirectoryListings` and `Vfs.StaticNodesIgnoreSuppliers`, and by `Vfs.FileAttributes` for the inherited "Abstract!" exception of files |
| Vfs.Read | awsfs/vfs.py:25-137 | `read`; stated by `Vfs.LinkReadsTarget`, `Vfs.StaticFileContents`, `Vfs.AutoSizeReadsContents` and, for directories, `Vfs.DirectoryAttributes` |
| Vfs.GetSize | awsfs/vfs.py:42-143 | `get_size`; stated by `Vfs.DirectoryAttributes`, `Vfs.LinkReadsTarget`, `Vfs.StaticFileContents`, `Vfs.AutoSizeReadsContents` and `Vfs.FixedSizeSkipsSupplier` |
| Vfs.Write | awsfs/vfs.py:28-140 | `write`; stated by `Vfs.WritesAreNoOps` |
| Cache.GetStep | src/main/python/awsfs/cache.py:10-18 | one `get` on a table; stated by `Cache.HitServesStoredValue`, `Cache.MissLoadsAndStores`, `Cache.ExpiryInstantIsStale`, `Cache.OtherKeysUntouched`, `Cache.FailedLoadKeepsTable` and `Cache.SecondGet` |
| Resolver.Parts | awsfs/awsfs.py:229-231 | the pieces `resolve` walks; stated by `Resolver.ResolveWithoutSlash`, `Resolver.ResolveTrailingSlash`, `Resolver.SlashFreeTrailingSlash` and `Resolver.ResolveDoubleSlash` |
| Resolver.Walk | awsfs/awsfs.py:233-242 | the walk from the root; stated by `Resolver.WalkAppend`, `Resolver.WalkBelowFile`, `Resolver.WalkMissingChild` and `Resolver.WalkFirstMatch` |
| Resolver.ResolvePath | awsfs/awsfs.py:228-242 | what `resolve` returns or raises; the loop `Resolver.Resolve` is proved equal to it, and `Resolver.ResolveRoot` and `Resolver.ResolvePieces` state it |
| AwsOps.RootDir | awsfs/awsfs.py:214-226 | the root directory; stated by `AwsOps.RootListing` |
| EarlyOps.RootDir | src/main/python/awsfs/awsfs.py:12-18 | the early root; stated by `EarlyOps.RootListing` |
| PrototypeOps.RootDir | src/main/python/awsfs.py:64-69 | the prototype's root; stated by `PrototypeOps.RootListing` |
| LegacyVfs.LazyReadOnlyDir | src/main/python/awsfs/vfs.py:69-75 | the lazy directory; stated by `LegacyVfs.LazyDirAsksSupplier` |
| LegacyVfs.LazyReadOnlyFile | src/main/python/awsfs/vfs.py:84-97 | the lazy file; stated by `LegacyVfs.LazyFileSizeIsReadLength` |
| LegacyVfs.StaticFile | src/main/python/awsfs/vfs.py:100-102 | the constant file; stated by `LegacyVfs.StaticFileIsConstantLazyFile` and `LegacyVfs.StaticFileActsAsLazyFile` |

Code that is the same in several versions is modelled once:

- `Vfs.GetChild` also models `get_child` at src/main/python/vfs.py:11-15, src/main/python/awsfs/vfs.py:19-23 and src/main/python/awsfs.py:21-25.
- `Resolver.Resolve` also models `resolve` at src/main/python/awsfs/awsfs.py:25-39 and src/main/python/awsfs.py:131-145.
- `Cache.LoadingCache` also models the prototype's copy at src/main/python/awsfs.py:234-248.
- `Vfs.DirectoryAttributes` and `Vfs.StaticFileContents` also cover `is_dir`, `get_size` and `read` of VDir and StaticFile at src/main/python/vfs.py:27-52 and src/main/python/awsfs.py:37-61. Those two oldest node models have no `get_type`.
- `AwsOps.Open`, `AwsOps.Read` and `AwsOps.ReadDir` are used unchanged by `EarlyOps` and `PrototypeOps`.

## Left out

- The per-service providers (IAM, DynamoDB, EC2, ELB, S3) and their boto3 calls and pagination. Their roots are opaque `Vfs.Node` values. This includes the prototype's memoising DynamoDir and its region directories.
- Startup and mounting (`__main__`, the credential probe, logging handlers, the FUSE mount), and the JSON formatting helper.
- Logging and `os.abort()`. A crash is an `Outcome` value, and the log level is part of `Raise`.
- The wall-clock timestamps in `getattr`. The cache's clock is the `now`/`now2` parameters.
- Cache.LoadingCache.Get: clock readings and expiries are integers. Python's `time()` is a float, so sub-second readings and the float rounding of `time() + ttl_secs` are not modelled.
- Vfs.GetType: the unified node type gives every node a type. The two oldest node models (src/main/python/vfs.py and src/main/python/awsfs.py) define no `get_type`, and calling it there would raise. Their operations never call it.
- Concurrency. Two threads that miss the same key at once would both load; this is not modelled.
- Vfs.Env: a supplier gives one answer per node within one operation. A supplier that answers differently on two calls within one operation is not modelled; for example, `get_size` followed by `read` on an 'auto' LFile would see one answer.
- Vfs.Env: the tie between a CLDir's `Env` listing and its `CachedLazyDir.GetChildren` answer is stated in prose, not enforced. The cache's timing is proved on `Cache.GetStep`, and on `CachedLazyDir` separately.
- `str.encode()` of link targets and contents. Names are strings, and contents and targets are byte sequences already encoded.
- AwsOps.Read: the empty answer is an empty byte sequence. The source returns an empty list `[]`.
- AwsOps.Read: `size` and `offset` are non-negative. Python's meaning of negative slice bounds is not modelled.
- Dispatcher.ToFuseEx: the HTTP status is an optional integer. A status of another Python type is not modelled.
- The operations that fusepy's `Operations` base class supplies and the source does not override (`access`, `link`, `flush`, `release` and others).
- The early versions have no classifier. What fusepy does with a non-FuseOSError exception there is outside the model, so `EarlyOps.Invoke` and `PrototypeOps.Invoke` stop at the exception.
- A TTL that never expires. The cache code has no such sentinel: a TTL of -1 reloads on every `get` (`Cache.NonPositiveTtlAlwaysLoads`), and the model follows the code.
