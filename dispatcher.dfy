/**
  `AwsOps.to_fuse_ex` and `AwsOps.__call__` of awsfs/awsfs.py: every
  operation's exception is either passed on (FuseOSError), translated into
  an errno with a log level by the classification table, or treated as a
  programming error that crashes the process.
*/
module Dispatcher {
  import opened Wrappers
  import opened Posix
  import opened Failures

  /** The `logging` levels used. */
  datatype Level = Debug | Info | Warning | Error

  /** A classified exception: the FuseOSError errno to raise and the level to log it at. */
  datatype Classification = Classification(errno: int, level: Level)

  /** The codes `to_fuse_ex` recognises, and the decision each one makes. */
  function ByCode(code: Option<string>): Option<Classification>
  {
    if code == Some("ResourceNotFoundException") then Some(Classification(ENOENT, Info))
    else if code == Some("AuthFailure") || code == Some("UnauthorizedOperation") then Some(Classification(EPERM, Warning))
    else if code == Some("Blocked") then Some(Classification(EPERM, Warning))
    else None
  }

  /** The HTTP statuses `to_fuse_ex` recognises. Python 2 orders None below every int, so no status is never `>= 500`. */
  function ByStatus(status: Option<int>): Option<Classification>
  {
    match status
    case None => None
    case Some(s) =>
      if s == 401 || s == 402 || s == 403 then Some(Classification(EPERM, Warning))
      else if s == 404 || s == 410 then Some(Classification(ENOENT, Info))
      else if s == 409 then Some(Classification(ESTALE, Warning))
      else if s >= 500 then Some(Classification(EIO, Warning))
      else None
  }

  /** `to_fuse_ex`: the classification table, or None for an exception it does not know. */
  function ToFuseEx(e: Exception): (r: Option<Classification>)
    ensures r.None? <==> e.FuseOSError? || e.OtherException?
    ensures r.Some? ==> r.value.errno in {EIO, ENOLINK, ENOENT, EPERM, ESTALE}
    ensures r.Some? ==> (r.value.level == Info <==> r.value.errno == ENOENT)
    ensures r.Some? && r.value.level == Error ==> e.ClientError? && r.value.errno == EIO
  {
    match e
    case IOError => Some(Classification(EIO, Warning))
    case NoCredentialsError => Some(Classification(ENOLINK, Warning))
    case PartialCredentialsError => Some(Classification(ENOLINK, Warning))
    case ClientError(code, status) =>
      if ByCode(code).Some? then ByCode(code)
      else if ByStatus(status).Some? then ByStatus(status)
      else Some(Classification(EIO, Error))
    case FuseOSError(_) => None
    case OtherException => None
  }

  /** A recognised code decides the classification whatever the status says: the code is checked first. */
  lemma CodeBeforeStatus(code: Option<string>, status1: Option<int>, status2: Option<int>)
    requires ByCode(code).Some?
    ensures ToFuseEx(ClientError(code, status1)) == ToFuseEx(ClientError(code, status2)) == ByCode(code)
  {
  }

  /** Without a recognised code, only the status decides: any unrecognised code behaves like no code. */
  lemma StatusWithoutKnownCode(code: Option<string>, status: Option<int>)
    requires ByCode(code).None?
    ensures ToFuseEx(ClientError(code, status)) == ToFuseEx(ClientError(None, status))
  {
  }

  /**
    A ClientError is logged at ERROR (as EIO) exactly when neither its code
    nor its status is recognised, which includes a missing Error dict and a
    missing status.
  */
  lemma UnrecognisedClientError(code: Option<string>, status: Option<int>)
    ensures ToFuseEx(ClientError(code, status)) == Some(Classification(EIO, Error)) <==>
            ByCode(code).None? && (status.None? || (status.value !in {401, 402, 403, 404, 409, 410} && status.value < 500))
  {
  }

  /** The table pinned by the unit test `test_to_fuse_ex`. */
  lemma ClassificationTable()
    ensures ToFuseEx(ClientError(Some("ResourceNotFoundException"), None)) == Some(Classification(ENOENT, Info))
    ensures ToFuseEx(ClientError(Some("AuthFailure"), None)) == Some(Classification(EPERM, Warning))
    ensures ToFuseEx(ClientError(Some("UnauthorizedOperation"), None)) == Some(Classification(EPERM, Warning))
    ensures ToFuseEx(ClientError(Some("Blocked"), None)) == Some(Classification(EPERM, Warning))
    ensures ToFuseEx(ClientError(None, Some(401))) == Some(Classification(EPERM, Warning))
    ensures ToFuseEx(ClientError(None, Some(402))) == Some(Classification(EPERM, Warning))
    ensures ToFuseEx(ClientError(None, Some(403))) == Some(Classification(EPERM, Warning))
    ensures ToFuseEx(ClientError(None, Some(404))) == Some(Classification(ENOENT, Info))
    ensures ToFuseEx(ClientError(None, Some(409))) == Some(Classification(ESTALE, Warning))
    ensures ToFuseEx(ClientError(None, Some(410))) == Some(Classification(ENOENT, Info))
    ensures ToFuseEx(ClientError(None, Some(500))) == Some(Classification(EIO, Warning))
    ensures ToFuseEx(ClientError(None, Some(501))) == Some(Classification(EIO, Warning))
    ensures ToFuseEx(ClientError(None, Some(300))) == Some(Classification(EIO, Error))
    ensures ToFuseEx(ClientError(None, None)) == Some(Classification(EIO, Error))
    ensures ToFuseEx(IOError) == Some(Classification(EIO, Warning))
    ensures ToFuseEx(NoCredentialsError) == Some(Classification(ENOLINK, Warning))
    ensures ToFuseEx(PartialCredentialsError) == Some(Classification(ENOLINK, Warning))
  {
  }

  /** What running a classifier on an exception does: return a classification (or None), or raise. */
  datatype ClassifierRun = Classified(c: Option<Classification>) | ClassifierRaised

  /** The classifier `__call__` normally uses. */
  function Standard(e: Exception): ClassifierRun
  {
    Classified(ToFuseEx(e))
  }

  /** What the host sees of one operation: its value, a raised errno (with its log level), or a crash. */
  datatype Outcome<+V> = Return(value: V) | Raise(errno: int, level: Level) | Crash

  /**
    `__call__`: a returned value passes through; a FuseOSError is re-raised
    unchanged; any other exception is classified and raised as its errno,
    and when the classifier raises or has no answer the process crashes.
  */
  function Dispatch<V>(result: Result<V, Exception>, classify: Exception -> ClassifierRun): (o: Outcome<V>)
    ensures result.Success? ==> o == Return(result.value)
    ensures result.Failure? && result.error.FuseOSError? ==> o == Raise(result.error.errno, Debug)
    ensures o.Crash? <==> result.Failure? && !result.error.FuseOSError? &&
                          (classify(result.error).ClassifierRaised? || classify(result.error).c.None?)
  {
    match result
    case Success(v) => Return(v)
    case Failure(FuseOSError(n)) => Raise(n, Debug)
    case Failure(e) =>
      match classify(e)
      case ClassifierRaised => Crash
      case Classified(None) => Crash
      case Classified(Some(c)) => Raise(c.errno, c.level)
  }

  /**
    With the standard classifier, an operation crashes exactly when it raised
    an exception outside the table; every other exception becomes an errno.
  */
  lemma CrashOnlyOnUnknown<V>(result: Result<V, Exception>)
    ensures Dispatch(result, Standard).Crash? <==> result == Failure(OtherException)
    ensures result.Failure? && !result.error.FuseOSError? && result.error != OtherException ==>
            Dispatch(result, Standard) == Raise(ToFuseEx(result.error).value.errno, ToFuseEx(result.error).value.level)
  {
  }

  /** A classifier that itself raises turns every exception except FuseOSError into a crash. */
  lemma BrokenClassifierCrashes<V>(result: Result<V, Exception>)
    requires result.Failure? && !result.error.FuseOSError?
    ensures Dispatch(result, (e: Exception) => ClassifierRaised) == Crash
  {
  }

  /** The cases of the unit tests of `__call__`. */
  lemma DispatchTests()
    ensures Dispatch(Success(42), Standard) == Return(42)
    ensures Dispatch<int>(Failure(IOError), Standard) == Raise(EIO, Warning)
    ensures Dispatch<int>(Failure(FuseOSError(ENOENT)), Standard) == Raise(ENOENT, Debug)
    ensures Dispatch<int>(Failure(OtherException), Standard) == Crash
    ensures Dispatch<int>(Failure(IOError), (e: Exception) => ClassifierRaised) == Crash
  {
  }
}
