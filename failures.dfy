/** The exceptions that can escape a filesystem operation. */
module Failures {
  import opened Wrappers

  datatype Exception =
    /** IOError, raised by some boto calls on transport faults */
    | IOError
    /** botocore's NoCredentialsError */
    | NoCredentialsError
    /** botocore's PartialCredentialsError */
    | PartialCredentialsError
    /** botocore's ClientError: the `Code` and `HTTPStatusCode` of its `Error` dict, when present */
    | ClientError(code: Option<string>, status: Option<int>)
    /** fuse's FuseOSError, carrying an explicit errno */
    | FuseOSError(errno: int)
    /** any other exception (IndexError, the "Abstract!" Exception, a division by zero, ...) */
    | OtherException
}
