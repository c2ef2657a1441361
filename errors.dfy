/** Error values returned by the CRI client, and the result shapes that carry them.
    Go strings are modelled as Dafny strings with one element per byte. */
module Errors {

  /** The errors the client can return. Errors that come from the runtime service
      or from the PID locator are opaque to the client and are passed on unchanged. */
  datatype Error =
    | RuntimeError(msg: string)        // any error of ListPodSandbox, ListContainers, ExecSync or FindPidsInNS
    | InvalidNumberOfPods              // not exactly one ready sandbox
    | InvalidNumberOfContainers        // not exactly one running container
    | NamespaceNotFound                // no namespace inode in the `ls` output
    | ParseIntRange(num: string)       // the inode digits `num` do not fit in an int64
    | BadAttachmentFormat              // the debug attachment could not be decoded

  /** The text Go's `Error()` method gives for each error. */
  function Message(e: Error): string
  {
    match e
    case RuntimeError(msg) => msg
    case InvalidNumberOfPods => "Invalid number of pods"
    case InvalidNumberOfContainers => "Invalid number of containers"
    case NamespaceNotFound => "mnt namespace not found"
    case ParseIntRange(num) => "strconv.ParseInt: parsing \"" + num + "\": value out of range"
    case BadAttachmentFormat => "bad attachment format"
  }

  datatype Option<T> = None | Some(value: T)

  /** The result of a call that either yields a value or a (nil-value, error) pair. */
  datatype Result<T> = Ok(value: T) | Err(error: Error)

  /** What a top-level call ends with: a value, an error, or a Go run-time panic. */
  datatype Outcome<T> = Success(value: T) | Failure(error: Error) | Panicked
}
