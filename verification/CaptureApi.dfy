/** What the parts of the capture API share. */
module CaptureApi {

  type Byte = bv8
  type Bytes = seq<Byte>

  /** The result of an operation of the API. */
  datatype CaptureResult =
    | Success
    | NotReady
    | Unknown
    | Failure
    | Unsupported
    | NotFound
    | Aborted
    | InvalidParams
    | VersionMismatch
}
