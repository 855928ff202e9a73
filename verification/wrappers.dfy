/** Option and Result datatypes shared by the tag pipeline, plus the failures
    the pipeline can raise. */
module Wrappers {

  /** A value that may be absent: an unset record field, a callback that declines. */
  datatype Option<+T> = None | Some(value: T)

  /** The exceptions the pipeline raises and catches per file. */
  datatype Error =
    /** The tag library could not open the file at `path` as an ID3 container. */
    | OpenError(path: string)
    /** The term service could not resolve `artist`. */
    | LookupError(artist: string)

  /** Either a value or the exception that replaced it. */
  datatype Result<+T> = Ok(value: T) | Err(error: Error)
}
