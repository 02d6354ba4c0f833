/** The exceptions the two strategies throw, as values. */
module Errors {
  import opened Wrappers
  import opened Streams

  datatype Error =
      /** FileNotFoundException "File not found: …". */
    | FileNotFound
      /** IOException "Failed to process binary file. Invalid format.", possibly wrapping a cause. */
    | InvalidFormat(cause: Option<Error>)
      /** The exception thrown by opening a FileStream. */
    | OpenFailed(fault: StreamFault)
      /** IOException "Chunk i: Empty or unreadable data." or "Chunk i: Data misalignment detected. …". */
    | ChunkReadFailed(chunk: nat, readFault: ReadFault)
      /** IOException "Failed to process binary file chunk i. Invalid format detected." wrapping an IOException. */
    | ChunkFailed(chunk: nat, inner: Error)
      /** IOException "Failed to process binary file due to multiple errors." wrapping the collected exceptions. */
    | MultipleErrors(innerErrors: seq<Error>)

  /** Whether the exception is an IOException (FileNotFoundException derives from it). */
  predicate IsIOException(e: Error)
  {
    !(e.OpenFailed? && e.fault == OtherFault)
  }
}
