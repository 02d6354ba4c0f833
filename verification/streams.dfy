/**
 * What the model keeps of a FileStream: whether opening it throws, and how many
 * bytes each Read call delivers.
 */
module Streams {
  import opened Wrappers
  import opened RecordFormat

  /** An exception thrown while opening a FileStream: an IOException or any other kind. */
  datatype StreamFault = IOFault | OtherFault

  /**
   * One FileStream over the file. `caps[k]` caps how many bytes the k-th Read
   * call delivers (it may deliver fewer than requested, even 0); every call after
   * the schedule delivers all it is asked for, as a regular file does.
   */
  datatype Stream = Stream(openFault: Option<StreamFault>, caps: seq<nat>)

  /** A stream that opens and always fills the requested count. */
  const Healthy: Stream := Stream(None, [])

  /** The byte count returned by the k-th Read call when `requested` bytes are asked for. */
  function Delivered(caps: seq<nat>, k: nat, requested: nat): (n: nat)
    ensures n <= requested
    ensures k >= |caps| ==> n == requested
  {
    if k < |caps| then Min(caps[k], requested) else requested
  }

  /**
   * The sequential read loop from Read call k on, while `remaining` bytes are
   * left and each call asks for at most `bufferSize` of them: every call
   * delivers whole records. A call that delivers 0 bytes is issued again.
   */
  predicate ReadsAligned(caps: seq<nat>, k: nat, remaining: nat, bufferSize: nat)
    requires bufferSize > 0
    decreases if k < |caps| then |caps| - k else 0, remaining
  {
    remaining == 0 ||
    var n := Delivered(caps, k, Min(bufferSize, remaining));
    n % 4 == 0 && ReadsAligned(caps, k + 1, remaining - n, bufferSize)
  }

  /** One Read call of the sequential loop. */
  lemma ReadsAlignedStep(caps: seq<nat>, k: nat, remaining: nat, bufferSize: nat)
    requires bufferSize > 0 && remaining > 0
    ensures var n := Delivered(caps, k, Min(bufferSize, remaining));
      ReadsAligned(caps, k, remaining, bufferSize) <==> n % 4 == 0 && ReadsAligned(caps, k + 1, remaining - n, bufferSize)
  {
  }

  /** Why a chunk's read loop gives up. */
  datatype ReadFault = ZeroBytes | Misaligned

  /**
   * The chunk read loop from Read call k on, while `remaining` bytes of the
   * chunk are left: the first call that delivers nothing or a partial record
   * stops it. No fault means every call delivered whole records, so the
   * remaining bytes were a whole number of records.
   */
  function ChunkReadFault(caps: seq<nat>, k: nat, remaining: nat, bufferSize: nat): Option<ReadFault>
    requires bufferSize > 0
    decreases remaining
  {
    if remaining == 0 then None
    else
      var n := Delivered(caps, k, Min(bufferSize, remaining));
      if n == 0 then Some(ZeroBytes)
      else if n % 4 != 0 then Some(Misaligned)
      else ChunkReadFault(caps, k + 1, remaining - n, bufferSize)
  }

  /**
   * A chunk read without a fault is read as the sequential loop would accept
   * it: every call delivers whole records, so the bytes are a whole number of records.
   */
  lemma {:induction false} NoFaultReadsAligned(caps: seq<nat>, k: nat, remaining: nat, bufferSize: nat)
    requires bufferSize > 0
    requires ChunkReadFault(caps, k, remaining, bufferSize) == None
    ensures remaining % 4 == 0 && ReadsAligned(caps, k, remaining, bufferSize)
    decreases remaining
  {
    if remaining != 0 {
      var n := Delivered(caps, k, Min(bufferSize, remaining));
      NoFaultReadsAligned(caps, k + 1, remaining - n, bufferSize);
      AlignedQuotients(remaining - n, n);
    }
  }

  /** If every call delivers whole records, the bytes read are a whole number of records. */
  lemma {:induction false} ReadsAlignedTotal(caps: seq<nat>, k: nat, remaining: nat, bufferSize: nat)
    requires bufferSize > 0
    requires ReadsAligned(caps, k, remaining, bufferSize)
    ensures remaining % 4 == 0
    decreases if k < |caps| then |caps| - k else 0, remaining
  {
    if remaining != 0 {
      var n := Delivered(caps, k, Min(bufferSize, remaining));
      ReadsAlignedTotal(caps, k + 1, remaining - n, bufferSize);
    }
  }

  /**
   * With full reads and a buffer that holds whole records, every call delivers
   * whole records exactly when the total is a whole number of records.
   */
  lemma {:induction false} FullReadsAligned(k: nat, remaining: nat, bufferSize: nat)
    requires bufferSize > 0 && bufferSize % 4 == 0
    ensures ReadsAligned([], k, remaining, bufferSize) <==> remaining % 4 == 0
    decreases remaining
  {
    if remaining != 0 {
      var n := Min(bufferSize, remaining);
      FullReadsAligned(k + 1, remaining - n, bufferSize);
      if n == bufferSize {
        SameRemainder(remaining - n, n);
      }
    }
  }

  /** With full reads, a chunk of whole records is read without a fault. */
  lemma {:induction false} FullReadsNoFault(k: nat, remaining: nat, bufferSize: nat)
    requires bufferSize > 0 && bufferSize % 4 == 0
    requires remaining % 4 == 0
    ensures ChunkReadFault([], k, remaining, bufferSize) == None
    decreases remaining
  {
    if remaining != 0 {
      var n := Min(bufferSize, remaining);
      assert (remaining - n) % 4 == 0;
      FullReadsNoFault(k + 1, remaining - n, bufferSize);
    }
  }
}
