/**
 * The parallel strategy: the file is cut into chunks, each chunk is counted by
 * its own worker into a local dictionary over its own FileStream, and the local
 * dictionaries are merged into one shared dictionary as the workers finish.
 *
 * The workers' interleaving is modelled by `order`, the order in which they
 * finish: a permutation of the chunk indices. Each worker's merge is one step
 * of a fold over `order`, and the exceptions the workers throw are collected in
 * the same order, as the AggregateException lists them.
 */
module ParallelBinaryFileProcessor {
  import opened Wrappers
  import opened RecordFormat
  import opened Frequency
  import opened Streams
  import opened Errors
  import opened ChunkPlanner

  /** Bytes asked for by each Read call, at most. */
  const BufferSize: nat := 65536

  /** Bytes skipped by each Seek call, at most. */
  const SeekStep: nat := 256 * 1024

  /** The distance covered by a sequence of forward seeks. */
  function Distance(steps: seq<nat>): nat
  {
    if steps == [] then 0 else Distance(steps[..|steps| - 1]) + steps[|steps| - 1]
  }

  /**
   * The seek loop of a worker: from the start of a freshly opened stream,
   * seek forward by min(SeekStep, what is left) until chunkStart is reached.
   * `steps` is the sequence of seek distances; each moves strictly forward and
   * by at most SeekStep, and together they land exactly on chunkStart, so the
   * "Seek failed" check after the loop never throws.
   */
  method SeekTo(chunkStart: nat) returns (currentPos: nat, ghost steps: seq<nat>)
    ensures currentPos == chunkStart
    ensures forall j :: 0 <= j < |steps| ==> 0 < steps[j] <= SeekStep
    ensures Distance(steps) == chunkStart
  {
    currentPos := 0;
    steps := [];
    while currentPos < chunkStart
      invariant currentPos <= chunkStart
      invariant forall j :: 0 <= j < |steps| ==> 0 < steps[j] <= SeekStep
      invariant Distance(steps) == currentPos
    {
      var nextSeek := Min(SeekStep, chunkStart - currentPos);
      assert (steps + [nextSeek])[..|steps|] == steps;
      steps := steps + [nextSeek];
      currentPos := currentPos + nextSeek;
    }
  }

  /**
   * What the read loop over the n records from byte offset lo ends with, once
   * the stream is open and positioned there: the local dictionary of those
   * records, or the fault of the first Read that delivers nothing or a
   * partial record.
   */
  function RangeOutcome(file: seq<Byte>, caps: seq<nat>, lo: nat, n: nat): Result<FreqMap, ReadFault>
    requires lo + 4 * n <= |file|
  {
    match ChunkReadFault(caps, 0, 4 * n, BufferSize)
    case Some(fault) => Failure(fault)
    case None => Success(CountRecords(file, lo, n))
  }

  /** The number of records in chunk i. */
  function ChunkRecords(fileSize: nat, i: nat): (n: nat)
    requires fileSize > 0 && fileSize % 4 == 0 && i < ChunkCount(fileSize)
    ensures ChunkStart(i) + 4 * n == ChunkEnd(i, fileSize)
  {
    ChunkSpan(i, fileSize);
    (ChunkEnd(i, fileSize) - ChunkStart(i)) / 4
  }

  /**
   * What the worker of chunk i hands back: its local dictionary, or the
   * exception it throws. Opening the stream may throw; an IOException is
   * caught and rethrown as "Failed to process binary file chunk i", any other
   * exception escapes as it is. A Read that delivers nothing throws the
   * IOException "Chunk i: Empty or unreadable data.", one that delivers a
   * partial record "Chunk i: Data misalignment detected."; both are wrapped
   * the same way.
   */
  function ChunkOutcome(file: seq<Byte>, stream: Stream, i: nat): (r: Result<FreqMap, Error>)
    requires |file| > 0 && |file| % 4 == 0 && i < ChunkCount(|file|)
    ensures r.Success? ==> stream.openFault == None
    ensures r.Failure? ==> (IsIOException(r.error) <==> r.error.ChunkFailed?)
    ensures r.Failure? && r.error.ChunkFailed? ==> r.error.chunk == i
  {
    match stream.openFault
    case Some(IOFault) => Failure(ChunkFailed(i, OpenFailed(IOFault)))
    case Some(OtherFault) => Failure(OpenFailed(OtherFault))
    case None =>
      match RangeOutcome(file, stream.caps, ChunkStart(i), ChunkRecords(|file|, i))
      case Failure(fault) => Failure(ChunkFailed(i, ChunkReadFailed(i, fault)))
      case Success(localMap) => Success(localMap)
  }

  /**
   * The read loop of a worker, from chunkStart to chunkEnd: requests never
   * reach past chunkEnd, and every record read is counted into the local
   * dictionary.
   */
  method ReadChunk(file: seq<Byte>, caps: seq<nat>, chunkStart: nat, chunkEnd: nat, ghost n: nat)
    returns (r: Result<FreqMap, ReadFault>)
    requires chunkEnd == chunkStart + 4 * n <= |file|
    ensures r == RangeOutcome(file, caps, chunkStart, n)
  {
    var currentPos := chunkStart;
    var localMap: FreqMap := map[];
    var k: nat := 0;
    ghost var done: nat := 0;
    while currentPos < chunkEnd
      invariant chunkStart <= currentPos <= chunkEnd && currentPos == chunkStart + 4 * done
      invariant ChunkReadFault(caps, 0, 4 * n, BufferSize) == ChunkReadFault(caps, k, chunkEnd - currentPos, BufferSize)
      invariant localMap == CountRecords(file, chunkStart, done)
      decreases chunkEnd - currentPos
    {
      var remainingBytes := chunkEnd - currentPos;
      var bytesRead := Delivered(caps, k, Min(BufferSize, remainingBytes));
      if bytesRead == 0 {
        return Failure(ZeroBytes);
      }
      if bytesRead % 4 != 0 {
        return Failure(Misaligned);
      }
      var buffer := file[currentPos..currentPos + bytesRead];
      localMap, done := CountBlock(file, chunkStart, currentPos, buffer, localMap, done);
      currentPos := currentPos + bytesRead;
      k := k + 1;
    }
    return Success(localMap);
  }

  /**
   * The body of Parallel.For for chunk i: open a stream, seek to the chunk,
   * run the read loop, and wrap what it throws.
   */
  method ScanChunk(file: seq<Byte>, stream: Stream, i: nat) returns (r: Result<FreqMap, Error>)
    requires |file| > 0 && |file| % 4 == 0 && i < ChunkCount(|file|)
    ensures r == ChunkOutcome(file, stream, i)
  {
    if stream.openFault.Some? {
      if stream.openFault.value == IOFault {
        return Failure(ChunkFailed(i, OpenFailed(IOFault)));
      }
      return Failure(OpenFailed(OtherFault));
    }
    var currentPos, steps := SeekTo(ChunkStart(i));
    var chunkEnd := ChunkEnd(i, |file|);
    var read := ReadChunk(file, stream.caps, currentPos, chunkEnd, ChunkRecords(|file|, i));
    match read
    case Failure(fault) => return Failure(ChunkFailed(i, ChunkReadFailed(i, fault)));
    case Success(localMap) => return Success(localMap);
  }

  /**
   * The foreach over a worker's local dictionary: AddOrUpdate inserts an
   * absent key with the local count and adds the local count to a present one.
   */
  method MergeInto(shared: FreqMap, localMap: FreqMap) returns (merged: FreqMap)
    ensures merged == Merge(shared, localMap)
  {
    WithoutEnds(localMap);
    MergeEmpty(shared);
    merged := shared;
    var pending := localMap.Keys;
    while pending != {}
      invariant pending <= localMap.Keys
      invariant merged == Merge(shared, Without(localMap, pending))
      decreases |pending|
    {
      var key :| key in pending;
      MergeOneMore(shared, localMap, pending, key);
      merged := AddOrUpdate(merged, key, localMap[key]);
      pending := pending - {key};
    }
  }

  /** 0, 1, ..., n - 1. */
  function Range(n: nat): (s: seq<nat>)
    ensures |s| == n
    ensures forall j :: 0 <= j < n ==> s[j] == j
  {
    if n == 0 then [] else Range(n - 1) + [n - 1]
  }

  /**
   * A run of the workers on a file of whole records: one stream per chunk,
   * and every chunk index finishes exactly once.
   */
  predicate IsSchedule(fileSize: nat, streams: seq<Stream>, order: seq<nat>)
    requires fileSize > 0
  {
    |streams| == ChunkCount(fileSize) && multiset(order) == multiset(Range(ChunkCount(fileSize)))
  }

  /** Every index in the completion order names a chunk. */
  predicate ChunksIn(order: seq<nat>, n: nat)
  {
    forall j :: 0 <= j < |order| ==> order[j] < n
  }

  predicate ValidRun(file: seq<Byte>, streams: seq<Stream>, order: seq<nat>)
  {
    |file| > 0 && |file| % 4 == 0 && |streams| == ChunkCount(|file|) && ChunksIn(order, |streams|)
  }

  lemma ScheduleIsValidRun(file: seq<Byte>, streams: seq<Stream>, order: seq<nat>)
    requires |file| > 0 && |file| % 4 == 0 && IsSchedule(|file|, streams, order)
    ensures ValidRun(file, streams, order)
  {
    var n := ChunkCount(|file|);
    forall j | 0 <= j < |order| ensures order[j] < n {
      assert order[j] in multiset(Range(n));
    }
  }

  /** The shared dictionary once the workers in `order` have merged, in that order. */
  function Reduced(file: seq<Byte>, streams: seq<Stream>, order: seq<nat>): FreqMap
    requires ValidRun(file, streams, order)
  {
    if order == [] then map[]
    else
      var c := order[|order| - 1];
      var previous := Reduced(file, streams, order[..|order| - 1]);
      var outcome := ChunkOutcome(file, streams[c], c);
      if outcome.Success? then Merge(previous, outcome.value) else previous
  }

  /** The exceptions thrown by the workers in `order`, in that order. */
  function CollectedErrors(file: seq<Byte>, streams: seq<Stream>, order: seq<nat>): seq<Error>
    requires ValidRun(file, streams, order)
  {
    if order == [] then []
    else
      var c := order[|order| - 1];
      var previous := CollectedErrors(file, streams, order[..|order| - 1]);
      var outcome := ChunkOutcome(file, streams[c], c);
      if outcome.Success? then previous else previous + [outcome.error]
  }

  /**
   * Parallel.For over the chunks, with the workers finishing in `order`: each
   * successful worker merges its local dictionary into the shared one, each
   * failing worker contributes its exception.
   */
  method RunChunks(file: seq<Byte>, streams: seq<Stream>, order: seq<nat>) returns (shared: FreqMap, errors: seq<Error>)
    requires ValidRun(file, streams, order)
    ensures shared == Reduced(file, streams, order)
    ensures errors == CollectedErrors(file, streams, order)
  {
    shared := map[];
    errors := [];
    var t := 0;
    while t < |order|
      invariant t <= |order|
      invariant shared == Reduced(file, streams, order[..t])
      invariant errors == CollectedErrors(file, streams, order[..t])
    {
      var c := order[t];
      var outcome := ScanChunk(file, streams[c], c);
      assert order[..t + 1][..t] == order[..t];
      if outcome.Success? {
        shared := MergeInto(shared, outcome.value);
      } else {
        errors := errors + [outcome.error];
      }
      t := t + 1;
    }
    assert order[..|order|] == order;
  }

  /** The position of the first IOException among the errors, or |errors| if there is none. */
  function FirstIOException(errors: seq<Error>): (j: nat)
    ensures j <= |errors|
    ensures j < |errors| ==> IsIOException(errors[j])
    ensures forall l :: 0 <= l < j ==> !IsIOException(errors[l])
  {
    if errors == [] then 0
    else if IsIOException(errors[0]) then 0
    else 1 + FirstIOException(errors[1..])
  }

  /**
   * The exception the catch block for the AggregateException rethrows: the
   * first inner exception that is an IOException, or, if there is none, an
   * IOException "due to multiple errors" wrapping them all. Either way the
   * caller sees an IOException.
   */
  function SelectedError(errors: seq<Error>): (e: Error)
    ensures IsIOException(e)
    ensures e in errors || e == MultipleErrors(errors)
  {
    var j := FirstIOException(errors);
    if j < |errors| then errors[j] else MultipleErrors(errors)
  }

  /**
   * The catch block for the AggregateException: the first inner exception
   * that is an IOException is rethrown; if there is none, an IOException
   * "due to multiple errors" wrapping them all is thrown.
   */
  method SelectError(errors: seq<Error>) returns (e: Error)
    ensures e == SelectedError(errors)
  {
    var j := 0;
    while j < |errors|
      invariant j <= |errors|
      invariant forall l :: 0 <= l < j ==> !IsIOException(errors[l])
    {
      if IsIOException(errors[j]) {
        FirstIOExceptionIsFirst(errors, j);
        return errors[j];
      }
      j := j + 1;
    }
    FirstIOExceptionIsFirst(errors, j);
    return MultipleErrors(errors);
  }

  /** A position with no IOException before it and one at it (or the end) is the first. */
  lemma {:induction false} FirstIOExceptionIsFirst(errors: seq<Error>, j: nat)
    requires j <= |errors|
    requires forall l :: 0 <= l < j ==> !IsIOException(errors[l])
    requires j < |errors| ==> IsIOException(errors[j])
    ensures FirstIOException(errors) == j
  {
    if errors != [] && j > 0 {
      assert !IsIOException(errors[0]);
      FirstIOExceptionIsFirst(errors[1..], j - 1);
    }
  }

  /**
   * ProcessBinaryFileParallel: a missing file throws FileNotFoundException, an
   * empty file counts (0, 0), a size that is not a whole number of records
   * throws before any worker starts; otherwise, if no worker throws, the two
   * counts of the whole file's records, whatever the order the workers finish
   * in, and if some do, the exception the catch block selects.
   */
  method ProcessBinaryFileParallel(file: Option<seq<Byte>>, streams: seq<Stream>, order: seq<nat>)
    returns (r: Result<Counts, Error>)
    requires file.Some? && |file.value| > 0 && |file.value| % 4 == 0 ==> IsSchedule(|file.value|, streams, order)
    ensures file == None ==> r == Failure(FileNotFound)
    ensures file.Some? && |file.value| == 0 ==> r == Success(Counts(0, 0))
    ensures file.Some? && |file.value| % 4 != 0 ==> r == Failure(InvalidFormat(None))
    ensures file.Some? && |file.value| > 0 && |file.value| % 4 == 0 ==>
              ValidRun(file.value, streams, order) &&
              var errors := CollectedErrors(file.value, streams, order);
              (errors == [] ==> r == Success(Summary(Freq(multiset(Records(file.value)))))) &&
              (errors != [] ==> r.Failure? && IsIOException(r.error) && r.error == SelectedError(errors))
  {
    if file == None {
      return Failure(FileNotFound);
    }
    var bytes := file.value;
    var fileSize := |bytes|;
    if fileSize == 0 {
      return Success(Counts(0, 0));
    }
    if fileSize % 4 != 0 {
      return Failure(InvalidFormat(None));
    }
    ScheduleIsValidRun(bytes, streams, order);
    var shared, errors := RunChunks(bytes, streams, order);
    if errors != [] {
      var e := SelectError(errors);
      return Failure(e);
    }
    AllChunksCounted(bytes, streams, order);
    return Success(Summary(shared));
  }

  /** The records of chunk i (none once i is past the last chunk). */
  ghost function ChunkBag(file: seq<Byte>, i: nat): multiset<U32>
  {
    var lo, hi := Covered(i, |file|), Covered(i + 1, |file|);
    multiset(RecordsIn(file, lo, (hi - lo) / 4))
  }

  /** The records of the chunks listed in `order`, together. */
  ghost function BagSum(file: seq<Byte>, order: seq<nat>): multiset<U32>
  {
    if order == [] then multiset{} else BagSum(file, order[..|order| - 1]) + ChunkBag(file, order[|order| - 1])
  }

  /** A worker succeeds exactly when its stream opens and every Read delivers whole records. */
  lemma ChunkOutcomeSucceeds(file: seq<Byte>, stream: Stream, i: nat)
    requires |file| > 0 && |file| % 4 == 0 && i < ChunkCount(|file|)
    ensures ChunkStart(i) < ChunkEnd(i, |file|)
    ensures ChunkOutcome(file, stream, i).Success? <==>
              stream.openFault == None && ChunkReadFault(stream.caps, 0, ChunkEnd(i, |file|) - ChunkStart(i), BufferSize) == None
  {
    ChunkSpan(i, |file|);
  }

  /** Chunk i's records are the records from its start to its end. */
  lemma ChunkBagIs(file: seq<Byte>, i: nat)
    requires |file| > 0 && |file| % 4 == 0 && i < ChunkCount(|file|)
    ensures ChunkBag(file, i) == multiset(RecordsIn(file, ChunkStart(i), ChunkRecords(|file|, i)))
  {
    ChunksTile(i, |file|);
  }

  /** A worker that succeeds hands back the counts of its chunk's records. */
  lemma ChunkOutcomeCounts(file: seq<Byte>, stream: Stream, i: nat)
    requires |file| > 0 && |file| % 4 == 0 && i < ChunkCount(|file|)
    ensures ChunkOutcome(file, stream, i).Success? ==> ChunkOutcome(file, stream, i).value == Freq(ChunkBag(file, i))
  {
    var outcome := ChunkOutcome(file, stream, i);
    if outcome.Success? {
      var lo, n := ChunkStart(i), ChunkRecords(|file|, i);
      assert outcome.value == CountRecords(file, lo, n);
      CountRecordsIsFreq(file, lo, n);
      ChunkBagIs(file, i);
    }
  }

  /** A worker whose stream opens and fills every request never fails. */
  lemma HealthyChunkSucceeds(file: seq<Byte>, i: nat)
    requires |file| > 0 && |file| % 4 == 0 && i < ChunkCount(|file|)
    ensures ChunkOutcome(file, Healthy, i).Success?
  {
    var n := ChunkRecords(|file|, i);
    FourTimes(n);
    FullReadsNoFault(0, 4 * n, BufferSize);
  }

  /** With healthy streams, no worker throws. */
  lemma {:induction false} HealthyRunNoErrors(file: seq<Byte>, streams: seq<Stream>, order: seq<nat>)
    requires ValidRun(file, streams, order)
    requires forall c :: 0 <= c < |streams| ==> streams[c] == Healthy
    ensures CollectedErrors(file, streams, order) == []
  {
    if order != [] {
      HealthyRunNoErrors(file, streams, order[..|order| - 1]);
      HealthyChunkSucceeds(file, order[|order| - 1]);
    }
  }

  /** When no worker throws, the shared dictionary counts the records of the chunks in `order`. */
  lemma {:induction false} ReducedIsFreq(file: seq<Byte>, streams: seq<Stream>, order: seq<nat>)
    requires ValidRun(file, streams, order)
    requires CollectedErrors(file, streams, order) == []
    ensures Reduced(file, streams, order) == Freq(BagSum(file, order))
  {
    if order != [] {
      var c, init := order[|order| - 1], order[..|order| - 1];
      ReducedIsFreq(file, streams, init);
      ChunkOutcomeCounts(file, streams[c], c);
      MergeFreq(BagSum(file, init), ChunkBag(file, c));
    }
  }

  lemma {:induction false} BagSumAppend(file: seq<Byte>, a: seq<nat>, b: seq<nat>)
    ensures BagSum(file, a + b) == BagSum(file, a) + BagSum(file, b)
    decreases |b|
  {
    if b != [] {
      var init := b[..|b| - 1];
      assert (a + b)[..|a + b| - 1] == a + init;
      BagSumAppend(file, a, init);
    } else {
      assert a + b == a;
    }
  }

  lemma BagSumRemove(file: seq<Byte>, t: seq<nat>, i: nat)
    requires i < |t|
    ensures BagSum(file, t) == BagSum(file, t[..i] + t[i + 1..]) + ChunkBag(file, t[i])
  {
    assert t == t[..i] + [t[i]] + t[i + 1..];
    BagSumAppend(file, t[..i] + [t[i]], t[i + 1..]);
    BagSumAppend(file, t[..i], [t[i]]);
    BagSumAppend(file, t[..i], t[i + 1..]);
    assert [t[i]][..0] == [];
  }

  /** The records of a set of chunks do not depend on the order they are listed in. */
  lemma {:induction false} BagSumPermutation(file: seq<Byte>, s: seq<nat>, t: seq<nat>)
    requires multiset(s) == multiset(t)
    ensures BagSum(file, s) == BagSum(file, t)
    decreases |s|
  {
    if s == [] {
      assert |t| == |multiset(t)| == 0;
    } else {
      var x, init := s[|s| - 1], s[..|s| - 1];
      assert s == init + [x];
      assert x in multiset(t);
      var i :| 0 <= i < |t| && t[i] == x;
      var rest := t[..i] + t[i + 1..];
      assert t == t[..i] + [x] + t[i + 1..];
      assert multiset(rest) == multiset(t) - multiset{x};
      BagSumPermutation(file, init, rest);
      BagSumRemove(file, t, i);
    }
  }

  /** Chunk i's records, between the offsets the chunks before it reach and the offset it reaches. */
  lemma ChunkBagBetween(file: seq<Byte>, i: nat, lo: nat, hi: nat)
    requires lo == Covered(i, |file|) && hi == Covered(i + 1, |file|)
    ensures lo <= hi <= |file|
    ensures ChunkBag(file, i) == multiset(RecordsIn(file, lo, (hi - lo) / 4))
  {
    CoveredGrows(i, |file|);
  }

  /** The records of chunks 0 .. i-1 are the records of the file up to where they reach. */
  lemma {:induction false} PrefixBag(file: seq<Byte>, i: nat)
    requires |file| % 4 == 0
    ensures Covered(i, |file|) % 4 == 0
    ensures BagSum(file, Range(i)) == multiset(RecordsIn(file, 0, Covered(i, |file|) / 4))
  {
    if i == 0 {
      assert Covered(0, |file|) == 0;
      assert BagSum(file, Range(0)) == multiset{};
    } else {
      PrefixBag(file, i - 1);
      assert Range(i)[..i - 1] == Range(i - 1);
      var lo, hi := Covered(i - 1, |file|), Covered(i, |file|);
      assert lo <= hi <= |file| && hi % 4 == 0 by {
        CoveredStep(i - 1, |file|);
      }
      RecordsInPrefix(file, lo, hi);
      var whole, first, second := RecordsIn(file, 0, hi / 4), RecordsIn(file, 0, lo / 4), RecordsIn(file, lo, (hi - lo) / 4);
      assert multiset(whole) == multiset(first) + multiset(second);
      ChunkBagBetween(file, i - 1, lo, hi);
    }
  }

  /** When no worker throws, the shared dictionary counts every record of the file. */
  lemma AllChunksCounted(file: seq<Byte>, streams: seq<Stream>, order: seq<nat>)
    requires |file| > 0 && |file| % 4 == 0 && IsSchedule(|file|, streams, order)
    requires ValidRun(file, streams, order)
    requires CollectedErrors(file, streams, order) == []
    ensures Reduced(file, streams, order) == Freq(multiset(Records(file)))
  {
    var n := ChunkCount(|file|);
    ReducedIsFreq(file, streams, order);
    assert BagSum(file, order) == multiset(Records(file)) by {
      BagSumPermutation(file, order, Range(n));
      PrefixBag(file, n);
      ChunksTile(0, |file|);
      RecordsInWhole(file);
    }
  }
}
