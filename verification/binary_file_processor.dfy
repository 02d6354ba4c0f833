/**
 * The sequential strategy: one FileStream read front to back in 4096-byte
 * requests, every record counted into one dictionary, then one pass over the
 * dictionary for the two counts.
 */
module BinaryFileProcessor {
  import opened Wrappers
  import opened RecordFormat
  import opened Frequency
  import opened Streams
  import opened Errors

  /** Bytes asked for by each Read call. */
  const BufferSize: nat := 4096

  /**
   * ReadBinaryFile: reads while the position is before the end of the file;
   * each Read delivers at most what is left; a byte count that is not a whole
   * number of records throws, otherwise each record bumps its value's count.
   * A Read that delivers 0 bytes is simply issued again.
   */
  method ReadBinaryFile(file: seq<Byte>, stream: Stream) returns (r: Result<FreqMap, Error>)
    ensures r.Success? <==> stream.openFault == None && ReadsAligned(stream.caps, 0, |file|, BufferSize)
    ensures r.Success? ==> |file| % 4 == 0 && r.value == CountRecords(file, 0, |file| / 4)
    ensures r.Failure? ==> r.error == if stream.openFault.Some? then OpenFailed(stream.openFault.value) else InvalidFormat(None)
  {
    if stream.openFault.Some? {
      return Failure(OpenFailed(stream.openFault.value));
    }
    var caps := stream.caps;
    var freq: FreqMap := map[];
    var pos: nat := 0;
    var k: nat := 0;
    ghost var done: nat := 0;
    while pos < |file|
      invariant pos <= |file| && pos == 4 * done
      invariant ReadsAligned(caps, 0, |file|, BufferSize) <==> ReadsAligned(caps, k, |file| - pos, BufferSize)
      invariant freq == CountRecords(file, 0, done)
      decreases if k < |caps| then |caps| - k else 0, |file| - pos
    {
      var bytesRead := Delivered(caps, k, Min(BufferSize, |file| - pos));
      ReadsAlignedStep(caps, k, |file| - pos, BufferSize);
      if bytesRead % 4 != 0 {
        return Failure(InvalidFormat(None));
      }
      var buffer := file[pos..pos + bytesRead];
      freq, done := CountBlock(file, 0, pos, buffer, freq, done);
      pos := pos + bytesRead;
      k := k + 1;
    }
    FourTimes(done);
    return Success(freq);
  }

  /**
   * The foreach over the dictionary in ProcessBinaryFile: every pair counts
   * towards uniqueNumbersCount, pairs with value 1 also towards onlyOnceNumbersCount.
   */
  method CountUniqueAndOnlyOnce(freq: FreqMap) returns (c: Counts)
    ensures c == Summary(freq)
  {
    var uniqueNumbersCount, onlyOnceNumbersCount := 0, 0;
    var pending := freq.Keys;
    ghost var once := Singletons(freq);
    assert once * pending == once;
    while pending != {}
      invariant pending <= freq.Keys
      invariant uniqueNumbersCount + |pending| == |freq.Keys|
      invariant onlyOnceNumbersCount + |once * pending| == |once|
      decreases |pending|
    {
      var number :| number in pending;
      if freq[number] == 1 {
        onlyOnceNumbersCount := onlyOnceNumbersCount + 1;
        assert once * (pending - {number}) == once * pending - {number};
      } else {
        assert once * (pending - {number}) == once * pending;
      }
      uniqueNumbersCount := uniqueNumbersCount + 1;
      pending := pending - {number};
    }
    return Counts(uniqueNumbersCount, onlyOnceNumbersCount);
  }

  /**
   * ProcessBinaryFile: a missing file throws FileNotFoundException; any failure
   * while reading resurfaces as the IOException "Invalid format" wrapping it;
   * otherwise the two counts of the file's records.
   */
  method ProcessBinaryFile(file: Option<seq<Byte>>, stream: Stream) returns (r: Result<Counts, Error>)
    ensures file == None ==> r == Failure(FileNotFound)
    ensures file.Some? ==> (r.Success? <==> stream.openFault == None && ReadsAligned(stream.caps, 0, |file.value|, BufferSize))
    ensures file.Some? && r.Failure? ==>
              r.error == InvalidFormat(Some(if stream.openFault.Some? then OpenFailed(stream.openFault.value) else InvalidFormat(None)))
    ensures file.Some? && |file.value| % 4 != 0 ==> r.Failure?
    ensures file.Some? && stream == Healthy ==> (r.Success? <==> |file.value| % 4 == 0)
    ensures r.Success? ==> file.Some? && |file.value| % 4 == 0 && r.value == Summary(Freq(multiset(Records(file.value))))
  {
    if file == None {
      return Failure(FileNotFound);
    }
    var bytes := file.value;
    if ReadsAligned(stream.caps, 0, |bytes|, BufferSize) {
      ReadsAlignedTotal(stream.caps, 0, |bytes|, BufferSize);
    }
    FullReadsAligned(0, |bytes|, BufferSize);
    var read := ReadBinaryFile(bytes, stream);
    if read.Failure? {
      return Failure(InvalidFormat(Some(read.error)));
    }
    CountWholeFile(bytes);
    var counts := CountUniqueAndOnlyOnce(read.value);
    return Success(counts);
  }
}
