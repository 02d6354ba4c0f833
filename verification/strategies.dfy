/**
 * The two strategies side by side, as the test suites drive them: a file
 * written by BinaryWriter, counted by the sequential and by the parallel
 * processor.
 */
module Strategies {
  import opened Wrappers
  import opened RecordFormat
  import opened Frequency
  import opened Streams
  import opened Errors
  import opened ChunkPlanner
  import Sequential = BinaryFileProcessor
  import Parallel = ParallelBinaryFileProcessor

  /** Every worker's stream opens and fills every request. */
  predicate AllHealthy(streams: seq<Stream>)
  {
    forall c :: 0 <= c < |streams| ==> streams[c] == Healthy
  }

  /**
   * Both strategies on the same file. They agree whenever both succeed; over
   * streams that open and fill every request both succeed exactly on files of
   * whole records; a missing file and a size that is not a whole number of
   * records are rejected by both.
   */
  method CompareStrategies(file: Option<seq<Byte>>, stream: Stream, streams: seq<Stream>, order: seq<nat>)
    returns (sequential: Result<Counts, Error>, parallel: Result<Counts, Error>)
    requires file.Some? && |file.value| > 0 && |file.value| % 4 == 0 ==> Parallel.IsSchedule(|file.value|, streams, order)
    ensures file == None ==> sequential == parallel == Failure(FileNotFound)
    ensures file.Some? && |file.value| % 4 != 0 ==> sequential.Failure? && parallel.Failure?
    ensures sequential.Success? ==> file.Some? && |file.value| % 4 == 0 && sequential.value == Summary(Freq(multiset(Records(file.value))))
    ensures sequential.Success? && parallel.Success? ==> sequential == parallel
    ensures file.Some? && stream == Healthy && AllHealthy(streams) ==>
              (sequential.Success? <==> |file.value| % 4 == 0) && (parallel.Success? <==> |file.value| % 4 == 0)
  {
    sequential := Sequential.ProcessBinaryFile(file, stream);
    parallel := Parallel.ProcessBinaryFileParallel(file, streams, order);
    if file.Some? && |file.value| == 0 {
      assert Records(file.value) == [];
      assert Freq(multiset{}) == map[];
    }
    if file.Some? && |file.value| > 0 && |file.value| % 4 == 0 && AllHealthy(streams) {
      Parallel.HealthyRunNoErrors(file.value, streams, order);
    }
  }

  /** One stream per chunk, each opening and filling every request, and the workers finishing in index order. */
  method HealthySchedule(fileSize: nat) returns (streams: seq<Stream>, order: seq<nat>)
    ensures AllHealthy(streams)
    ensures fileSize > 0 ==> Parallel.IsSchedule(fileSize, streams, order)
  {
    var n := if fileSize == 0 then 0 else ChunkCount(fileSize);
    streams := seq(n, _ => Healthy);
    order := Parallel.Range(n);
  }

  /**
   * CreateTestBinaryFile followed by both processors over streams that open
   * and fill every request: both report the counts of the written values.
   */
  method CountWritten(vs: seq<U32>) returns (sequential: Result<Counts, Error>, parallel: Result<Counts, Error>)
    ensures sequential == parallel == Success(Summary(Freq(multiset(vs))))
  {
    var file := EncodeAll(vs);
    RecordsEncodeAll(vs);
    FourTimes(|vs|);
    var streams, order := HealthySchedule(|file|);
    sequential, parallel := CompareStrategies(Some(file), Healthy, streams, order);
  }

  /** The file of DisplayResults_CorrectlyOutputsCounts: three distinct values, two of them seen once. */
  lemma DisplayResultsExample()
    ensures Summary(Freq(multiset([0x100, 0x100, 0x800, 0xFFF]))) == Counts(3, 2)
  {
    var m := Freq(multiset([0x100, 0x100, 0x800, 0xFFF]));
    assert m.Keys == {0x100, 0x800, 0xFFF};
    assert Singletons(m) == {0x800, 0xFFF};
  }

  /**
   * The ProcessBinaryFile_DifferentDataPatterns rows whose values are all
   * different: as many distinct values as written, each seen once.
   */
  lemma DistinctPatterns()
    ensures Summary(Freq(multiset([]))) == Counts(0, 0)
    ensures Summary(Freq(multiset([0x100]))) == Counts(1, 1)
    ensures Summary(Freq(multiset([0x222, 0x333]))) == Counts(2, 2)
    ensures Summary(Freq(multiset([0x222, 0x333, 0x444]))) == Counts(3, 3)
  {
    assert Summary(Freq(multiset([]))) == Counts(0, 0) by {
      DistinctCounts([]);
    }
    assert Summary(Freq(multiset([0x100]))) == Counts(1, 1) by {
      DistinctCounts([0x100]);
    }
    assert Summary(Freq(multiset([0x222, 0x333]))) == Counts(2, 2) by {
      DistinctCounts([0x222, 0x333]);
    }
    assert Summary(Freq(multiset([0x222, 0x333, 0x444]))) == Counts(3, 3) by {
      DistinctCounts([0x222, 0x333, 0x444]);
    }
  }

  /** The DifferentDataPatterns row [0x100, 0x100]: 1 distinct values, 0 seen once. */
  lemma RepeatedPair()
    ensures Summary(Freq(multiset([0x100, 0x100]))) == Counts(1, 0)
  {
    var m := Freq(multiset([0x100, 0x100]));
    assert m.Keys == {0x100};
    assert Singletons(m) == {};
  }

  /** The DifferentDataPatterns row [0x222, 0x222, 0x333, 0x333]: 2 distinct values, 0 seen once. */
  lemma TwoRepeatedPairs()
    ensures Summary(Freq(multiset([0x222, 0x222, 0x333, 0x333]))) == Counts(2, 0)
  {
    var m := Freq(multiset([0x222, 0x222, 0x333, 0x333]));
    assert m.Keys == {0x222, 0x333};
    assert Singletons(m) == {};
  }

  /** The DifferentDataPatterns row [0x777, 0x888, 0x999, 0x888, 0x999, 0x777, 0x999]: 3 distinct values, 0 seen once. */
  lemma ThreeRepeatedValues()
    ensures Summary(Freq(multiset([0x777, 0x888, 0x999, 0x888, 0x999, 0x777, 0x999]))) == Counts(3, 0)
  {
    var m := Freq(multiset([0x777, 0x888, 0x999, 0x888, 0x999, 0x777, 0x999]));
    assert m.Keys == {0x777, 0x888, 0x999};
    assert Singletons(m) == {};
  }

  /** The DifferentDataPatterns row [0xAAA, 0xAAA, 0xBBB]: 2 distinct values, 1 seen once. */
  lemma PairAndSingle()
    ensures Summary(Freq(multiset([0xAAA, 0xAAA, 0xBBB]))) == Counts(2, 1)
  {
    var m := Freq(multiset([0xAAA, 0xAAA, 0xBBB]));
    assert m.Keys == {0xAAA, 0xBBB};
    assert Singletons(m) == {0xBBB};
  }

  /** The DifferentDataPatterns row [0x100, 0x100, 0x100, 0x200, 0x300, 0x300]: 3 distinct values, 1 seen once. */
  lemma TripleSingleAndPair()
    ensures Summary(Freq(multiset([0x100, 0x100, 0x100, 0x200, 0x300, 0x300]))) == Counts(3, 1)
  {
    var m := Freq(multiset([0x100, 0x100, 0x100, 0x200, 0x300, 0x300]));
    assert m.Keys == {0x100, 0x200, 0x300};
    assert Singletons(m) == {0x200};
  }

  /** The DifferentDataPatterns row [0xABC, 0xABC, 0x500, 0x600, 0x700]: 4 distinct values, 3 seen once. */
  lemma PairAndThreeSingles()
    ensures Summary(Freq(multiset([0xABC, 0xABC, 0x500, 0x600, 0x700]))) == Counts(4, 3)
  {
    var m := Freq(multiset([0xABC, 0xABC, 0x500, 0x600, 0x700]));
    assert m.Keys == {0xABC, 0x500, 0x600, 0x700};
    assert Singletons(m) == {0x500, 0x600, 0x700};
  }

  /** The DifferentDataPatterns row [0x400, 0x500, 0x600, 0xBCD, 0xBCD, 0x700, 0x400, 0xBCD]: 5 distinct values, 3 seen once. */
  lemma MixedEight()
    ensures Summary(Freq(multiset([0x400, 0x500, 0x600, 0xBCD, 0xBCD, 0x700, 0x400, 0xBCD]))) == Counts(5, 3)
  {
    MixedEightFreq();
    MixedEightSummary();
  }

  /** Its frequency mapping, from the mappings of its two halves. */
  lemma MixedEightFreq()
    ensures Freq(multiset([0x400, 0x500, 0x600, 0xBCD, 0xBCD, 0x700, 0x400, 0xBCD]))
         == map[0x400 := 2, 0x500 := 1, 0x600 := 1, 0xBCD := 3, 0x700 := 1]
  {
    MixedEightSplit();
    MixedEightFirstHalf();
    MixedEightSecondHalf();
    MergeFreq(multiset([0x400, 0x500, 0x600, 0xBCD]), multiset([0xBCD, 0x700, 0x400, 0xBCD]));
    MixedEightMerge();
  }

  /** The eight values are the first four and the last four. */
  lemma MixedEightSplit()
    ensures multiset([0x400, 0x500, 0x600, 0xBCD, 0xBCD, 0x700, 0x400, 0xBCD])
         == multiset([0x400, 0x500, 0x600, 0xBCD]) + multiset([0xBCD, 0x700, 0x400, 0xBCD])
  {
    var a: seq<U32>, b: seq<U32> := [0x400, 0x500, 0x600, 0xBCD], [0xBCD, 0x700, 0x400, 0xBCD];
    assert a + b == [0x400, 0x500, 0x600, 0xBCD, 0xBCD, 0x700, 0x400, 0xBCD];
  }

  /** Merging the two halves' mappings. */
  lemma MixedEightMerge()
    ensures Merge(map[0x400 := 1, 0x500 := 1, 0x600 := 1, 0xBCD := 1], map[0xBCD := 2, 0x700 := 1, 0x400 := 1])
         == map[0x400 := 2, 0x500 := 1, 0x600 := 1, 0xBCD := 3, 0x700 := 1]
  {
    var l := Merge(map[0x400 := 1, 0x500 := 1, 0x600 := 1, 0xBCD := 1], map[0xBCD := 2, 0x700 := 1, 0x400 := 1]);
    var e: FreqMap := map[0x400 := 2, 0x500 := 1, 0x600 := 1, 0xBCD := 3, 0x700 := 1];
    assert l.Keys == e.Keys;
  }

  /** The first half: four different values. */
  lemma MixedEightFirstHalf()
    ensures Freq(multiset([0x400, 0x500, 0x600, 0xBCD])) == map[0x400 := 1, 0x500 := 1, 0x600 := 1, 0xBCD := 1]
  {
    var m: FreqMap := map[0x400 := 1, 0x500 := 1, 0x600 := 1, 0xBCD := 1];
    assert Freq(multiset([0x400, 0x500, 0x600, 0xBCD])).Keys == m.Keys;
  }

  /** The second half: 0xBCD twice, 0x700 and 0x400 once. */
  lemma MixedEightSecondHalf()
    ensures Freq(multiset([0xBCD, 0x700, 0x400, 0xBCD])) == map[0xBCD := 2, 0x700 := 1, 0x400 := 1]
  {
    var m: FreqMap := map[0xBCD := 2, 0x700 := 1, 0x400 := 1];
    assert Freq(multiset([0xBCD, 0x700, 0x400, 0xBCD])).Keys == m.Keys;
  }

  /** Five distinct values, of which 0x500, 0x600 and 0x700 are seen once. */
  lemma MixedEightSummary()
    ensures Summary(map[0x400 := 2, 0x500 := 1, 0x600 := 1, 0xBCD := 3, 0x700 := 1]) == Counts(5, 3)
  {
    var m := map[0x400 := 2, 0x500 := 1, 0x600 := 1, 0xBCD := 3, 0x700 := 1];
    assert Singletons(m) == {0x500, 0x600, 0x700};
  }

  /**
   * The values GenerateSequentialNumbers writes: 0, 1, ..., count - 1. They come
   * out of a HashSet, whose enumeration order is taken to be insertion order;
   * the counts depend only on the multiset of values, so the order does not matter.
   */
  function SequentialNumbers(count: nat): (vs: seq<U32>)
    requires count <= 0x1_0000_0000
    ensures |vs| == count
    ensures forall i :: 0 <= i < count ==> vs[i] == i
  {
    if count == 0 then [] else SequentialNumbers(count - 1) + [count - 1]
  }

  /** ProcessBinaryFile_VariousDatasetSizes: count different values, each seen once. */
  lemma VariousDatasetSizes(count: nat)
    requires count <= 0x1_0000_0000
    ensures Summary(Freq(multiset(SequentialNumbers(count)))) == Counts(count, count)
  {
    DistinctCounts(SequentialNumbers(count));
  }
}
