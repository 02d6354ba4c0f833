/**
 * How the parallel strategy cuts a file into chunks: fixed-size byte ranges,
 * the last one cut short at the end of the file.
 */
module ChunkPlanner {
  import opened Wrappers
  import opened RecordFormat

  /** Bytes per chunk (a whole number of records). */
  const ChunkSize: nat := 100_000_000

  /**
   * chunkCount: 1 for a file shorter than one chunk, otherwise the file size
   * divided by the chunk size, rounded up. It is the least number of chunks
   * that reaches the end of the file.
   */
  function ChunkCount(fileSize: nat): (n: nat)
    requires fileSize > 0
    ensures n >= 1
    ensures ChunkStart(n - 1) < fileSize <= ChunkStart(n)
  {
    if fileSize < ChunkSize then 1 else (fileSize + ChunkSize - 1) / ChunkSize
  }

  /** chunkStart = chunkIndex * ChunkSize. */
  function ChunkStart(i: nat): (s: nat)
    ensures s % ChunkSize == 0 && s / ChunkSize == i
  {
    i * ChunkSize
  }

  /** chunkEnd = min(chunkStart + ChunkSize, fileSize). */
  function ChunkEnd(i: nat, fileSize: nat): (e: nat)
    ensures e <= fileSize
  {
    Min(ChunkStart(i) + ChunkSize, fileSize)
  }

  /**
   * The offset up to which chunks 0 .. i-1 reach: the start of chunk i, but
   * never beyond the end of the file.
   */
  function Covered(i: nat, fileSize: nat): nat
  {
    Min(ChunkStart(i), fileSize)
  }

  /**
   * Every planned chunk is a non-empty range inside the file: the guard that
   * throws "Invalid chunk range" never fires.
   */
  lemma ChunkInFile(i: nat, fileSize: nat)
    requires fileSize > 0 && i < ChunkCount(fileSize)
    ensures 0 <= ChunkStart(i) < ChunkEnd(i, fileSize) <= fileSize
  {
    assert i * ChunkSize <= (ChunkCount(fileSize) - 1) * ChunkSize;
  }

  /**
   * The chunks tile the file in index order: chunk i is [Covered(i), Covered(i + 1)),
   * the first starts at 0 and, once every chunk is counted, the end of the
   * file is reached.
   */
  lemma ChunksTile(i: nat, fileSize: nat)
    requires fileSize > 0 && i < ChunkCount(fileSize)
    ensures Covered(0, fileSize) == 0
    ensures ChunkStart(i) == Covered(i, fileSize)
    ensures ChunkEnd(i, fileSize) == Covered(i + 1, fileSize)
    ensures Covered(ChunkCount(fileSize), fileSize) == fileSize
  {
    ChunkInFile(i, fileSize);
    assert ChunkStart(i) + ChunkSize == ChunkStart(i + 1);
  }

  /** In a file of whole records, chunk i is a non-empty run of whole records inside the file. */
  lemma ChunkSpan(i: nat, fileSize: nat)
    requires fileSize > 0 && fileSize % 4 == 0 && i < ChunkCount(fileSize)
    ensures ChunkStart(i) < ChunkEnd(i, fileSize) <= fileSize
    ensures ChunkStart(i) + 4 * ((ChunkEnd(i, fileSize) - ChunkStart(i)) / 4) == ChunkEnd(i, fileSize)
  {
    ChunkInFile(i, fileSize);
    ChunkAligned(i, fileSize);
    AlignedDifference(ChunkStart(i), ChunkEnd(i, fileSize));
  }

  /** Between two consecutive chunk boundaries of a file of whole records lie whole records. */
  lemma CoveredStep(i: nat, fileSize: nat)
    requires fileSize % 4 == 0
    ensures Covered(i, fileSize) <= Covered(i + 1, fileSize) <= fileSize
    ensures Covered(i, fileSize) % 4 == 0 && Covered(i + 1, fileSize) % 4 == 0
  {
    CoveredGrows(i, fileSize);
    ChunkAligned(i, fileSize);
    ChunkAligned(i + 1, fileSize);
  }

  /** The covered prefix only grows, and never past the end of the file. */
  lemma CoveredGrows(i: nat, fileSize: nat)
    ensures Covered(i, fileSize) <= Covered(i + 1, fileSize) <= fileSize
  {
    assert ChunkStart(i) + ChunkSize == ChunkStart(i + 1);
  }

  /** In a file of whole records, every chunk boundary falls between two records. */
  lemma ChunkAligned(i: nat, fileSize: nat)
    requires fileSize % 4 == 0
    ensures ChunkStart(i) % 4 == 0 && ChunkEnd(i, fileSize) % 4 == 0 && Covered(i, fileSize) % 4 == 0
  {
    FourTimes(i * 25_000_000);
    FourTimes((i + 1) * 25_000_000);
    assert ChunkStart(i) == 4 * (i * 25_000_000);
    assert ChunkStart(i) + ChunkSize == 4 * ((i + 1) * 25_000_000);
  }
}
