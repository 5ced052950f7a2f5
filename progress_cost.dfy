/** The work estimates behind the progress bar: a set of four counters, the
    cost of copying or deleting one entry, and the cost of copying one chunk
    of a file. */
module ProgressCost {

  /** The file size below which per-file overhead dominates, so the work of
      copying is taken to be constant. */
  const MinFileSize: nat := 0x10_0000  // 1024 * 1024
  /** The work of deleting one entry. */
  const DeleteWork: nat := 0x10_0000  // 1024 * 1024

  /** Exclusive upper bounds of the source's unsigned integer types. */
  const U64Limit: nat := 0x1_0000_0000_0000_0000
  const U32Limit: nat := 0x1_0000_0000

  /** The part of an entry's description that the estimates look at (the
      modification time of a file and the target of a symlink are not). */
  datatype EntryDetails = File(size: nat) | Folder | Symlink

  /** Related progress measurements: an arbitrary unit of work (an estimate
      of time), the number of deletions, the number of copies, and the bytes
      copied. `+=` and `-=` act field by field. */
  datatype ProgressValues = ProgressValues(work: nat, delete: nat, copy: nat, copyBytes: nat)
  {
    /** Every field is within its type: u64 for work and bytes, u32 for the
        two entry counts. */
    predicate Fits() {
      work < U64Limit && delete < U32Limit && copy < U32Limit && copyBytes < U64Limit
    }

    /** `-=` of `b` does not underflow any field. */
    predicate Covers(b: ProgressValues) {
      b.work <= work && b.delete <= delete && b.copy <= copy && b.copyBytes <= copyBytes
    }

    /** `+= b`. */
    function Add(b: ProgressValues): (r: ProgressValues)
      ensures r.work == work + b.work && r.delete == delete + b.delete
      ensures r.copy == copy + b.copy && r.copyBytes == copyBytes + b.copyBytes
      ensures r.Covers(this) && r.Covers(b)
    {
      ProgressValues(work + b.work, delete + b.delete, copy + b.copy, copyBytes + b.copyBytes)
    }

    /** `-= b`; underflow is a panic of the unsigned subtraction, here a
        precondition. */
    function Sub(b: ProgressValues): (r: ProgressValues)
      requires Covers(b)
      ensures r.work == work - b.work && r.delete == delete - b.delete
      ensures r.copy == copy - b.copy && r.copyBytes == copyBytes - b.copyBytes
      ensures Covers(r) && r.Add(b) == this
    {
      ProgressValues(work - b.work, delete - b.delete, copy - b.copy, copyBytes - b.copyBytes)
    }
  }

  /** `ProgressValues::default()`. */
  const Zero := ProgressValues(0, 0, 0, 0)

  /** `for_copy`: a file costs its size in work, but never less than
      MinFileSize; folders and symlinks cost as much as a small file. Either
      way it is one copy and no deletion. */
  function ForCopy(e: EntryDetails): (r: ProgressValues)
    ensures r.copy == 1 && r.delete == 0
    ensures r.work >= MinFileSize
    ensures e.File? ==> r.copyBytes == e.size && r.work >= e.size
    ensures e.File? ==> r.work == MinFileSize || r.work == e.size
    ensures !e.File? ==> r.copyBytes == 0 && r.work == MinFileSize
  {
    match e
    case File(size) => ProgressValues(if size > MinFileSize then size else MinFileSize, 0, 1, size)
    case _ => ProgressValues(MinFileSize, 0, 1, 0)
  }

  /** `for_copy_partial`: the cost of copying bytes
      [chunkStart, chunkStart + chunkSize) of a file of `fileSize` bytes. A
      chunk that ends before the end of the file is not final. Small files
      put all of their constant work, and the one copy, into the final
      chunk. */
  function ForCopyPartial(chunkStart: nat, chunkSize: nat, fileSize: nat): (r: ProgressValues)
    ensures r.delete == 0 && r.copyBytes == chunkSize
    ensures r.copy == (if chunkStart + chunkSize < fileSize then 0 else 1)
  {
    if chunkStart + chunkSize < fileSize then
      ProgressValues(if fileSize > MinFileSize then chunkSize else 0, 0, 0, chunkSize)
    else
      ProgressValues(if fileSize > MinFileSize then chunkSize else MinFileSize, 0, 1, chunkSize)
  }

  /** `for_delete`: the same for every kind of entry. */
  function ForDelete(e: EntryDetails): (r: ProgressValues)
    ensures r.work == DeleteWork && r.delete == 1 && r.copy == 0 && r.copyBytes == 0
  {
    ProgressValues(DeleteWork, 1, 0, 0)
  }

  // Algebra of `+=` and `-=`.

  /** `-=` undoes `+=`. */
  lemma SubUndoesAdd(a: ProgressValues, b: ProgressValues)
    ensures a.Add(b).Covers(b)
    ensures a.Add(b).Sub(b) == a
  {
  }

  /** `+=` undoes `-=` when the subtraction is defined. */
  lemma AddUndoesSub(a: ProgressValues, b: ProgressValues)
    requires a.Covers(b)
    ensures a.Sub(b).Add(b) == a
  {
  }

  /** The order in which values are summed does not matter. */
  lemma AddCommutesAndAssociates(a: ProgressValues, b: ProgressValues, c: ProgressValues)
    ensures a.Add(b) == b.Add(a)
    ensures a.Add(b).Add(c) == a.Add(b.Add(c))
    ensures a.Add(Zero) == a
  {
  }

  /** What `-=` leaves fits whenever what it started from did. */
  lemma SubFits(a: ProgressValues, b: ProgressValues)
    requires a.Fits() && a.Covers(b)
    ensures a.Sub(b).Fits()
  {
  }

  // Properties of the per-entry estimates.

  /** All small files cost the same work. */
  lemma SmallFilesSameWork(a: nat, b: nat)
    requires a <= MinFileSize && b <= MinFileSize
    ensures ForCopy(File(a)).work == ForCopy(File(b)).work == MinFileSize
    ensures ForCopy(File(a)).work == ForCopy(Folder).work == ForCopy(Symlink).work
  {
  }

  /** Above the threshold the work of a file grows linearly with its size. */
  lemma LargeFilesScaleLinearly(size: nat, k: nat)
    requires size > MinFileSize && k >= 1
    ensures ForCopy(File(k * size)).work == k * ForCopy(File(size)).work
  {
    assert k * size >= size by {
      assert k * size == size + (k - 1) * size;
    }
  }

  /** A chunk that is not the last one of a small file counts for nothing
      but its bytes; for a large file its work is its size. */
  lemma NonFinalChunk(chunkStart: nat, chunkSize: nat, fileSize: nat)
    requires chunkStart + chunkSize < fileSize
    ensures fileSize <= MinFileSize ==>
              ForCopyPartial(chunkStart, chunkSize, fileSize) == ProgressValues(0, 0, 0, chunkSize)
    ensures fileSize > MinFileSize ==>
              ForCopyPartial(chunkStart, chunkSize, fileSize) == ProgressValues(chunkSize, 0, 0, chunkSize)
  {
  }

  // Copying a file chunk by chunk costs as much as copying it whole.

  /** A chunk of a file: `size` bytes from offset `start`. */
  datatype Chunk = Chunk(start: nat, size: nat)

  /** `chunks` split [start, fileSize) into consecutive pieces, the first
      starting at `start`, and only the last one reaching the end of the
      file (so there is no empty piece after the end). */
  predicate SplitsFrom(chunks: seq<Chunk>, start: nat, fileSize: nat)
    decreases |chunks|
  {
    && chunks != []
    && chunks[0].start == start
    && if |chunks| == 1 then
         start + chunks[0].size == fileSize
       else
         && start + chunks[0].size < fileSize
         && SplitsFrom(chunks[1..], start + chunks[0].size, fileSize)
  }

  /** The sum of `for_copy_partial` over the chunks of a file. */
  function SumChunks(chunks: seq<Chunk>, fileSize: nat): ProgressValues
    decreases |chunks|
  {
    if chunks == [] then Zero
    else ForCopyPartial(chunks[0].start, chunks[0].size, fileSize).Add(SumChunks(chunks[1..], fileSize))
  }

  /** The chunks covering [start, fileSize) cost what the rest of the file
      costs: its bytes, its share of the work, and the one copy of the
      file. */
  lemma {:induction false} SumChunksFrom(chunks: seq<Chunk>, start: nat, fileSize: nat)
    requires SplitsFrom(chunks, start, fileSize)
    requires start <= fileSize
    ensures SumChunks(chunks, fileSize) ==
              ProgressValues(if fileSize > MinFileSize then fileSize - start else MinFileSize,
                             0, 1, fileSize - start)
    decreases |chunks|
  {
    if |chunks| > 1 {
      SumChunksFrom(chunks[1..], start + chunks[0].size, fileSize);
    }
  }

  /** However a file is split into consecutive chunks, only the last of which
      reaches the end, the chunks together cost exactly what copying the whole
      file costs. An empty chunk after the last would be counted as a second
      copy, which SplitsFrom rules out. */
  lemma ChunksSumToWhole(chunks: seq<Chunk>, fileSize: nat)
    requires SplitsFrom(chunks, 0, fileSize)
    ensures SumChunks(chunks, fileSize) == ForCopy(File(fileSize))
  {
    SumChunksFrom(chunks, 0, fileSize);
  }

  /** The small-file split of the unit test. */
  lemma SmallFileChunkExample()
    ensures SumChunks([Chunk(0, 100), Chunk(100, 100), Chunk(200, 800)], 1000) == ForCopy(File(1000))
  {
    ChunksSumToWhole([Chunk(0, 100), Chunk(100, 100), Chunk(200, 800)], 1000);
  }

  /** The large-file split of the unit test. */
  lemma LargeFileChunkExample()
    ensures SumChunks([Chunk(0, 100), Chunk(100, 100), Chunk(200, 800), Chunk(1000, 999_999_000)],
                      1_000_000_000)
            == ForCopy(File(1_000_000_000))
  {
    ChunksSumToWhole([Chunk(0, 100), Chunk(100, 100), Chunk(200, 800), Chunk(1000, 999_999_000)],
                     1_000_000_000);
  }
}
