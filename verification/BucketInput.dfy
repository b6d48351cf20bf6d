/** The reading side of Bucket::Execute (engine/operator/bucket.cc): one batch reader per column,
    read in step until one of them has no more, with a tenth of the batch size. */
module BucketInput {
  import opened Columns
  import opened KeyGroups
  import opened Batching
  import opened Storage
  import BucketSchedule

  /** Where an input tensor is kept, which decides its reader. */
  datatype Medium = Memory | Disk

  /** What the reader of a column returns once it has handed out the rows before offset. */
  function NextOf(medium: Medium, col: Column, offset: nat, size: nat): Option<Column>
    requires offset <= |col|
  {
    match medium
    case Memory => MemNext(col[offset..], size)
    case Disk => DiskNext(col[offset..], size)
  }

  /** The size of the batches the operator asks its readers for. */
  function ReadSize(batchRows: nat): nat { batchRows / BucketSchedule.PARALLELISM }

  /** A tenth of the batch, rounded down. */
  lemma ReadSizeIsTenth(batchRows: nat)
    ensures 10 * ReadSize(batchRows) <= batchRows < 10 * ReadSize(batchRows) + 10
  {
  }

  function NextOffset(n: nat, size: nat, offset: nat): nat {
    if offset + size <= n then offset + size else n
  }

  /** All readers have a batch. */
  predicate HasMore(media: seq<Medium>, n: nat, size: nat, offset: nat) {
    offset < n && (size > 0 || Disk !in media)
  }

  function RowRange(cols: seq<Column>, lo: nat, hi: nat): (r: seq<Column>)
    requires lo <= hi && forall c :: 0 <= c < |cols| ==> hi <= |cols[c]|
    ensures |r| == |cols| && forall c :: 0 <= c < |cols| ==> r[c] == cols[c][lo..hi]
  {
    seq(|cols|, c requires 0 <= c < |cols| => cols[c][lo..hi])
  }

  /** One call on every reader.  There is a batch exactly when rows are left and the readers can
      make progress, or all of them are in memory; it is the same rows of every column. */
  method ReadArrays(media: seq<Medium>, cols: seq<Column>, n: nat, offset: nat, size: nat)
    returns (r: Option<seq<Column>>)
    requires |media| == |cols| > 0 && Aligned(cols, n) && offset <= n
    ensures r.Some? <==> HasMore(media, n, size, offset)
    ensures r.Some? ==> r.value == RowRange(cols, offset, NextOffset(n, size, offset))
  {
    var arrays: seq<Column> := [];
    for c := 0 to |cols|
      invariant |arrays| == c
      invariant c > 0 ==> offset < n && (size > 0 || Disk !in media[..c])
      invariant forall k :: 0 <= k < c ==> arrays[k] == cols[k][offset..NextOffset(n, size, offset)]
    {
      var data := NextOf(media[c], cols[c], offset, size);
      assert media[c] in media;
      if data.None? {
        return None;
      }
      NextSlice(cols[c], size, offset);
      arrays := arrays + [data.value];
      assert media[..c + 1] == media[..c] + [media[c]];
    }
    assert media[..|cols|] == media;
    r := Some(arrays);
  }

  lemma NextSlice(col: Column, size: nat, offset: nat)
    requires offset < |col|
    ensures NextBatch(col[offset..], size) == col[offset..NextOffset(|col|, size, offset)]
  {
  }

  /** The row at which batch i starts. */
  function Offset(n: nat, size: nat, i: nat): (offset: nat)
    ensures offset <= n
  {
    if i == 0 then 0 else NextOffset(n, size, Offset(n, size, i - 1))
  }

  /** Batch b holds the rows from cuts[b] up to cuts[b + 1]. */
  ghost predicate Splits(cuts: seq<nat>, n: nat) {
    && |cuts| > 0 && cuts[0] == 0 && cuts[|cuts| - 1] == n
    && forall a, b :: 0 <= a <= b < |cuts| ==> cuts[a] <= cuts[b]
  }

  /** Where a reader of the given size cuts n rows. */
  function Cuts(n: nat, size: nat): (cuts: seq<nat>)
    requires size > 0
    ensures |cuts| > 0
  {
    if n == 0 then [0]
    else if n <= size then [0, n]
    else
      var rest := Cuts(n - size, size);
      [0] + seq(|rest|, i requires 0 <= i < |rest| => rest[i] + size)
  }

  lemma {:induction false} CutsSplit(n: nat, size: nat)
    requires size > 0
    ensures Splits(Cuts(n, size), n)
  {
    if n > size {
      CutsSplit(n - size, size);
    }
  }

  lemma {:induction false} BatchNumber<T>(rows: seq<T>, size: nat)
    requires size > 0
    ensures |Cuts(|rows|, size)| == |Batches(rows, size)| + 1
    decreases |rows|
  {
    if |rows| > size {
      BatchNumber(rows[size..], size);
    }
  }

  /** The batches of the readers are the parts between these cuts. */
  lemma {:induction false} BatchAt<T>(rows: seq<T>, size: nat, b: nat)
    requires size > 0 && b < |Cuts(|rows|, size)| - 1 == |Batches(rows, size)|
    ensures
      var cuts := Cuts(|rows|, size);
      cuts[b] <= cuts[b + 1] <= |rows| && Batches(rows, size)[b] == rows[cuts[b]..cuts[b + 1]]
    decreases |rows|
  {
    CutsSplit(|rows|, size);
    if |rows| > size {
      var rest := Cuts(|rows| - size, size);
      if b > 0 {
        BatchAt(rows[size..], size, b - 1);
        SliceShift(rows, size, rest[b - 1], rest[b]);
      } else {
        CutsStart(|rows| - size, size);
      }
    }
  }

  lemma SliceShift<T>(rows: seq<T>, size: nat, lo: nat, hi: nat)
    requires size <= |rows| && lo <= hi <= |rows| - size
    ensures rows[size..][lo..hi] == rows[lo + size..hi + size]
  {
  }

  lemma CutsStart(n: nat, size: nat)
    requires size > 0
    ensures Cuts(n, size)[0] == 0
  {
  }

  // ---- how many batches there are

  /** How often ReadArrays succeeds. */
  function Supplied(media: seq<Medium>, n: nat, size: nat): BucketSchedule.Supply {
    if size > 0 then BucketSchedule.Finite(|Cuts(n, size)| - 1)
    else if n == 0 || Disk in media then BucketSchedule.Finite(0)
    else BucketSchedule.Endless
  }

  lemma {:induction false} OffsetShift(n: nat, size: nat, i: nat)
    requires 0 < size < n
    ensures Offset(n, size, i + 1) == Offset(n - size, size, i) + size
  {
    if i > 0 {
      OffsetShift(n, size, i - 1);
    }
  }

  lemma {:induction false} OffsetShort(n: nat, size: nat, i: nat)
    requires n <= size && i > 0
    ensures Offset(n, size, i) == n
  {
    if i > 1 {
      OffsetShort(n, size, i - 1);
    }
  }

  lemma {:induction false} OffsetBelow(n: nat, size: nat, i: nat)
    requires size > 0
    ensures Offset(n, size, i) < n <==> i < |Cuts(n, size)| - 1
    decreases n
  {
    if n <= size {
      if i > 0 {
        OffsetShort(n, size, i);
      }
    } else if i > 0 {
      OffsetShift(n, size, i - 1);
      OffsetBelow(n - size, size, i - 1);
    }
  }

  lemma {:induction false} CutsAre(n: nat, size: nat, i: nat)
    requires size > 0 && i < |Cuts(n, size)|
    ensures Cuts(n, size)[i] == Offset(n, size, i)
    decreases n
  {
    if i > 0 {
      if n <= size {
        OffsetShort(n, size, i);
      } else {
        OffsetShift(n, size, i - 1);
        CutsAre(n - size, size, i - 1);
      }
    }
  }

  lemma {:induction false} OffsetStuck(n: nat, i: nat)
    ensures Offset(n, 0, i) == 0
  {
    if i > 0 {
      OffsetStuck(n, i - 1);
    }
  }

  /** The i-th call of ReadArrays succeeds exactly when the supply says so. */
  lemma SuppliedExactly(media: seq<Medium>, n: nat, size: nat, i: nat)
    ensures BucketSchedule.HasNext(Supplied(media, n, size), i) <==> HasMore(media, n, size, Offset(n, size, i))
  {
    if size > 0 {
      OffsetBelow(n, size, i);
    } else {
      OffsetStuck(n, i);
    }
  }

  /** The rows that are read at all when the reading ends. */
  function RowsRead(n: nat, size: nat): nat { if size > 0 then n else 0 }

  /** Where the batches that are read start and end. */
  function ReadCuts(n: nat, size: nat): (cuts: seq<nat>)
    ensures Splits(cuts, RowsRead(n, size))
  {
    if size > 0 then CutsSplit(n, size); Cuts(n, size) else [0]
  }

  /** Batch number b as the reading loop gets it. */
  ghost predicate BatchRead(batch: seq<Column>, cols: seq<Column>, n: nat, size: nat, b: nat)
    requires Aligned(cols, n)
  {
    batch == RowRange(cols, Offset(n, size, b), NextOffset(n, size, Offset(n, size, b)))
  }

  /** All columns between the cuts b and b + 1. */
  ghost predicate IsBatch(batch: seq<Column>, cols: seq<Column>, cuts: seq<nat>, n: nat, b: nat)
    requires Aligned(cols, n)
  {
    b + 1 < |cuts| && cuts[b] <= cuts[b + 1] <= n && batch == RowRange(cols, cuts[b], cuts[b + 1])
  }

  lemma ReadIsBatch(batch: seq<Column>, cols: seq<Column>, n: nat, size: nat, b: nat)
    requires Aligned(cols, n) && BatchRead(batch, cols, n, size, b) && b < |ReadCuts(n, size)| - 1
    ensures IsBatch(batch, cols, ReadCuts(n, size), n, b)
  {
    CutsAre(n, size, b);
    CutsAre(n, size, b + 1);
  }

  /** Column c of the batches is what a reader of that column alone hands out. */
  ghost predicate ReadsColumn(batches: seq<seq<Column>>, col: Column, size: nat, c: nat)
    requires size > 0
  {
    && |batches| == |Batches(col, size)|
    && forall b :: 0 <= b < |batches| ==> c < |batches[b]| && batches[b][c] == Batches(col, size)[b]
  }

  lemma ReadAsOneReader(batches: seq<seq<Column>>, cols: seq<Column>, n: nat, size: nat, c: nat)
    requires size > 0 && Aligned(cols, n) && c < |cols| && |batches| == |Cuts(n, size)| - 1
    requires forall b :: 0 <= b < |batches| ==> IsBatch(batches[b], cols, Cuts(n, size), n, b)
    ensures ReadsColumn(batches, cols[c], size, c)
  {
    var col := cols[c];
    BatchNumber(col, size);
    forall b | 0 <= b < |batches| ensures c < |batches[b]| && batches[b][c] == Batches(col, size)[b] {
      BatchAt(col, size, b);
    }
  }

  /** The reading loop.  When it ends it has read the batches between these cuts, which are all
      rows for a positive size and none for size 0; it goes on for ever just when the supply does. */
  method ReadBatches(media: seq<Medium>, cols: seq<Column>, n: nat, size: nat) returns (batches: seq<seq<Column>>)
    requires |media| == |cols| > 0 && Aligned(cols, n) && Supplied(media, n, size).Finite?
    ensures |batches| == Supplied(media, n, size).count == |ReadCuts(n, size)| - 1
    ensures forall b :: 0 <= b < |batches| ==> IsBatch(batches[b], cols, ReadCuts(n, size), n, b)
    ensures size > 0 ==> forall c :: 0 <= c < |cols| ==> ReadsColumn(batches, cols[c], size, c)
  {
    batches := [];
    var offset := 0;
    var r := ReadArrays(media, cols, n, offset, size);
    while r.Some?
      invariant offset == Offset(n, size, |batches|)
      invariant r.Some? <==> HasMore(media, n, size, offset)
      invariant r.Some? ==> r.value == RowRange(cols, offset, NextOffset(n, size, offset))
      invariant |batches| <= Supplied(media, n, size).count
      invariant forall b :: 0 <= b < |batches| ==> BatchRead(batches[b], cols, n, size, b)
      decreases n - offset
    {
      SuppliedExactly(media, n, size, |batches|);
      batches := batches + [r.value];
      offset := NextOffset(n, size, offset);
      r := ReadArrays(media, cols, n, offset, size);
    }
    SuppliedExactly(media, n, size, |batches|);
    assert |batches| == Supplied(media, n, size).count;
    forall b | 0 <= b < |batches| ensures IsBatch(batches[b], cols, ReadCuts(n, size), n, b) {
      ReadIsBatch(batches[b], cols, n, size, b);
    }
    if size > 0 {
      forall c | 0 <= c < |cols| ensures ReadsColumn(batches, cols[c], size, c) {
        ReadAsOneReader(batches, cols, n, size, c);
      }
    }
  }
}
