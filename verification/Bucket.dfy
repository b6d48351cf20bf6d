/** The data of Bucket::Execute (engine/operator/bucket.cc): rows are split by the hash of their
    join key, batch by batch, and appended to one store per column and bucket. */
module Bucket {
  import opened Columns
  import opened Ordering
  import opened KeyGroups
  import opened Partitions
  import opened BucketInput
  import BucketSchedule

  /** The bucket of a join key: its hash modulo the number of buckets. */
  function BucketOf(hash: Key -> nat, buckets: nat, key: Key): (b: nat)
    requires buckets > 0
    ensures b < buckets
  {
    hash(key) % buckets
  }

  function BucketIds(keys: seq<Key>, hash: Key -> nat, buckets: nat): (ids: seq<nat>)
    requires buckets > 0
    ensures |ids| == |keys| && forall i :: 0 <= i < |ids| ==> ids[i] == hash(keys[i]) % buckets
  {
    seq(|keys|, i requires 0 <= i < |keys| => BucketOf(hash, buckets, keys[i]))
  }

  /** The rows of every bucket, as the parallel tasks collect them. */
  ghost predicate IndicesOf(indices: seq<seq<nat>>, ids: seq<nat>, n: nat, buckets: nat)
    requires n <= |ids|
  {
    |indices| == buckets && forall j :: 0 <= j < buckets ==> indices[j] == Positions(ids, j, n)
  }

  lemma IndicesStep(indices: seq<seq<nat>>, ids: seq<nat>, i: nat, buckets: nat)
    requires i < |ids| && ids[i] < buckets && IndicesOf(indices, ids, i, buckets)
    ensures IndicesOf(indices[ids[i] := indices[ids[i]] + [i]], ids, i + 1, buckets)
  {
    var out := indices[ids[i] := indices[ids[i]] + [i]];
    forall j | 0 <= j < buckets ensures out[j] == Positions(ids, j, i + 1) {
      PositionsStep(ids, j, i);
    }
  }

  method BucketIndices(keys: seq<Key>, hash: Key -> nat, buckets: nat) returns (indices: seq<seq<nat>>)
    requires buckets > 0
    ensures IndicesOf(indices, BucketIds(keys, hash, buckets), |keys|, buckets)
    ensures forall j, r: nat {:trigger r in indices[j]} :: 0 <= j < buckets ==>
      (r in indices[j] <==> r < |keys| && hash(keys[r]) % buckets == j)
    ensures forall j, a, b :: 0 <= j < buckets && 0 <= a < b < |indices[j]| ==> indices[j][a] < indices[j][b]
  {
    indices := seq(buckets, _ => []);
    ghost var ids := BucketIds(keys, hash, buckets);
    for i := 0 to |keys|
      invariant IndicesOf(indices, ids, i, buckets)
    {
      IndicesStep(indices, ids, i, buckets);
      var b := BucketOf(hash, buckets, keys[i]);
      indices := indices[b := indices[b] + [i]];
    }
    forall j, r: nat | 0 <= j < buckets ensures r in indices[j] <==> r < |keys| && hash(keys[r]) % buckets == j {
      PositionsComplete(ids, j, |keys|);
    }
    forall j | 0 <= j < buckets ensures forall a, b :: 0 <= a < b < |indices[j]| ==> indices[j][a] < indices[j][b] {
      PositionsAscend(ids, j, |keys|);
    }
  }

  /** All columns of one batch, split by bucket: column c of bucket j. */
  function Filtered(cols: seq<Column>, ids: seq<nat>, c: nat, j: nat): (r: Column)
    requires Aligned(cols, |ids|) && c < |cols|
  {
    Gather(cols[c], Positions(ids, j, |ids|))
  }

  method FilterByIndex(cols: seq<Column>, indices: seq<seq<nat>>, ghost ids: seq<nat>, buckets: nat)
    returns (result: seq<seq<Column>>)
    requires Aligned(cols, |ids|) && IndicesOf(indices, ids, |ids|, buckets)
    ensures |result| == |cols|
    ensures forall c :: 0 <= c < |cols| ==> |result[c]| == buckets
    ensures forall c, j :: 0 <= c < |cols| && 0 <= j < buckets ==> result[c][j] == Filtered(cols, ids, c, j)
  {
    result := [];
    for c := 0 to |cols|
      invariant |result| == c
      invariant forall d :: 0 <= d < c ==> |result[d]| == buckets
      invariant forall d, j :: 0 <= d < c && 0 <= j < buckets ==> result[d][j] == Filtered(cols, ids, d, j)
    {
      var arrays: seq<Column> := [];
      for j := 0 to buckets
        invariant |arrays| == j
        invariant forall i :: 0 <= i < j ==> arrays[i] == Filtered(cols, ids, c, i)
      {
        assert indices[j] == Positions(ids, j, |ids|);
        arrays := arrays + [Gather(cols[c], indices[j])];
      }
      result := result + [arrays];
    }
  }

  ghost predicate Shaped(stores: seq<seq<Column>>, columns: nat, buckets: nat) {
    |stores| == columns && forall c :: 0 <= c < columns ==> |stores[c]| == buckets
  }

  method WriteArrays(stores: seq<seq<Column>>, arrays: seq<seq<Column>>, columns: nat, buckets: nat)
    returns (out: seq<seq<Column>>)
    requires Shaped(stores, columns, buckets) && Shaped(arrays, columns, buckets)
    ensures Shaped(out, columns, buckets)
    ensures forall c, j :: 0 <= c < columns && 0 <= j < buckets ==> out[c][j] == stores[c][j] + arrays[c][j]
  {
    out := stores;
    for c := 0 to columns
      invariant Shaped(out, columns, buckets)
      invariant forall d, j :: 0 <= d < c && 0 <= j < buckets ==> out[d][j] == stores[d][j] + arrays[d][j]
      invariant forall d :: c <= d < columns ==> out[d] == stores[d]
    {
      for j := 0 to buckets
        invariant Shaped(out, columns, buckets)
        invariant forall d, i :: 0 <= d < c && 0 <= i < buckets ==> out[d][i] == stores[d][i] + arrays[d][i]
        invariant forall d :: c < d < columns ==> out[d] == stores[d]
        invariant forall i :: 0 <= i < j ==> out[c][i] == stores[c][i] + arrays[c][i]
        invariant forall i :: j <= i < buckets ==> out[c][i] == stores[c][i]
      {
        out := out[c := out[c][j := out[c][j] + arrays[c][j]]];
      }
    }
  }

  // ---- all batches

  /** The columns of batch b. */
  function BatchColumns(cols: seq<Column>, cuts: seq<nat>, n: nat, b: nat): (r: seq<Column>)
    requires Aligned(cols, n) && Splits(cuts, n) && b < |cuts| - 1
    ensures Aligned(r, cuts[b + 1] - cuts[b]) && |r| == |cols|
  {
    RowRange(cols, cuts[b], cuts[b + 1])
  }

  /** The rows of bucket j in batch b, numbered as in the whole input. */
  function BatchRows(ids: seq<nat>, cuts: seq<nat>, b: nat, j: nat): (r: seq<nat>)
    requires Splits(cuts, |ids|) && b < |cuts| - 1
    ensures InRange(r, |ids|)
  {
    var pos := Positions(ids[cuts[b]..cuts[b + 1]], j, cuts[b + 1] - cuts[b]);
    seq(|pos|, i requires 0 <= i < |pos| => cuts[b] + pos[i])
  }

  /** The rows stored in bucket j after these batches have been written. */
  function StoredRows(ids: seq<nat>, cuts: seq<nat>, written: seq<nat>, j: nat): (r: seq<nat>)
    requires Splits(cuts, |ids|) && InRange(written, |cuts| - 1)
    ensures InRange(r, |ids|)
  {
    if written == [] then []
    else
      var k := |written| - 1;
      StoredRows(ids, cuts, written[..k], j) + BatchRows(ids, cuts, written[k], j)
  }

  lemma FilteredRows(cols: seq<Column>, ids: seq<nat>, cuts: seq<nat>, b: nat, c: nat, j: nat)
    requires Aligned(cols, |ids|) && Splits(cuts, |ids|) && b < |cuts| - 1 && c < |cols|
    ensures Filtered(BatchColumns(cols, cuts, |ids|, b), ids[cuts[b]..cuts[b + 1]], c, j)
         == Gather(cols[c], BatchRows(ids, cuts, b, j))
  {
  }

  /** What the writers hold, one store per column and bucket, after these batches: every column
      of a bucket holds the same rows in the same order. */
  ghost predicate Stored(stores: seq<seq<Column>>, cols: seq<Column>, ids: seq<nat>, cuts: seq<nat>,
                         written: seq<nat>, buckets: nat)
    requires Aligned(cols, |ids|) && Splits(cuts, |ids|) && InRange(written, |cuts| - 1)
  {
    && Shaped(stores, |cols|, buckets)
    && forall c, j :: 0 <= c < |cols| && 0 <= j < buckets ==>
         stores[c][j] == Gather(cols[c], StoredRows(ids, cuts, written, j))
  }

  lemma StoredStep(cols: seq<Column>, ids: seq<nat>, cuts: seq<nat>, written: seq<nat>, b: nat, c: nat, j: nat)
    requires Aligned(cols, |ids|) && Splits(cuts, |ids|) && InRange(written + [b], |cuts| - 1) && c < |cols|
    ensures InRange(written, |cuts| - 1) && b < |cuts| - 1
    ensures Gather(cols[c], StoredRows(ids, cuts, written + [b], j))
         == Gather(cols[c], StoredRows(ids, cuts, written, j)) + Gather(cols[c], BatchRows(ids, cuts, b, j))
  {
    assert (written + [b])[|written|] == b;
    assert (written + [b])[..|written|] == written;
  }

  /** One batch through all three stages: bucket numbers, filtering, appending. */
  method ProcessBatch(stores: seq<seq<Column>>, cols: seq<Column>, keys: seq<Key>, hash: Key -> nat, buckets: nat,
                      cuts: seq<nat>, b: nat, ghost written: seq<nat>)
    returns (out: seq<seq<Column>>)
    requires buckets > 0 && Aligned(cols, |keys|) && Splits(cuts, |keys|) && InRange(written + [b], |cuts| - 1)
    requires InRange(written, |cuts| - 1)
    requires Stored(stores, cols, BucketIds(keys, hash, buckets), cuts, written, buckets)
    ensures Stored(out, cols, BucketIds(keys, hash, buckets), cuts, written + [b], buckets)
  {
    ghost var ids := BucketIds(keys, hash, buckets);
    assert (written + [b])[|written|] == b;
    var batch := BatchColumns(cols, cuts, |keys|, b);
    var batchKeys := keys[cuts[b]..cuts[b + 1]];
    assert BucketIds(batchKeys, hash, buckets) == ids[cuts[b]..cuts[b + 1]];
    var indices := BucketIndices(batchKeys, hash, buckets);
    var arrays := FilterByIndex(batch, indices, ids[cuts[b]..cuts[b + 1]], buckets);
    out := WriteArrays(stores, arrays, |cols|, buckets);
    forall c, j | 0 <= c < |cols| && 0 <= j < buckets
      ensures out[c][j] == Gather(cols[c], StoredRows(ids, cuts, written + [b], j))
    {
      FilteredRows(cols, ids, cuts, b, c, j);
      StoredStep(cols, ids, cuts, written, b, c, j);
    }
  }

  // ---- every row in one place

  lemma {:induction false} BatchOf(cuts: seq<nat>, n: nat, r: nat, hi: nat) returns (b: nat)
    requires Splits(cuts, n) && hi < |cuts| && r < cuts[hi]
    ensures b < hi && cuts[b] <= r < cuts[b + 1]
  {
    if r < cuts[hi - 1] {
      b := BatchOf(cuts, n, r, hi - 1);
    } else {
      b := hi - 1;
    }
  }

  lemma BatchDistinct(ids: seq<nat>, cuts: seq<nat>, b: nat, j: nat)
    requires Splits(cuts, |ids|) && b < |cuts| - 1
    ensures Distinct(BatchRows(ids, cuts, b, j))
  {
    PositionsComplete(ids[cuts[b]..cuts[b + 1]], j, cuts[b + 1] - cuts[b]);
  }

  lemma BatchMember(ids: seq<nat>, cuts: seq<nat>, b: nat, j: nat, r: nat)
    requires Splits(cuts, |ids|) && b < |cuts| - 1 && cuts[b] <= r < cuts[b + 1] && ids[r] == j
    ensures r in BatchRows(ids, cuts, b, j)
  {
    var lo, hi := cuts[b], cuts[b + 1];
    var part := ids[lo..hi];
    var pos := Positions(part, j, hi - lo);
    PositionsComplete(part, j, hi - lo);
    assert part[r - lo] == j;
    var i := IndexOf(pos, r - lo);
    assert BatchRows(ids, cuts, b, j)[i] == r;
  }

  lemma BatchOnly(ids: seq<nat>, cuts: seq<nat>, b: nat, j: nat, i: nat)
    requires Splits(cuts, |ids|) && b < |cuts| - 1 && i < |BatchRows(ids, cuts, b, j)|
    ensures cuts[b] <= BatchRows(ids, cuts, b, j)[i] < cuts[b + 1] && ids[BatchRows(ids, cuts, b, j)[i]] == j
  {
  }

  lemma BatchCount(ids: seq<nat>, cuts: seq<nat>, b: nat, j: nat, r: nat)
    requires Splits(cuts, |ids|) && b < |cuts| - 1
    ensures multiset(BatchRows(ids, cuts, b, j))[r] == if cuts[b] <= r < cuts[b + 1] && ids[r] == j then 1 else 0
  {
    var rows := BatchRows(ids, cuts, b, j);
    BatchDistinct(ids, cuts, b, j);
    OccursOnce(rows, r);
    if cuts[b] <= r < cuts[b + 1] && ids[r] == j {
      BatchMember(ids, cuts, b, j, r);
    } else if r in rows {
      BatchOnly(ids, cuts, b, j, IndexOf(rows, r));
    }
  }

  lemma BatchCountAt(ids: seq<nat>, cuts: seq<nat>, b': nat, j: nat, b: nat, r: nat)
    requires Splits(cuts, |ids|) && b' < |cuts| - 1 && b < |cuts| - 1 && cuts[b] <= r < cuts[b + 1]
    ensures r < |ids| && multiset(BatchRows(ids, cuts, b', j))[r] == if b' == b && ids[r] == j then 1 else 0
  {
    BatchCount(ids, cuts, b', j, r);
    if b' < b {
      assert cuts[b' + 1] <= cuts[b];
    } else if b < b' {
      assert cuts[b + 1] <= cuts[b'];
    }
  }

  lemma LastIsNew(written: seq<nat>, b: nat)
    requires written != [] && Distinct(written)
    ensures
      var k := |written| - 1;
      (b in written <==> b in written[..k] || b == written[k]) && !(b in written[..k] && b == written[k])
  {
  }

  /** A row of batch b is in bucket j once b is written and j is its bucket, exactly once. */
  lemma {:induction false} StoredCount(ids: seq<nat>, cuts: seq<nat>, written: seq<nat>, j: nat, b: nat, r: nat)
    requires Splits(cuts, |ids|) && InRange(written, |cuts| - 1) && Distinct(written)
    requires b < |cuts| - 1 && cuts[b] <= r < cuts[b + 1] <= |ids|
    ensures multiset(StoredRows(ids, cuts, written, j))[r] == if b in written && ids[r] == j then 1 else 0
  {
    if written != [] {
      var k := |written| - 1;
      StoredCount(ids, cuts, written[..k], j, b, r);
      BatchCountAt(ids, cuts, written[k], j, b, r);
      LastIsNew(written, b);
    }
  }

  /** These rows are exactly the rows of bucket j, each once. */
  ghost predicate RowsOf(rows: seq<nat>, ids: seq<nat>, j: nat) {
    forall r: nat :: multiset(rows)[r] == if r < |ids| && ids[r] == j then 1 else 0
  }

  lemma StoresRows(ids: seq<nat>, cuts: seq<nat>, written: seq<nat>, j: nat)
    requires Splits(cuts, |ids|) && IsPerm(written, |cuts| - 1)
    ensures InRange(written, |cuts| - 1) && RowsOf(StoredRows(ids, cuts, written, j), ids, j)
  {
    PermReaches(written, |cuts| - 1);
    var rows := StoredRows(ids, cuts, written, j);
    var stored: multiset<nat> := multiset(rows);
    forall r: nat ensures stored[r] == if r < |ids| && ids[r] == j then 1 else 0 {
      if r < |ids| {
        var b := BatchOf(cuts, |ids|, r, |cuts| - 1);
        StoredCount(ids, cuts, written, j, b, r);
      } else {
        assert r !in rows;
      }
    }
  }

  /** The stages of all batches, in the order in which they reach the writer. */
  method WriteBatches(cols: seq<Column>, keys: seq<Key>, hash: Key -> nat, buckets: nat, cuts: seq<nat>,
                      order: seq<nat>)
    returns (stores: seq<seq<Column>>)
    requires buckets > 0 && Aligned(cols, |keys|) && Splits(cuts, |keys|) && InRange(order, |cuts| - 1)
    ensures Stored(stores, cols, BucketIds(keys, hash, buckets), cuts, order, buckets)
  {
    ghost var ids := BucketIds(keys, hash, buckets);
    stores := seq(|cols|, _ => seq(buckets, _ => []));
    assert Stored(stores, cols, ids, cuts, [], buckets);
    assert order[..0] == [];
    for i := 0 to |order|
      invariant InRange(order[..i], |cuts| - 1)
      invariant Stored(stores, cols, ids, cuts, order[..i], buckets)
    {
      assert order[..i + 1] == order[..i] + [order[i]];
      stores := ProcessBatch(stores, cols, keys, hash, buckets, cuts, order[i], order[..i]);
    }
    assert order[..|order|] == order;
  }

  /** Bucket under every schedule of its threads: when the run ends, the store of column c and
      bucket j holds exactly the rows whose key hashes to j, each once, all columns in one order. */
  lemma BucketCorrect(cols: seq<Column>, keys: seq<Key>, hash: Key -> nat, cuts: seq<nat>, buckets: nat,
                      events: seq<BucketSchedule.Event>, end: BucketSchedule.State, stores: seq<seq<Column>>, j: nat)
    returns (rows: seq<nat>)
    requires Aligned(cols, |keys|) && Splits(cuts, |keys|) && j < buckets
    requires BucketSchedule.Runs(BucketSchedule.Finite(|cuts| - 1), BucketSchedule.Initial(), events, end)
    requires end.phase.Ended? && InRange(end.written, |cuts| - 1)
    requires Stored(stores, cols, BucketIds(keys, hash, buckets), cuts, end.written, buckets)
    ensures forall r: nat :: multiset(rows)[r] == if r < |keys| && hash(keys[r]) % buckets == j then 1 else 0
    ensures InRange(rows, |keys|) && forall c :: 0 <= c < |cols| ==> stores[c][j] == Gather(cols[c], rows)
  {
    var ids := BucketIds(keys, hash, buckets);
    BucketSchedule.EveryBatchWritten(BucketSchedule.Finite(|cuts| - 1), events, end);
    StoresRows(ids, cuts, end.written, j);
    rows := StoredRows(ids, cuts, end.written, j);
  }

  // ---- the whole operator

  /** A run of the operator on these inputs, with batches of the given size, that has ended. */
  ghost predicate EndedRun(media: seq<Medium>, n: nat, size: nat, events: seq<BucketSchedule.Event>,
                           end: BucketSchedule.State)
  {
    BucketSchedule.Runs(Supplied(media, n, size), BucketSchedule.Initial(), events, end) && end.phase.Ended?
  }

  /** The rows it has stored in bucket j. */
  ghost function EndRows(ids: seq<nat>, size: nat, end: BucketSchedule.State, j: nat): (rows: seq<nat>)
    requires InRange(end.written, |ReadCuts(|ids|, size)| - 1)
    ensures InRange(rows, |ids|)
  {
    StoredRows(ids[..RowsRead(|ids|, size)], ReadCuts(|ids|, size), end.written, j)
  }

  /** They are exactly the rows of bucket j, each once. */
  ghost predicate StoredExactly(ids: seq<nat>, size: nat, end: BucketSchedule.State, j: nat) {
    InRange(end.written, |ReadCuts(|ids|, size)| - 1) && RowsOf(EndRows(ids, size, end, j), ids, j)
  }

  lemma EndWritten(media: seq<Medium>, n: nat, size: nat, events: seq<BucketSchedule.Event>, end: BucketSchedule.State)
    requires EndedRun(media, n, size, events, end)
    ensures IsPerm(end.written, |ReadCuts(n, size)| - 1) && InRange(end.written, |ReadCuts(n, size)| - 1)
  {
    BucketSchedule.EveryBatchWritten(Supplied(media, n, size), events, end);
  }

  /** With a positive size, or without rows, an ended run has stored every row once. */
  lemma EndStoresAll(media: seq<Medium>, ids: seq<nat>, size: nat, events: seq<BucketSchedule.Event>,
                     end: BucketSchedule.State, j: nat)
    requires EndedRun(media, |ids|, size, events, end) && (size > 0 || ids == [])
    ensures StoredExactly(ids, size, end, j)
  {
    EndWritten(media, |ids|, size, events, end);
    assert ids[..RowsRead(|ids|, size)] == ids;
    StoresRows(ids, ReadCuts(|ids|, size), end.written, j);
  }

  lemma GatherPrefix(col: Column, m: nat, rows: seq<nat>)
    requires m <= |col| && InRange(rows, m)
    ensures InRange(rows, |col|) && Gather(col[..m], rows) == Gather(col, rows)
  {
  }

  /** The operator's output after a run: every column of bucket j holds the same rows in the same
      order, and with a positive size they are exactly the rows whose key hashes to j. */
  method StoreRun(media: seq<Medium>, cols: seq<Column>, keys: seq<Key>, hash: Key -> nat, buckets: nat, size: nat,
                  ghost events: seq<BucketSchedule.Event>, end: BucketSchedule.State)
    returns (stores: seq<seq<Column>>, ghost rows: seq<seq<nat>>)
    requires buckets > 0 && Aligned(cols, |keys|) && EndedRun(media, |keys|, size, events, end)
    ensures InRange(end.written, |ReadCuts(|keys|, size)| - 1) && |rows| == buckets && Shaped(stores, |cols|, buckets)
    ensures forall j :: 0 <= j < buckets ==>
      InRange(rows[j], |keys|) && rows[j] == EndRows(BucketIds(keys, hash, buckets), size, end, j)
    ensures forall c, j :: 0 <= c < |cols| && 0 <= j < buckets ==> stores[c][j] == Gather(cols[c], rows[j])
    ensures size > 0 || keys == [] ==>
      forall j, r: nat {:trigger multiset(rows[j])[r]} :: 0 <= j < buckets ==>
        multiset(rows[j])[r] == if r < |keys| && hash(keys[r]) % buckets == j then 1 else 0
  {
    var m := RowsRead(|keys|, size);
    ghost var ids := BucketIds(keys, hash, buckets);
    EndWritten(media, |keys|, size, events, end);
    assert BucketIds(keys[..m], hash, buckets) == ids[..m];
    stores := WriteBatches(RowRange(cols, 0, m), keys[..m], hash, buckets, ReadCuts(|keys|, size), end.written);
    rows := seq(buckets, j requires 0 <= j < buckets => EndRows(ids, size, end, j));
    forall c, j | 0 <= c < |cols| && 0 <= j < buckets ensures stores[c][j] == Gather(cols[c], rows[j]) {
      GatherPrefix(cols[c], m, EndRows(ids, size, end, j));
    }
    if size > 0 || keys == [] {
      forall j, r: nat | 0 <= j < buckets
        ensures multiset(rows[j])[r] == if r < |keys| && hash(keys[r]) % buckets == j then 1 else 0
      {
        EndStoresAll(media, ids, size, events, end, j);
      }
    }
  }

  /** With size 0 an ended run has stored nothing. */
  lemma EndStoresNothing(media: seq<Medium>, ids: seq<nat>, events: seq<BucketSchedule.Event>,
                         end: BucketSchedule.State, j: nat)
    requires EndedRun(media, |ids|, 0, events, end)
    ensures end.written == [] && EndRows(ids, 0, end, j) == []
  {
    EndWritten(media, |ids|, 0, events, end);
  }

  ghost predicate KeepsEveryRow(media: seq<Medium>, ids: seq<nat>, size: nat) {
    forall events, end, j: nat :: EndedRun(media, |ids|, size, events, end) ==> StoredExactly(ids, size, end, j)
  }

  lemma LosesRows(media: seq<Medium>, ids: seq<nat>)
    requires ids != [] && Disk in media
    ensures !KeepsEveryRow(media, ids, 0)
  {
    var u := Supplied(media, |ids|, 0);
    BucketSchedule.StartsInvariant(u);
    var events, end := BucketSchedule.Completes(u, BucketSchedule.Initial());
    assert EndedRun(media, |ids|, 0, events, end);
    EndStoresNothing(media, ids, events, end, ids[0]);
    assert multiset(EndRows(ids, 0, end, ids[0]))[0] == 0;
    assert !StoredExactly(ids, 0, end, ids[0]);
  }

  lemma EndsKeepAll(media: seq<Medium>, ids: seq<nat>, size: nat)
    requires size > 0 || ids == []
    ensures KeepsEveryRow(media, ids, size)
  {
    forall events, end, j: nat | EndedRun(media, |ids|, size, events, end)
      ensures StoredExactly(ids, size, end, j)
    {
      EndStoresAll(media, ids, size, events, end, j);
    }
  }

  /** Bucket ends under every schedule and stores every row exactly when the readers' batches are
      not empty, which takes at least PARALLELISM rows per batch, or there is nothing to read. */
  lemma BucketIff(media: seq<Medium>, ids: seq<nat>, batchRows: nat)
    ensures
      BucketSchedule.Ends(Supplied(media, |ids|, ReadSize(batchRows))) && KeepsEveryRow(media, ids, ReadSize(batchRows))
      <==> batchRows >= BucketSchedule.PARALLELISM || ids == []
  {
    var size := ReadSize(batchRows);
    BucketSchedule.EndsIff(Supplied(media, |ids|, size));
    if size > 0 || ids == [] {
      EndsKeepAll(media, ids, size);
    } else if Disk in media {
      LosesRows(media, ids);
    }
  }

  /** With 5 rows per batch a column on disk is dropped: the run ends with every bucket empty. */
  lemma FiveRowsOnDisk(ids: seq<nat>, events: seq<BucketSchedule.Event>, end: BucketSchedule.State, j: nat)
    requires EndedRun([Disk], |ids|, ReadSize(5), events, end)
    ensures end.written == [] && EndRows(ids, ReadSize(5), end, j) == []
    ensures BucketSchedule.Ends(Supplied([Disk], |ids|, ReadSize(5)))
  {
    BucketSchedule.EndsIff(Supplied([Disk], |ids|, ReadSize(5)));
    EndStoresNothing([Disk], ids, events, end, j);
  }

  /** And a column in memory keeps the operator busy for ever. */
  lemma FiveRowsInMemory(ids: seq<nat>)
    requires ids != []
    ensures !BucketSchedule.Ends(Supplied([Memory], |ids|, ReadSize(5)))
  {
    BucketSchedule.EndsIff(Supplied([Memory], |ids|, ReadSize(5)));
  }
}
