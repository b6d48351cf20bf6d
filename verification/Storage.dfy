/** Columns on disk (engine/core/tensor_constructor.cc, engine/core/tensor_batch_reader.cc,
    engine/util/disk/arrow_reader.cc): a writer that splits its rows over files of limited
    size, and readers that hand out batches across file boundaries. */
module Storage {
  import opened Batching

  datatype Option<+T> = None | Some(value: T)

  /** The record batches of one file. */
  type File<T> = seq<seq<T>>

  function FileRows<T>(f: File<T>): seq<T> { Concat(f) }

  /** ArrowWriter::WriteBatch (engine/util/disk/arrow_writer.cc:35-44) writes no empty batch. */
  ghost predicate NoEmptyBatch<T>(f: File<T>) {
    forall i :: 0 <= i < |f| ==> f[i] != []
  }

  /** The rows of all files, in order. */
  function TensorRows<T>(files: seq<File<T>>): seq<T> {
    if files == [] then [] else FileRows(files[0]) + TensorRows(files[1..])
  }

  lemma {:induction false} TensorRowsPush<T>(files: seq<File<T>>, f: File<T>)
    ensures TensorRows(files + [f]) == TensorRows(files) + FileRows(f)
  {
    if files == [] {
      assert (files + [f])[1..] == [];
    } else {
      assert (files + [f])[1..] == files[1..] + [f];
      TensorRowsPush(files[1..], f);
    }
  }

  ghost predicate AllFull<T>(files: seq<File<T>>, limit: nat) {
    forall i :: 0 <= i < |files| ==> |FileRows(files[i])| == limit && NoEmptyBatch(files[i])
  }

  /** TensorWriter: closed files are exactly full, the current one has room or is full. */
  class TensorWriter<T(!new)> {
    const limit: nat
    var files: seq<File<T>>
    var current: Option<File<T>>

    constructor (limit: nat)
      requires limit > 0
      ensures this.limit == limit && Valid() && Rows() == []
    {
      this.limit := limit;
      files := [];
      current := None;
    }

    ghost predicate Valid()
      reads this
    {
      && limit > 0
      && AllFull(files, limit)
      && (current.None? ==> files == [])
      && (current.Some? ==> |FileRows(current.value)| <= limit && NoEmptyBatch(current.value))
    }

    ghost function Rows(): seq<T>
      reads this
    {
      TensorRows(files) + (if current.Some? then FileRows(current.value) else [])
    }

    method FreshCurWriter()
      requires Valid() && (current.Some? ==> |FileRows(current.value)| == limit)
      modifies this
      ensures Valid() && Rows() == old(Rows()) && current == Some([])
    {
      if current.Some? {
        TensorRowsPush(files, current.value);
        files := files + [current.value];
      }
      current := Some([]);
    }

    /** ArrowWriter::WriteBatch on the current file. */
    method Append(batch: seq<T>)
      requires Valid() && current.Some? && batch != [] && |FileRows(current.value)| + |batch| <= limit
      modifies this
      ensures Valid() && current.Some? && Rows() == old(Rows()) + batch
      ensures |FileRows(current.value)| == |FileRows(old(current.value))| + |batch|
    {
      ConcatPush(current.value, batch);
      current := Some(current.value + [batch]);
    }

    /** Write what fits of the rest of a batch, in a new file when the current one is full. */
    method FillFile(rest: seq<T>) returns (room: nat)
      requires Valid() && current.Some? && rest != []
      modifies this
      ensures Valid() && current.Some? && room > 0
      ensures Rows() == old(Rows()) + NextBatch(rest, room)
    {
      if |FileRows(current.value)| >= limit {
        FreshCurWriter();
      }
      room := limit - |FileRows(current.value)|;
      Append(NextBatch(rest, room));
    }

    method WriteBatch(batch: seq<T>) returns (n: nat)
      requires Valid()
      modifies this
      ensures Valid() && Rows() == old(Rows()) + batch && n == |batch|
    {
      if |batch| == 0 {
        return 0;
      }
      if current.None? {
        FreshCurWriter();
      }
      if |batch| <= limit - |FileRows(current.value)| {
        Append(batch);
        return |batch|;
      }
      WriteSplit(batch);
      n := |batch|;
    }

    /** The splitting loop. */
    method WriteSplit(batch: seq<T>)
      requires Valid() && current.Some?
      modifies this
      ensures Valid() && Rows() == old(Rows()) + batch
    {
      var todo: int := |batch|;
      ghost var done: seq<T> := [];
      while todo > 0
        invariant Valid() && current.Some? && todo <= |batch|
        invariant if todo > 0 then done == batch[..|batch| - todo] else done == batch
        invariant Rows() == old(Rows()) + done
      {
        var rest := batch[|batch| - todo..];
        var room := FillFile(rest);
        todo := todo - room;
        done := done + NextBatch(rest, room);
      }
    }

    method WriteChunks(chunks: seq<seq<T>>)
      requires Valid()
      modifies this
      ensures Valid() && Rows() == old(Rows()) + Concat(chunks)
    {
      for i := 0 to |chunks|
        invariant Valid() && Rows() == old(Rows()) + Concat(chunks[..i])
      {
        var _ := WriteBatch(chunks[i]);
        assert chunks[..i + 1] == chunks[..i] + [chunks[i]];
        ConcatPush(chunks[..i], chunks[i]);
      }
      assert chunks[..|chunks|] == chunks;
    }

    /** Every file but the last is exactly full, the last is not empty, and together they
        hold all rows written, in order. */
    method Finish() returns (tensor: seq<File<T>>)
      requires Valid()
      modifies this
      ensures TensorRows(tensor) == old(Rows())
      ensures forall i :: 0 <= i < |tensor| ==> NoEmptyBatch(tensor[i]) && 0 < |FileRows(tensor[i])| <= limit
      ensures forall i :: 0 <= i < |tensor| - 1 ==> |FileRows(tensor[i])| == limit
    {
      if current.Some? && |FileRows(current.value)| > 0 {
        TensorRowsPush(files, current.value);
        files := files + [current.value];
      }
      current := None;
      tensor := files;
    }
  }

  // ---- readers

  /** FileBatchReader: walks the record batches of one file. */
  class FileBatchReader<T(!new)> {
    const file: File<T>
    var index: nat
    var cur: Option<seq<T>>
    ghost var remaining: seq<T>  // the rows not handed out yet

    constructor (file: File<T>)
      requires NoEmptyBatch(file)
      ensures this.file == file && Valid() && remaining == FileRows(file)
    {
      this.file := file;
      index := if file == [] then 0 else 1;
      cur := if file == [] then None else Some(file[0]);
      remaining := FileRows(file);
    }

    ghost predicate Valid()
      reads this
    {
      && NoEmptyBatch(file) && index <= |file|
      && (cur.Some? ==> cur.value != [])
      && (cur.None? ==> index == |file|)
      && remaining == (if cur.Some? then cur.value else []) + Concat(file[index..])
    }

    /** SimpleArrowReader::ReadNext into cur. */
    method Advance()
      requires Valid() && cur.Some?
      modifies this
      ensures Valid() && old(remaining) == old(cur.value) + remaining
    {
      remaining := remaining[|cur.value|..];
      if index >= |file| {
        cur := None;
      } else {
        assert file[index..][1..] == file[index + 1..];
        cur := Some(file[index]);
        index := index + 1;
      }
    }

    /** The next size rows, or all that are left; nothing once the file is exhausted. */
    method ReadNext(size: nat) returns (r: Option<seq<T>>)
      requires Valid() && size > 0
      modifies this
      ensures Valid()
      ensures r.None? <==> old(remaining) == []
      ensures r.None? ==> remaining == []
      ensures r.Some? ==> r.value == NextBatch(old(remaining), size) && old(remaining) == r.value + remaining
    {
      if cur.None? {
        return None;
      }
      var num: nat, rows: seq<T> := size, [];
      while cur.Some? && num > 0
        invariant Valid() && num + |rows| == size
        invariant old(remaining) == rows + remaining
        decreases num
      {
        if |cur.value| <= num {
          num := num - |cur.value|;
          rows := rows + cur.value;
          Advance();
        } else {
          rows := rows + cur.value[..num];
          remaining := remaining[num..];
          cur := Some(cur.value[num..]);
          num := 0;
        }
      }
      r := Some(rows);
    }
  }

  /** What Next returns for a tensor in memory when these rows are left. */
  function MemNext<T>(left: seq<T>, size: nat): Option<seq<T>> {
    if left == [] then None else Some(NextBatch(left, size))
  }

  /** The same for a tensor on disk: a batch size of 0 reads nothing. */
  function DiskNext<T>(left: seq<T>, size: nat): Option<seq<T>> {
    if left == [] || size == 0 then None else Some(NextBatch(left, size))
  }

  /** MemTensorBatchReader. */
  class MemBatchReader<T(!new)> {
    const rows: seq<T>
    const size: nat
    var offset: nat

    constructor (rows: seq<T>, size: nat)
      ensures this.rows == rows && this.size == size && offset == 0 && Left() == rows
    {
      this.rows := rows;
      this.size := size;
      offset := 0;
    }

    /** The rows not handed out yet. */
    ghost function Left(): seq<T>
      reads this
    {
      if offset <= |rows| then rows[offset..] else []
    }

    method Next() returns (r: Option<seq<T>>)
      requires offset <= |rows|
      modifies this
      ensures offset <= |rows|
      ensures r == MemNext(old(Left()), size)
      ensures r.Some? ==> old(Left()) == r.value + Left()
      ensures r.None? ==> Left() == []
    {
      if offset >= |rows| {
        return None;
      }
      var end := if offset + size <= |rows| then offset + size else |rows|;
      var batch := rows[offset..end];
      assert batch == NextBatch(rows[offset..], size);
      offset := offset + |batch|;
      r := Some(batch);
    }
  }

  ghost predicate ReadableTensor<T>(files: seq<File<T>>) {
    forall i :: 0 <= i < |files| ==> NoEmptyBatch(files[i])
  }

  lemma DropFirst<T>(all: seq<T>, a: seq<T>, b: seq<T>, c: seq<T>)
    requires all == (a + b) + c
    ensures all == a + (b + c) && all[|a|..] == b + c
  {
  }

  lemma Reassociate<T>(a: seq<T>, b: seq<T>, c: seq<T>)
    ensures a + (b + c) == (a + b) + c
  {
  }

  lemma IsNextBatch<T>(all: seq<T>, rows: seq<T>, rest: seq<T>, size: nat)
    requires all == rows + rest && |rows| <= size && (|rows| < size ==> rest == [])
    ensures rows == NextBatch(all, size)
  {
  }

  lemma TensorRowsStep<T>(files: seq<File<T>>, i: nat)
    requires i < |files|
    ensures TensorRows(files[i..]) == FileRows(files[i]) + TensorRows(files[i + 1..])
  {
    assert files[i..][1..] == files[i + 1..];
  }

  /** Move past files without rows. */
  method SkipEmpty<T(!new)>(files: seq<File<T>>, start: nat) returns (i: nat)
    requires start <= |files|
    ensures start <= i <= |files| && TensorRows(files[i..]) == TensorRows(files[start..])
    ensures i < |files| ==> FileRows(files[i]) != []
    ensures i == |files| ==> TensorRows(files[start..]) == []
  {
    i := start;
    while i < |files| && |FileRows(files[i])| == 0
      invariant start <= i <= |files| && TensorRows(files[i..]) == TensorRows(files[start..])
    {
      TensorRowsStep(files, i);
      i := i + 1;
    }
  }

  /** DiskTensorBatchReader. */
  class DiskBatchReader<T(!new)> {
    const files: seq<File<T>>
    const size: nat
    var offset: nat
    var fileIdx: nat
    var reader: FileBatchReader?<T>
    ghost var left: seq<T>  // the rows not handed out yet

    constructor (files: seq<File<T>>, size: nat)
      requires ReadableTensor(files)
      ensures this.files == files && this.size == size && Valid() && left == TensorRows(files)
      ensures reader == null
    {
      this.files := files;
      this.size := size;
      offset, fileIdx, reader := 0, 0, null;
      left := TensorRows(files);
    }

    ghost predicate Valid()
      reads this, reader
    {
      && ReadableTensor(files) && fileIdx <= |files|
      && (reader != null ==> reader.Valid())
      && left == (if reader == null then [] else reader.remaining) + TensorRows(files[fileIdx..])
      && offset + |left| == |TensorRows(files)|
    }

    /** Open the next file that has rows. */
    method FreshReader() returns (ok: bool)
      requires Valid() && (reader != null ==> reader.remaining == [])
      modifies this
      ensures Valid() && left == old(left) && offset == old(offset)
      ensures ok ==> reader != null && fresh(reader) && reader.remaining != []
      ensures !ok ==> left == [] && reader == old(reader)
    {
      assert left == TensorRows(files[fileIdx..]);
      fileIdx := SkipEmpty(files, fileIdx);
      if fileIdx >= |files| {
        return false;
      }
      assert left == FileRows(files[fileIdx]) + TensorRows(files[fileIdx + 1..]) by {
        TensorRowsStep(files, fileIdx);
      }
      var file := files[fileIdx];
      fileIdx := fileIdx + 1;
      reader := new FileBatchReader(file);
      assert left == reader.remaining + TensorRows(files[fileIdx..]);
      ok := true;
    }

    /** One round of the reading loop: rows of the open file, or of the next one. */
    method ReadSome(num: nat) returns (chunk: Option<seq<T>>)
      requires Valid() && reader != null && num > 0
      modifies this, reader
      ensures Valid() && reader != null && (reader == old(reader) || fresh(reader))
      ensures chunk.None? ==> old(left) == [] && left == []
      ensures chunk.Some? ==> 0 < |chunk.value| <= num && old(left) == chunk.value + left
    {
      chunk := reader.ReadNext(num);
      if chunk.None? {
        var ok := FreshReader();
        if !ok {
          return None;
        }
        chunk := reader.ReadNext(num);
      }
      DropFirst(left, chunk.value, reader.remaining, TensorRows(files[fileIdx..]));
      offset := offset + |chunk.value|;
      left := left[|chunk.value|..];
    }

    /** The next batch, whatever the split into files: size rows, or all that are left.
        A batch size of 0 reads nothing. */
    method Next() returns (r: Option<seq<T>>)
      requires Valid()
      modifies this, reader
      ensures Valid() && (reader == old(reader) || fresh(reader))
      ensures r == DiskNext(old(left), size)
      ensures r.Some? ==> old(left) == r.value + left
      ensures r.None? ==> left == old(left)
    {
      if offset >= |TensorRows(files)| || |files| == 0 {
        return None;
      }
      if reader == null {
        var ok := FreshReader();
        if !ok {
          return None;
        }
      }
      ghost var all := left;
      var rows := Collect();
      IsNextBatch(all, rows, left, size);
      if |rows| == 0 {
        return None;
      }
      r := Some(rows);
    }

    /** The reading loop: go on until the batch is full or no file is left. */
    method Collect() returns (rows: seq<T>)
      requires Valid() && reader != null
      modifies this, reader
      ensures Valid() && reader != null && (reader == old(reader) || fresh(reader))
      ensures old(left) == rows + left
      ensures |rows| <= size && (|rows| < size ==> left == [])
    {
      rows := [];
      var num: nat := size;
      while num > 0
        invariant Valid() && reader != null && (reader == old(reader) || fresh(reader))
        invariant num + |rows| == size && old(left) == rows + left
      {
        var chunk := ReadSome(num);
        if chunk.None? {
          break;
        }
        Reassociate(rows, chunk.value, left);
        num := num - |chunk.value|;
        rows := rows + chunk.value;
      }
    }
  }

  // ---- whole reads

  lemma TakeBatch<T>(left: seq<T>, batch: seq<T>, rest: seq<T>, size: nat, out: seq<seq<T>>)
    requires size > 0 && left != [] && batch == NextBatch(left, size) && left == batch + rest
    ensures out + Batches(left, size) == (out + [batch]) + Batches(rest, size)
  {
    BatchesStep(left, size);
    assert rest == left[|batch|..];
  }

  /** Reading a disk tensor to the end. */
  method ReadDisk<T(!new)>(files: seq<File<T>>, size: nat) returns (out: seq<seq<T>>)
    requires ReadableTensor(files) && size > 0
    ensures out == Batches(TensorRows(files), size)
  {
    var reader := new DiskBatchReader(files, size);
    out := [];
    while true
      invariant reader.Valid() && (reader.reader != null ==> fresh(reader.reader))
      invariant Batches(TensorRows(files), size) == out + Batches(reader.left, size)
      decreases |reader.left|
    {
      ghost var left := reader.left;
      var batch := reader.Next();
      if batch.None? {
        break;
      }
      TakeBatch(left, batch.value, reader.left, size, out);
      out := out + [batch.value];
    }
  }

  /** Reading a column in memory to the end. */
  method ReadMem<T(!new)>(rows: seq<T>, size: nat) returns (out: seq<seq<T>>)
    requires size > 0
    ensures out == Batches(rows, size)
  {
    var reader := new MemBatchReader(rows, size);
    out := [];
    while true
      invariant reader.offset <= |reader.rows|
      invariant Batches(rows, size) == out + Batches(reader.Left(), size)
      decreases |reader.Left()|
    {
      ghost var left := reader.Left();
      var batch := reader.Next();
      if batch.None? {
        break;
      }
      BatchesStep(left, size);
      out := out + [batch.value];
    }
  }

  /** Storage round trip: whatever the chunks written, the file limit and the batch size, the
      batches read back are those of the same column held in memory. */
  method RoundTrip<T(!new)>(chunks: seq<seq<T>>, limit: nat, size: nat) returns (out: seq<seq<T>>)
    requires limit > 0 && size > 0
    ensures out == Batches(Concat(chunks), size)
    ensures Concat(out) == Concat(chunks)
  {
    var writer := new TensorWriter(limit);
    writer.WriteChunks(chunks);
    assert [] + Concat(chunks) == Concat(chunks);
    var tensor := writer.Finish();
    out := ReadDisk(tensor, size);
    BatchesConcat(Concat(chunks), size);
  }

  /** With a batch size of 0 the two readers differ on any column that has rows: the memory
      reader hands out an empty batch, the disk reader says it is done. */
  method FirstBatches<T(!new)>(files: seq<File<T>>, size: nat) returns (disk: Option<seq<T>>, mem: Option<seq<T>>)
    requires ReadableTensor(files)
    ensures disk == mem <==> size > 0 || TensorRows(files) == []
    ensures size == 0 && TensorRows(files) != [] ==> disk == None && mem == Some([])
  {
    var d := new DiskBatchReader(files, size);
    disk := d.Next();
    var m := new MemBatchReader(TensorRows(files), size);
    mem := m.Next();
  }
}
