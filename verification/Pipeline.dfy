/** PipelineExecutor (engine/services/pipeline.cc) and the loop that drives it
    (engine/services/engine_service_impl.cc): a pipeline over bucketed inputs runs once per
    bucket, and its outputs are put together again. */
module Pipeline {
  import opened Outcomes
  import opened Batching
  import opened Columns
  import opened Agreement
  import opened TensorTables

  /** Runs the nodes of the pipeline on the table, for the batch with this number. */
  type Step = (nat, Table) -> Table

  // ---- slices of one tensor

  function SliceNum(t: Tensor): nat { if t.Plain? then 1 else |t.files| }

  /** The rows the k-th call of Next yields: the k-th file, then nothing. */
  function SliceAt(t: Tensor, k: nat): seq<int>
    requires t.Bucketed?
  {
    if k < |t.files| then t.files[k] else []
  }

  /** DiskTensorSlice over a bucketed tensor. */
  datatype Slicer = Slicer(tensor: Tensor, index: nat) {
    predicate Valid() { tensor.Bucketed? && index <= |tensor.files| }

    function Next(): (r: (seq<int>, Slicer))
      requires Valid()
      ensures r.1.Valid() && r.1.tensor == tensor
    {
      if index >= |tensor.files| then ([], this) else (tensor.files[index], this.(index := index + 1))
    }
  }

  /** After k calls. */
  function Advanced(t: Tensor, k: nat): Slicer
    requires t.Bucketed?
  {
    Slicer(t, if k < |t.files| then k else |t.files|)
  }

  ghost predicate AllBucketed(tensors: seq<Tensor>) {
    forall i :: 0 <= i < |tensors| ==> tensors[i].Bucketed?
  }

  function TensorRows(t: Tensor): seq<int> { if t.Plain? then t.rows else Concat(t.files) }

  // ---- what a batched run computes

  /** A batched run: the table it starts from, its inputs and outputs, and its nodes. */
  datatype Job = Job(table: Table, names: seq<string>, tensors: seq<Tensor>, outputs: seq<string>, step: Step) {
    ghost predicate Valid() { |names| == |tensors| && AllBucketed(tensors) }
  }

  /** The inputs replaced by their k-th slices. */
  ghost function Load(table: Table, names: seq<string>, tensors: seq<Tensor>, k: nat): (r: Table)
    requires |names| == |tensors| && AllBucketed(tensors)
  {
    if names == [] then table
    else
      var n := |names| - 1;
      Load(table, names[..n], tensors[..n], k)[names[n] := Plain(SliceAt(tensors[n], k))]
  }

  function Names(s: seq<string>): set<string> { set x | x in s }

  /** The table before and after the nodes of batch k: outputs are taken out in between. */
  ghost function Before(j: Job, k: nat): Table
    requires j.Valid()
    decreases k, 0
  {
    if k == 0 then j.table else After(j, k - 1) - Names(j.outputs)
  }

  ghost function After(j: Job, k: nat): Table
    requires j.Valid()
    decreases k, 1
  {
    j.step(k, Load(Before(j, k), j.names, j.tensors, k))
  }

  /** Every output is there to be taken out, once. */
  ghost predicate CanFetch(table: Table, outputs: seq<string>) {
    Distinct(outputs) && Names(outputs) <= table.Keys
  }

  ghost predicate Fetchable(j: Job, k: nat)
    requires j.Valid()
  {
    CanFetch(After(j, k), j.outputs)
  }

  /** The rows of output i, batch by batch. */
  ghost function Chunks(j: Job, i: nat, n: nat): (c: seq<seq<int>>)
    requires j.Valid() && i < |j.outputs| && forall k :: 0 <= k < n ==> Fetchable(j, k)
    ensures |c| == n
    decreases n
  {
    if n == 0 then []
    else
      assert Fetchable(j, n - 1) && j.outputs[i] in Names(j.outputs);
      Chunks(j, i, n - 1) + [TensorRows(After(j, n - 1)[j.outputs[i]])]
  }

  /** Outputs added back, in one piece. */
  ghost function WithOutputs(table: Table, outputs: seq<string>, chunks: seq<seq<seq<int>>>, m: nat): Table
    requires m <= |outputs| && m <= |chunks|
  {
    if m == 0 then table
    else WithOutputs(table, outputs, chunks, m - 1)[outputs[m - 1] := Plain(Concat(chunks[m - 1]))]
  }

  /** Inputs that are still in the table put back whole. */
  ghost function Restored(table: Table, names: seq<string>, tensors: seq<Tensor>, m: nat): Table
    requires m <= |names| && m <= |tensors|
  {
    if m == 0 then table
    else
      var t := Restored(table, names, tensors, m - 1);
      if names[m - 1] in t then t[names[m - 1] := tensors[m - 1]] else t
  }

  ghost function AllChunks(j: Job, n: nat): (c: seq<seq<seq<int>>>)
    requires j.Valid() && forall k :: 0 <= k < n ==> Fetchable(j, k)
    ensures |c| == |j.outputs|
  {
    seq(|j.outputs|, i requires 0 <= i < |j.outputs| => Chunks(j, i, n))
  }

  /** The table after n batches, with the outputs added. */
  ghost function Full(j: Job, n: nat): Table
    requires j.Valid() && forall k :: 0 <= k < n ==> Fetchable(j, k)
  {
    if n == 0 then Before(j, n) else WithOutputs(Before(j, n), j.outputs, AllChunks(j, n), |j.outputs|)
  }

  /** The table after n batches and Finish. */
  ghost function Outcome(j: Job, n: nat): Table
    requires j.Valid() && forall k :: 0 <= k < n ==> Fetchable(j, k)
  {
    Restored(Full(j, n), j.names, j.tensors, |j.names|)
  }

  // ---- the executor

  class PipelineExecutor {
    const table: TensorTable
    var inputTensors: seq<Tensor>
    var inputNames: seq<string>
    var readers: seq<Slicer>
    var outputNames: seq<string>
    var writers: seq<seq<seq<int>>>  // the batches written to each output so far
    var first: bool
    var batched: bool
    var batchNum: nat

    constructor (table: TensorTable)
      ensures this.table == table && New()
    {
      this.table := table;
      inputTensors, inputNames, readers, outputNames, writers := [], [], [], [], [];
      first, batched, batchNum := true, false, 1;
    }

    ghost predicate New()
      reads this
    {
      && inputTensors == [] && inputNames == [] && readers == [] && outputNames == [] && writers == []
      && first && !batched && batchNum == 1
    }

    /** k batches have been handed out. */
    ghost predicate Ready(k: nat)
      reads this
    {
      && |inputNames| == |inputTensors| == |readers| && AllBucketed(inputTensors)
      && forall i :: 0 <= i < |readers| ==> readers[i] == Advanced(inputTensors[i], k)
    }

    /** Inputs in one piece that another party has in several: there is nothing to read. */
    ghost predicate Stuck()
      reads this
    {
      readers == [] && inputTensors != []
    }

    /** The inputs looked up so far; inputs in one piece get no reader and no name. */
    ghost predicate Collected(inputs: seq<string>, local: nat)
      reads this, table
    {
      && Sliceable(table.tensors, inputs) && local == LocalSlices(table.tensors, inputs)
      && inputTensors == Lookup(table.tensors, inputs)
      && if local == 1 then readers == [] && inputNames == [] else Ready(0) && inputNames == inputs
    }

    /** The loop over the inputs; returns the number of slices. */
    method CollectInputs(inputs: seq<string>) returns (r: Result<nat>)
      requires inputTensors == [] && inputNames == [] && readers == []
      modifies this`inputTensors, this`inputNames, this`readers
      ensures r.Ok? <==> Sliceable(table.tensors, inputs)
      ensures r.Ok? ==> Collected(inputs, r.value)
    {
      var local := 1;
      for i := 0 to |inputs|
        invariant Collected(inputs[..i], local)
      {
        SliceableStep(table.tensors, inputs, i);
        if inputs[i] !in table.tensors {
          return Err("failed to get input tensor");
        }
        var tensor := table.tensors[inputs[i]];
        if i != 0 && SliceNum(tensor) != local {
          return Err("input tensors has different batch num");
        }
        inputTensors := inputTensors + [tensor];
        local := SliceNum(tensor);
        if local != 1 {
          readers := readers + [Slicer(tensor, 0)];
          inputNames := inputNames + [inputs[i]];
        }
      }
      assert inputs[..|inputs|] == inputs;
      return Ok(local);
    }

    /** The body of the source's constructor: collect the inputs, and agree on the number of
        batches with the slice numbers of the other parties. */
    method Open(inputs: seq<string>, outputs: seq<string>, streaming: bool, others: seq<nat>) returns (r: Result<()>)
      requires New()
      modifies this
      ensures r.Ok? <==> !streaming || Sliceable(table.tensors, inputs)
      ensures first && writers == []
      ensures r.Ok? && !streaming ==> !batched && batchNum == 1
      ensures r.Ok? && streaming ==>
        var local := LocalSlices(table.tensors, inputs);
        && Collected(inputs, local)
        && batchNum == Largest([local] + others) && batched == (batchNum != 1)
        && (batched ==> outputNames == outputs)
    {
      batched := streaming;
      if !batched {
        return Ok(());
      }
      var local := CollectInputs(inputs);
      if local.Err? {
        return Err(local.error);
      }
      batchNum := LargestGathered([local.value] + others);
      if batchNum == 1 {
        batched := false;
        return Ok(());
      }
      outputNames := outputs;
      return Ok(());
    }

    /** Put the next slice of every input into the table. */
    method UpdateTensorTable(ghost k: nat) returns (r: Result<()>)
      requires batched ==> Ready(k) || Stuck()
      modifies this`readers, table
      ensures !batched ==> r.Ok? && table.tensors == old(table.tensors) && readers == old(readers)
      ensures batched ==> (r.Ok? <==> !old(Stuck()))
      ensures batched && r.Ok? ==>
        Ready(k + 1) && table.tensors == Load(old(table.tensors), inputNames, inputTensors, k)
    {
      if !batched {
        return Ok(());
      }
      for i := 0 to |inputTensors|
        invariant |readers| == old(|readers|)
        invariant old(Stuck()) ==> i == 0
        invariant !old(Stuck()) ==> table.tensors == Load(old(table.tensors), inputNames[..i], inputTensors[..i], k)
        invariant !old(Stuck()) ==> forall h :: 0 <= h < i ==> readers[h] == Advanced(inputTensors[h], k + 1)
        invariant !old(Stuck()) ==> forall h :: i <= h < |readers| ==> readers[h] == Advanced(inputTensors[h], k)
      {
        if i >= |readers| {
          return Err("index out of range");
        }
        LoadStep(old(table.tensors), inputNames, inputTensors, i, k);
        var next := readers[i].Next();
        readers := readers[i := next.1];
        table.AddOrUpdateTensor(inputNames[i], Plain(next.0));
      }
      assert inputNames[..|inputNames|] == inputNames;
      assert inputTensors[..|inputTensors|] == inputTensors;
      return Ok(());
    }

    /** Take the outputs of batch k out of the table and append them to the writers. */
    method FetchOutputTensors() returns (r: Result<()>)
      requires batched && first ==> writers == []
      requires batched && !first ==> |writers| == |outputNames|
      modifies this`writers, this`first, table
      ensures !batched ==>
        r.Ok? && table.tensors == old(table.tensors) && writers == old(writers) && first == old(first)
      ensures batched ==> (r.Ok? <==> CanFetch(old(table.tensors), outputNames))
      ensures batched && r.Ok? ==>
        && table.tensors == old(table.tensors) - Names(outputNames)
        && !first && |writers| == |outputNames|
        && Appended(writers, old(if first then seq(|outputNames|, _ => []) else writers), old(table.tensors),
                    outputNames, |outputNames|)
    {
      if !batched {
        return Ok(());
      }
      ghost var start := if first then seq(|outputNames|, _ => []) else writers;
      assert outputNames[..0] == [];
      for i := 0 to |outputNames|
        invariant first == old(first)
        invariant |writers| == if first then i else |outputNames|
        invariant table.tensors == old(table.tensors) - Names(outputNames[..i])
        invariant CanFetch(old(table.tensors), outputNames[..i])
        invariant Appended(writers, start, old(table.tensors), outputNames, i)
        invariant !first ==> forall h :: i <= h < |writers| ==> writers[h] == start[h]
      {
        var name := outputNames[i];
        FetchStep(old(table.tensors), outputNames, i);
        if name !in table.tensors {
          return Err("failed to get output tensor");
        }
        var rows := TensorRows(table.tensors[name]);
        table.RemoveTensor(name);
        if first {
          writers := writers + [[]];
        }
        writers := writers[i := writers[i] + [rows]];
      }
      assert outputNames[..|outputNames|] == outputNames;
      first := false;
      return Ok(());
    }

    method Finish() returns (r: Result<()>)
      requires batched ==> |writers| <= |outputNames| && |inputNames| <= |inputTensors|
      modifies table
      ensures !batched ==> r.Ok? && table.tensors == old(table.tensors)
      ensures batched ==> (r.Ok? <==> CanAdd(old(table.tensors), outputNames[..|writers|]))
      ensures batched && r.Ok? ==>
        var full := WithOutputs(old(table.tensors), outputNames, writers, |writers|);
        table.tensors == Restored(full, inputNames, inputTensors, |inputNames|)
      ensures batched && r.Err? ==> AddedUpTo(old(table.tensors), table.tensors, outputNames, writers)
    {
      if !batched {
        return Ok(());
      }
      assert outputNames[..0] == [];
      for i := 0 to |writers|
        invariant table.tensors == WithOutputs(old(table.tensors), outputNames, writers, i)
        invariant CanAdd(old(table.tensors), outputNames[..i])
      {
        AddStep(old(table.tensors), outputNames, writers, i, |writers|);
        var added := table.AddTensor(outputNames[i], Plain(Concat(writers[i])));
        if added.Err? {
          return added;
        }
      }
      ghost var full := table.tensors;
      for i := 0 to |inputNames|
        invariant table.tensors == Restored(full, inputNames, inputTensors, i)
      {
        if inputNames[i] in table.tensors {
          table.AddOrUpdateTensor(inputNames[i], inputTensors[i]);
        }
      }
      return Ok(());
    }
  }

  /** All inputs are in the table and have the same number of slices. */
  ghost predicate Sliceable(table: Table, inputs: seq<string>) {
    && (forall i :: 0 <= i < |inputs| ==> inputs[i] in table)
    && (forall i :: 0 <= i < |inputs| ==> SliceNum(table[inputs[i]]) == SliceNum(table[inputs[0]]))
  }

  ghost function LocalSlices(table: Table, inputs: seq<string>): nat
    requires Sliceable(table, inputs)
  {
    if inputs == [] then 1 else SliceNum(table[inputs[0]])
  }

  ghost function Lookup(table: Table, inputs: seq<string>): (r: seq<Tensor>)
    requires Sliceable(table, inputs)
  {
    seq(|inputs|, i requires 0 <= i < |inputs| => assert inputs[i] in table; table[inputs[i]])
  }

  lemma SliceableStep(table: Table, inputs: seq<string>, i: nat)
    requires i < |inputs| && Sliceable(table, inputs[..i])
    ensures Sliceable(table, inputs[..i + 1])
      <==> inputs[i] in table && (i > 0 ==> SliceNum(table[inputs[i]]) == LocalSlices(table, inputs[..i]))
    ensures Sliceable(table, inputs) ==> Sliceable(table, inputs[..i + 1])
  {
    var before, now := inputs[..i], inputs[..i + 1];
    assert now[i] == inputs[i] && forall h :: 0 <= h < i ==> now[h] == before[h];
    if Sliceable(table, inputs) {
      assert forall h :: 0 <= h < |now| ==> now[h] == inputs[h];
    }
  }

  /** The outputs are new to the table, and each is listed once. */
  ghost predicate CanAdd(table: Table, outputs: seq<string>) {
    Distinct(outputs) && Names(outputs) !! table.Keys
  }

  /** The outputs before the first one that is there already have been added. */
  ghost predicate AddedUpTo(before: Table, after: Table, outputs: seq<string>, chunks: seq<seq<seq<int>>>) {
    exists m: nat :: m < |outputs| && m < |chunks| && outputs[m] in after
      && after == WithOutputs(before, outputs, chunks, m)
  }

  lemma AddStep(table: Table, outputs: seq<string>, chunks: seq<seq<seq<int>>>, m: nat, n: nat)
    requires m < n <= |outputs| && n <= |chunks| && CanAdd(table, outputs[..m])
    ensures CanAdd(table, outputs[..m + 1]) <==> outputs[m] !in WithOutputs(table, outputs, chunks, m)
    ensures CanAdd(table, outputs[..n]) ==> CanAdd(table, outputs[..m + 1])
  {
    OutputKeys(table, outputs, chunks, m);
    var before, now := outputs[..m], outputs[..m + 1];
    assert now == before + [outputs[m]] && now[m] in Names(now);
    if outputs[m] in before {
      var h :| 0 <= h < m && before[h] == outputs[m];
      assert now[h] == now[m];
    }
    if CanAdd(table, outputs[..n]) {
      assert forall h :: 0 <= h < |now| ==> now[h] == outputs[..n][h];
    }
  }

  lemma {:induction false} OutputKeys(table: Table, outputs: seq<string>, chunks: seq<seq<seq<int>>>, m: nat)
    requires m <= |outputs| && m <= |chunks|
    ensures WithOutputs(table, outputs, chunks, m).Keys == table.Keys + Names(outputs[..m])
  {
    if m > 0 {
      OutputKeys(table, outputs, chunks, m - 1);
      assert outputs[..m] == outputs[..m - 1] + [outputs[m - 1]];
    }
  }

  lemma LoadStep(table: Table, names: seq<string>, tensors: seq<Tensor>, i: nat, k: nat)
    requires i < |names| == |tensors| && AllBucketed(tensors)
    ensures Load(table, names[..i + 1], tensors[..i + 1], k)
         == Load(table, names[..i], tensors[..i], k)[names[i] := Plain(SliceAt(tensors[i], k))]
  {
    assert names[..i + 1][..i] == names[..i] && tensors[..i + 1][..i] == tensors[..i];
  }

  /** The first m writers have one more batch: the rows of their outputs. */
  ghost predicate Appended(now: seq<seq<seq<int>>>, before: seq<seq<seq<int>>>, table: Table, outputs: seq<string>,
                           m: nat)
  {
    && m <= |now| && m <= |outputs| && m <= |before|
    && forall i :: 0 <= i < m ==> outputs[i] in table && now[i] == before[i] + [TensorRows(table[outputs[i]])]
  }

  lemma FetchStep(table: Table, outputs: seq<string>, i: nat)
    requires i < |outputs| && CanFetch(table, outputs[..i])
    ensures Names(outputs[..i + 1]) == Names(outputs[..i]) + {outputs[i]}
    ensures CanFetch(table, outputs[..i + 1]) <==> outputs[i] in table && outputs[i] !in Names(outputs[..i])
    ensures CanFetch(table, outputs) ==> CanFetch(table, outputs[..i + 1])
  {
    var before, now := outputs[..i], outputs[..i + 1];
    assert now == before + [outputs[i]];
    if outputs[i] in before {
      var h :| 0 <= h < i && before[h] == outputs[i];
      assert now[h] == now[i];
    }
    assert now[i] in Names(now);
  }

  // ---- the driver

  /** The executor stands before batch k of the job. */
  ghost predicate AtBatch(e: PipelineExecutor, j: Job, k: nat)
    requires j.Valid()
    reads e, e.table
  {
    && e.batched && e.Ready(k) && e.inputNames == j.names && e.inputTensors == j.tensors && e.outputNames == j.outputs
    && e.table.tensors == Before(j, k)
    && (forall h :: 0 <= h < k ==> Fetchable(j, h))
    && (e.first <==> k == 0) && e.writers == if k == 0 then [] else AllChunks(j, k)
  }

  lemma WritersStep(j: Job, k: nat, before: seq<seq<seq<int>>>, now: seq<seq<seq<int>>>)
    requires j.Valid() && forall h :: 0 <= h <= k ==> Fetchable(j, h)
    requires before == if k == 0 then seq(|j.outputs|, _ => []) else AllChunks(j, k)
    requires |now| == |j.outputs| && Appended(now, before, After(j, k), j.outputs, |j.outputs|)
    ensures now == AllChunks(j, k + 1)
  {
    forall i | 0 <= i < |j.outputs| ensures now[i] == Chunks(j, i, k + 1) {
      assert before[i] == Chunks(j, i, k);
      assert now[i] == before[i] + [TensorRows(After(j, k)[j.outputs[i]])];
    }
  }

  method RunBatch(e: PipelineExecutor, k: nat, ghost j: Job, step: Step) returns (r: Result<()>)
    requires e.batched && (e.Stuck() || (j.Valid() && AtBatch(e, j, k) && step == j.step))
    modifies e, e.table
    ensures r.Ok? <==> !old(e.Stuck()) && Fetchable(j, k)
    ensures r.Ok? ==> AtBatch(e, j, k + 1) && e.batchNum == old(e.batchNum)
  {
    r := e.UpdateTensorTable(k);
    if r.Err? {
      return;
    }
    e.table.tensors := step(k, e.table.tensors);
    ghost var before := if e.first then seq(|e.outputNames|, _ => []) else e.writers;
    r := e.FetchOutputTensors();
    if r.Ok? {
      WritersStep(j, k, before, e.writers);
    }
  }

  method RunBatches(e: PipelineExecutor, ghost j: Job, step: Step) returns (r: Result<()>)
    requires e.batched && (e.Stuck() || (j.Valid() && AtBatch(e, j, 0) && step == j.step))
    requires e.Stuck() ==> e.batchNum > 0
    modifies e, e.table
    ensures r.Ok? <==> !old(e.Stuck()) && forall k :: 0 <= k < old(e.batchNum) ==> Fetchable(j, k)
    ensures r.Ok? ==> e.table.tensors == Outcome(j, old(e.batchNum))
  {
    ghost var stuck := e.Stuck();
    var n := e.batchNum;
    for k := 0 to n
      invariant e.batchNum == n && e.batched
      invariant if stuck then k == 0 && e.Stuck() else j.Valid() && AtBatch(e, j, k)
    {
      r := RunBatch(e, k, j, step);
      if r.Err? {
        return;
      }
    }
    OutputsTaken(j, n);
    r := e.Finish();
  }

  lemma OutputsTaken(j: Job, n: nat)
    requires j.Valid() && forall k :: 0 <= k < n ==> Fetchable(j, k)
    ensures n > 0 ==> Distinct(j.outputs) && Names(j.outputs) !! Before(j, n).Keys
  {
    if n > 0 {
      assert Fetchable(j, n - 1);
    }
  }

  /** The whole run of one pipeline.  Inputs that are in one piece here but in several at
      another party stop it; otherwise a batched run ends with the job's outcome. */
  method RunPipeline(table: TensorTable, inputs: seq<string>, outputs: seq<string>, streaming: bool, others: seq<nat>,
                     step: Step)
    returns (r: Result<()>)
    modifies table
    ensures !streaming ==> r.Ok? && table.tensors == step(0, old(table.tensors))
    ensures streaming && !Sliceable(old(table.tensors), inputs) ==> r.Err?
    ensures streaming && Sliceable(old(table.tensors), inputs) ==>
      Follows(r, old(table.tensors), table.tensors, inputs, outputs, others, step)
  {
    var e := new PipelineExecutor(table);
    r := e.Open(inputs, outputs, streaming, others);
    if r.Err? {
      return;
    }
    if e.batched {
      ghost var j := JobOf(table.tensors, inputs, outputs, step);
      r := RunBatches(e, j, step);
    } else {
      r := e.UpdateTensorTable(0);
      table.tensors := step(0, table.tensors);
      r := e.FetchOutputTensors();
      r := e.Finish();
    }
  }

  ghost function JobOf(table: Table, inputs: seq<string>, outputs: seq<string>, step: Step): Job
    requires Sliceable(table, inputs)
  {
    Job(table, inputs, Lookup(table, inputs), outputs, step)
  }

  /** How a streaming run ends, from the table it starts with and the other parties' slices. */
  ghost predicate Follows(r: Result<()>, before: Table, after: Table, inputs: seq<string>, outputs: seq<string>,
                          others: seq<nat>, step: Step)
    requires Sliceable(before, inputs)
  {
    var local := LocalSlices(before, inputs);
    var n := Largest([local] + others);
    if n == 1 then r.Ok? && after == step(0, before)
    else if inputs != [] && local == 1 then r.Err?
    else
      var j := JobOf(before, inputs, outputs, step);
      && j.Valid()
      && (r.Ok? <==> forall k :: 0 <= k < n ==> Fetchable(j, k))
      && (r.Ok? ==> after == Outcome(j, n))
  }

  // ---- what the outcome means

  lemma {:induction false} RestoredKeeps(table: Table, names: seq<string>, tensors: seq<Tensor>, m: nat, x: string)
    requires m <= |names| && m <= |tensors|
    ensures Restored(table, names, tensors, m).Keys == table.Keys
    ensures x in table && x !in names[..m] ==> Restored(table, names, tensors, m)[x] == table[x]
  {
    if m > 0 {
      RestoredKeeps(table, names, tensors, m - 1, x);
      assert names[..m] == names[..m - 1] + [names[m - 1]];
    }
  }

  lemma {:induction false} RestoredAt(table: Table, names: seq<string>, tensors: seq<Tensor>, m: nat, i: nat)
    requires i < m <= |names| && m <= |tensors| && Consistent(names, tensors) && names[i] in table
    ensures names[i] in Restored(table, names, tensors, m) && Restored(table, names, tensors, m)[names[i]] == tensors[i]
  {
    RestoredKeeps(table, names, tensors, m - 1, names[i]);
    if i < m - 1 {
      RestoredAt(table, names, tensors, m - 1, i);
    }
  }

  /** An input listed twice is the same tensor. */
  ghost predicate Consistent(names: seq<string>, tensors: seq<Tensor>) {
    && |names| == |tensors|
    && forall a, b :: 0 <= a < |names| && 0 <= b < |names| && names[a] == names[b] ==> tensors[a] == tensors[b]
  }

  /** Inputs from the table always are. */
  lemma LookupConsistent(table: Table, inputs: seq<string>)
    requires Sliceable(table, inputs)
    ensures Consistent(inputs, Lookup(table, inputs))
  {
  }

  lemma {:induction false} OutputAt(table: Table, outputs: seq<string>, chunks: seq<seq<seq<int>>>, m: nat, i: nat)
    requires i < m <= |outputs| && m <= |chunks| && Distinct(outputs)
    ensures outputs[i] in WithOutputs(table, outputs, chunks, m)
    ensures WithOutputs(table, outputs, chunks, m)[outputs[i]] == Plain(Concat(chunks[i]))
  {
    if i < m - 1 {
      OutputAt(table, outputs, chunks, m - 1, i);
    }
  }

  /** The final output is the concatenation of the outputs of the batches, unless it shares its
      name with an input: then the input replaces it. */
  lemma FinalOutput(j: Job, n: nat, i: nat)
    requires j.Valid() && n > 0 && (forall k :: 0 <= k < n ==> Fetchable(j, k)) && Consistent(j.names, j.tensors)
    requires i < |j.outputs|
    ensures j.outputs[i] in Outcome(j, n)
    ensures j.outputs[i] !in j.names ==> Outcome(j, n)[j.outputs[i]] == Plain(Concat(Chunks(j, i, n)))
    ensures forall h :: 0 <= h < |j.names| && j.names[h] == j.outputs[i] ==> Outcome(j, n)[j.outputs[i]] == j.tensors[h]
  {
    OutputsTaken(j, n);
    OutputAt(Before(j, n), j.outputs, AllChunks(j, n), |j.outputs|, i);
    RestoredKeeps(Full(j, n), j.names, j.tensors, |j.names|, j.outputs[i]);
    forall h | 0 <= h < |j.names| && j.names[h] == j.outputs[i] ensures Outcome(j, n)[j.outputs[i]] == j.tensors[h] {
      RestoredAt(Full(j, n), j.names, j.tensors, |j.names|, h);
    }
  }

  /** An input is whole again exactly when the nodes have not removed it, or an output has its name. */
  lemma FinalInput(j: Job, n: nat, i: nat)
    requires j.Valid() && (forall k :: 0 <= k < n ==> Fetchable(j, k)) && Consistent(j.names, j.tensors)
    requires i < |j.names|
    ensures j.names[i] in Outcome(j, n) <==> j.names[i] in Before(j, n) || (n > 0 && j.names[i] in j.outputs)
    ensures j.names[i] in Outcome(j, n) ==> Outcome(j, n)[j.names[i]] == j.tensors[i]
  {
    OutputKeys(Before(j, n), j.outputs, AllChunks(j, n), |j.outputs|);
    assert j.outputs[..|j.outputs|] == j.outputs;
    RestoredKeeps(Full(j, n), j.names, j.tensors, |j.names|, j.names[i]);
    if j.names[i] in Full(j, n) {
      RestoredAt(Full(j, n), j.names, j.tensors, |j.names|, i);
    }
  }

  /** A batched run that succeeds: every output is the concatenation of its batches, unless it is
      named like an input; every input that is still there is what it was before. */
  lemma RunResults(r: Result<()>, before: Table, after: Table, inputs: seq<string>, outputs: seq<string>,
                   others: seq<nat>, step: Step, n: nat)
    requires Sliceable(before, inputs) && n == Largest([LocalSlices(before, inputs)] + others) && n != 1
    requires Follows(r, before, after, inputs, outputs, others, step) && r.Ok?
    ensures
      var j := JobOf(before, inputs, outputs, step);
      && j.Valid() && (forall k :: 0 <= k < n ==> Fetchable(j, k))
      && (n > 0 ==> forall i :: 0 <= i < |outputs| ==>
            && outputs[i] in after
            && (outputs[i] !in inputs ==> after[outputs[i]] == Plain(Concat(Chunks(j, i, n))))
            && (outputs[i] in inputs ==> after[outputs[i]] == before[outputs[i]]))
      && (forall i :: 0 <= i < |inputs| ==>
            && (inputs[i] in after <==> inputs[i] in Before(j, n) || (n > 0 && inputs[i] in outputs))
            && (inputs[i] in after ==> after[inputs[i]] == before[inputs[i]]))
  {
    var j := JobOf(before, inputs, outputs, step);
    LookupConsistent(before, inputs);
    if n > 0 {
      forall i | 0 <= i < |outputs|
        ensures outputs[i] in after
        ensures outputs[i] !in inputs ==> after[outputs[i]] == Plain(Concat(Chunks(j, i, n)))
        ensures outputs[i] in inputs ==> after[outputs[i]] == before[outputs[i]]
      {
        FinalOutput(j, n, i);
      }
    }
    forall i | 0 <= i < |inputs|
      ensures inputs[i] in after <==> inputs[i] in Before(j, n) || (n > 0 && inputs[i] in outputs)
      ensures inputs[i] in after ==> after[inputs[i]] == before[inputs[i]]
    {
      FinalInput(j, n, i);
    }
  }

  /** One input in one piece here, two slices at another party: the run fails. */
  lemma OnePieceFails(r: Result<()>, before: Table, after: Table, step: Step)
    requires before == map["a" := Plain([1])] && Sliceable(before, ["a"])
    requires Follows(r, before, after, ["a"], ["b"], [2], step)
    ensures r.Err?
  {
    assert Largest([1, 2]) == 2;
  }

  /** An output named like an input: two batches of one row each are written, and the input is
      what remains. */
  lemma OutputLost(j: Job)
    requires j.table == map["a" := Bucketed([[1], [2]])] && j.names == ["a"] && j.tensors == [Bucketed([[1], [2]])]
    requires j.outputs == ["a"] && forall k, t :: j.step(k, t) == map["a" := Plain([7])]
    ensures j.Valid() && Fetchable(j, 0) && Fetchable(j, 1)
    ensures Concat(Chunks(j, 0, 2)) == [7, 7]
    ensures "a" in Outcome(j, 2) && Outcome(j, 2)["a"] == Bucketed([[1], [2]])
  {
    var out: Table := map["a" := Plain([7])];
    assert After(j, 0) == out && After(j, 1) == out;
    assert j.outputs[0] in Names(j.outputs);
    assert Chunks(j, 0, 1) == [[7]] && Chunks(j, 0, 2) == [[7], [7]];
    assert [[7], [7]][1..] == [[7]] && [[7]][1..] == [];
    FinalOutput(j, 2, 0);
    assert j.names[0] == j.outputs[0];
  }

  // ---- nodes that compute an output from the inputs alone

  /** Slice k of every input. */
  function Slices(tensors: seq<Tensor>, k: nat): (r: seq<seq<int>>)
    requires AllBucketed(tensors)
    ensures |r| == |tensors|
  {
    seq(|tensors|, i requires 0 <= i < |tensors| => SliceAt(tensors[i], k))
  }

  /** The inputs are in the table with these rows. */
  ghost predicate Holds(table: Table, names: seq<string>, rows: seq<seq<int>>) {
    |names| == |rows| && forall i :: 0 <= i < |names| ==> names[i] in table && TensorRows(table[names[i]]) == rows[i]
  }

  /** Whatever else is in the table, the nodes leave f of the inputs under the output's name. */
  ghost predicate Computes(step: Step, names: seq<string>, output: string, f: seq<seq<int>> -> seq<int>) {
    forall k: nat, table: Table, rows: seq<seq<int>> {:trigger step(k, table), Holds(table, names, rows)} ::
      Holds(table, names, rows) ==> output in step(k, table) && TensorRows(step(k, table)[output]) == f(rows)
  }

  lemma {:induction false} LoadHolds(table: Table, names: seq<string>, tensors: seq<Tensor>, k: nat)
    requires Consistent(names, tensors) && AllBucketed(tensors)
    ensures Holds(Load(table, names, tensors, k), names, Slices(tensors, k))
  {
    if names != [] {
      var n := |names| - 1;
      LoadHolds(table, names[..n], tensors[..n], k);
      var before := Load(table, names[..n], tensors[..n], k);
      forall i | 0 <= i < n ensures names[i] in before && TensorRows(before[names[i]]) == SliceAt(tensors[i], k) {
        assert names[..n][i] == names[i] && tensors[..n][i] == tensors[i];
      }
    }
  }

  /** f applied to the first n slices, one after the other. */
  ghost function PerBatch(f: seq<seq<int>> -> seq<int>, tensors: seq<Tensor>, n: nat): (r: seq<seq<int>>)
    requires AllBucketed(tensors)
    ensures |r| == n
  {
    if n == 0 then [] else PerBatch(f, tensors, n - 1) + [f(Slices(tensors, n - 1))]
  }

  /** Given slice k of every input, the nodes of batch k leave these rows under the output's name. */
  ghost predicate Leaves(j: Job, output: string, k: nat, rows: seq<int>)
    requires j.Valid()
  {
    forall table {:trigger j.step(k, table)} :: Holds(table, j.names, Slices(j.tensors, k)) ==>
      output in j.step(k, table) && TensorRows(j.step(k, table)[output]) == rows
  }

  lemma LeavesAfter(j: Job, output: string, k: nat, rows: seq<int>)
    requires j.Valid() && Consistent(j.names, j.tensors) && Leaves(j, output, k, rows)
    ensures output in After(j, k) && TensorRows(After(j, k)[output]) == rows
  {
    LoadHolds(Before(j, k), j.names, j.tensors, k);
  }

  /** Then the batches are written one after the other. */
  lemma {:induction false} ChunksAre(j: Job, i: nat, rows: seq<seq<int>>, n: nat)
    requires j.Valid() && Consistent(j.names, j.tensors) && i < |j.outputs| && n <= |rows|
    requires forall k :: 0 <= k < n ==> Fetchable(j, k)
    requires forall k :: 0 <= k < n ==> Leaves(j, j.outputs[i], k, rows[k])
    ensures Chunks(j, i, n) == rows[..n]
    decreases n
  {
    if n > 0 {
      ChunksAre(j, i, rows, n - 1);
      LeavesAfter(j, j.outputs[i], n - 1, rows[n - 1]);
    }
  }

  lemma ComputesLeaves(j: Job, output: string, f: seq<seq<int>> -> seq<int>, k: nat)
    requires j.Valid() && Computes(j.step, j.names, output, f)
    ensures Leaves(j, output, k, f(Slices(j.tensors, k)))
  {
    forall table | Holds(table, j.names, Slices(j.tensors, k))
      ensures output in j.step(k, table) && TensorRows(j.step(k, table)[output]) == f(Slices(j.tensors, k))
    {
    }
  }

  /** Batched execution is f on every bucket, concatenated, no matter what the table holds. */
  lemma BatchedMeaning(j: Job, i: nat, f: seq<seq<int>> -> seq<int>, n: nat)
    requires j.Valid() && Consistent(j.names, j.tensors) && i < |j.outputs|
    requires forall k :: 0 <= k < n ==> Fetchable(j, k)
    requires Computes(j.step, j.names, j.outputs[i], f)
    ensures Chunks(j, i, n) == PerBatch(f, j.tensors, n)
  {
    var rows := PerBatch(f, j.tensors, n);
    forall k | 0 <= k < n ensures Leaves(j, j.outputs[i], k, rows[k]) {
      PerBatchAt(f, j.tensors, n, k);
      ComputesLeaves(j, j.outputs[i], f, k);
    }
    ChunksAre(j, i, rows, n);
    assert rows[..n] == rows;
  }

  lemma {:induction false} PerBatchAt(f: seq<seq<int>> -> seq<int>, tensors: seq<Tensor>, n: nat, k: nat)
    requires AllBucketed(tensors) && k < n
    ensures PerBatch(f, tensors, n)[k] == f(Slices(tensors, k))
  {
    if k < n - 1 {
      PerBatchAt(f, tensors, n - 1, k);
    }
  }

  ghost function SlicesOf(t: Tensor, n: nat): (r: seq<seq<int>>)
    requires t.Bucketed?
  {
    if n == 0 then [] else SlicesOf(t, n - 1) + [SliceAt(t, n - 1)]
  }

  /** Every bucket is read, also when another party has more of them. */
  lemma {:induction false} AllFilesRead(t: Tensor, n: nat)
    requires t.Bucketed?
    ensures Concat(SlicesOf(t, n)) == Concat(t.files[..if n < |t.files| then n else |t.files|])
  {
    if n > 0 {
      AllFilesRead(t, n - 1);
      ConcatPush(SlicesOf(t, n - 1), SliceAt(t, n - 1));
      if n <= |t.files| {
        ConcatPush(t.files[..n - 1], t.files[n - 1]);
        assert t.files[..n] == t.files[..n - 1] + [t.files[n - 1]];
      }
    }
  }
}
