/** Tensor lifetime by reference counts (engine/framework/session.cc, operator.cc, operator.h),
    in runs that are not batched.  Private tensors are in the tensor table under their name;
    secret ones are device symbols under the name their operators encode
    (engine/util/spu_io.cc:144-146), while DelTensors deletes device symbols by plain name. */
module Lifetime {
  import opened Outcomes
  import opened Columns
  import opened TensorTables

  datatype Output = Output(name: string, refNum: int, secret: bool)
  datatype Node = Node(inputs: seq<string>, outputs: seq<Output>)

  /** What node k leaves in its output i when it reads these inputs. */
  type Eval = (nat, seq<Tensor>, nat) -> Tensor

  type Refs = map<string, int>

  // ---- names of device symbols

  const VALUE_SUFFIX: string := ".value"

  /** SpuVarNameEncoder::GetValueName. */
  function ValueName(x: string): string { x + VALUE_SUFFIX }

  ghost function ValueNames(names: set<string>): set<string> { set x | x in names :: ValueName(x) }

  lemma ValueNameInjective(x: string, y: string)
    requires ValueName(x) == ValueName(y)
    ensures x == y
  {
    assert |x| == |y|;
    assert x == ValueName(x)[..|x|] && y == ValueName(y)[..|y|];
  }

  lemma InValueNames(names: set<string>, x: string)
    ensures ValueName(x) in ValueNames(names) <==> x in names
  {
    if ValueName(x) in ValueNames(names) {
      var y :| y in names && ValueName(y) == ValueName(x);
      ValueNameInjective(x, y);
    }
  }

  // ---- the loops of UpdateRefName

  /** One reference less for each name; the names that have none left are listed. */
  function Consume(refs: Refs, names: seq<string>): (r: (Refs, seq<string>)) {
    if names == [] then (refs, [])
    else
      var n := |names| - 1;
      var before := Consume(refs, names[..n]);
      var x := names[n];
      if x !in before.0 then before
      else if before.0[x] - 1 == 0 then (before.0 - {x}, before.1 + [x])
      else (before.0[x := before.0[x] - 1], before.1)
  }

  /** New names with their counts; those nobody refers to are listed. */
  function Declare(refs: Refs, outputs: seq<Output>): (r: Result<(Refs, seq<string>)>) {
    if outputs == [] then Ok((refs, []))
    else
      var n := |outputs| - 1;
      var before := Declare(refs, outputs[..n]);
      if before.Err? then before
      else
        var (known, gone) := before.value;
        var o := outputs[n];
        if o.refNum == 0 then Ok((known, gone + [o.name]))
        else if o.name in known then Err("ref num was set before created")
        else Ok((known[o.name := o.refNum], gone))
  }

  ghost predicate Counted(refs: Refs) { forall x :: x in refs ==> refs[x] > 0 }

  function Occurrences(names: seq<string>, x: string): nat { multiset(names)[x] }

  lemma {:induction false} ConsumeOccurrences(refs: Refs, names: seq<string>, x: string)
    requires Counted(refs)
    ensures x in Consume(refs, names).0 <==> x in refs && Occurrences(names, x) < refs[x]
    ensures x in Consume(refs, names).0 ==> Consume(refs, names).0[x] == refs[x] - Occurrences(names, x)
    ensures x in Consume(refs, names).1 <==> x in refs && Occurrences(names, x) >= refs[x]
  {
    if names != [] {
      var n := |names| - 1;
      ConsumeOccurrences(refs, names[..n], x);
      assert names == names[..n] + [names[n]];
      if names[n] != x {
        ConsumeOccurrences(refs, names[..n], names[n]);
      }
    }
  }

  /** The positions that hold x. */
  ghost function Spots(names: seq<string>, x: string): set<nat> { set i: nat | i < |names| && names[i] == x }

  lemma SpotsStep(names: seq<string>, x: string, n: nat)
    requires |names| == n + 1
    ensures Spots(names, x) == (if names[n] == x then Spots(names[..n], x) + {n} else Spots(names[..n], x))
    ensures n !in Spots(names[..n], x)
  {
  }

  lemma OccurrencesStep(names: seq<string>, x: string, n: nat)
    requires |names| == n + 1
    ensures Occurrences(names, x) == Occurrences(names[..n], x) + if names[n] == x then 1 else 0
  {
    assert names == names[..n] + [names[n]];
  }

  lemma {:induction false} OccurrencesCount(names: seq<string>, x: string)
    ensures Occurrences(names, x) == |Spots(names, x)|
  {
    if names != [] {
      var n := |names| - 1;
      OccurrencesCount(names[..n], x);
      SpotsStep(names, x, n);
      OccurrencesStep(names, x, n);
    } else {
      assert Spots(names, x) == {};
    }
  }

  /** A name is gone as soon as it has been consumed as often as it was counted: once for every
      place where it is listed. */
  lemma ConsumeCounts(refs: Refs, names: seq<string>, x: string, places: set<nat>)
    requires Counted(refs) && places == set i: nat | i < |names| && names[i] == x
    ensures x in Consume(refs, names).0 <==> x in refs && |places| < refs[x]
    ensures x in Consume(refs, names).0 ==> Consume(refs, names).0[x] == refs[x] - |places|
    ensures x in Consume(refs, names).1 <==> x in refs && |places| >= refs[x]
  {
    OccurrencesCount(names, x);
    assert places == Spots(names, x);
    ConsumeOccurrences(refs, names, x);
  }

  /** A name is listed at most once. */
  lemma {:induction false} ConsumeListsOnce(refs: Refs, names: seq<string>)
    requires Counted(refs)
    ensures Distinct(Consume(refs, names).1)
  {
    if names != [] {
      var n := |names| - 1;
      ConsumeListsOnce(refs, names[..n]);
      ConsumeOccurrences(refs, names[..n], names[n]);
    }
  }

  function OutputNames(outputs: seq<Output>): (r: seq<string>)
    ensures |r| == |outputs| && forall i :: 0 <= i < |r| ==> r[i] == outputs[i].name
  {
    seq(|outputs|, i requires 0 <= i < |outputs| => outputs[i].name)
  }

  ghost predicate Fresh(known: set<string>, outputs: seq<Output>) {
    && (forall i :: 0 <= i < |outputs| ==> outputs[i].name !in known && outputs[i].refNum >= 0)
    && (forall i, h :: 0 <= i < h < |outputs| ==> outputs[i].name != outputs[h].name)
  }

  lemma {:induction false} DeclareOthers(refs: Refs, outputs: seq<Output>, x: string)
    requires Fresh(refs.Keys, outputs)
    ensures Declare(refs, outputs).Ok?
    ensures
      x !in OutputNames(outputs) ==>
        var (known, gone) := Declare(refs, outputs).value;
        x !in gone && (x in known <==> x in refs) && (x in known ==> known[x] == refs[x])
  {
    if outputs != [] {
      var n := |outputs| - 1;
      DeclareOthers(refs, outputs[..n], outputs[n].name);
      DeclareOthers(refs, outputs[..n], x);
      assert OutputNames(outputs) == OutputNames(outputs[..n]) + [outputs[n].name];
    }
  }

  /** New names are counted when someone refers to them and listed otherwise. */
  lemma {:induction false} DeclareAt(refs: Refs, outputs: seq<Output>, i: nat)
    requires Fresh(refs.Keys, outputs) && i < |outputs|
    ensures Declare(refs, outputs).Ok?
    ensures
      var (known, gone) := Declare(refs, outputs).value;
      var o := outputs[i];
      && (o.name in gone <==> o.refNum == 0) && (o.name in known <==> o.refNum != 0)
      && (o.name in known ==> known[o.name] == o.refNum)
  {
    var n := |outputs| - 1;
    var x := outputs[n].name;
    DeclareOthers(refs, outputs[..n], x);
    assert x !in OutputNames(outputs[..n]);
    if i < n {
      DeclareAt(refs, outputs[..n], i);
      assert outputs[i].name != x;
    }
  }

  lemma {:induction false} DeclareListsOnce(refs: Refs, outputs: seq<Output>)
    requires Fresh(refs.Keys, outputs)
    ensures Declare(refs, outputs).Ok? && Distinct(Declare(refs, outputs).value.1)
  {
    if outputs != [] {
      var n := |outputs| - 1;
      DeclareListsOnce(refs, outputs[..n]);
      DeclareOthers(refs, outputs[..n], outputs[n].name);
      DeclareOthers(refs, outputs, outputs[n].name);
    }
  }

  // ---- plans

  /** Consuming occurrences of x from node k on. */
  ghost function Uses(nodes: seq<Node>, x: string, k: nat): nat
    requires k <= |nodes|
    decreases |nodes| - k
  {
    if k == |nodes| then 0 else Occurrences(nodes[k].inputs, x) + Uses(nodes, x, k + 1)
  }

  ghost function Names(s: seq<string>): set<string> { set x | x in s }

  /** The names the first k nodes have produced. */
  ghost function Produced(nodes: seq<Node>, k: nat): set<string>
    requires k <= |nodes|
  {
    if k == 0 then {} else Produced(nodes, k - 1) + Names(OutputNames(nodes[k - 1].outputs))
  }

  /** The node comes after the producers of its inputs, produces new names, and ref_num counts
      their consuming occurrences. */
  ghost predicate PlannedNode(nodes: seq<Node>, k: nat)
    requires k < |nodes|
  {
    && Names(nodes[k].inputs) <= Produced(nodes, k)
    && Fresh(Produced(nodes, k), nodes[k].outputs)
    && forall i :: 0 <= i < |nodes[k].outputs| ==>
         nodes[k].outputs[i].refNum == Uses(nodes, nodes[k].outputs[i].name, 0)
  }

  ghost predicate WellPlanned(nodes: seq<Node>) {
    forall k :: 0 <= k < |nodes| ==> PlannedNode(nodes, k)
  }

  /** The places from node k on that list x as an input: node and position. */
  ghost function Places(nodes: seq<Node>, x: string, k: nat): set<(nat, nat)> {
    set h: nat, i: nat | k <= h < |nodes| && i < |nodes[h].inputs| && nodes[h].inputs[i] == x :: (h, i)
  }

  lemma PlacesStep(nodes: seq<Node>, x: string, k: nat)
    requires k < |nodes|
    ensures Places(nodes, x, k) == Paired(k, Spots(nodes[k].inputs, x)) + Places(nodes, x, k + 1)
    ensures Paired(k, Spots(nodes[k].inputs, x)) !! Places(nodes, x, k + 1)
  {
  }

  /** The uses left are the places left. */
  lemma {:induction false} UsesCount(nodes: seq<Node>, x: string, k: nat)
    requires k <= |nodes|
    ensures Uses(nodes, x, k) == |Places(nodes, x, k)|
    decreases |nodes| - k
  {
    if k < |nodes| {
      OccurrencesCount(nodes[k].inputs, x);
      UsesCount(nodes, x, k + 1);
      PairedSize(k, Spots(nodes[k].inputs, x));
      PlacesStep(nodes, x, k);
    } else {
      assert Places(nodes, x, k) == {};
    }
  }

  ghost function Paired(k: nat, s: set<nat>): set<(nat, nat)> { set i | i in s :: (k, i) }

  lemma {:induction false} PairedSize(k: nat, s: set<nat>)
    ensures |Paired(k, s)| == |s|
  {
    if s != {} {
      var i :| i in s;
      PairedSize(k, s - {i});
      assert Paired(k, s) == Paired(k, s - {i}) + {(k, i)};
    } else {
      assert Paired(k, s) == {};
    }
  }

  lemma {:induction false} ProducedBy(nodes: seq<Node>, x: string, k: nat)
    requires k <= |nodes|
    ensures x in Produced(nodes, k)
       <==> exists h, o :: 0 <= h < k && 0 <= o < |nodes[h].outputs| && nodes[h].outputs[o].name == x
  {
    if k > 0 {
      ProducedBy(nodes, x, k - 1);
      var names := OutputNames(nodes[k - 1].outputs);
      if x in Names(names) {
        var o :| 0 <= o < |names| && names[o] == x;
        assert nodes[k - 1].outputs[o].name == x;
      }
      assert forall o :: 0 <= o < |names| ==> names[o] in Names(names) && names[o] == nodes[k - 1].outputs[o].name;
    }
  }

  /** Every input of node k is the output of an earlier node. */
  ghost predicate InputsMade(nodes: seq<Node>, k: nat)
    requires k < |nodes|
  {
    forall i :: 0 <= i < |nodes[k].inputs| ==>
      exists h, o :: 0 <= h < k && 0 <= o < |nodes[h].outputs| && nodes[h].outputs[o].name == nodes[k].inputs[i]
  }

  /** No output of node k has the name of another output of this or an earlier node. */
  ghost predicate OutputsNew(nodes: seq<Node>, k: nat)
    requires k < |nodes|
  {
    && (forall o, h, i :: 0 <= o < |nodes[k].outputs| && 0 <= h < k && 0 <= i < |nodes[h].outputs| ==>
          nodes[h].outputs[i].name != nodes[k].outputs[o].name)
    && (forall o, i :: 0 <= i < o < |nodes[k].outputs| ==> nodes[k].outputs[i].name != nodes[k].outputs[o].name)
  }

  /** ref_num of every output of node k is the number of places that list it as an input. */
  ghost predicate RefNumsCount(nodes: seq<Node>, k: nat)
    requires k < |nodes|
  {
    forall o :: 0 <= o < |nodes[k].outputs| ==>
      nodes[k].outputs[o].refNum == |Places(nodes, nodes[k].outputs[o].name, 0)|
  }

  /** The plan condition by places. */
  lemma PlannedByPlaces(nodes: seq<Node>, k: nat)
    requires k < |nodes|
    ensures PlannedNode(nodes, k) <==> InputsMade(nodes, k) && OutputsNew(nodes, k) && RefNumsCount(nodes, k)
  {
    InputsByPlaces(nodes, k);
    CountsByPlaces(nodes, k);
    if RefNumsCount(nodes, k) {
      FreshByPlaces(nodes, k);
    } else if PlannedNode(nodes, k) {
      assert false;
    }
  }

  lemma InputsByPlaces(nodes: seq<Node>, k: nat)
    requires k < |nodes|
    ensures Names(nodes[k].inputs) <= Produced(nodes, k) <==> InputsMade(nodes, k)
  {
    forall i | 0 <= i < |nodes[k].inputs|
      ensures nodes[k].inputs[i] in Produced(nodes, k)
         <==> exists h, o :: 0 <= h < k && 0 <= o < |nodes[h].outputs| && nodes[h].outputs[o].name == nodes[k].inputs[i]
    {
      ProducedBy(nodes, nodes[k].inputs[i], k);
    }
    assert forall i :: 0 <= i < |nodes[k].inputs| ==> nodes[k].inputs[i] in Names(nodes[k].inputs);
  }

  lemma FreshByPlaces(nodes: seq<Node>, k: nat)
    requires k < |nodes| && forall o :: 0 <= o < |nodes[k].outputs| ==> nodes[k].outputs[o].refNum >= 0
    ensures Fresh(Produced(nodes, k), nodes[k].outputs) <==> OutputsNew(nodes, k)
  {
    forall o | 0 <= o < |nodes[k].outputs|
      ensures nodes[k].outputs[o].name in Produced(nodes, k)
         <==> exists h, i :: 0 <= h < k && 0 <= i < |nodes[h].outputs|
                             && nodes[h].outputs[i].name == nodes[k].outputs[o].name
    {
      ProducedBy(nodes, nodes[k].outputs[o].name, k);
    }
  }

  lemma CountsByPlaces(nodes: seq<Node>, k: nat)
    requires k < |nodes|
    ensures RefNumsCount(nodes, k) <==> forall o :: 0 <= o < |nodes[k].outputs| ==>
      nodes[k].outputs[o].refNum == Uses(nodes, nodes[k].outputs[o].name, 0)
  {
    forall o | 0 <= o < |nodes[k].outputs|
      ensures Uses(nodes, nodes[k].outputs[o].name, 0) == |Places(nodes, nodes[k].outputs[o].name, 0)|
    {
      UsesCount(nodes, nodes[k].outputs[o].name, 0);
    }
  }

  /** Produced and still to be used. */
  ghost function Live(nodes: seq<Node>, k: nat): set<string>
    requires k <= |nodes|
  {
    set x | x in Produced(nodes, k) && Uses(nodes, x, k) > 0
  }

  ghost predicate Tracks(refs: Refs, nodes: seq<Node>, k: nat)
    requires k <= |nodes|
  {
    refs.Keys == Live(nodes, k) && forall x :: x in refs ==> refs[x] == Uses(nodes, x, k)
  }

  lemma UnusedInput(names: seq<string>, x: string)
    requires x !in Names(names)
    ensures Occurrences(names, x) == 0
  {
  }

  /** Nothing uses a name before it is produced. */
  lemma {:induction false} UsesLater(nodes: seq<Node>, x: string, k: nat)
    requires WellPlanned(nodes) && k < |nodes| && x !in Produced(nodes, k)
    ensures Uses(nodes, x, 0) == Uses(nodes, x, k + 1)
  {
    assert PlannedNode(nodes, k);
    UnusedInput(nodes[k].inputs, x);
    if k > 0 {
      UsesLater(nodes, x, k - 1);
    }
  }

  /** What UpdateRefName computes for node k. */
  ghost predicate Updates(refs: Refs, node: Node, refs': Refs, gone: set<string>) {
    var c := Consume(refs, node.inputs);
    var d := Declare(c.0, node.outputs);
    d.Ok? && refs' == d.value.0 && gone == Names(c.1) + Names(d.value.1)
  }

  lemma GoneNames(refs: Refs, node: Node, refs': Refs) returns (gone: set<string>)
    requires
      var c := Consume(refs, node.inputs);
      var d := Declare(c.0, node.outputs);
      d.Ok? && refs' == d.value.0
    ensures
      var c := Consume(refs, node.inputs);
      Updates(refs, node, refs', gone) && gone == Names(c.1 + Declare(c.0, node.outputs).value.1)
  {
    var c := Consume(refs, node.inputs);
    gone := Names(c.1 + Declare(c.0, node.outputs).value.1);
  }

  /** The counts of an old name: what is left of it decides, and it is gone when that is nothing. */
  lemma OldName(nodes: seq<Node>, k: nat, refs: Refs, refs': Refs, gone: set<string>, x: string)
    requires WellPlanned(nodes) && k < |nodes| && Tracks(refs, nodes, k) && Updates(refs, nodes[k], refs', gone)
    requires x !in OutputNames(nodes[k].outputs)
    ensures x in refs' <==> x in Live(nodes, k + 1)
    ensures x in refs' ==> refs'[x] == Uses(nodes, x, k + 1)
    ensures x in gone <==> x in Live(nodes, k) && x !in Live(nodes, k + 1)
  {
    var c := Consume(refs, nodes[k].inputs);
    ConsumeOccurrences(refs, nodes[k].inputs, x);
    ConsumedKeys(nodes, k, refs);
    DeclareOthers(c.0, nodes[k].outputs, x);
    assert x in Produced(nodes, k + 1) <==> x in Produced(nodes, k);
    if x !in Names(nodes[k].inputs) {
      UnusedInput(nodes[k].inputs, x);
    }
  }

  lemma ConsumedKeys(nodes: seq<Node>, k: nat, refs: Refs)
    requires WellPlanned(nodes) && k < |nodes| && Tracks(refs, nodes, k)
    ensures Fresh(Consume(refs, nodes[k].inputs).0.Keys, nodes[k].outputs)
  {
    assert PlannedNode(nodes, k);
    var c := Consume(refs, nodes[k].inputs).0;
    forall x | x in c ensures x in Produced(nodes, k) {
      ConsumeOccurrences(refs, nodes[k].inputs, x);
    }
  }

  /** The counts of a new name. */
  lemma NewName(nodes: seq<Node>, k: nat, refs: Refs, refs': Refs, gone: set<string>, i: nat)
    requires WellPlanned(nodes) && k < |nodes| && Tracks(refs, nodes, k) && Updates(refs, nodes[k], refs', gone)
    requires i < |nodes[k].outputs|
    ensures
      var x := nodes[k].outputs[i].name;
      && (x in refs' <==> x in Live(nodes, k + 1))
      && (x in refs' ==> refs'[x] == Uses(nodes, x, k + 1))
      && (x in gone <==> x !in Live(nodes, k + 1))
  {
    assert PlannedNode(nodes, k);
    var x := nodes[k].outputs[i].name;
    var c := Consume(refs, nodes[k].inputs);
    ConsumeOccurrences(refs, nodes[k].inputs, x);
    ConsumedKeys(nodes, k, refs);
    DeclareAt(c.0, nodes[k].outputs, i);
    UsesLater(nodes, x, k);
    assert OutputNames(nodes[k].outputs)[i] == x;
    assert x in Produced(nodes, k + 1);
  }

  /** After node k the counts are those of the live names, and exactly the names that were
      live or new and are not live any more are removed. */
  lemma RefsStep(nodes: seq<Node>, k: nat, refs: Refs, refs': Refs, gone: set<string>)
    requires WellPlanned(nodes) && k < |nodes| && Tracks(refs, nodes, k) && Updates(refs, nodes[k], refs', gone)
    ensures Tracks(refs', nodes, k + 1)
    ensures Live(nodes, k + 1) == Live(nodes, k) + Names(OutputNames(nodes[k].outputs)) - gone
    ensures gone == Live(nodes, k) + Names(OutputNames(nodes[k].outputs)) - Live(nodes, k + 1)
  {
    forall x: string
      ensures x in refs' <==> x in Live(nodes, k + 1)
      ensures x in refs' ==> refs'[x] == Uses(nodes, x, k + 1)
      ensures x in gone <==> (x in Live(nodes, k) || x in OutputNames(nodes[k].outputs)) && x !in Live(nodes, k + 1)
    {
      if x in OutputNames(nodes[k].outputs) {
        var i :| 0 <= i < |nodes[k].outputs| && OutputNames(nodes[k].outputs)[i] == x;
        NewName(nodes, k, refs, refs', gone, i);
      } else {
        OldName(nodes, k, refs, refs', gone, x);
      }
    }
    forall x | x in Live(nodes, k + 1) ensures x in Live(nodes, k) + Names(OutputNames(nodes[k].outputs)) {
      assert Uses(nodes, x, k) >= Uses(nodes, x, k + 1);
    }
  }

  // ---- runs that never remove anything

  function ReadAll(table: Table, names: seq<string>): (r: seq<Tensor>)
    ensures |r| == |names|
  {
    seq(|names|, i requires 0 <= i < |names| => if names[i] in table then table[names[i]] else Plain([]))
  }

  /** The first m outputs of node k added, when it has read these inputs. */
  ghost function AddAll(table: Table, outputs: seq<Output>, eval: Eval, k: nat, read: seq<Tensor>, m: nat): Table
    requires m <= |outputs|
  {
    if m == 0 then table else AddAll(table, outputs, eval, k, read, m - 1)[outputs[m - 1].name := eval(k, read, m - 1)]
  }

  /** The table after the first k nodes when every tensor is kept. */
  ghost function Full(nodes: seq<Node>, eval: Eval, k: nat): Table
    requires k <= |nodes|
  {
    if k == 0 then map[]
    else
      var before := Full(nodes, eval, k - 1);
      var node := nodes[k - 1];
      AddAll(before, node.outputs, eval, k - 1, ReadAll(before, node.inputs), |node.outputs|)
  }

  lemma {:induction false} AddAllKeys(table: Table, outputs: seq<Output>, eval: Eval, k: nat, read: seq<Tensor>, m: nat)
    requires m <= |outputs|
    ensures AddAll(table, outputs, eval, k, read, m).Keys == table.Keys + Names(OutputNames(outputs)[..m])
  {
    if m > 0 {
      AddAllKeys(table, outputs, eval, k, read, m - 1);
      assert OutputNames(outputs)[..m] == OutputNames(outputs)[..m - 1] + [outputs[m - 1].name];
    }
  }

  lemma {:induction false} FullKeys(nodes: seq<Node>, eval: Eval, k: nat)
    requires k <= |nodes|
    ensures Full(nodes, eval, k).Keys == Produced(nodes, k)
  {
    if k > 0 {
      FullKeys(nodes, eval, k - 1);
      var before := Full(nodes, eval, k - 1);
      var node := nodes[k - 1];
      AddAllKeys(before, node.outputs, eval, k - 1, ReadAll(before, node.inputs), |node.outputs|);
      assert OutputNames(node.outputs)[..|node.outputs|] == OutputNames(node.outputs);
    }
  }

  /** What the first k nodes read when every tensor is kept. */
  ghost function TrueInputs(nodes: seq<Node>, eval: Eval, k: nat): seq<seq<Tensor>>
    requires k <= |nodes|
  {
    if k == 0 then [] else TrueInputs(nodes, eval, k - 1) + [ReadAll(Full(nodes, eval, k - 1), nodes[k - 1].inputs)]
  }

  // ---- who reads what

  lemma {:induction false} AddAllAt(table: Table, outputs: seq<Output>, eval: Eval, k: nat, read: seq<Tensor>, m: nat,
                                    x: string, o: nat)
    requires m <= |outputs| && Fresh(table.Keys, outputs) && o <= m
    requires if o < m then outputs[o].name == x else x in table
    ensures x in AddAll(table, outputs, eval, k, read, m)
    ensures AddAll(table, outputs, eval, k, read, m)[x] == if o < m then eval(k, read, o) else table[x]
  {
    if m > 0 && o != m - 1 {
      AddAllAt(table, outputs, eval, k, read, m - 1, x, if o < m then o else m - 1);
      assert outputs[m - 1].name != x;
    }
  }

  /** An output keeps its value: what its node computed from what it read. */
  lemma {:induction false} FullAt(nodes: seq<Node>, eval: Eval, k: nat, h: nat, o: nat)
    requires WellPlanned(nodes) && h < k <= |nodes| && o < |nodes[h].outputs|
    ensures
      var x := nodes[h].outputs[o].name;
      && x in Full(nodes, eval, k)
      && Full(nodes, eval, k)[x] == eval(h, ReadAll(Full(nodes, eval, h), nodes[h].inputs), o)
  {
    var before, node, x := Full(nodes, eval, k - 1), nodes[k - 1], nodes[h].outputs[o].name;
    FullKeys(nodes, eval, k - 1);
    assert PlannedNode(nodes, k - 1);
    var m := |node.outputs|;
    if h < k - 1 {
      FullAt(nodes, eval, k - 1, h, o);
      AddAllAt(before, node.outputs, eval, k - 1, ReadAll(before, node.inputs), m, x, m);
    } else {
      AddAllAt(before, node.outputs, eval, k - 1, ReadAll(before, node.inputs), m, x, o);
    }
  }

  lemma {:induction false} TrueInputsAt(nodes: seq<Node>, eval: Eval, n: nat, k: nat)
    requires k < n <= |nodes|
    ensures |TrueInputs(nodes, eval, n)| == n
    ensures TrueInputs(nodes, eval, n)[k] == ReadAll(Full(nodes, eval, k), nodes[k].inputs)
  {
    if n > 1 {
      TrueInputsAt(nodes, eval, n - 1, if k < n - 1 then k else 0);
    }
  }

  /** Only an earlier node can produce an input. */
  lemma ProducerIsEarlier(nodes: seq<Node>, k: nat, i: nat, h: nat, o: nat)
    requires WellPlanned(nodes) && k < |nodes| && i < |nodes[k].inputs| && h < |nodes| && o < |nodes[h].outputs|
    requires nodes[h].outputs[o].name == nodes[k].inputs[i]
    ensures h < k
  {
    var x := nodes[k].inputs[i];
    assert PlannedNode(nodes, k) && x in Names(nodes[k].inputs);
    if k <= h {
      assert PlannedNode(nodes, h) && x !in Produced(nodes, h);
      ProducedGrows(nodes, k, h);
    }
  }

  lemma {:induction false} ProducedGrows(nodes: seq<Node>, k: nat, h: nat)
    requires k <= h <= |nodes|
    ensures Produced(nodes, k) <= Produced(nodes, h)
    decreases h
  {
    if k < h {
      ProducedGrows(nodes, k, h - 1);
    }
  }

  /** Every node has read, in the order of its inputs, what the nodes that produce them computed. */
  ghost predicate ReadsOutputs(seen: seq<seq<Tensor>>, nodes: seq<Node>, eval: Eval) {
    && |seen| <= |nodes| && (forall k :: 0 <= k < |seen| ==> |seen[k]| == |nodes[k].inputs|)
    && forall k, i, h, o {:trigger seen[k][i], nodes[h].outputs[o]} ::
         (&& 0 <= k < |seen| && 0 <= i < |seen[k]| && 0 <= h < |nodes| && 0 <= o < |nodes[h].outputs|
          && nodes[h].outputs[o].name == nodes[k].inputs[i])
           ==> h < k && seen[k][i] == eval(h, seen[h], o)
  }

  lemma TrueInputsRead(nodes: seq<Node>, eval: Eval, n: nat)
    requires WellPlanned(nodes) && n <= |nodes|
    ensures ReadsOutputs(TrueInputs(nodes, eval, n), nodes, eval)
  {
    var seen := TrueInputs(nodes, eval, n);
    if n > 0 {
      forall k | 0 <= k < n ensures |seen| == n && seen[k] == ReadAll(Full(nodes, eval, k), nodes[k].inputs) {
        TrueInputsAt(nodes, eval, n, k);
      }
      TrueInputsAt(nodes, eval, n, 0);
    }
    forall k, i, h, o | 0 <= k < n && 0 <= i < |nodes[k].inputs| && 0 <= h < |nodes| && 0 <= o < |nodes[h].outputs|
                        && nodes[h].outputs[o].name == nodes[k].inputs[i]
      ensures h < k && seen[k][i] == eval(h, seen[h], o)
    {
      ProducerIsEarlier(nodes, k, i, h, o);
      FullAt(nodes, eval, k, h, o);
    }
  }

  /** The loop of DelTensors: a name leaves the tensor table, or else is deleted, as it is, from
      the device symbols. */
  function Delete(tensors: Table, symbols: Table, names: seq<string>): (r: (Table, Table)) {
    if names == [] then (tensors, symbols)
    else
      var n := |names| - 1;
      var before := Delete(tensors, symbols, names[..n]);
      if names[n] in before.0 then (before.0 - {names[n]}, before.1) else (before.0, before.1 - {names[n]})
  }

  /** Names listed once leave the table; those that are not in it are deleted as symbols. */
  lemma {:induction false} DeleteAll(tensors: Table, symbols: Table, names: seq<string>, gone: set<string>)
    requires Distinct(names) && gone == Names(names)
    ensures Delete(tensors, symbols, names) == (tensors - gone, symbols - (gone - tensors.Keys))
  {
    if names == [] {
      assert tensors - gone == tensors && symbols - (gone - tensors.Keys) == symbols;
    } else {
      var n := |names| - 1;
      var before, x := Names(names[..n]), names[n];
      DeleteAll(tensors, symbols, names[..n], before);
      assert names == names[..n] + [x];
      assert gone == before + {x} && x !in before;
      assert x in tensors - before <==> x in tensors;
      assert tensors - gone == if x in tensors then tensors - before - {x} else tensors - before;
      assert symbols - (gone - tensors.Keys)
        == if x in tensors then symbols - (before - tensors.Keys) else symbols - (before - tensors.Keys) - {x};
    }
  }

  // ---- which names are where

  /** The names of the secret, and of the other, outputs among the first m. */
  ghost function SecretNames(outputs: seq<Output>, m: nat): set<string>
    requires m <= |outputs|
  {
    if m == 0 then {} else SecretNames(outputs, m - 1) + if outputs[m - 1].secret then {outputs[m - 1].name} else {}
  }

  ghost function PlainNames(outputs: seq<Output>, m: nat): set<string>
    requires m <= |outputs|
  {
    if m == 0 then {} else PlainNames(outputs, m - 1) + if outputs[m - 1].secret then {} else {outputs[m - 1].name}
  }

  /** The secret names among those the first k nodes have produced. */
  ghost function Secrets(nodes: seq<Node>, k: nat): set<string>
    requires k <= |nodes|
  {
    if k == 0 then {} else Secrets(nodes, k - 1) + SecretNames(nodes[k - 1].outputs, |nodes[k - 1].outputs|)
  }

  /** The names UpdateRefName removes after node k: live or new, and without uses left. */
  ghost function Released(nodes: seq<Node>, k: nat): set<string>
    requires k < |nodes|
  {
    Live(nodes, k) + Names(OutputNames(nodes[k].outputs)) - Live(nodes, k + 1)
  }

  /** The symbol of the secret tensor x has been deleted before node k, by the release of a
      secret tensor that is called like the symbol. */
  ghost predicate Dropped(nodes: seq<Node>, x: string, k: nat)
    requires k <= |nodes|
  {
    k > 0 &&
    (Dropped(nodes, x, k - 1)
     || (x in Secrets(nodes, k) && ValueName(x) in Secrets(nodes, k) && ValueName(x) in Released(nodes, k - 1)))
  }

  /** The secret tensors whose symbols are there before node k. */
  ghost function Kept(nodes: seq<Node>, k: nat): set<string>
    requires k <= |nodes|
  {
    set x | x in Secrets(nodes, k) && !Dropped(nodes, x, k)
  }

  lemma {:induction false} SplitNames(outputs: seq<Output>, m: nat)
    requires m <= |outputs|
    ensures SecretNames(outputs, m) + PlainNames(outputs, m) == Names(OutputNames(outputs)[..m])
  {
    if m > 0 {
      SplitNames(outputs, m - 1);
      var names := OutputNames(outputs);
      assert names[..m] == names[..m - 1] + [names[m - 1]];
      assert Names(names[..m]) == Names(names[..m - 1]) + {names[m - 1]};
    }
  }

  lemma {:induction false} SplitDisjoint(known: set<string>, outputs: seq<Output>, m: nat)
    requires m <= |outputs| && Fresh(known, outputs)
    ensures SecretNames(outputs, m) !! PlainNames(outputs, m)
  {
    if m > 0 {
      SplitDisjoint(known, outputs, m - 1);
      var x := outputs[m - 1].name;
      assert x !in SecretNames(outputs, m - 1) && x !in PlainNames(outputs, m - 1) by {
        SplitNames(outputs, m - 1);
        NotBefore(known, outputs, m - 1);
      }
    }
  }

  lemma FreshNames(known: set<string>, outputs: seq<Output>)
    requires Fresh(known, outputs)
    ensures known !! Names(OutputNames(outputs))
  {
  }

  lemma {:induction false} SecretsProduced(nodes: seq<Node>, k: nat)
    requires k <= |nodes|
    ensures Secrets(nodes, k) <= Produced(nodes, k)
  {
    if k > 0 {
      SecretsProduced(nodes, k - 1);
      var outputs := nodes[k - 1].outputs;
      SplitNames(outputs, |outputs|);
      assert OutputNames(outputs)[..|outputs|] == OutputNames(outputs);
    }
  }

  lemma {:induction false} DroppedIsSecret(nodes: seq<Node>, x: string, k: nat)
    requires k <= |nodes| && Dropped(nodes, x, k)
    ensures x in Secrets(nodes, k)
  {
    if Dropped(nodes, x, k - 1) {
      DroppedIsSecret(nodes, x, k - 1);
    }
  }

  /** The names of node k's outputs, split, and new. */
  lemma NewNames(nodes: seq<Node>, k: nat, plain: set<string>, secret: set<string>)
    requires WellPlanned(nodes) && k < |nodes|
    requires plain == PlainNames(nodes[k].outputs, |nodes[k].outputs|)
    requires secret == SecretNames(nodes[k].outputs, |nodes[k].outputs|)
    ensures Names(OutputNames(nodes[k].outputs)) == secret + plain && secret !! plain
    ensures Produced(nodes, k) !! secret + plain
    ensures Secrets(nodes, k) <= Produced(nodes, k) && Live(nodes, k) <= Produced(nodes, k)
    ensures Secrets(nodes, k + 1) == Secrets(nodes, k) + secret
  {
    var outputs := nodes[k].outputs;
    assert PlannedNode(nodes, k);
    FreshNames(Produced(nodes, k), outputs);
    SplitNames(outputs, |outputs|);
    SplitDisjoint(Produced(nodes, k), outputs, |outputs|);
    SecretsProduced(nodes, k);
    assert OutputNames(outputs)[..|outputs|] == OutputNames(outputs);
  }

  /** What stays in the tensor table: the private names that are still live. */
  lemma TableStep(nodes: seq<Node>, k: nat, plain: set<string>, gone: set<string>)
    requires WellPlanned(nodes) && k < |nodes| && gone == Released(nodes, k)
    requires plain == PlainNames(nodes[k].outputs, |nodes[k].outputs|)
    requires Live(nodes, k + 1) == Live(nodes, k) + Names(OutputNames(nodes[k].outputs)) - gone
    ensures Live(nodes, k) - Secrets(nodes, k) + plain - gone == Live(nodes, k + 1) - Secrets(nodes, k + 1)
    ensures gone - (Live(nodes, k) - Secrets(nodes, k) + plain) == gone * Secrets(nodes, k + 1)
  {
    NewNames(nodes, k, plain, SecretNames(nodes[k].outputs, |nodes[k].outputs|));
  }

  /** What stays among the symbols: all but those that are called like a released secret. */
  lemma KeptStep(nodes: seq<Node>, k: nat, secret: set<string>, out: set<string>)
    requires WellPlanned(nodes) && k < |nodes| && out == Released(nodes, k) * Secrets(nodes, k + 1)
    requires secret == SecretNames(nodes[k].outputs, |nodes[k].outputs|)
    ensures Kept(nodes, k + 1) == set x | x in Kept(nodes, k) + secret && ValueName(x) !in out
  {
    NewNames(nodes, k, PlainNames(nodes[k].outputs, |nodes[k].outputs|), secret);
    forall x | x in secret ensures !Dropped(nodes, x, k) {
      if Dropped(nodes, x, k) {
        DroppedIsSecret(nodes, x, k);
      }
    }
  }

  // ---- the session

  /** The tensor table holds exactly these names, with the values they have in the full table. */
  ghost predicate Holds(tensors: Table, full: Table, names: set<string>) {
    tensors.Keys == names && forall x :: x in tensors ==> x in full && tensors[x] == full[x]
  }

  /** The device symbols are exactly the value names of these names, with their values. */
  ghost predicate Symbols(symbols: Table, full: Table, kept: set<string>) {
    && symbols.Keys == ValueNames(kept)
    && forall x :: x in kept ==> ValueName(x) in symbols && x in full && symbols[ValueName(x)] == full[x]
  }

  lemma HoldsAdd(tensors: Table, full: Table, names: set<string>, x: string, v: Tensor)
    requires Holds(tensors, full, names) && x !in full
    ensures Holds(tensors, full[x := v], names) && Holds(tensors[x := v], full[x := v], names + {x})
  {
  }

  lemma SymbolsAdd(symbols: Table, full: Table, kept: set<string>, x: string, v: Tensor)
    requires Symbols(symbols, full, kept) && x !in full
    ensures Symbols(symbols, full[x := v], kept)
    ensures Symbols(symbols[ValueName(x) := v], full[x := v], kept + {x})
  {
    forall y | y in kept ensures ValueName(y) != ValueName(x) {
      if ValueName(y) == ValueName(x) {
        ValueNameInjective(y, x);
      }
    }
    assert ValueNames(kept + {x}) == ValueNames(kept) + {ValueName(x)};
  }

  lemma SymbolsRemove(symbols: Table, full: Table, kept: set<string>, out: set<string>, kept': set<string>)
    requires Symbols(symbols, full, kept) && kept' == set x | x in kept && ValueName(x) !in out
    ensures Symbols(symbols - out, full, kept')
  {
    forall s ensures s in ValueNames(kept') <==> s in ValueNames(kept) - out {
    }
  }

  /** Both stores with the first m outputs added. */
  ghost predicate Added(tensors: Table, symbols: Table, full: Table, outputs: seq<Output>, m: nat,
                        live: set<string>, kept: set<string>)
    requires m <= |outputs|
  {
    Holds(tensors, full, live + PlainNames(outputs, m)) && Symbols(symbols, full, kept + SecretNames(outputs, m))
  }

  /** The next output, in the store it belongs to. */
  lemma OutputAdded(tensors: Table, symbols: Table, now: Table, outputs: seq<Output>, i: nat,
                    live: set<string>, kept: set<string>, v: Tensor)
    requires i < |outputs| && outputs[i].name !in now && Added(tensors, symbols, now, outputs, i, live, kept)
    ensures
      var o := outputs[i];
      if o.secret then
        Added(tensors, symbols[ValueName(o.name) := v], now[o.name := v], outputs, i + 1, live, kept)
      else
        o.name !in tensors && Added(tensors[o.name := v], symbols, now[o.name := v], outputs, i + 1, live, kept)
  {
    var o := outputs[i];
    HoldsAdd(tensors, now, live + PlainNames(outputs, i), o.name, v);
    SymbolsAdd(symbols, now, kept + SecretNames(outputs, i), o.name, v);
    if o.secret {
      assert kept + SecretNames(outputs, i + 1) == kept + SecretNames(outputs, i) + {o.name};
    } else {
      assert live + PlainNames(outputs, i + 1) == live + PlainNames(outputs, i) + {o.name};
    }
  }

  lemma NextOutput(full: Table, outputs: seq<Output>, eval: Eval, k: nat, read: seq<Tensor>, i: nat)
    requires i < |outputs| && Fresh(full.Keys, outputs)
    ensures outputs[i].name !in AddAll(full, outputs, eval, k, read, i)
  {
    NotBefore(full.Keys, outputs, i);
    AddAllKeys(full, outputs, eval, k, read, i);
  }

  lemma NotBefore(known: set<string>, outputs: seq<Output>, i: nat)
    requires i < |outputs| && Fresh(known, outputs)
    ensures outputs[i].name !in known + Names(OutputNames(outputs)[..i])
  {
  }

  class Session {
    var tensors: Table  // tensor_table_
    var symbols: Table  // device_symbols_
    var refs: Refs      // tensor_ref_nums_

    constructor ()
      ensures tensors == map[] && symbols == map[] && refs == map[]
    {
      tensors, symbols, refs := map[], map[], map[];
    }

    method DelTensors(names: seq<string>)
      modifies this`tensors, this`symbols
      ensures (tensors, symbols) == Delete(old(tensors), old(symbols), names)
    {
      for i := 0 to |names|
        invariant (tensors, symbols) == Delete(old(tensors), old(symbols), names[..i])
      {
        assert names[..i + 1][..i] == names[..i];
        if names[i] in tensors {
          tensors := tensors - {names[i]};
        } else {
          symbols := symbols - {names[i]};
        }
      }
      assert names[..|names|] == names;
    }

    method ConsumeInputs(names: seq<string>) returns (gone: seq<string>)
      modifies this`refs
      ensures (refs, gone) == Consume(old(refs), names)
    {
      gone := [];
      for i := 0 to |names|
        invariant (refs, gone) == Consume(old(refs), names[..i])
      {
        assert names[..i + 1][..i] == names[..i];
        var x := names[i];
        if x in refs {
          ghost var before := refs;
          refs := refs[x := refs[x] - 1];
          if refs[x] == 0 {
            gone := gone + [x];
            refs := refs - {x};
            assert refs == before - {x};
          }
        }
      }
      assert names[..|names|] == names;
    }

    method DeclareOutputs(outputs: seq<Output>) returns (r: Result<seq<string>>)
      modifies this`refs
      ensures r.Ok? <==> Declare(old(refs), outputs).Ok?
      ensures r.Ok? ==> Declare(old(refs), outputs) == Ok((refs, r.value))
    {
      var gone: seq<string> := [];
      for i := 0 to |outputs|
        invariant Declare(old(refs), outputs[..i]) == Ok((refs, gone))
      {
        assert outputs[..i + 1][..i] == outputs[..i];
        var o := outputs[i];
        if o.refNum == 0 {
          gone := gone + [o.name];
        } else {
          if o.name in refs {
            DeclareFails(old(refs), outputs, i + 1);
            return Err("ref num was set before created");
          }
          refs := refs[o.name := o.refNum];
        }
      }
      assert outputs[..|outputs|] == outputs;
      return Ok(gone);
    }

    /** A private input is read from the table, a secret one from its symbol. */
    method ReadInputs(names: seq<string>, ghost full: Table, ghost live: set<string>, ghost kept: set<string>)
      returns (r: Result<seq<Tensor>>)
      requires Holds(tensors, full, live) && Symbols(symbols, full, kept)
      ensures r.Ok? <==> Names(names) <= live + kept
      ensures r.Ok? ==> r.value == ReadAll(full, names)
      ensures r.Ok? ==> |r.value| == |names| && forall i :: 0 <= i < |names| ==>
        if names[i] in tensors then r.value[i] == tensors[names[i]]
        else ValueName(names[i]) in symbols && r.value[i] == symbols[ValueName(names[i])]
    {
      var read: seq<Tensor> := [];
      for i := 0 to |names|
        invariant Names(names[..i]) <= live + kept && read == ReadAll(full, names[..i])
        invariant forall h :: 0 <= h < i ==>
          if names[h] in tensors then read[h] == tensors[names[h]]
          else ValueName(names[h]) in symbols && read[h] == symbols[ValueName(names[h])]
      {
        var x := names[i];
        assert names[..i + 1] == names[..i] + [x];
        InValueNames(kept, x);
        if x in tensors {
          read := read + [tensors[x]];
        } else if ValueName(x) in symbols {
          read := read + [symbols[ValueName(x)]];
        } else {
          assert x in Names(names);
          return Err("tensor not found");
        }
      }
      assert names[..|names|] == names;
      return Ok(read);
    }

    method AddOutputs(k: nat, outputs: seq<Output>, eval: Eval, read: seq<Tensor>, ghost full: Table,
                      ghost live: set<string>, ghost kept: set<string>)
      returns (r: Result<()>)
      requires Holds(tensors, full, live) && Symbols(symbols, full, kept)
      modifies this`tensors, this`symbols
      ensures Fresh(full.Keys, outputs) ==>
        && r.Ok?
        && Added(tensors, symbols, AddAll(full, outputs, eval, k, read, |outputs|), outputs, |outputs|, live, kept)
    {
      for i := 0 to |outputs|
        invariant Fresh(full.Keys, outputs) ==>
          Added(tensors, symbols, AddAll(full, outputs, eval, k, read, i), outputs, i, live, kept)
      {
        var o := outputs[i];
        if Fresh(full.Keys, outputs) {
          NextOutput(full, outputs, eval, k, read, i);
          OutputAdded(tensors, symbols, AddAll(full, outputs, eval, k, read, i), outputs, i, live, kept,
                      eval(k, read, i));
        }
        if o.secret {
          symbols := symbols[ValueName(o.name) := eval(k, read, i)];
        } else {
          if o.name in tensors {
            return Err("tensor already exists in TensorTable");
          }
          tensors := tensors[o.name := eval(k, read, i)];
        }
      }
      return Ok(());
    }

    method UpdateRefName(node: Node) returns (r: Result<()>)
      modifies this
      ensures r.Ok? <==> Declare(Consume(old(refs), node.inputs).0, node.outputs).Ok?
      ensures r.Ok? ==> Updated(node, old(refs), old(tensors), old(symbols))
    {
      var consumed := ConsumeInputs(node.inputs);
      var unused := DeclareOutputs(node.outputs);
      if unused.Err? {
        return Err(unused.error);
      }
      DelTensors(consumed + unused.value);
      return Ok(());
    }

    /** The new counts, and both stores without the names that are gone. */
    ghost predicate Updated(node: Node, refs0: Refs, tensors0: Table, symbols0: Table)
      reads this
    {
      var c := Consume(refs0, node.inputs);
      var d := Declare(c.0, node.outputs);
      d.Ok? && refs == d.value.0 && (tensors, symbols) == Delete(tensors0, symbols0, c.1 + d.value.1)
    }

    /** Before node k: the counts are the uses left, the table holds the private names that are
        live, and the symbols are those of all secret tensors so far but the dropped ones. */
    ghost predicate Managed(nodes: seq<Node>, eval: Eval, k: nat)
      requires k <= |nodes|
      reads this
    {
      && Tracks(refs, nodes, k)
      && Holds(tensors, Full(nodes, eval, k), Live(nodes, k) - Secrets(nodes, k))
      && Symbols(symbols, Full(nodes, eval, k), Kept(nodes, k))
    }

    /** Operator::Run: execute, then release.  The node finds all its inputs, with their true
        values, unless the symbol of one of them has been dropped. */
    method RunNode(nodes: seq<Node>, eval: Eval, k: nat) returns (r: Result<seq<Tensor>>)
      requires k < |nodes| && WellPlanned(nodes) && Managed(nodes, eval, k)
      modifies this
      ensures r.Ok? <==> Readable(nodes, k)
      ensures r.Ok? ==> r.value == ReadAll(Full(nodes, eval, k), nodes[k].inputs) && Managed(nodes, eval, k + 1)
      ensures r.Ok? ==> forall i :: 0 <= i < |nodes[k].inputs| ==>
        nodes[k].inputs[i] in Full(nodes, eval, k) && r.value[i] == Full(nodes, eval, k)[nodes[k].inputs[i]]
    {
      var node := nodes[k];
      ghost var full, live, kept := Full(nodes, eval, k), Live(nodes, k) - Secrets(nodes, k), Kept(nodes, k);
      FullKeys(nodes, eval, k);
      InputsLive(nodes, k);
      ReadableInputs(nodes, k);
      r := ReadInputs(node.inputs, full, live, kept);
      if r.Err? {
        return;
      }
      var added := AddOutputs(k, node.outputs, eval, r.value, full, live, kept);
      Release(nodes, eval, k);
    }

    /** ManageTensorLifecycle after the outputs of node k have been added. */
    method Release(nodes: seq<Node>, ghost eval: Eval, k: nat)
      requires k < |nodes| && WellPlanned(nodes) && Tracks(refs, nodes, k)
      requires Holds(tensors, Full(nodes, eval, k + 1),
                     Live(nodes, k) - Secrets(nodes, k) + PlainNames(nodes[k].outputs, |nodes[k].outputs|))
      requires Symbols(symbols, Full(nodes, eval, k + 1),
                       Kept(nodes, k) + SecretNames(nodes[k].outputs, |nodes[k].outputs|))
      modifies this
      ensures Managed(nodes, eval, k + 1)
    {
      ghost var tensors0, symbols0, refs0 := tensors, symbols, refs;
      ListsOnce(nodes, k, refs);
      var updated := UpdateRefName(nodes[k]);
      ghost var gone := GoneNames(refs0, nodes[k], refs);
      ghost var c := Consume(refs0, nodes[k].inputs);
      DeleteAll(tensors0, symbols0, c.1 + Declare(c.0, nodes[k].outputs).value.1, gone);
      RefsStep(nodes, k, refs0, refs, gone);
      ghost var out := Released(nodes, k) * Secrets(nodes, k + 1);
      TableStep(nodes, k, PlainNames(nodes[k].outputs, |nodes[k].outputs|), gone);
      KeptStep(nodes, k, SecretNames(nodes[k].outputs, |nodes[k].outputs|), out);
      SymbolsRemove(symbols0, Full(nodes, eval, k + 1),
                    Kept(nodes, k) + SecretNames(nodes[k].outputs, |nodes[k].outputs|), out, Kept(nodes, k + 1));
    }

    /** Any first part of a planned run: it gets through exactly when every node still finds its
        secret inputs, and then each has read what it would read if nothing were ever removed. */
    method RunNodes(nodes: seq<Node>, eval: Eval, stop: nat) returns (r: Result<seq<seq<Tensor>>>)
      requires WellPlanned(nodes) && stop <= |nodes| && Managed(nodes, eval, 0)
      modifies this
      ensures r.Ok? <==> AllReadable(nodes, stop)
      ensures r.Ok? ==> r.value == TrueInputs(nodes, eval, stop) && Managed(nodes, eval, stop)
      ensures r.Ok? ==> |r.value| == stop && ReadsOutputs(r.value, nodes, eval)
    {
      var seen: seq<seq<Tensor>> := [];
      var k := 0;
      while k < stop
        invariant k <= stop && Managed(nodes, eval, k) && seen == TrueInputs(nodes, eval, k) && |seen| == k
        invariant AllReadable(nodes, k)
      {
        var read := RunNode(nodes, eval, k);
        AllReadableStep(nodes, k, stop);
        if read.Err? {
          return Err(read.error);
        }
        seen := seen + [read.value];
        k := k + 1;
      }
      TrueInputsRead(nodes, eval, stop);
      r := Ok(seen);
    }

    /** A whole planned run on a new session.  Table and counts end empty; the symbols of the
        secret tensors stay, so the symbols end empty exactly when there was no secret tensor. */
    method RunPlan(nodes: seq<Node>, eval: Eval) returns (r: Result<seq<seq<Tensor>>>)
      requires WellPlanned(nodes) && tensors == map[] && symbols == map[] && refs == map[]
      modifies this
      ensures r.Ok? <==> AllReadable(nodes, |nodes|)
      ensures r.Ok? ==> r.value == TrueInputs(nodes, eval, |nodes|) && tensors == map[] && refs == map[]
      ensures r.Ok? ==> |r.value| == |nodes| && forall k :: 0 <= k < |nodes| ==> |r.value[k]| == |nodes[k].inputs|
      ensures r.Ok? ==> forall k, i, h, o {:trigger r.value[k][i], nodes[h].outputs[o]} ::
        (&& 0 <= k < |nodes| && 0 <= i < |nodes[k].inputs| && 0 <= h < |nodes| && 0 <= o < |nodes[h].outputs|
         && nodes[h].outputs[o].name == nodes[k].inputs[i])
          ==> r.value[k][i] == eval(h, r.value[h], o)
      ensures r.Ok? ==> symbols.Keys == ValueNames(Kept(nodes, |nodes|))
      ensures r.Ok? ==> (symbols == map[] <==> Secrets(nodes, |nodes|) == {})
    {
      NothingLive(nodes);
      assert ValueNames(Kept(nodes, 0)) == {};
      r := RunNodes(nodes, eval, |nodes|);
      KeptIff(nodes);
    }
  }

  /** No secret input of node k has lost its symbol. */
  ghost predicate Readable(nodes: seq<Node>, k: nat)
    requires k < |nodes|
  {
    forall x :: x in nodes[k].inputs && x in Secrets(nodes, k) ==> !Dropped(nodes, x, k)
  }

  ghost predicate AllReadable(nodes: seq<Node>, n: nat)
    requires n <= |nodes|
  {
    n == 0 || (AllReadable(nodes, n - 1) && Readable(nodes, n - 1))
  }

  lemma {:induction false} AllReadableStep(nodes: seq<Node>, k: nat, n: nat)
    requires k < n <= |nodes|
    ensures AllReadable(nodes, n) ==> AllReadable(nodes, k + 1) && Readable(nodes, k)
  {
    if k < n - 1 {
      AllReadableStep(nodes, k, n - 1);
    }
  }

  lemma ReadableInputs(nodes: seq<Node>, k: nat)
    requires k < |nodes| && Names(nodes[k].inputs) <= Live(nodes, k)
    ensures Readable(nodes, k) <==> Names(nodes[k].inputs) <= Live(nodes, k) - Secrets(nodes, k) + Kept(nodes, k)
  {
  }

  lemma ListsOnce(nodes: seq<Node>, k: nat, refs: Refs)
    requires k < |nodes| && WellPlanned(nodes) && Tracks(refs, nodes, k)
    ensures
      var c := Consume(refs, nodes[k].inputs);
      Declare(c.0, nodes[k].outputs).Ok? && Distinct(c.1 + Declare(c.0, nodes[k].outputs).value.1)
  {
    var c, outputs := Consume(refs, nodes[k].inputs), nodes[k].outputs;
    InputsLive(nodes, k);
    ConsumedKeys(nodes, k, refs);
    ConsumeListsOnce(refs, nodes[k].inputs);
    DeclareListsOnce(c.0, outputs);
    var d := Declare(c.0, outputs).value.1;
    forall x | x in c.1 ensures x !in d {
      ConsumeOccurrences(refs, nodes[k].inputs, x);
      assert x in Produced(nodes, k);
      DeclareOthers(c.0, outputs, x);
    }
    DistinctConcat(c.1, d);
  }

  lemma DistinctConcat(a: seq<string>, b: seq<string>)
    requires Distinct(a) && Distinct(b) && forall x :: x in a ==> x !in b
    ensures Distinct(a + b)
  {
    var s := a + b;
    forall i, j | 0 <= i < j < |s| ensures s[i] != s[j] {
      if i < |a| <= j {
        assert s[i] in a && s[j] in b;
      }
    }
  }

  lemma NothingLive(nodes: seq<Node>)
    ensures Live(nodes, 0) == {} && Live(nodes, |nodes|) == {}
  {
  }

  lemma InputsLive(nodes: seq<Node>, k: nat)
    requires k < |nodes| && WellPlanned(nodes)
    ensures Names(nodes[k].inputs) <= Live(nodes, k) && Fresh(Produced(nodes, k), nodes[k].outputs)
  {
    assert PlannedNode(nodes, k);
    forall x | x in Names(nodes[k].inputs) ensures Uses(nodes, x, k) > 0 {
      assert x in multiset(nodes[k].inputs);
    }
  }

  lemma {:induction false} SecretsGrow(nodes: seq<Node>, j: nat, k: nat)
    requires j <= k <= |nodes|
    ensures Secrets(nodes, j) <= Secrets(nodes, k)
  {
    if j < k {
      SecretsGrow(nodes, j, k - 1);
    }
  }

  /** A symbol is safe when no secret tensor is called like it. */
  lemma {:induction false} NeverDropped(nodes: seq<Node>, x: string, k: nat)
    requires k <= |nodes| && ValueName(x) !in Secrets(nodes, |nodes|)
    ensures !Dropped(nodes, x, k)
  {
    if k > 0 {
      NeverDropped(nodes, x, k - 1);
      SecretsGrow(nodes, k, |nodes|);
    }
  }

  lemma {:induction false} LongestName(names: set<string>) returns (x: string)
    requires names != {}
    ensures x in names && forall y :: y in names ==> |y| <= |x|
  {
    x :| x in names;
    if names != {x} {
      var longest := LongestName(names - {x});
      if |longest| > |x| {
        x := longest;
      }
    }
  }

  /** Some symbol stays whenever there was a secret tensor: at least the one with the longest name. */
  lemma KeptIff(nodes: seq<Node>)
    ensures ValueNames(Kept(nodes, |nodes|)) == {} <==> Secrets(nodes, |nodes|) == {}
  {
    if Secrets(nodes, |nodes|) != {} {
      var x := LongestName(Secrets(nodes, |nodes|));
      NeverDropped(nodes, x, |nodes|);
      assert ValueName(x) in ValueNames(Kept(nodes, |nodes|));
    }
  }

  /** No secret tensor is called like the symbol of another. */
  ghost predicate NoClash(nodes: seq<Node>) {
    forall x :: x in Secrets(nodes, |nodes|) ==> ValueName(x) !in Secrets(nodes, |nodes|)
  }

  /** Then every node reads its inputs, and the symbols of all secret tensors stay. */
  lemma {:induction false} AllKept(nodes: seq<Node>, k: nat)
    requires NoClash(nodes) && k <= |nodes|
    ensures Kept(nodes, k) == Secrets(nodes, k) && AllReadable(nodes, k)
  {
    if k > 0 {
      AllKept(nodes, k - 1);
    }
    forall x | x in Secrets(nodes, k) ensures !Dropped(nodes, x, k) {
      SecretsGrow(nodes, k, |nodes|);
      NeverDropped(nodes, x, k);
    }
  }

  /** One node with one secret output that nobody uses: it is released at once and stays. */
  lemma OneSecretStays(nodes: seq<Node>)
    requires nodes == [Node([], [Output("x", 0, true)])]
    ensures WellPlanned(nodes) && "x" in Released(nodes, 0)
    ensures ValueNames(Kept(nodes, 1)) == {"x.value"}
  {
    var outputs := nodes[0].outputs;
    assert outputs == [Output("x", 0, true)];
    assert OutputNames(outputs) == ["x"];
    assert SecretNames(outputs, 1) == SecretNames(outputs, 0) + {"x"};
    assert Secrets(nodes, 1) == Secrets(nodes, 0) + SecretNames(outputs, 1) == {"x"};
    assert Uses(nodes, "x", 1) == 0;
    assert Occurrences([], "x") == 0;
    assert Uses(nodes, "x", 0) == 0;
    assert PlannedNode(nodes, 0);
    assert |ValueName("x")| != |"x"|;
    NeverDropped(nodes, "x", 1);
    assert Kept(nodes, 1) == {"x"};
    assert ValueName("x") == "x.value";
  }

  lemma SingleOutput(nodes: seq<Node>, k: nat, o: Output)
    requires k < |nodes| && nodes[k].outputs == [o]
    ensures Produced(nodes, k + 1) == Produced(nodes, k) + {o.name}
    ensures Secrets(nodes, k + 1) == Secrets(nodes, k) + if o.secret then {o.name} else {}
  {
    assert OutputNames(nodes[k].outputs) == [o.name];
    assert SecretNames(nodes[k].outputs, 1) == SecretNames(nodes[k].outputs, 0) + if o.secret then {o.name} else {};
  }

  lemma LastUses(nodes: seq<Node>, x: string)
    requires |nodes| == 3
    ensures Uses(nodes, x, 3) == 0 && Uses(nodes, x, 2) == Occurrences(nodes[2].inputs, x)
    ensures Uses(nodes, x, 0) == Occurrences(nodes[0].inputs, x) + Occurrences(nodes[1].inputs, x) + Uses(nodes, x, 2)
  {
    assert Uses(nodes, x, 1) == Occurrences(nodes[1].inputs, x) + Uses(nodes, x, 2);
  }

  /** A secret tensor called "y.value" that is released takes the symbol of y with it, and a
      later node does not find y. */
  lemma ClashDrops(nodes: seq<Node>)
    requires nodes == [Node([], [Output("y", 1, true)]), Node([], [Output("y.value", 0, true)]), Node(["y"], [])]
    ensures WellPlanned(nodes) && !Readable(nodes, 2)
  {
    var y, z := "y", "y.value";
    assert ValueName(y) == z && |y| != |z|;
    SingleOutput(nodes, 0, Output(y, 1, true));
    SingleOutput(nodes, 1, Output(z, 0, true));
    LastUses(nodes, y);
    LastUses(nodes, z);
    assert nodes[2].inputs == [y] && nodes[0].inputs == nodes[1].inputs == [];
    assert PlannedNode(nodes, 0) && PlannedNode(nodes, 1) && PlannedNode(nodes, 2);
    assert OutputNames(nodes[1].outputs) == [z];
    assert z in Names([z]) && z in Released(nodes, 1);
    assert Dropped(nodes, y, 2);
    assert y in nodes[2].inputs;
  }

  lemma {:induction false} DeclareFails(refs: Refs, outputs: seq<Output>, m: nat)
    requires m <= |outputs| && Declare(refs, outputs[..m]).Err?
    ensures Declare(refs, outputs).Err?
    decreases |outputs| - m
  {
    if m == |outputs| {
      assert outputs[..m] == outputs;
    } else {
      assert outputs[..m + 1][..m] == outputs[..m];
      DeclareFails(refs, outputs, m + 1);
    }
  }
}
