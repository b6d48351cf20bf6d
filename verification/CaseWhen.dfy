/** CASE WHEN on secret columns (engine/operator/case_when.cc): conditions are turned into
    one-hot masks, and the branches are added up under their masks. */
module CaseWhen {
  import opened Columns

  datatype Cond = BoolCond(bits: seq<Bit>) | IntCond(values: Column) {
    function Size(): nat { if BoolCond? then |bits| else |values| }

    predicate Holds(r: nat)
      requires r < Size()
    {
      if BoolCond? then bits[r] == 1 else values[r] != 0
    }
  }

  // ---- column kernels

  function OrColumns(a: seq<Bit>, b: seq<Bit>): (c: seq<Bit>)
    requires |a| == |b|
    ensures |c| == |a| && forall r :: 0 <= r < |c| ==> c[r] == if a[r] == 1 || b[r] == 1 then 1 else 0
  {
    seq(|a|, r requires 0 <= r < |a| => if a[r] == 1 || b[r] == 1 then 1 else 0)
  }

  function XorColumns(a: seq<Bit>, b: seq<Bit>): (c: seq<Bit>)
    requires |a| == |b|
    ensures |c| == |a| && forall r :: 0 <= r < |c| ==> c[r] == if a[r] == b[r] then 0 else 1
  {
    seq(|a|, r requires 0 <= r < |a| => if a[r] == b[r] then 0 else 1)
  }

  function NotEqualZero(v: Column): (c: seq<Bit>)
    ensures |c| == |v| && forall r :: 0 <= r < |c| ==> c[r] == if v[r] != 0 then 1 else 0
  {
    seq(|v|, r requires 0 <= r < |v| => if v[r] != 0 then 1 else 0)
  }

  /** acc + mask * v, row by row. */
  function AddMasked(acc: Column, mask: seq<Bit>, v: Column): (c: Column)
    requires |acc| == |mask| == |v|
    ensures |c| == |acc| && forall r :: 0 <= r < |c| ==> c[r] == acc[r] + if mask[r] == 1 then v[r] else 0
  {
    seq(|acc|, r requires 0 <= r < |acc| => acc[r] + mask[r] * v[r])
  }

  // ---- what is computed

  ghost predicate Rectangular(conds: seq<Cond>, n: nat) {
    forall i :: 0 <= i < |conds| ==> conds[i].Size() == n
  }

  /** The first of the conditions from h on that holds in row r, or their number. */
  function First(conds: seq<Cond>, n: nat, r: nat, h: nat): (f: nat)
    requires Rectangular(conds, n) && r < n && h <= |conds|
    ensures h <= f <= |conds|
    ensures f < |conds| ==> conds[f].Holds(r)
    ensures forall i :: h <= i < f ==> !conds[i].Holds(r)
    decreases |conds| - h
  {
    if h == |conds| || conds[h].Holds(r) then h else First(conds, n, r, h + 1)
  }

  /** Mask i marks the rows whose first condition is at most i. */
  ghost predicate Upto(mask: seq<Bit>, conds: seq<Cond>, n: nat, i: nat)
    requires Rectangular(conds, n)
  {
    |mask| == n && forall r :: 0 <= r < n ==> mask[r] == if First(conds, n, r, 0) <= i then 1 else 0
  }

  /** Mask i marks the rows whose first condition is i. */
  ghost predicate Exactly(mask: seq<Bit>, conds: seq<Cond>, n: nat, i: nat)
    requires Rectangular(conds, n)
  {
    |mask| == n && forall r :: 0 <= r < n ==> mask[r] == if First(conds, n, r, 0) == i then 1 else 0
  }

  function CondBits(c: Cond): seq<Bit> { if c.BoolCond? then c.bits else NotEqualZero(c.values) }

  lemma UptoFirst(conds: seq<Cond>, n: nat)
    requires Rectangular(conds, n) && conds != []
    ensures Upto(CondBits(conds[0]), conds, n, 0)
  {
  }

  lemma UptoNext(conds: seq<Cond>, n: nat, i: nat, pre: seq<Bit>)
    requires Rectangular(conds, n) && 0 < i < |conds| && Upto(pre, conds, n, i - 1)
    ensures |CondBits(conds[i])| == n && Upto(OrColumns(CondBits(conds[i]), pre), conds, n, i)
  {
  }

  lemma XorIsExact(conds: seq<Cond>, n: nat, i: nat, cur: seq<Bit>, pre: seq<Bit>)
    requires Rectangular(conds, n) && 0 < i && Upto(cur, conds, n, i) && Upto(pre, conds, n, i - 1)
    ensures Exactly(XorColumns(cur, pre), conds, n, i)
  {
  }

  /** The first condition that holds, read off the columns. */
  lemma FirstTrue(conds: seq<Cond>, n: nat, r: nat, c: nat)
    requires Rectangular(conds, n) && r < n && c <= |conds|
    ensures First(conds, n, r, 0) == c <==>
      && (c < |conds| ==> if conds[c].BoolCond? then conds[c].bits[r] == 1 else conds[c].values[r] != 0)
      && forall h :: 0 <= h < c ==> if conds[h].BoolCond? then conds[h].bits[r] == 0 else conds[h].values[r] == 0
  {
    var f := First(conds, n, r, 0);
    assert forall h :: 0 <= h < f ==> !conds[h].Holds(r);
    if f < c {
      assert conds[f].Holds(r);
    }
  }

  /** Prefix OR, forwards. */
  method PrefixOr(conds: seq<Cond>, n: nat) returns (result: array<seq<Bit>>)
    requires Rectangular(conds, n) && conds != []
    ensures fresh(result) && result.Length == |conds| + 1
    ensures forall i :: 0 <= i <= |conds| ==> Upto(result[i], conds, n, i)
  {
    result := new seq<Bit>[|conds| + 1];
    var pre := CondBits(conds[0]);
    result[0] := pre;
    UptoFirst(conds, n);
    for i := 1 to |conds|
      invariant Upto(pre, conds, n, i - 1)
      invariant forall h :: 0 <= h < i ==> Upto(result[h], conds, n, h)
    {
      UptoNext(conds, n, i, pre);
      pre := OrColumns(CondBits(conds[i]), pre);
      result[i] := pre;
    }
    result[|conds|] := seq(n, _ => 1);
  }

  /** XOR with the mask before, backwards and in place: exactly one 1 is left in each row, at
      the first condition that holds or else at the end. */
  method TransformConditionData(conds: seq<Cond>, n: nat) returns (masks: seq<seq<Bit>>)
    requires Rectangular(conds, n) && conds != []
    ensures |masks| == |conds| + 1
    ensures forall i :: 0 <= i < |masks| ==> Exactly(masks[i], conds, n, i)
    ensures forall i :: 0 <= i < |masks| ==> |masks[i]| == n
    ensures forall i, r {:trigger masks[i][r]} :: 0 <= i < |conds| && 0 <= r < n ==>
      (masks[i][r] == 1 <==>
        && (if conds[i].BoolCond? then conds[i].bits[r] == 1 else conds[i].values[r] != 0)
        && forall h :: 0 <= h < i ==> if conds[h].BoolCond? then conds[h].bits[r] == 0 else conds[h].values[r] == 0)
    ensures forall r {:trigger masks[|conds|][r]} :: 0 <= r < n ==>
      (masks[|conds|][r] == 1 <==>
        forall h :: 0 <= h < |conds| ==> if conds[h].BoolCond? then conds[h].bits[r] == 0 else conds[h].values[r] == 0)
  {
    var result := PrefixOr(conds, n);
    var i := |conds|;
    while i > 0
      invariant 0 <= i <= |conds| && result.Length == |conds| + 1
      invariant forall h :: 0 <= h <= i ==> Upto(result[h], conds, n, h)
      invariant forall h :: i < h <= |conds| ==> Exactly(result[h], conds, n, h)
    {
      XorIsExact(conds, n, i, result[i], result[i - 1]);
      result[i] := XorColumns(result[i], result[i - 1]);
      i := i - 1;
    }
    masks := result[..];
    forall c, r | 0 <= c <= |conds| && 0 <= r < n
      ensures masks[c][r] == 1 <==>
        && (c < |conds| ==> if conds[c].BoolCond? then conds[c].bits[r] == 1 else conds[c].values[r] != 0)
        && forall h :: 0 <= h < c ==> if conds[h].BoolCond? then conds[h].bits[r] == 0 else conds[h].values[r] == 0
    {
      assert Exactly(masks[c], conds, n, c);
      FirstTrue(conds, n, r, c);
    }
  }

  /** Row r of: if the first condition holds then its value, else the rest of the chain. */
  function Chain(conds: seq<Cond>, values: seq<Column>, valueElse: Column, n: nat, r: nat, h: nat): int
    requires Rectangular(conds, n) && |values| == |conds| && h <= |conds| && r < n == |valueElse|
    requires forall i :: 0 <= i < |values| ==> |values[i]| == n
    decreases |conds| - h
  {
    if h == |conds| then valueElse[r]
    else if conds[h].Holds(r) then values[h][r]
    else Chain(conds, values, valueElse, n, r, h + 1)
  }

  lemma {:induction false} ChainTakesFirst(conds: seq<Cond>, values: seq<Column>, valueElse: Column, n: nat, r: nat,
                                           h: nat)
    requires Rectangular(conds, n) && |values| == |conds| && h <= |conds| && r < n == |valueElse|
    requires forall i :: 0 <= i < |values| ==> |values[i]| == n
    ensures Chain(conds, values, valueElse, n, r, h)
         == var f := First(conds, n, r, h); if f < |conds| then values[f][r] else valueElse[r]
    decreases |conds| - h
  {
    if h < |conds| && !conds[h].Holds(r) {
      ChainTakesFirst(conds, values, valueElse, n, r, h + 1);
    }
  }

  /** CASE WHEN: the masked sum is the if/else chain, in every row; a boolean condition holds where
      it is 1, an integer one where it is not 0, and the first that holds gives the value. */
  method CaseWhenShare(conds: seq<Cond>, values: seq<Column>, valueElse: Column, n: nat) returns (out: Column)
    requires Rectangular(conds, n) && conds != [] && |values| == |conds| && |valueElse| == n
    requires forall i :: 0 <= i < |values| ==> |values[i]| == n
    ensures |out| == n
    ensures forall r :: 0 <= r < n ==> out[r] == Chain(conds, values, valueElse, n, r, 0)
    ensures forall c, r {:trigger values[c][r]} ::
      (&& 0 <= c < |conds| && 0 <= r < n
       && (if conds[c].BoolCond? then conds[c].bits[r] == 1 else conds[c].values[r] != 0)
       && (forall h :: 0 <= h < c ==> if conds[h].BoolCond? then conds[h].bits[r] == 0 else conds[h].values[r] == 0))
        ==> out[r] == values[c][r]
    ensures forall r ::
      (&& 0 <= r < n
       && (forall h :: 0 <= h < |conds| ==>
             if conds[h].BoolCond? then conds[h].bits[r] == 0 else conds[h].values[r] == 0))
        ==> out[r] == valueElse[r]
  {
    var masks := TransformConditionData(conds, n);
    out := Zeros(n);
    for i := 0 to |values|
      invariant |out| == n
      invariant forall r :: 0 <= r < n ==>
        out[r] == var f := First(conds, n, r, 0); if f < i then values[f][r] else 0
    {
      assert Exactly(masks[i], conds, n, i);
      out := AddMasked(out, masks[i], values[i]);
    }
    assert Exactly(masks[|conds|], conds, n, |conds|);
    out := AddMasked(out, masks[|conds|], valueElse);
    forall r | 0 <= r < n ensures out[r] == Chain(conds, values, valueElse, n, r, 0) {
      ChainTakesFirst(conds, values, valueElse, n, r, 0);
    }
    RawResult(conds, values, valueElse, n, out);
  }

  lemma RawResult(conds: seq<Cond>, values: seq<Column>, valueElse: Column, n: nat, out: Column)
    requires Rectangular(conds, n) && |values| == |conds| && |valueElse| == n == |out|
    requires forall i :: 0 <= i < |values| ==> |values[i]| == n
    requires forall r :: 0 <= r < n ==> out[r] == Chain(conds, values, valueElse, n, r, 0)
    ensures forall c, r {:trigger values[c][r]} ::
      (&& 0 <= c < |conds| && 0 <= r < n
       && (if conds[c].BoolCond? then conds[c].bits[r] == 1 else conds[c].values[r] != 0)
       && (forall h :: 0 <= h < c ==> if conds[h].BoolCond? then conds[h].bits[r] == 0 else conds[h].values[r] == 0))
        ==> out[r] == values[c][r]
    ensures forall r ::
      (&& 0 <= r < n
       && (forall h :: 0 <= h < |conds| ==>
             if conds[h].BoolCond? then conds[h].bits[r] == 0 else conds[h].values[r] == 0))
        ==> out[r] == valueElse[r]
  {
    forall c, r |
      && 0 <= c < |conds| && 0 <= r < n
      && (if conds[c].BoolCond? then conds[c].bits[r] == 1 else conds[c].values[r] != 0)
      && (forall h :: 0 <= h < c ==> if conds[h].BoolCond? then conds[h].bits[r] == 0 else conds[h].values[r] == 0)
      ensures out[r] == values[c][r]
    {
      FirstTrue(conds, n, r, c);
      ChainTakesFirst(conds, values, valueElse, n, r, 0);
    }
    forall r |
      && 0 <= r < n
      && (forall h :: 0 <= h < |conds| ==>
            if conds[h].BoolCond? then conds[h].bits[r] == 0 else conds[h].values[r] == 0)
      ensures out[r] == valueElse[r]
    {
      FirstTrue(conds, n, r, |conds|);
      ChainTakesFirst(conds, values, valueElse, n, r, 0);
    }
  }
}
