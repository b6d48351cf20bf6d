/** util::Scan over a (value, mask) column pair and the combiners the operators hand to it,
    with util::ExpandGroupValueReversely on top.  Mask 0 starts a group, mask 1 continues it. */
module SegmentedScan {
  import opened Columns
  import opened PrefixScan

  datatype Cell = Cell(v: int, gm: Bit)

  function Max(a: int, b: int): int { if a < b then b else a }
  function Min(a: int, b: int): int { if b < a then b else a }
  function Add(a: int, b: int): int { a + b }
  function Second(a: int, b: int): int { b }

  /** hlo::Mul of two 0/1 shares. */
  function AndMask(a: Bit, b: Bit): Bit { if a == 1 then b else 0 }

  /** hlo::Mul of a 0/1 share with a value. */
  function Masked(b: Bit, x: int): (r: int)
    ensures r == if b == 1 then x else 0
  {
    assert b == 0 || b == 1;
    b * x
  }

  // ---- the four combiners; l is the later cell, r the earlier one

  function SumCombine(l: Cell, r: Cell): Cell {
    Cell(l.v + Masked(l.gm, r.v), AndMask(l.gm, r.gm))
  }

  function MaxCombine(l: Cell, r: Cell): Cell {
    Cell(if l.gm == 1 then Max(l.v, r.v) else l.v, AndMask(l.gm, r.gm))
  }

  function MinCombine(l: Cell, r: Cell): Cell {
    Cell(if l.gm == 1 then Min(l.v, r.v) else l.v, AndMask(l.gm, r.gm))
  }

  function CopyCombine(l: Cell, r: Cell): Cell {
    Cell(l.v + Masked(l.gm, r.v - l.v), AndMask(l.gm, r.gm))
  }

  /** f applies op inside a group and starts afresh at a group start. */
  ghost predicate Guards(f: (Cell, Cell) -> Cell, op: (int, int) -> int) {
    forall l, r :: f(l, r) == Cell(if l.gm == 1 then op(l.v, r.v) else l.v, AndMask(l.gm, r.gm))
  }

  lemma CombinersGuard()
    ensures Guards(SumCombine, Add) && Guards(MaxCombine, Max)
    ensures Guards(MinCombine, Min) && Guards(CopyCombine, Second)
  {
  }

  /** Guarding keeps associativity, so every bracketing of a segmented scan agrees. */
  lemma GuardedAssociative(f: (Cell, Cell) -> Cell, op: (int, int) -> int)
    requires Guards(f, op) && Associative(op)
    ensures Associative(f)
  {
    forall a, b, c ensures f(f(a, b), c) == f(a, f(b, c)) {
      assert op(op(a.v, b.v), c.v) == op(a.v, op(b.v, c.v));
    }
  }

  lemma CombinersAssociative()
    ensures Associative(SumCombine) && Associative(MaxCombine)
    ensures Associative(MinCombine) && Associative(CopyCombine)
  {
    CombinersGuard();
    assert Associative(Add) && Associative(Max) && Associative(Min) && Associative(Second);
    GuardedAssociative(SumCombine, Add);
    GuardedAssociative(MaxCombine, Max);
    GuardedAssociative(MinCombine, Min);
    GuardedAssociative(CopyCombine, Second);
  }

  // ---- util::Scan

  function Cells(v: Column, m: seq<Bit>): (x: seq<Cell>)
    requires |v| == |m|
    ensures |x| == |v| && forall t :: 0 <= t < |v| ==> x[t] == Cell(v[t], m[t])
  {
    seq(|v|, t requires 0 <= t < |v| => Cell(v[t], m[t]))
  }

  function Values(x: seq<Cell>): (v: Column)
    ensures |v| == |x| && forall t :: 0 <= t < |x| ==> v[t] == x[t].v
  {
    seq(|x|, t requires 0 <= t < |x| => x[t].v)
  }

  /** The sequential segmented scan. */
  function ScanColumn(v: Column, m: seq<Bit>, f: (Cell, Cell) -> Cell): (y: Column)
    requires |v| == |m|
    ensures |y| == |v|
  {
    Values(RunningFold(f, Cells(v, m)))
  }

  /** The parallel network computes the sequential segmented scan. */
  method ParallelScan(v: Column, m: seq<Bit>, f: (Cell, Cell) -> Cell) returns (y: Column)
    requires |v| == |m| && Associative(f)
    ensures y == ScanColumn(v, m, f)
  {
    var x := Scan(Cells(v, m), f);
    y := Values(x);
  }

  lemma ScanStep(v: Column, m: seq<Bit>, f: (Cell, Cell) -> Cell, op: (int, int) -> int, t: nat)
    requires |v| == |m| && t < |v| && Guards(f, op)
    ensures ScanColumn(v, m, f)[t] == if t > 0 && m[t] == 1 then op(v[t], ScanColumn(v, m, f)[t - 1]) else v[t]
  {
  }

  /** The row where the group of row t starts. */
  function GroupStart(m: seq<Bit>, t: nat): (s: nat)
    requires t < |m|
    ensures s <= t
    ensures forall u :: s < u <= t ==> m[u] == 1
    ensures s > 0 ==> m[s] == 0
  {
    if t == 0 || m[t] == 0 then t else GroupStart(m, t - 1)
  }

  /** Row t of a segmented scan combines the rows of its group up to t, and no others. */
  lemma {:induction false} ScanIsGroupFold(v: Column, m: seq<Bit>, f: (Cell, Cell) -> Cell, op: (int, int) -> int,
                                           t: nat)
    requires |v| == |m| && t < |v| && Guards(f, op)
    ensures ScanColumn(v, m, f)[t] == Fold(op, v, GroupStart(m, t), t + 1)
  {
    ScanStep(v, m, f, op, t);
    if t > 0 && m[t] == 1 {
      ScanIsGroupFold(v, m, f, op, t - 1);
    }
  }

  // ---- util::ExpandGroupValueReversely

  function Reverse<T>(s: seq<T>): (r: seq<T>)
    ensures |r| == |s| && forall i :: 0 <= i < |s| ==> r[i] == s[|s| - 1 - i]
  {
    seq(|s|, i requires 0 <= i < |s| => s[|s| - 1 - i])
  }

  function ExpandReversely(v: Column, mark: seq<Bit>): (y: Column)
    requires |v| == |mark|
    ensures |y| == |v|
  {
    Reverse(ScanColumn(Reverse(v), Reverse(mark), CopyCombine))
  }

  lemma SumScanStep(v: Column, m: seq<Bit>, t: nat)
    requires |v| == |m| && t < |v|
    ensures ScanColumn(v, m, SumCombine)[t]
         == if t > 0 && m[t] == 1 then v[t] + ScanColumn(v, m, SumCombine)[t - 1] else v[t]
  {
    CombinersGuard();
    ScanStep(v, m, SumCombine, Add, t);
  }

  lemma CopyStep(v: Column, m: seq<Bit>, t: nat)
    requires |v| == |m| && t < |v|
    ensures ScanColumn(v, m, CopyCombine)[t]
         == if t > 0 && m[t] == 1 then ScanColumn(v, m, CopyCombine)[t - 1] else v[t]
  {
    CombinersGuard();
    ScanStep(v, m, CopyCombine, Second, t);
  }

  /** A row with mark 1 takes the value of the next row; every other row keeps its own. */
  lemma ExpandStep(v: Column, mark: seq<Bit>, t: nat)
    requires |v| == |mark| && t < |v|
    ensures ExpandReversely(v, mark)[t]
         == if t + 1 < |v| && mark[t] == 1 then ExpandReversely(v, mark)[t + 1] else v[t]
  {
    CopyStep(Reverse(v), Reverse(mark), |v| - 1 - t);
  }
}
