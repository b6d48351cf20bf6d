/** Rows split by a partition number: which rows, in which order, belong to each part. */
module Partitions {
  import opened Columns

  /** The rows below n of partition q, in order. */
  function Positions(pid: seq<nat>, q: nat, n: nat): (pos: seq<nat>)
    requires n <= |pid|
    ensures InRange(pos, n)
    ensures forall i :: 0 <= i < |pos| ==> pid[pos[i]] == q
  {
    if n == 0 then [] else Positions(pid, q, n - 1) + if pid[n - 1] == q then [n - 1] else []
  }

  lemma {:induction false} PositionsComplete(pid: seq<nat>, q: nat, n: nat)
    requires n <= |pid|
    ensures Distinct(Positions(pid, q, n))
    ensures forall r: nat :: r < n && pid[r] == q ==> r in Positions(pid, q, n)
  {
    if n > 0 {
      PositionsComplete(pid, q, n - 1);
    }
  }

  lemma {:induction false} PositionsAscend(pid: seq<nat>, q: nat, n: nat)
    requires n <= |pid|
    ensures forall i, j :: 0 <= i < j < |Positions(pid, q, n)| ==> Positions(pid, q, n)[i] < Positions(pid, q, n)[j]
  {
    if n > 0 {
      PositionsAscend(pid, q, n - 1);
    }
  }

  lemma PositionsStep(pid: seq<nat>, q: nat, i: nat)
    requires i < |pid|
    ensures Positions(pid, q, i + 1) == if pid[i] == q then Positions(pid, q, i) + [i] else Positions(pid, q, i)
  {
  }

  lemma GatherOneMore(e: Column, idx: seq<nat>, i: nat)
    requires InRange(idx, |e|) && i < |e|
    ensures InRange(idx + [i], |e|) && Gather(e, idx + [i]) == Gather(e, idx) + [e[i]]
  {
  }

  lemma {:induction false} SumOverPositions(e: Column, pid: seq<nat>, q: nat, n: nat)
    requires |e| == |pid| && n <= |pid|
    requires forall u :: 0 <= u < |e| && pid[u] != q ==> e[u] == 0
    ensures InRange(Positions(pid, q, n), |e|)
    ensures Sum(Gather(e, Positions(pid, q, n))) == Sum(e[..n])
  {
    if n > 0 {
      SumOverPositions(e, pid, q, n - 1);
      SumStep(e, n - 1);
      var before := Positions(pid, q, n - 1);
      if pid[n - 1] == q {
        GatherOneMore(e, before, n - 1);
        SumConcat(Gather(e, before), [e[n - 1]]);
      } else {
        assert before + [] == before;
      }
    }
  }
}
