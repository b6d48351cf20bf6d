/** Rows in batches: concatenation, and the split of a column into batches of equal size. */
module Batching {

  function Concat<T>(ss: seq<seq<T>>): seq<T> {
    if ss == [] then [] else ss[0] + Concat(ss[1..])
  }

  lemma {:induction false} ConcatAppend<T>(ss: seq<seq<T>>, tt: seq<seq<T>>)
    ensures Concat(ss + tt) == Concat(ss) + Concat(tt)
  {
    if ss == [] {
      assert ss + tt == tt;
    } else {
      assert (ss + tt)[1..] == ss[1..] + tt;
      ConcatAppend(ss[1..], tt);
    }
  }

  lemma ConcatOne<T>(s: seq<T>)
    ensures Concat([s]) == s
  {
    assert [s][1..] == [];
  }

  lemma ConcatPush<T>(ss: seq<seq<T>>, s: seq<T>)
    ensures Concat(ss + [s]) == Concat(ss) + s
  {
    ConcatAppend(ss, [s]);
    ConcatOne(s);
  }

  /** The batches a reader of the given size hands out: all full but the last. */
  function Batches<T>(rows: seq<T>, size: nat): (bs: seq<seq<T>>)
    requires size > 0
  {
    if rows == [] then []
    else if |rows| <= size then [rows]
    else [rows[..size]] + Batches(rows[size..], size)
  }

  /** The next batch of what is left. */
  function NextBatch<T>(rows: seq<T>, size: nat): seq<T> {
    if |rows| <= size then rows else rows[..size]
  }

  lemma {:induction false} BatchesConcat<T>(rows: seq<T>, size: nat)
    requires size > 0
    ensures Concat(Batches(rows, size)) == rows
  {
    if rows != [] {
      if |rows| <= size {
        ConcatOne(rows);
      } else {
        BatchesConcat(rows[size..], size);
        var tail := Batches(rows[size..], size);
        assert ([rows[..size]] + tail)[1..] == tail;
        assert rows == rows[..size] + rows[size..];
      }
    }
  }

  /** Columns of equal length batch in step: as many batches, each of the same length. */
  lemma {:induction false} BatchesInStep<S, T>(a: seq<S>, b: seq<T>, size: nat)
    requires size > 0 && |a| == |b|
    ensures |Batches(a, size)| == |Batches(b, size)|
    ensures forall k :: 0 <= k < |Batches(a, size)| ==> |Batches(a, size)[k]| == |Batches(b, size)[k]|
    decreases |a|
  {
    if |a| > size {
      BatchesInStep(a[size..], b[size..], size);
    }
  }

  lemma BatchesStep<T>(rows: seq<T>, size: nat)
    requires size > 0 && rows != []
    ensures Batches(rows, size) == [NextBatch(rows, size)] + Batches(rows[|NextBatch(rows, size)|..], size)
  {
  }
}
