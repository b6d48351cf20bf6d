/** Replicate (engine/operator/replicate.cc): the two sides of a cross product, each extended
    on its own. */
module Replicate {
  import opened Columns
  import opened Batching

  /** All rows, m times over. */
  function Repeat<T>(rows: seq<T>, m: nat): seq<T> {
    if m == 0 then [] else Repeat(rows, m - 1) + rows
  }

  function Copies<T>(x: T, m: nat): seq<T> { seq(m, _ => x) }

  /** Every row m times in a row. */
  function Stretch<T>(rows: seq<T>, m: nat): seq<T> {
    if rows == [] then [] else Stretch(rows[..|rows| - 1], m) + Copies(rows[|rows| - 1], m)
  }

  lemma {:induction false} StretchAppend<T>(a: seq<T>, b: seq<T>, m: nat)
    ensures Stretch(a + b, m) == Stretch(a, m) + Stretch(b, m)
  {
    if b == [] {
      assert a + b == a;
    } else {
      var n := |b| - 1;
      StretchAppend(a, b[..n], m);
      assert (a + b)[..|a| + n] == a + b[..n];
    }
  }

  lemma {:induction false} StretchNone<T>(rows: seq<T>)
    ensures Stretch(rows, 0) == []
  {
    if rows != [] {
      StretchNone(rows[..|rows| - 1]);
    }
  }

  lemma {:induction false} RepeatNone<T>(m: nat)
    ensures Repeat<T>([], m) == []
  {
    if m > 0 {
      RepeatNone<T>(m - 1);
    }
  }

  /** One chunk through the builder: three nested loops in all. */
  method AppendChunk<T>(built: seq<T>, chunk: seq<T>, extend: nat) returns (out: seq<T>)
    ensures out == built + Stretch(chunk, extend)
  {
    out := built;
    for j := 0 to |chunk|
      invariant out == built + Stretch(chunk[..j], extend)
    {
      ghost var before := out;
      for k := 0 to extend
        invariant out == before + Copies(chunk[j], k)
      {
        out := out + [chunk[j]];
      }
      assert chunk[..j + 1][..j] == chunk[..j];
    }
    assert chunk[..|chunk|] == chunk;
  }

  /** The rows of the extended array do not depend on how the input is cut into chunks. */
  method ExtendArray<T>(chunks: seq<seq<T>>, extend: nat, interleaving: bool) returns (out: seq<seq<T>>)
    ensures Concat(out) == if interleaving then Repeat(Concat(chunks), extend) else Stretch(Concat(chunks), extend)
  {
    if extend == 0 || chunks == [] {
      StretchNone(Concat(chunks));
      RepeatNone<T>(extend);
      return [];
    }
    out := [];
    if interleaving {
      for i := 0 to extend
        invariant Concat(out) == Repeat(Concat(chunks), i)
      {
        ConcatAppend(out, chunks);
        out := out + chunks;
      }
    } else {
      var built: seq<T> := [];
      for i := 0 to |chunks|
        invariant built == Stretch(Concat(chunks[..i]), extend)
      {
        assert chunks[..i + 1] == chunks[..i] + [chunks[i]];
        ConcatPush(chunks[..i], chunks[i]);
        StretchAppend(Concat(chunks[..i]), chunks[i], extend);
        built := AppendChunk(built, chunks[i], extend);
      }
      assert chunks[..|chunks|] == chunks;
      out := [built];
      ConcatOne(built);
    }
  }

  // ---- the cross product

  /** All pairs of a left and a right row number: right rows outside, left rows inside. */
  function Cross(nl: nat, nr: nat): (c: seq<(nat, nat)>) {
    if nr == 0 then [] else Cross(nl, nr - 1) + RowOf(nl, nr - 1)
  }

  function RowOf(nl: nat, r: nat): (c: seq<(nat, nat)>)
    ensures |c| == nl && forall l :: 0 <= l < nl ==> c[l] == (l, r)
  {
    seq(nl, l requires 0 <= l < nl => (l, r))
  }

  lemma {:induction false} CrossAt(nl: nat, nr: nat, l: nat, r: nat)
    requires l < nl && r < nr
    ensures |Cross(nl, nr)| == nr * nl && r * nl + l < nr * nl
    ensures Cross(nl, nr)[r * nl + l] == (l, r)
  {
    CrossSize(nl, nr - 1);
    CrossSize(nl, nr);
    Before(nl, nr, r);
    if r < nr - 1 {
      CrossAt(nl, nr - 1, l, r);
    }
  }

  lemma DivMod(i: nat, d: nat, n: nat)
    requires d > 0 && i < n * d
    ensures i == i / d * d + i % d && 0 <= i / d < n
  {
    if i / d >= n {
      Before(d, i / d + 1, n);
    }
  }

  /** Row i of the output pairs left row i mod nl with right row i div nl. */
  lemma CrossIndex(nl: nat, nr: nat, i: nat)
    requires i < nr * nl
    ensures nl > 0 && i < |Cross(nl, nr)| && Cross(nl, nr)[i] == (i % nl, i / nl)
  {
    CrossSize(nl, nr);
    DivMod(i, nl, nr);
    CrossAt(nl, nr, i % nl, i / nl);
  }

  lemma {:induction false} CrossSize(nl: nat, nr: nat)
    ensures |Cross(nl, nr)| == nr * nl
  {
    if nr > 0 {
      CrossSize(nl, nr - 1);
      assert nr * nl == (nr - 1) * nl + nl;
    }
  }

  lemma {:induction false} Before(nl: nat, nr: nat, r: nat)
    requires r < nr
    ensures r * nl + nl <= nr * nl
  {
    OneRowMore(nl, nr);
    if r < nr - 1 {
      Before(nl, nr - 1, r);
    }
  }

  lemma OneRowMore(nl: nat, nr: nat)
    ensures nr * nl == (nr - 1) * nl + nl
  {
  }

  lemma RowCount(nl: nat, r: nat, p: (nat, nat))
    ensures multiset(RowOf(nl, r))[p] == if p.0 < nl && p.1 == r then 1 else 0
  {
    var c := RowOf(nl, r);
    OccursOnce(c, p);
    if p.0 < nl && p.1 == r {
      assert c[p.0] == p;
    }
  }

  /** Every pair occurs exactly once. */
  lemma {:induction false} CrossOnce(nl: nat, nr: nat, p: (nat, nat))
    ensures multiset(Cross(nl, nr))[p] == if p.0 < nl && p.1 < nr then 1 else 0
  {
    if nr > 0 {
      CrossOnce(nl, nr - 1, p);
      RowCount(nl, nr - 1, p);
    }
  }

  /** The rows both outputs put side by side. */
  ghost predicate SideBySide<S, T>(a: seq<S>, b: seq<T>, left: seq<S>, right: seq<T>, c: seq<(nat, nat)>) {
    && |a| == |b| == |c|
    && forall i :: 0 <= i < |c| ==>
         c[i].0 < |left| && c[i].1 < |right| && a[i] == left[c[i].0] && b[i] == right[c[i].1]
  }

  lemma SideGrows<S, T>(a: seq<S>, b: seq<T>, left: seq<S>, right: seq<T>, c: seq<(nat, nat)>, n: nat)
    requires n <= |right| && SideBySide(a, b, left, right[..n], c)
    ensures SideBySide(a, b, left, right, c)
  {
  }

  lemma SideConcat<S, T>(a: seq<S>, b: seq<T>, c: seq<(nat, nat)>, a': seq<S>, b': seq<T>, c': seq<(nat, nat)>,
                         left: seq<S>, right: seq<T>)
    requires SideBySide(a, b, left, right, c) && SideBySide(a', b', left, right, c')
    ensures SideBySide(a + a', b + b', left, right, c + c')
  {
  }

  lemma SideRow<S, T>(left: seq<S>, right: seq<T>, n: nat)
    requires n < |right|
    ensures SideBySide(left, Copies(right[n], |left|), left, right, RowOf(|left|, n))
  {
  }

  /** Replicate is a cross product: left repeated and right stretched line up pair by pair. */
  lemma {:induction false} IsCross<S, T>(left: seq<S>, right: seq<T>)
    ensures SideBySide(Repeat(left, |right|), Stretch(right, |left|), left, right, Cross(|left|, |right|))
  {
    if right != [] {
      var n, nl := |right| - 1, |left|;
      var rest := right[..n];
      IsCross(left, rest);
      SideGrows(Repeat(left, n), Stretch(rest, nl), left, right, Cross(nl, n), n);
      SideRow(left, right, n);
      SideConcat(Repeat(left, n), Stretch(rest, nl), Cross(nl, n), left, Copies(right[n], nl), RowOf(nl, n), left,
                 right);
    }
  }

  /** The left party's column and the right party's column after Execute. */
  method Execute<S, T>(left: seq<seq<S>>, right: seq<seq<T>>) returns (leftOut: seq<seq<S>>, rightOut: seq<seq<T>>)
    ensures
      SideBySide(Concat(leftOut), Concat(rightOut), Concat(left), Concat(right), Cross(|Concat(left)|, |Concat(right)|))
  {
    leftOut := ExtendArray(left, |Concat(right)|, true);
    rightOut := ExtendArray(right, |Concat(left)|, false);
    IsCross(Concat(left), Concat(right));
  }
}
