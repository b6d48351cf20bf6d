/** Stages 3 to 5 of SecretJoin for one table: compute a slot per row, complete the slots to a
    permutation, distribute the rows and expand each one backwards over its block. */
module Placement {
  import opened Columns
  import opened SegmentedScan
  import opened Outcomes

  /** A row is marked exactly when it has at least one partner. */
  ghost predicate Placeable(count: Column, mark: seq<Bit>) {
    |count| == |mark| && forall i :: 0 <= i < |count| ==> count[i] >= 0 && (mark[i] == 1 <==> count[i] > 0)
  }

  /** Marked rows take the last slot of their block of count slots; unmarked rows follow all
      blocks. */
  function Slot(count: Column, mark: seq<Bit>, i: nat): int
    requires |count| == |mark| && i < |count|
  {
    if mark[i] == 1 then Sum(count[..i + 1]) - 1 else Sum(count) + i - Sum(mark[..i + 1])
  }

  /** Slots in use: all blocks and one slot for every unmarked row. */
  function UsedSlots(count: Column, mark: seq<Bit>): int {
    Sum(count) + |mark| - Sum(mark)
  }

  /** First loop: running sums of the counts. */
  method BlockEnds(count: Column) returns (a: Column, c: int)
    ensures |a| == |count| && c == Sum(count)
    ensures forall t :: 0 <= t < |count| ==> a[t] == Sum(count[..t + 1])
  {
    a, c := [], 0;
    for i := 0 to |count|
      invariant |a| == i && c == Sum(count[..i])
      invariant forall t :: 0 <= t < i ==> a[t] == Sum(count[..t + 1])
    {
      SumStep(count, i);
      c := c + count[i];
      a := a + [c];
    }
    assert count[..|count|] == count;
  }

  /** Second loop: one slot more for every unmarked row. */
  method UnmarkedSlots(total: int, mark: seq<Bit>) returns (b: Column, c: int)
    ensures |b| == |mark| && c == total + |mark| - Sum(mark)
    ensures forall t :: 0 <= t < |mark| ==> b[t] == total + t + 1 - Sum(mark[..t + 1])
  {
    b, c := [], total;
    for i := 0 to |mark|
      invariant |b| == i && c == total + i - Sum(mark[..i])
      invariant forall t :: 0 <= t < i ==> b[t] == total + t + 1 - Sum(mark[..t + 1])
    {
      SumStep(mark, i);
      c := c + 1 - mark[i];
      b := b + [c];
    }
    assert mark[..|mark|] == mark;
  }

  method CountPosition(count: Column, mark: seq<Bit>) returns (index: Column, c: int)
    requires |count| == |mark|
    ensures |index| == |count| && forall i :: 0 <= i < |index| ==> index[i] == Slot(count, mark, i)
    ensures c == UsedSlots(count, mark)
  {
    var a, total := BlockEnds(count);
    var b;
    b, c := UnmarkedSlots(total, mark);
    index := seq(|mark|, i requires 0 <= i < |mark| => Masked(mark[i], a[i] - b[i]) + b[i] - 1);
  }

  // ---- prefix sums

  lemma {:induction false} PrefixMonotone(count: Column, i: nat, j: nat)
    requires i <= j <= |count|
    requires forall t :: 0 <= t < |count| ==> count[t] >= 0
    ensures Sum(count[..i]) <= Sum(count[..j])
    ensures 0 <= Sum(count[..i])
    decreases j
  {
    if i < j {
      SumStep(count, j - 1);
      PrefixMonotone(count, i, j - 1);
    } else if i > 0 {
      SumStep(count, i - 1);
      PrefixMonotone(count, i - 1, i - 1);
    }
  }

  lemma {:induction false} MarksBelow(count: Column, mark: seq<Bit>, i: nat)
    requires Placeable(count, mark) && i <= |count|
    ensures 0 <= Sum(mark[..i]) <= i && Sum(mark[..i]) <= Sum(count[..i])
  {
    if i > 0 {
      MarksBelow(count, mark, i - 1);
      SumStep(mark, i - 1);
      SumStep(count, i - 1);
    }
  }

  /** The slots never run short: there are at least as many as rows. */
  lemma RowsFit(count: Column, mark: seq<Bit>)
    requires Placeable(count, mark)
    ensures |count| <= UsedSlots(count, mark) && Sum(count) <= UsedSlots(count, mark)
  {
    MarksBelow(count, mark, |count|);
    assert count[..|count|] == count && mark[..|mark|] == mark;
  }

  lemma {:induction false} UnmarkedBetween(mark: seq<Bit>, i: nat, j: nat)
    requires i <= j <= |mark|
    ensures Sum(mark[..j]) - Sum(mark[..i]) <= j - i
    ensures i < j && mark[j - 1] == 0 ==> Sum(mark[..j]) - Sum(mark[..i]) <= j - i - 1
    decreases j
  {
    if i < j {
      SumStep(mark, j - 1);
      UnmarkedBetween(mark, i, j - 1);
    }
  }

  lemma SlotInRange(count: Column, mark: seq<Bit>, i: nat)
    requires Placeable(count, mark) && i < |count|
    ensures 0 <= Slot(count, mark, i) < UsedSlots(count, mark)
    ensures mark[i] == 1 <==> Slot(count, mark, i) < Sum(count)
    ensures mark[i] == 1 ==> Sum(count[..i]) <= Slot(count, mark, i) && Sum(count[..i + 1]) == Slot(count, mark, i) + 1
  {
    var n := |count|;
    assert count[..n] == count && mark[..n] == mark;
    SumStep(count, i);
    PrefixMonotone(count, i, i + 1);
    PrefixMonotone(count, i + 1, n);
    SumStep(mark, i);
    MarksBelow(count, mark, i);
    UnmarkedBetween(mark, i + 1, n);
    RowsFit(count, mark);
  }

  /** No two rows share a slot. */
  lemma SlotsDistinct(count: Column, mark: seq<Bit>, i: nat, j: nat)
    requires Placeable(count, mark) && i < j < |count|
    ensures Slot(count, mark, i) != Slot(count, mark, j)
  {
    SlotInRange(count, mark, i);
    SlotInRange(count, mark, j);
    PrefixMonotone(count, i + 1, j);
    UnmarkedBetween(mark, i + 1, j + 1);
  }

  // ---- blocks

  /** The row whose block contains slot j. */
  function Owner(count: Column, j: int): (i: nat)
    requires forall t :: 0 <= t < |count| ==> count[t] >= 0
    requires 0 <= j < Sum(count)
    ensures i < |count| && Sum(count[..i]) <= j < Sum(count[..i + 1])
  {
    var n := |count|;
    if j >= Sum(count[..n - 1]) then
      assert count[..n] == count;
      n - 1
    else
      var i := Owner(count[..n - 1], j);
      assert count[..n - 1][..i] == count[..i] && count[..n - 1][..i + 1] == count[..i + 1];
      i
  }

  lemma OwnerUnique(count: Column, j: int, i: nat)
    requires forall t :: 0 <= t < |count| ==> count[t] >= 0
    requires i < |count| && Sum(count[..i]) <= j < Sum(count[..i + 1])
    ensures 0 <= j < Sum(count) && Owner(count, j) == i
  {
    PrefixMonotone(count, i, |count|);
    PrefixMonotone(count, i + 1, |count|);
    assert count[..|count|] == count;
    var o := Owner(count, j);
    if o < i {
      PrefixMonotone(count, o + 1, i);
    } else if i < o {
      PrefixMonotone(count, i + 1, o);
    }
  }

  // ---- BuildPerm

  function Image(f: int -> int, p: seq<nat>): (r: seq<int>)
    ensures |r| == |p| && forall i :: 0 <= i < |p| ==> r[i] == f(p[i])
  {
    seq(|p|, i requires 0 <= i < |p| => f(p[i]))
  }

  /** The pseudo-random function separates the slots in p from each other and from all
      other slots below m. */
  ghost predicate Separates(f: int -> int, p: seq<nat>, m: nat) {
    && Distinct(Image(f, p))
    && forall v: nat :: v < m && v !in p ==> f(v) !in Image(f, p)
  }

  /** Completes p to a permutation of 0..m by the elements of pi that p lacks, comparing only
      revealed pseudo-random images.  Whatever the function, the outcome is a permutation that
      starts with p or an error, and an error only for colliding images. */
  method BuildPerm(p: seq<nat>, pi: seq<nat>, f: int -> int) returns (r: Result<seq<nat>>)
    requires IsPerm(pi, |pi|) && InRange(p, |pi|)
    ensures r.Ok? <==> Separates(f, p, |pi|)
    ensures r.Ok? ==> |p| <= |pi| && IsPerm(r.value, |pi|) && r.value[..|p|] == p
  {
    var image := Image(f, p);
    var seen: set<int> := {};
    for i := 0 to |p|
      invariant forall x :: x in seen <==> x in image[..i]
      invariant Distinct(image[..i])
    {
      assert image[..i + 1] == image[..i] + [image[i]];
      if image[i] in seen {
        var t :| 0 <= t < i && image[t] == image[i];
        return Err("duplicate permutation");
      }
      seen := seen + {image[i]};
    }
    assert image[..|p|] == image;
    assert forall x :: x in seen <==> x in image;
    var rest: seq<nat> := [];
    for i := 0 to |pi|
      invariant forall v :: v in rest <==> v in pi[..i] && f(v) !in image
      invariant Distinct(rest)
    {
      assert pi[..i + 1] == pi[..i] + [pi[i]];
      assert forall v :: v in pi[..i + 1] <==> v in pi[..i] || v == pi[i];
      if f(pi[i]) !in seen {
        rest := rest + [pi[i]];
      }
    }
    assert pi[..|pi|] == pi;
    CompletionSize(p, pi, f, rest);
    if |rest| != |pi| - |p| {
      return Err("size mismatch");
    }
    r := Ok(p + rest);
  }

  lemma CompletionSize(p: seq<nat>, pi: seq<nat>, f: int -> int, rest: seq<nat>)
    requires IsPerm(pi, |pi|) && InRange(p, |pi|) && Distinct(Image(f, p)) && Distinct(rest)
    requires forall v :: v in rest <==> v in pi && f(v) !in Image(f, p)
    ensures Distinct(p + rest) && InRange(p + rest, |pi|)
    ensures |rest| == |pi| - |p| <==> Separates(f, p, |pi|)
  {
    var m, all := |pi|, p + rest;
    var image := Image(f, p);
    forall v | v in p ensures f(v) in image {
      var i :| 0 <= i < |p| && p[i] == v;
      assert image[i] == f(v);
    }
    forall i, j | 0 <= i < j < |p| ensures p[i] != p[j] {
      assert image[i] != image[j];
    }
    forall i, j | 0 <= i < j < |all| ensures all[i] != all[j] {
      if i < |p| <= j {
        assert all[i] in p && all[j] in rest;
      }
    }
    forall i | 0 <= i < |rest| ensures rest[i] < m {
      assert rest[i] in rest;
    }
    DistinctSize(all);
    var s := Below(m);
    assert Elements(all) <= s;
    SubsetSize(Elements(all), s);
    PermReaches(pi, m);
    if |rest| == m - |p| {
      forall v: nat | v < m && v !in p ensures f(v) !in image {
        assert v in Elements(all);
      }
    }
    if Separates(f, p, m) {
      forall v: nat | v in s ensures v in Elements(all) {
        if v in p {
          var i :| 0 <= i < |p| && p[i] == v;
          assert all[i] == v;
        } else {
          assert v in pi && v in rest;
          var i :| 0 <= i < |rest| && rest[i] == v;
          assert all[|p| + i] == v;
        }
      }
      SubsetSize(s, Elements(all));
    }
  }

  /** An injective function always separates distinct slots. */
  lemma InjectiveSeparates(f: int -> int, p: seq<nat>, m: nat)
    requires forall a, b :: f(a) == f(b) ==> a == b
    requires Distinct(p)
    ensures Separates(f, p, m)
  {
    forall v: nat | v < m && v !in p ensures f(v) !in Image(f, p) {
    }
  }

  // ---- distribution and expansion

  function FillDummy(x: Column, m: nat): (y: Column)
    ensures |x| <= m ==> |y| == m
    ensures forall i :: 0 <= i < |y| ==> y[i] == if i < |x| then x[i] else 0
  {
    if m <= |x| then x else x + Zeros(m - |x|)
  }

  /** 0 for the n rows, 1 for the dummies. */
  function DummyMark(n: nat, m: nat): (d: seq<Bit>)
    requires n <= m
    ensures |d| == m && forall i :: 0 <= i < m ==> d[i] == if i < n then 0 else 1
  {
    seq(m, i requires 0 <= i < m => if i < n then 0 else 1)
  }

  /** perm places the rows on their slots and the dummies on the remaining ones. */
  ghost predicate Places(count: Column, mark: seq<Bit>, perm: seq<nat>, m: nat) {
    && Placeable(count, mark)
    && UsedSlots(count, mark) <= m
    && |count| <= m
    && IsPerm(perm, m)
    && forall i :: 0 <= i < |count| ==> perm[i] == Slot(count, mark, i)
  }

  function Distribute(x: Column, perm: seq<nat>, m: nat): (y: Column)
    requires |x| <= m && IsPerm(perm, m)
    ensures |y| == m
  {
    InvPermute(FillDummy(x, m), perm)
  }

  function Dummies(n: nat, perm: seq<nat>, m: nat): (d: seq<Bit>)
    requires n <= m && IsPerm(perm, m)
    ensures |d| == m
  {
    InvPermute(DummyMark(n, m), perm)
  }

  function Expand(x: Column, perm: seq<nat>, m: nat): (y: Column)
    requires |x| <= m && IsPerm(perm, m)
    ensures |y| == m
  {
    ExpandReversely(Distribute(x, perm, m), Dummies(|x|, perm, m))
  }

  /** A slot holds its row and dummy mark 0, or zero and dummy mark 1. */
  lemma SlotContents(x: Column, perm: seq<nat>, m: nat, i: nat)
    requires |x| <= m && IsPerm(perm, m) && i < m
    ensures Distribute(x, perm, m)[perm[i]] == if i < |x| then x[i] else 0
    ensures Dummies(|x|, perm, m)[perm[i]] == if i < |x| then 0 else 1
  {
  }

  /** Inside a block only the last slot is taken by a row. */
  lemma BlockSlot(count: Column, mark: seq<Bit>, perm: seq<nat>, m: nat, j: nat) returns (i: nat)
    requires Places(count, mark, perm, m) && j < Sum(count)
    ensures i < m && perm[i] == j
    ensures j + 1 == Sum(count[..Owner(count, j) + 1]) <==> i < |count|
    ensures i < |count| ==> i == Owner(count, j)
  {
    PermReaches(perm, m);
    RowsFit(count, mark);
    assert j in perm;
    i :| 0 <= i < m && perm[i] == j;
    var o := Owner(count, j);
    if i < |count| {
      SlotInRange(count, mark, i);
      OwnerUnique(count, j, i);
    }
    if j + 1 == Sum(count[..o + 1]) {
      SumStep(count, o);
      assert mark[o] == 1 && Slot(count, mark, o) == j;
      assert perm[o] == perm[i];
    }
  }

  /** Slot j has the value of the row that owns its block, or the value of the next slot of the block. */
  ghost predicate Copies(y: Column, x: Column, count: Column, j: nat)
    requires |x| == |count| && (forall t :: 0 <= t < |count| ==> count[t] >= 0) && j < Sum(count) <= |y|
  {
    || y[j] == x[Owner(count, j)]
    || (j + 1 < Sum(count) && Owner(count, j + 1) == Owner(count, j) && y[j] == y[j + 1])
  }

  lemma {:induction false} CopiesFromOwner(y: Column, x: Column, count: Column, j: nat)
    requires |x| == |count| && (forall t :: 0 <= t < |count| ==> count[t] >= 0) && j < Sum(count) <= |y|
    requires forall i :: 0 <= i < Sum(count) ==> Copies(y, x, count, i)
    ensures y[j] == x[Owner(count, j)]
    decreases Sum(count) - j
  {
    assert Copies(y, x, count, j);
    if y[j] != x[Owner(count, j)] {
      CopiesFromOwner(y, x, count, j + 1);
    }
  }

  /** Every slot of a block ends up with the value of the row that owns the block. */
  lemma ExpandedBlock(x: Column, count: Column, mark: seq<Bit>, perm: seq<nat>, m: nat, j: nat)
    requires Places(count, mark, perm, m) && |x| == |count| && j < Sum(count)
    ensures Sum(count) <= m
    ensures Expand(x, perm, m)[j] == x[Owner(count, j)]
  {
    RowsFit(count, mark);
    var y := Expand(x, perm, m);
    forall i | 0 <= i < Sum(count) ensures Copies(y, x, count, i) {
      BlockStep(x, count, mark, perm, m, i, Owner(count, i));
    }
    CopiesFromOwner(y, x, count, j);
  }

  /** The last slot of a block holds its row; every other slot copies the next one. */
  lemma BlockStep(x: Column, count: Column, mark: seq<Bit>, perm: seq<nat>, m: nat, j: nat, o: nat)
    requires Places(count, mark, perm, m) && |x| == |count| && j < Sum(count) && o == Owner(count, j)
    ensures Sum(count) <= m
    ensures
      || Expand(x, perm, m)[j] == x[o]
      || (j + 1 < Sum(count) && Owner(count, j + 1) == o && Expand(x, perm, m)[j] == Expand(x, perm, m)[j + 1])
  {
    RowsFit(count, mark);
    var i := BlockSlot(count, mark, perm, m, j);
    SlotContents(x, perm, m, i);
    ExpandStep(Distribute(x, perm, m), Dummies(|x|, perm, m), j);
    if j + 1 != Sum(count[..o + 1]) {
      SameOwner(count, j);
    }
  }

  lemma SameOwner(count: Column, j: nat)
    requires forall t :: 0 <= t < |count| ==> count[t] >= 0
    requires j < Sum(count) && j + 1 != Sum(count[..Owner(count, j) + 1])
    ensures j + 1 < Sum(count) && Owner(count, j + 1) == Owner(count, j)
  {
    var o := Owner(count, j);
    PrefixMonotone(count, o + 1, |count|);
    assert count[..|count|] == count;
    OwnerUnique(count, j + 1, o);
  }

  /** Behind the blocks everything is zero for a column that is zero on unmarked rows. */
  lemma {:induction false} ExpandedTail(x: Column, count: Column, mark: seq<Bit>, perm: seq<nat>, m: nat, j: nat)
    requires Places(count, mark, perm, m) && |x| == |count| && Sum(count) <= j < m
    requires forall i :: 0 <= i < |x| && mark[i] == 0 ==> x[i] == 0
    ensures Expand(x, perm, m)[j] == 0 && Distribute(x, perm, m)[j] == 0
    decreases m - j
  {
    PermReaches(perm, m);
    assert j in perm;
    var i :| 0 <= i < m && perm[i] == j;
    SlotContents(x, perm, m, i);
    if i < |count| {
      SlotInRange(count, mark, i);
    }
    ExpandStep(Distribute(x, perm, m), Dummies(|x|, perm, m), j);
    if j + 1 < m {
      ExpandedTail(x, count, mark, perm, m, j + 1);
    }
  }

  /** Before expansion a row's value sits on the last slot of its block, zeros before it. */
  lemma DistributedBlock(x: Column, count: Column, mark: seq<Bit>, perm: seq<nat>, m: nat, j: nat)
    requires Places(count, mark, perm, m) && |x| == |count| && j < Sum(count)
    ensures j < m
    ensures Distribute(x, perm, m)[j] == if j + 1 == Sum(count[..Owner(count, j) + 1]) then x[Owner(count, j)] else 0
  {
    RowsFit(count, mark);
    var i := BlockSlot(count, mark, perm, m, j);
    SlotContents(x, perm, m, i);
  }

  // ---- copy numbers

  function Suffix(s: Column, j: nat): int
    requires j <= |s|
    decreases |s| - j
  {
    if j == |s| then 0 else s[j] + Suffix(s, j + 1)
  }

  /** The backward running sum over the count of each right row, placed but not expanded,
      minus the expanded mark. */
  method CopyCounts(placed: Column, mark: Column) returns (copies: Column)
    requires |placed| == |mark|
    ensures |copies| == |mark|
    ensures forall j :: 0 <= j < |mark| ==> copies[j] == Suffix(Difference(placed, mark), j)
  {
    var d := Difference(placed, mark);
    var a := 0;
    var slices: Column := [];
    var i := |d|;
    while i > 0
      invariant 0 <= i <= |d| && |slices| == |d| - i && a == Suffix(d, i)
      invariant forall t :: 0 <= t < |slices| ==> slices[t] == Suffix(d, |d| - 1 - t)
    {
      i := i - 1;
      a := a + d[i];
      slices := slices + [a];
    }
    copies := Reverse(slices);
  }

  function Difference(a: Column, b: Column): (d: Column)
    requires |a| == |b|
    ensures |d| == |a| && forall i :: 0 <= i < |a| ==> d[i] == a[i] - b[i]
  {
    seq(|a|, i requires 0 <= i < |a| => a[i] - b[i])
  }

  /** A block of c slots contributes -1 everywhere and c more on its last slot. */
  lemma BlockDifference(count: Column, mark: seq<Bit>, perm: seq<nat>, m: nat, j: nat)
    requires Places(count, mark, perm, m) && j < m
    ensures Distribute(count, perm, m)[j] - Expand(mark, perm, m)[j]
         == if j >= Sum(count) then 0
            else if j + 1 == Sum(count[..Owner(count, j) + 1]) then j - Sum(count[..Owner(count, j)])
            else -1
  {
    if j < Sum(count) {
      var o := Owner(count, j);
      ExpandedBlock(mark, count, mark, perm, m, j);
      DistributedBlock(count, count, mark, perm, m, j);
      SumStep(count, o);
      assert mark[o] == 1;
    } else {
      ExpandedTail(mark, count, mark, perm, m, j);
      ExpandedTail(count, count, mark, perm, m, j);
    }
  }

  /** The copy number of slot j: its offset inside its block, and 0 behind the blocks. */
  function CopyOf(count: Column, j: nat): int
    requires forall t :: 0 <= t < |count| ==> count[t] >= 0
  {
    if j < Sum(count) then j - Sum(count[..Owner(count, j)]) else 0
  }

  lemma NextCopy(count: Column, j: nat)
    requires forall t :: 0 <= t < |count| ==> count[t] >= 0
    requires j < Sum(count)
    ensures CopyOf(count, j + 1) == if j + 1 == Sum(count[..Owner(count, j) + 1]) then 0 else CopyOf(count, j) + 1
  {
    var o := Owner(count, j);
    if j + 1 < Sum(count[..o + 1]) {
      OwnerUnique(count, j + 1, o);
    } else if j + 1 < Sum(count) {
      NextBlock(count, j);
    }
  }

  /** The backward sum numbers the copies inside each block from 0. */
  lemma CopyNumber(count: Column, mark: seq<Bit>, perm: seq<nat>, m: nat, j: nat)
    requires Places(count, mark, perm, m) && j <= m
    ensures Suffix(Difference(Distribute(count, perm, m), Expand(mark, perm, m)), j) == CopyOf(count, j)
  {
    var d := Difference(Distribute(count, perm, m), Expand(mark, perm, m));
    RowsFit(count, mark);
    forall i | 0 <= i < m ensures d[i] + CopyOf(count, i + 1) == CopyOf(count, i) {
      BackwardStep(count, mark, perm, m, i);
    }
    CopyNumberFrom(count, d, j);
  }

  lemma {:induction false} CopyNumberFrom(count: Column, d: Column, j: nat)
    requires (forall t :: 0 <= t < |count| ==> count[t] >= 0) && Sum(count) <= |d|
    requires forall i :: 0 <= i < |d| ==> d[i] + CopyOf(count, i + 1) == CopyOf(count, i)
    requires j <= |d|
    ensures Suffix(d, j) == CopyOf(count, j)
    decreases |d| - j
  {
    if j < |d| {
      CopyNumberFrom(count, d, j + 1);
    }
  }

  lemma BackwardStep(count: Column, mark: seq<Bit>, perm: seq<nat>, m: nat, j: nat)
    requires Places(count, mark, perm, m) && j < m
    ensures Difference(Distribute(count, perm, m), Expand(mark, perm, m))[j] + CopyOf(count, j + 1) == CopyOf(count, j)
  {
    BlockDifference(count, mark, perm, m, j);
    if j < Sum(count) {
      NextCopy(count, j);
    }
  }

  /** The slot after a block's last slot starts the next block. */
  lemma NextBlock(count: Column, j: nat)
    requires forall t :: 0 <= t < |count| ==> count[t] >= 0
    requires j + 1 < Sum(count) && j + 1 == Sum(count[..Owner(count, j) + 1])
    ensures Sum(count[..Owner(count, j + 1)]) == j + 1
  {
    var o, o' := Owner(count, j), Owner(count, j + 1);
    if o' <= o {
      PrefixMonotone(count, o' + 1, o + 1);
    } else {
      PrefixMonotone(count, o + 1, o');
    }
  }
}
