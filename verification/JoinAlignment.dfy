/** Stage 6 of SecretJoin on two key-sorted tables: left blocks and right blocks of one key
    start at the same slot, and the alignment formula transposes each right block. */
module JoinAlignment {
  import opened Columns
  import opened Ordering
  import opened Placement

  /** No key of the first n is smaller than the one before. */
  ghost predicate AscendingTo(keys: seq<Key>, n: nat)
    requires n <= |keys|
  {
    n <= 1 || (AscendingTo(keys, n - 1) && !LexLess(keys[n - 1], keys[n - 2]))
  }

  ghost predicate Ascending(keys: seq<Key>) { AscendingTo(keys, |keys|) }

  /** The number of rows with a key smaller than k. */
  function First(keys: seq<Key>, k: Key): (n: nat)
    ensures n <= |keys|
  {
    if keys == [] then 0
    else First(keys[..|keys| - 1], k) + if LexLess(keys[|keys| - 1], k) then 1 else 0
  }

  function Count(keys: seq<Key>, k: Key): nat { multiset(keys)[k] }

  lemma CountStep(keys: seq<Key>, k: Key, t: nat)
    requires t < |keys|
    ensures Count(keys[..t + 1], k) == Count(keys[..t], k) + if keys[t] == k then 1 else 0
  {
    assert keys[..t + 1] == keys[..t] + [keys[t]];
  }

  lemma BelowToo(y: Key, x: Key, k: Key)
    requires !LexLess(x, y) && LexLess(x, k)
    ensures LexLess(y, k)
  {
    LexTotal(x, y);
    if LexLess(y, x) {
      LexTransitive(y, x, k);
    }
  }

  /** In a sorted table the rows of key k are First .. First + Count. */
  lemma {:induction false} GroupRange(keys: seq<Key>, k: Key, n: nat)
    requires n <= |keys| && AscendingTo(keys, n)
    ensures First(keys[..n], k) + Count(keys[..n], k) <= n
    ensures forall t :: 0 <= t < n ==> (LexLess(keys[t], k) <==> t < First(keys[..n], k))
    ensures forall t :: 0 <= t < n ==>
      (keys[t] == k <==> First(keys[..n], k) <= t < First(keys[..n], k) + Count(keys[..n], k))
  {
    if n > 0 {
      var x := keys[n - 1];
      GroupRange(keys, k, n - 1);
      CountStep(keys, k, n - 1);
      assert keys[..n][..n - 1] == keys[..n - 1];
      LexTotal(x, k);
      if n > 1 {
        LexTotal(keys[n - 2], k);
        if LexLess(x, k) {
          BelowToo(keys[n - 2], x, k);
        }
      }
    }
  }

  /** Matching pairs between two tables, counted row by row of the first. */
  function Pairs(a: seq<Key>, b: seq<Key>): nat {
    if a == [] then 0 else Pairs(a[..|a| - 1], b) + Count(b, a[|a| - 1])
  }

  lemma PairsStep(a: seq<Key>, b: seq<Key>, t: nat)
    requires t < |a|
    ensures Pairs(a[..t + 1], b) == Pairs(a[..t], b) + Count(b, a[t])
  {
    assert a[..t + 1][..t] == a[..t];
  }

  lemma {:induction false} PairsAppend(b: seq<Key>, a: seq<Key>, x: Key)
    ensures Pairs(b, a + [x]) == Pairs(b, a) + Count(b, x)
  {
    if b != [] {
      PairsAppend(b[..|b| - 1], a, x);
      assert b == b[..|b| - 1] + [b[|b| - 1]];
    }
  }

  /** Counting from either table gives the same number of pairs. */
  lemma {:induction false} PairsSymmetric(a: seq<Key>, b: seq<Key>)
    ensures Pairs(a, b) == Pairs(b, a)
  {
    if a == [] {
      NoPairs(b, a);
    } else {
      PairsSymmetric(a[..|a| - 1], b);
      PairsAppend(b, a[..|a| - 1], a[|a| - 1]);
      assert a == a[..|a| - 1] + [a[|a| - 1]];
    }
  }

  lemma {:induction false} NoPairs(b: seq<Key>, a: seq<Key>)
    requires a == []
    ensures Pairs(b, a) == 0
  {
    if b != [] {
      NoPairs(b[..|b| - 1], a);
    }
  }

  /** Keys below k find no partner among rows from First on. */
  lemma {:induction false} PairsCut(a: seq<Key>, b: seq<Key>, k: Key)
    requires Ascending(b)
    requires forall t :: 0 <= t < |a| ==> LexLess(a[t], k)
    ensures Pairs(a, b) == Pairs(a, b[..First(b, k)])
  {
    if a != [] {
      var x, f := a[|a| - 1], First(b, k);
      PairsCut(a[..|a| - 1], b, k);
      assert b[..|b|] == b;
      GroupRange(b, k, |b|);
      forall t | f <= t < |b| ensures b[t] != x {
        LexTotal(b[t], k);
      }
      assert b == b[..f] + b[f..];
      assert x !in b[f..];
    }
  }

  /** The slot where the blocks of key k start, seen from the first table. */
  function Base(a: seq<Key>, b: seq<Key>, k: Key): nat {
    Pairs(a[..First(a, k)], b)
  }

  /** Both tables start the blocks of key k at the same slot. */
  lemma BaseSymmetric(a: seq<Key>, b: seq<Key>, k: Key)
    requires Ascending(a) && Ascending(b)
    ensures Base(a, b, k) == Base(b, a, k)
  {
    var i, j := First(a, k), First(b, k);
    assert a[..|a|] == a && b[..|b|] == b;
    GroupRange(a, k, |a|);
    GroupRange(b, k, |b|);
    PairsCut(a[..i], b, k);
    PairsCut(b[..j], a, k);
    PairsSymmetric(a[..i], b[..j]);
  }

  lemma InGroup(a: seq<Key>, k: Key, d: nat)
    requires Ascending(a) && d <= Count(a, k)
    ensures First(a, k) + d <= |a| && (d > 0 ==> a[First(a, k) + d - 1] == k)
  {
    assert a[..|a|] == a;
    GroupRange(a, k, |a|);
  }

  /** hlo::Mul of two values, as repeated addition. */
  function Mul(x: int, y: int): int
    decreases if x < 0 then -x else x
  {
    if x == 0 then 0 else if x > 0 then Mul(x - 1, y) + y else Mul(x + 1, y) - y
  }

  lemma {:induction false} MulIsProduct(x: int, y: int)
    ensures Mul(x, y) == x * y
    decreases if x < 0 then -x else x
  {
    if x > 0 {
      MulIsProduct(x - 1, y);
      assert x * y == (x - 1) * y + y;
    } else if x < 0 {
      MulIsProduct(x + 1, y);
      assert x * y == (x + 1) * y - y;
    }
  }

  /** Inside a key group every row takes equally many slots. */
  lemma {:induction false} GroupSlots(a: seq<Key>, b: seq<Key>, k: Key, d: nat)
    requires Ascending(a) && d <= Count(a, k)
    ensures First(a, k) + d <= |a|
    ensures Pairs(a[..First(a, k) + d], b) == Base(a, b, k) + Mul(d, Count(b, k))
  {
    InGroup(a, k, d);
    if d > 0 {
      GroupSlots(a, b, k, d - 1);
      PairsStep(a, b, First(a, k) + d - 1);
    }
  }

  lemma {:induction false} RunningCount(a: seq<Key>, k: Key, d: nat)
    requires Ascending(a) && d <= Count(a, k)
    ensures First(a, k) + d <= |a|
    ensures Count(a[..First(a, k) + d], k) == d
  {
    assert a[..|a|] == a;
    GroupRange(a, k, |a|);
    if d > 0 {
      RunningCount(a, k, d - 1);
      CountStep(a, k, First(a, k) + d - 1);
    } else {
      CountZero(a, k);
    }
  }

  lemma CountZero(a: seq<Key>, k: Key)
    requires Ascending(a)
    ensures Count(a[..First(a, k)], k) == 0
  {
    var f := First(a, k);
    assert a[..|a|] == a;
    GroupRange(a, k, |a|);
    assert forall t :: 0 <= t < f ==> a[t] != k;
    assert k !in a[..f];
  }

  // ---- slots

  /** counts[i] is the number of partners of row i of a in b. */
  ghost predicate PartnerCounts(a: seq<Key>, b: seq<Key>, counts: Column) {
    |counts| == |a| && forall i :: 0 <= i < |a| ==> counts[i] == Count(b, a[i])
  }

  lemma {:induction false} SlotsArePairs(a: seq<Key>, b: seq<Key>, counts: Column, i: nat)
    requires PartnerCounts(a, b, counts) && i <= |a|
    ensures Sum(counts[..i]) == Pairs(a[..i], b)
  {
    if i > 0 {
      SlotsArePairs(a, b, counts, i - 1);
      SumStep(counts, i - 1);
      PairsStep(a, b, i - 1);
    }
  }

  /** Both tables fill the same number of slots. */
  lemma EqualTotals(a: seq<Key>, b: seq<Key>, ca: Column, cb: Column)
    requires PartnerCounts(a, b, ca) && PartnerCounts(b, a, cb)
    ensures Sum(ca) == Sum(cb) == Pairs(a, b)
  {
    SlotsArePairs(a, b, ca, |a|);
    SlotsArePairs(b, a, cb, |b|);
    assert ca[..|a|] == ca && cb[..|b|] == cb && a[..|a|] == a && b[..|b|] == b;
    PairsSymmetric(a, b);
  }

  /** Where a slot lies in the key groups: slot j belongs to row i of a, which is row
      number c of its group, at offset s inside the row's block. */
  lemma SlotOfRow(a: seq<Key>, b: seq<Key>, counts: Column, j: nat) returns (i: nat, c: nat, s: nat)
    requires Ascending(a) && PartnerCounts(a, b, counts) && j < Sum(counts)
    ensures i < |a| && i == Owner(counts, j)
    ensures i == First(a, a[i]) + c && c < Count(a, a[i]) && s < Count(b, a[i])
    ensures j == Base(a, b, a[i]) + Mul(c, Count(b, a[i])) + s
    ensures j == Sum(counts[..i]) + s
  {
    i := Owner(counts, j);
    var k := a[i];
    assert a[..|a|] == a;
    GroupRange(a, k, |a|);
    c := i - First(a, k);
    SumStep(counts, i);
    s := j - Sum(counts[..i]);
    GroupSlots(a, b, k, c);
    SlotsArePairs(a, b, counts, i);
  }

  /** The converse: row number c of key k owns the slots from Base + c * partners on. */
  lemma RowOfSlot(a: seq<Key>, b: seq<Key>, counts: Column, k: Key, c: nat, s: nat) returns (j: nat)
    requires Ascending(a) && PartnerCounts(a, b, counts)
    requires c < Count(a, k) && s < Count(b, k)
    ensures First(a, k) + c < |a| && a[First(a, k) + c] == k
    ensures j == Base(a, b, k) + Mul(c, Count(b, k)) + s
    ensures j < Sum(counts) && Owner(counts, j) == First(a, k) + c
    ensures j == Sum(counts[..First(a, k) + c]) + s
  {
    var i := First(a, k) + c;
    assert a[..|a|] == a;
    GroupRange(a, k, |a|);
    GroupSlots(a, b, k, c);
    SlotsArePairs(a, b, counts, i);
    SumStep(counts, i);
    j := Sum(counts[..i]) + s;
    OwnerUnique(counts, j, i);
  }

  /** bi = i - (sR - 1) * (aL - 1) + ai * (aR - 1). */
  function AlignedSlot(i: int, sR: int, aL: int, ai: int, aR: int): int {
    i - Mul(sR - 1, aL - 1) + Mul(ai, aR - 1)
  }

  /** Inside a block the formula exchanges row-major and column-major order. */
  lemma AlignedSlotTransposes(j: int, g: int, aL: nat, aR: nat, c: nat, s: nat)
    requires j == g + Mul(s, aL) + c
    ensures AlignedSlot(j, s + 1, aL, c, aR) == g + Mul(c, aR) + s
  {
    MulIsProduct(s, aL);
    MulIsProduct(c, aR);
    MulIsProduct(s, aL - 1);
    MulIsProduct(c, aR - 1);
    assert s * (aL - 1) == s * aL - s;
    assert c * (aR - 1) == c * aR - c;
  }

  /** Where the alignment formula sends slot j of the expanded right table. */
  function Target(a: seq<Key>, b: seq<Key>, cb: Column, j: nat): int
    requires PartnerCounts(b, a, cb)
  {
    if j < Sum(cb) then
      var r := Owner(cb, j);
      AlignedSlot(j, Count(b[..r + 1], b[r]), Count(a, b[r]), CopyOf(cb, j), Count(b, b[r]))
    else j
  }

  /** The formula on the numbers found in slot j, which belongs to row r of b. */
  lemma TargetOfSlot(a: seq<Key>, b: seq<Key>, cb: Column, j: nat, r: nat, k: Key, c: int, number: int)
    requires PartnerCounts(b, a, cb) && j < Sum(cb) && r == Owner(cb, j) < |b| && b[r] == k
    requires CopyOf(cb, j) == c && Count(b[..r + 1], k) == number
    ensures Target(a, b, cb, j) == AlignedSlot(j, number, Count(a, k), c, Count(b, k))
  {
  }

  /** Copy c of row number s of key k goes to offset s of the block of row number c. */
  lemma BlockTransposed(a: seq<Key>, b: seq<Key>, k: Key, c: nat, s: nat, j: nat, j': nat)
    requires Ascending(a) && Ascending(b)
    requires j == Base(a, b, k) + Mul(c, Count(b, k)) + s
    requires j' == Base(b, a, k) + Mul(s, Count(a, k)) + c
    ensures AlignedSlot(j', s + 1, Count(a, k), c, Count(b, k)) == j
  {
    BaseSymmetric(a, b, k);
    AlignedSlotTransposes(j', Base(a, b, k), Count(a, k), Count(b, k), c, s);
  }

  /** Slot j of the joined table is row i of a and row r of b, both of one key; the alignment
      moves it there from slot j' of the expanded b. */
  lemma Transpose(a: seq<Key>, b: seq<Key>, ca: Column, cb: Column, j: nat) returns (i: nat, r: nat, j': nat)
    requires Ascending(a) && Ascending(b)
    requires PartnerCounts(a, b, ca) && PartnerCounts(b, a, cb) && j < Sum(ca)
    ensures i < |a| && r < |b| && i == Owner(ca, j) && a[i] == b[r]
    ensures r == First(b, a[i]) + (j - Sum(ca[..i]))
    ensures j' < Sum(cb) && r == Owner(cb, j')
    ensures Target(a, b, cb, j') == j
  {
    var c, s;
    i, c, s := SlotOfRow(a, b, ca, j);
    var k := a[i];
    j' := RowOfSlot(b, a, cb, k, s, c);
    r := First(b, k) + s;
    RunningCount(b, k, s + 1);
    BlockTransposed(a, b, k, c, s, j, j');
    TargetOfSlot(a, b, cb, j', r, k, c, s + 1);
  }
}
