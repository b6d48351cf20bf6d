/** What an inner equi-join is, and the slot-by-slot layout SecretJoin gives it. */
module JoinSpec {
  import opened Columns
  import opened Ordering
  import opened Placement
  import opened JoinAlignment

  /** Order of the joined rows: by key, then left row, then right row. */
  predicate PairBefore(lk: seq<Key>, a: (nat, nat), b: (nat, nat))
    requires a.0 < |lk| && b.0 < |lk|
  {
    Before(lk, a.0, b.0) || (a.0 == b.0 && a.1 < b.1)
  }

  /** pairs lists every pair of rows with equal keys, in order, and nothing else. */
  ghost predicate IsInnerJoin(pairs: seq<(nat, nat)>, lk: seq<Key>, rk: seq<Key>) {
    && (forall t :: 0 <= t < |pairs| ==>
          pairs[t].0 < |lk| && pairs[t].1 < |rk| && lk[pairs[t].0] == rk[pairs[t].1])
    && (forall x: nat, y: nat :: x < |lk| && y < |rk| && lk[x] == rk[y] ==> (x, y) in pairs)
    && (forall s, t :: 0 <= s < t < |pairs| ==> PairBefore(lk, pairs[s], pairs[t]))
  }

  /** The order leaves no repetition: each matching pair occurs exactly once. */
  lemma InnerJoinDistinct(pairs: seq<(nat, nat)>, lk: seq<Key>, rk: seq<Key>)
    requires IsInnerJoin(pairs, lk, rk)
    ensures Distinct(pairs)
    ensures forall x: nat, y: nat ::
      multiset(pairs)[(x, y)] == if x < |lk| && y < |rk| && lk[x] == rk[y] then 1 else 0
  {
    forall s, t | 0 <= s < t < |pairs| ensures pairs[s] != pairs[t] {
      BeforeOrder(lk, pairs[s].0, pairs[t].0);
    }
    forall x: nat, y: nat
      ensures multiset(pairs)[(x, y)] == if x < |lk| && y < |rk| && lk[x] == rk[y] then 1 else 0
    {
      OccursOnce(pairs, (x, y));
      if (x, y) in pairs {
        var t :| 0 <= t < |pairs| && pairs[t] == (x, y);
      }
    }
  }

  /** A row number of the sorted right table: the partner that slot j pairs with its left row. */
  ghost function Partner(a: seq<Key>, b: seq<Key>, ca: Column, j: nat): int
    requires PartnerCounts(a, b, ca) && j < Sum(ca)
  {
    First(b, a[Owner(ca, j)]) + (j - Sum(ca[..Owner(ca, j)]))
  }

  lemma PartnerMatches(a: seq<Key>, b: seq<Key>, ca: Column, cb: Column, j: nat)
    requires Ascending(a) && Ascending(b)
    requires PartnerCounts(a, b, ca) && PartnerCounts(b, a, cb) && j < Sum(ca)
    ensures 0 <= Partner(a, b, ca, j) < |b| && b[Partner(a, b, ca, j)] == a[Owner(ca, j)]
  {
    var i, r, j' := Transpose(a, b, ca, cb, j);
  }

  lemma {:induction false} SortedPrefix(keys: seq<Key>, p: seq<nat>, n: nat)
    requires InRange(p, |keys|) && n <= |p| && forall s, t :: 0 <= s < t < |p| ==> Before(keys, p[s], p[t])
    ensures AscendingTo(Gather(keys, p), n)
  {
    if n > 1 {
      SortedPrefix(keys, p, n - 1);
      assert Before(keys, p[n - 2], p[n - 1]);
      LexTotal(keys[p[n - 2]], keys[p[n - 1]]);
    }
  }

  lemma SortedAscending(keys: seq<Key>)
    ensures Ascending(Gather(keys, SortIndices(keys)))
  {
    SortIndicesSorts(keys);
    SortedPrefix(keys, SortIndices(keys), |keys|);
  }

  lemma SortKeepsCounts(keys: seq<Key>, k: Key)
    ensures Count(Gather(keys, SortIndices(keys)), k) == multiset(keys)[k]
  {
    SortIndicesSorts(keys);
    GatherPerm(keys, SortIndices(keys));
  }

  /** The pair of original rows in each slot. */
  ghost predicate Layout(pairs: seq<(nat, nat)>, lk: seq<Key>, rk: seq<Key>, ca: Column, cb: Column)
  {
    var l, r := SortIndices(lk), SortIndices(rk);
    var a, b := Gather(lk, l), Gather(rk, r);
    && PartnerCounts(a, b, ca) && PartnerCounts(b, a, cb)
    && |pairs| == Sum(ca)
    && forall j :: 0 <= j < |pairs| ==>
         && 0 <= Partner(a, b, ca, j) < |rk|
         && pairs[j] == (l[Owner(ca, j)], r[Partner(a, b, ca, j)])
  }

  lemma LayoutSound(pairs: seq<(nat, nat)>, lk: seq<Key>, rk: seq<Key>, ca: Column, cb: Column)
    requires Layout(pairs, lk, rk, ca, cb)
    ensures forall t :: 0 <= t < |pairs| ==>
          pairs[t].0 < |lk| && pairs[t].1 < |rk| && lk[pairs[t].0] == rk[pairs[t].1]
  {
    SortedAscending(lk);
    SortedAscending(rk);
    var a, b := Gather(lk, SortIndices(lk)), Gather(rk, SortIndices(rk));
    forall t | 0 <= t < |pairs|
      ensures pairs[t].0 < |lk| && pairs[t].1 < |rk| && lk[pairs[t].0] == rk[pairs[t].1]
    {
      PartnerMatches(a, b, ca, cb, t);
    }
  }

  /** A row of a sorted table is its key's First row plus its number in the group. */
  lemma RowInGroup(keys: seq<Key>, x: nat) returns (i: nat)
    requires x < |keys|
    ensures
      var p := SortIndices(keys);
      var a := Gather(keys, p);
      i < |p| && p[i] == x && First(a, keys[x]) <= i < First(a, keys[x]) + Count(a, keys[x])
  {
    var p := SortIndices(keys);
    var a := Gather(keys, p);
    SortedAscending(keys);
    SortIndicesSorts(keys);
    PermReaches(p, |keys|);
    i := IndexOf(p, x);
    assert a[..|a|] == a && a[i] == keys[x];
    GroupRange(a, keys[x], |a|);
  }

  lemma LayoutComplete(pairs: seq<(nat, nat)>, lk: seq<Key>, rk: seq<Key>, ca: Column, cb: Column, x: nat, y: nat)
    requires Layout(pairs, lk, rk, ca, cb)
    requires x < |lk| && y < |rk| && lk[x] == rk[y]
    ensures (x, y) in pairs
  {
    var a, b := Gather(lk, SortIndices(lk)), Gather(rk, SortIndices(rk));
    var i := RowInGroup(lk, x);
    var v := RowInGroup(rk, y);
    var k := lk[x];
    assert Ascending(a) by { SortedAscending(lk); }
    var j := SlotOfPair(a, b, ca, k, i, v);
    LayoutAt(pairs, lk, rk, ca, cb, j, i, v);
    assert pairs[j] == (x, y);
  }

  /** Row i of a and row v of b, both of key k, share a slot. */
  lemma SlotOfPair(a: seq<Key>, b: seq<Key>, ca: Column, k: Key, i: nat, v: nat) returns (j: nat)
    requires Ascending(a) && PartnerCounts(a, b, ca)
    requires First(a, k) <= i < First(a, k) + Count(a, k) && First(b, k) <= v < First(b, k) + Count(b, k)
    ensures j < Sum(ca) && Owner(ca, j) == i && Partner(a, b, ca, j) == v
  {
    var c, s := i - First(a, k), v - First(b, k);
    j := RowOfSlot(a, b, ca, k, c, s);
    assert First(a, k) + c == i;
  }

  lemma LayoutAt(pairs: seq<(nat, nat)>, lk: seq<Key>, rk: seq<Key>, ca: Column, cb: Column, j: nat, i: nat, v: nat)
    requires Layout(pairs, lk, rk, ca, cb) && j < |pairs| && i < |lk| && v < |rk|
    requires i == Owner(ca, j) && v == Partner(Gather(lk, SortIndices(lk)), Gather(rk, SortIndices(rk)), ca, j)
    ensures pairs[j] == (SortIndices(lk)[i], SortIndices(rk)[v])
  {
  }

  lemma LayoutOrdered(pairs: seq<(nat, nat)>, lk: seq<Key>, rk: seq<Key>, ca: Column, cb: Column, s: nat, t: nat)
    requires Layout(pairs, lk, rk, ca, cb)
    requires s < t < |pairs|
    ensures PairBefore(lk, pairs[s], pairs[t])
  {
    var l, r := SortIndices(lk), SortIndices(rk);
    var a, b := Gather(lk, l), Gather(rk, r);
    SortIndicesSorts(lk);
    var i, i' := Owner(ca, s), Owner(ca, t);
    if i' < i {
      PrefixMonotone(ca, i' + 1, i);
    }
    if i == i' {
      SortedAscending(lk);
      SortedAscending(rk);
      PartnerMatches(a, b, ca, cb, s);
      PartnerMatches(a, b, ca, cb, t);
      SortIndicesSorts(rk);
      var v, v' := Partner(a, b, ca, s), Partner(a, b, ca, t);
      assert Before(rk, r[v], r[v']);
      LexTotal(b[v], b[v']);
    }
  }

  /** Block by block, the layout is exactly the inner join. */
  lemma LayoutIsInnerJoin(pairs: seq<(nat, nat)>, lk: seq<Key>, rk: seq<Key>, ca: Column, cb: Column)
    requires Layout(pairs, lk, rk, ca, cb)
    ensures IsInnerJoin(pairs, lk, rk)
  {
    LayoutSound(pairs, lk, rk, ca, cb);
    forall x: nat, y: nat | x < |lk| && y < |rk| && lk[x] == rk[y] ensures (x, y) in pairs {
      LayoutComplete(pairs, lk, rk, ca, cb, x, y);
    }
    forall s, t | 0 <= s < t < |pairs| ensures PairBefore(lk, pairs[s], pairs[t]) {
      LayoutOrdered(pairs, lk, rk, ca, cb, s, t);
    }
  }

  lemma LayoutExists(lk: seq<Key>, rk: seq<Key>, ca: Column, cb: Column) returns (pairs: seq<(nat, nat)>)
    requires
      var a, b := Gather(lk, SortIndices(lk)), Gather(rk, SortIndices(rk));
      PartnerCounts(a, b, ca) && PartnerCounts(b, a, cb)
    ensures Layout(pairs, lk, rk, ca, cb)
  {
    var l, r := SortIndices(lk), SortIndices(rk);
    var a, b := Gather(lk, l), Gather(rk, r);
    SortedAscending(lk);
    SortedAscending(rk);
    EqualTotals(a, b, ca, cb);
    forall j: nat | j < Sum(ca) ensures 0 <= Partner(a, b, ca, j) < |b| {
      PartnerMatches(a, b, ca, cb, j);
    }
    pairs := seq(Sum(ca), j requires 0 <= j < Sum(ca) => (l[Owner(ca, j)], r[Partner(a, b, ca, j)]));
  }

  function PartnersOf(a: seq<Key>, b: seq<Key>): (c: Column)
    ensures PartnerCounts(a, b, c)
  {
    seq(|a|, i requires 0 <= i < |a| => Count(b, a[i]))
  }

  // ---- a join in order is unique

  /** Strictly ascending pairs of rows. */
  ghost predicate InPairOrder(pairs: seq<(nat, nat)>, lk: seq<Key>) {
    && (forall t :: 0 <= t < |pairs| ==> pairs[t].0 < |lk|)
    && forall s, t :: 0 <= s < t < |pairs| ==> PairBefore(lk, pairs[s], pairs[t])
  }

  lemma PairBeforeOrder(lk: seq<Key>, x: (nat, nat), y: (nat, nat))
    requires x.0 < |lk| && y.0 < |lk|
    ensures !(PairBefore(lk, x, y) && PairBefore(lk, y, x))
  {
    BeforeOrder(lk, x.0, y.0);
  }

  lemma LastOfOther(p: seq<(nat, nat)>, q: seq<(nat, nat)>, lk: seq<Key>, n: nat)
    requires InPairOrder(q, lk) && 0 < n <= |p| && n <= |q| && multiset(p[..n]) == multiset(q[..n])
    ensures p[n - 1].0 < |lk| && (p[n - 1] == q[n - 1] || PairBefore(lk, p[n - 1], q[n - 1]))
  {
    assert p[n - 1] == p[..n][n - 1];
    assert p[n - 1] in multiset(q[..n]);
    var k :| 0 <= k < n && q[..n][k] == p[n - 1];
    assert q[k] == p[n - 1];
  }

  lemma PairsDropLast(p: seq<(nat, nat)>, n: nat)
    requires 0 < n <= |p|
    ensures multiset(p[..n - 1]) == multiset(p[..n]) - multiset{p[n - 1]}
  {
    assert p[..n] == p[..n - 1] + [p[n - 1]];
  }

  lemma LastPairsEqual(p: seq<(nat, nat)>, q: seq<(nat, nat)>, lk: seq<Key>, n: nat)
    requires InPairOrder(p, lk) && InPairOrder(q, lk)
    requires 0 < n <= |p| && n <= |q| && multiset(p[..n]) == multiset(q[..n])
    ensures p[n - 1] == q[n - 1] && multiset(p[..n - 1]) == multiset(q[..n - 1])
  {
    assert p[n - 1] == q[n - 1] by {
      LastOfOther(p, q, lk, n);
      LastOfOther(q, p, lk, n);
      PairBeforeOrder(lk, p[n - 1], q[n - 1]);
    }
    PairsDropLast(p, n);
    PairsDropLast(q, n);
  }

  lemma {:induction false} OrderedPairsEqual(p: seq<(nat, nat)>, q: seq<(nat, nat)>, lk: seq<Key>, n: nat)
    requires InPairOrder(p, lk) && InPairOrder(q, lk)
    requires n <= |p| && n <= |q| && multiset(p[..n]) == multiset(q[..n])
    ensures forall i :: 0 <= i < n ==> p[i] == q[i]
  {
    if n > 0 {
      LastPairsEqual(p, q, lk, n);
      OrderedPairsEqual(p, q, lk, n - 1);
    }
  }

  lemma SamePairs(p: seq<(nat, nat)>, q: seq<(nat, nat)>, lk: seq<Key>, rk: seq<Key>)
    requires IsInnerJoin(p, lk, rk) && IsInnerJoin(q, lk, rk)
    ensures multiset(p) == multiset(q) && |p| == |q|
  {
    InnerJoinDistinct(p, lk, rk);
    InnerJoinDistinct(q, lk, rk);
    forall x: (nat, nat) ensures multiset(p)[x] == multiset(q)[x] {
      assert x == (x.0, x.1);
    }
    assert |p| == |multiset(p)| && |q| == |multiset(q)|;
  }

  /** Two tables have one inner join in this order. */
  lemma SameJoin(p: seq<(nat, nat)>, q: seq<(nat, nat)>, lk: seq<Key>, rk: seq<Key>)
    requires IsInnerJoin(p, lk, rk) && IsInnerJoin(q, lk, rk)
    ensures p == q
  {
    SamePairs(p, q, lk, rk);
    var n := |p|;
    assert p[..n] == p && q[..n] == q;
    OrderedPairsEqual(p, q, lk, n);
  }

  /** The inner join is laid out block by block. */
  lemma JoinHasLayout(pairs: seq<(nat, nat)>, lk: seq<Key>, rk: seq<Key>) returns (ca: Column, cb: Column)
    requires IsInnerJoin(pairs, lk, rk)
    ensures Layout(pairs, lk, rk, ca, cb)
  {
    var a, b := Gather(lk, SortIndices(lk)), Gather(rk, SortIndices(rk));
    ca, cb := PartnersOf(a, b), PartnersOf(b, a);
    var laid := LayoutExists(lk, rk, ca, cb);
    LayoutIsInnerJoin(laid, lk, rk, ca, cb);
    SameJoin(pairs, laid, lk, rk);
  }

  /** The rows in slot Base + c * aR + s of a layout. */
  lemma LaidBlock(pairs: seq<(nat, nat)>, lk: seq<Key>, rk: seq<Key>, ca: Column, cb: Column, k: Key, c: nat, s: nat,
                  a: seq<Key>, b: seq<Key>)
    returns (j: nat)
    requires a == Gather(lk, SortIndices(lk)) && b == Gather(rk, SortIndices(rk))
    requires Layout(pairs, lk, rk, ca, cb) && c < Count(a, k) && s < Count(b, k)
    ensures j == Base(a, b, k) + c * Count(b, k) + s && j < |pairs|
    ensures First(a, k) + c < |a| && a[First(a, k) + c] == k && First(b, k) + s < |b| && b[First(b, k) + s] == k
    ensures pairs[j] == (SortIndices(lk)[First(a, k) + c], SortIndices(rk)[First(b, k) + s])
  {
    SortedAscending(lk);
    SortedAscending(rk);
    InGroup(b, k, s + 1);
    j := SlotAndPartner(a, b, ca, k, c, s);
    LayoutAt(pairs, lk, rk, ca, cb, j, First(a, k) + c, First(b, k) + s);
  }

  /** In the inner join the block of key k starts at slot Base: slot Base + c * aR + s holds the
      c-th left row and the s-th right row of that key. */
  lemma BlockLayout(pairs: seq<(nat, nat)>, lk: seq<Key>, rk: seq<Key>, k: Key, c: nat, s: nat,
                    a: seq<Key>, b: seq<Key>)
    returns (j: nat)
    requires a == Gather(lk, SortIndices(lk)) && b == Gather(rk, SortIndices(rk))
    requires IsInnerJoin(pairs, lk, rk) && c < Count(a, k) && s < Count(b, k)
    ensures j == Base(a, b, k) + c * Count(b, k) + s && j < |pairs|
    ensures First(a, k) + c < |a| && a[First(a, k) + c] == k && First(b, k) + s < |b| && b[First(b, k) + s] == k
    ensures pairs[j] == (SortIndices(lk)[First(a, k) + c], SortIndices(rk)[First(b, k) + s])
  {
    var ca, cb := JoinHasLayout(pairs, lk, rk);
    j := LaidBlock(pairs, lk, rk, ca, cb, k, c, s, a, b);
  }

  lemma SlotAndPartner(a: seq<Key>, b: seq<Key>, ca: Column, k: Key, c: nat, s: nat) returns (j: nat)
    requires Ascending(a) && PartnerCounts(a, b, ca) && c < Count(a, k) && s < Count(b, k)
    ensures j == Base(a, b, k) + c * Count(b, k) + s && j < Sum(ca)
    ensures First(a, k) + c < |a| && a[First(a, k) + c] == k
    ensures Owner(ca, j) == First(a, k) + c && Partner(a, b, ca, j) == First(b, k) + s
  {
    j := RowOfSlot(a, b, ca, k, c, s);
    MulIsProduct(c, Count(b, k));
  }
}
