/** Row keys of any number of columns, and the contract of hlo::SimpleSort: a stable
    ascending lexicographic sort, given as the permutation it applies. */
module Ordering {
  import opened Columns

  /** The values of all key columns in one row. */
  type Key = seq<int>

  predicate LexLess(a: Key, b: Key) {
    if a == [] then b != []
    else b != [] && (a[0] < b[0] || (a[0] == b[0] && LexLess(a[1..], b[1..])))
  }

  lemma {:induction false} LexTotal(a: Key, b: Key)
    ensures LexLess(a, b) || a == b || LexLess(b, a)
    ensures !(LexLess(a, b) && LexLess(b, a))
    ensures LexLess(a, b) ==> a != b
  {
    if a != [] && b != [] {
      LexTotal(a[1..], b[1..]);
      assert a == [a[0]] + a[1..] && b == [b[0]] + b[1..];
    }
  }

  lemma {:induction false} LexTransitive(a: Key, b: Key, c: Key)
    requires LexLess(a, b) && LexLess(b, c)
    ensures LexLess(a, c)
  {
    if a != [] && a[0] == b[0] == c[0] {
      LexTransitive(a[1..], b[1..], c[1..]);
    }
  }

  /** A last column decides between rows that agree on all earlier ones. */
  lemma {:induction false} LexLastColumn(a: Key, b: Key, x: int, y: int)
    requires |a| == |b|
    ensures LexLess(a + [x], b + [y]) <==> LexLess(a, b) || (a == b && x < y)
    decreases |a|
  {
    if a == [] {
      assert a + [x] == [x] && b + [y] == [y];
    } else {
      assert (a + [x])[1..] == a[1..] + [x] && (b + [y])[1..] == b[1..] + [y];
      assert a == [a[0]] + a[1..] && b == [b[0]] + b[1..];
      LexLastColumn(a[1..], b[1..], x, y);
    }
  }

  /** Row i goes before row j: smaller key, or equal keys and earlier row. */
  predicate Before(keys: seq<Key>, i: nat, j: nat)
    requires i < |keys| && j < |keys|
  {
    LexLess(keys[i], keys[j]) || (keys[i] == keys[j] && i < j)
  }

  lemma BeforeOrder(keys: seq<Key>, i: nat, j: nat)
    requires i < |keys| && j < |keys|
    ensures !(Before(keys, i, j) && Before(keys, j, i))
    ensures i != j ==> Before(keys, i, j) || Before(keys, j, i)
  {
    LexTotal(keys[i], keys[j]);
  }

  lemma BeforeTransitive(keys: seq<Key>, i: nat, j: nat, k: nat)
    requires i < |keys| && j < |keys| && k < |keys|
    requires Before(keys, i, j) && Before(keys, j, k)
    ensures Before(keys, i, k)
  {
    if LexLess(keys[i], keys[j]) && LexLess(keys[j], keys[k]) {
      LexTransitive(keys[i], keys[j], keys[k]);
    }
  }

  ghost predicate StablySorted(keys: seq<Key>, p: seq<nat>) {
    InRange(p, |keys|) && forall a, b :: 0 <= a < b < |p| ==> Before(keys, p[a], p[b])
  }

  lemma SortedDistinct(keys: seq<Key>, p: seq<nat>)
    requires StablySorted(keys, p)
    ensures Distinct(p)
  {
    forall a, b | 0 <= a < b < |p| ensures p[a] != p[b] {
      BeforeOrder(keys, p[a], p[b]);
    }
  }

  function Insert(keys: seq<Key>, p: seq<nat>, i: nat): (r: seq<nat>)
    requires i < |keys| && InRange(p, i) && StablySorted(keys, p)
    ensures |r| == |p| + 1 && StablySorted(keys, r) && InRange(r, i + 1)
    ensures forall v :: v in r ==> v in p || v == i
  {
    var n := |p|;
    if n == 0 then [i]
    else if LexLess(keys[i], keys[p[n - 1]]) then
      var r := Insert(keys, p[..n - 1], i);
      assert forall a :: 0 <= a < n ==> Before(keys, r[a], p[n - 1]) by {
        assert forall a :: 0 <= a < n ==> r[a] in p[..n - 1] || r[a] == i;
      }
      r + [p[n - 1]]
    else
      assert forall a :: 0 <= a < n ==> Before(keys, p[a], i) by { LastIsGreatest(keys, p, i); }
      p + [i]
  }

  lemma LastIsGreatest(keys: seq<Key>, p: seq<nat>, i: nat)
    requires p != [] && i < |keys| && InRange(p, i) && StablySorted(keys, p)
    requires !LexLess(keys[i], keys[p[|p| - 1]])
    ensures forall a :: 0 <= a < |p| ==> Before(keys, p[a], i)
  {
    var n := |p|;
    LexTotal(keys[i], keys[p[n - 1]]);
    forall a | 0 <= a < n ensures Before(keys, p[a], i) {
      if a < n - 1 {
        BeforeTransitive(keys, p[a], p[n - 1], i);
      }
    }
  }

  function SortPrefix(keys: seq<Key>, n: nat): (p: seq<nat>)
    requires n <= |keys|
    ensures |p| == n && InRange(p, n) && StablySorted(keys, p)
  {
    if n == 0 then [] else Insert(keys, SortPrefix(keys, n - 1), n - 1)
  }

  /** The permutation that hlo::SimpleSort applies to every column. */
  function SortIndices(keys: seq<Key>): (p: seq<nat>)
    ensures |p| == |keys| && InRange(p, |keys|)
  {
    SortPrefix(keys, |keys|)
  }

  lemma SortIndicesSorts(keys: seq<Key>)
    ensures IsPerm(SortIndices(keys), |keys|) && StablySorted(keys, SortIndices(keys))
  {
    SortedDistinct(keys, SortIndices(keys));
  }

  /** Stability leaves only one sorting permutation. */
  lemma StableSortUnique(keys: seq<Key>, q: seq<nat>)
    requires |q| == |keys| && StablySorted(keys, q)
    ensures q == SortIndices(keys)
  {
    var p := SortIndices(keys);
    SortIndicesSorts(keys);
    SortedDistinct(keys, q);
    PrefixesAgree(keys, p, q, |keys|);
    assert p[..|keys|] == p && q[..|keys|] == q;
  }

  lemma {:induction false} PrefixesAgree(keys: seq<Key>, p: seq<nat>, q: seq<nat>, n: nat)
    requires IsPerm(p, |keys|) && StablySorted(keys, p)
    requires IsPerm(q, |keys|) && StablySorted(keys, q)
    requires n <= |keys|
    ensures p[..n] == q[..n]
  {
    if n > 0 {
      var i := n - 1;
      PrefixesAgree(keys, p, q, i);
      assert forall t :: 0 <= t < i ==> p[t] == p[..i][t] && q[t] == q[..i][t];
      PermReaches(p, |keys|);
      PermReaches(q, |keys|);
      assert p[i] in q && q[i] in p;
      var a :| 0 <= a < |q| && q[a] == p[i];
      var b :| 0 <= b < |p| && p[b] == q[i];
      BeforeOrder(keys, p[i], q[i]);
    }
  }
}
