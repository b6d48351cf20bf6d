/** Columns of numbers and the index operations the operators apply to whole columns:
    gather, permutation, inverse permutation, sums, multisets. */
module Columns {

  type Column = seq<int>
  type Bit = b: int | 0 <= b <= 1

  function Zeros(n: nat): (z: Column)
    ensures |z| == n && forall i :: 0 <= i < n ==> z[i] == 0
  {
    seq(n, _ => 0)
  }

  function Ones(n: nat): (z: Column)
    ensures |z| == n && forall i :: 0 <= i < n ==> z[i] == 1
  {
    seq(n, _ => 1)
  }

  /** 1 - mark. */
  function Flip(o: seq<Bit>): (f: seq<Bit>)
    ensures |f| == |o| && forall i :: 0 <= i < |o| ==> f[i] == 1 - o[i]
  {
    seq(|o|, i requires 0 <= i < |o| => 1 - o[i])
  }

  function Iota(n: nat): (s: seq<nat>)
    ensures |s| == n && forall i :: 0 <= i < n ==> s[i] == i
  {
    seq(n, (i: nat) => i)
  }

  // ---- sums

  function Sum(s: seq<int>): int {
    if s == [] then 0 else Sum(s[..|s| - 1]) + s[|s| - 1]
  }

  lemma {:induction false} SumStep(s: seq<int>, i: nat)
    requires i < |s|
    ensures Sum(s[..i + 1]) == Sum(s[..i]) + s[i]
  {
    assert s[..i + 1][..i] == s[..i];
  }

  lemma {:induction false} SumConcat(a: seq<int>, b: seq<int>)
    ensures Sum(a + b) == Sum(a) + Sum(b)
    decreases |b|
  {
    if b == [] {
      assert a + b == a;
    } else {
      SumConcat(a, b[..|b| - 1]);
      assert (a + b)[..|a + b| - 1] == a + b[..|b| - 1];
    }
  }

  lemma {:induction false} SumOfOnes(n: nat)
    ensures Sum(Ones(n)) == n
  {
    if n > 0 {
      assert Ones(n)[..n - 1] == Ones(n - 1);
      SumOfOnes(n - 1);
    }
  }

  // ---- gather and permutations

  ghost predicate InRange(idx: seq<nat>, n: nat) {
    forall i :: 0 <= i < |idx| ==> idx[i] < n
  }

  function Gather<T>(x: seq<T>, idx: seq<nat>): (y: seq<T>)
    requires InRange(idx, |x|)
    ensures |y| == |idx| && forall i :: 0 <= i < |y| ==> y[i] == x[idx[i]]
  {
    seq(|idx|, i requires 0 <= i < |idx| => x[idx[i]])
  }

  ghost predicate Distinct<T>(p: seq<T>) {
    forall i, j :: 0 <= i < j < |p| ==> p[i] != p[j]
  }

  ghost predicate IsPerm(p: seq<nat>, n: nat) {
    |p| == n && InRange(p, n) && Distinct(p)
  }

  function Elements<T>(p: seq<T>): set<T> {
    set i | 0 <= i < |p| :: p[i]
  }

  lemma {:induction false} DistinctSize<T>(p: seq<T>)
    requires Distinct(p)
    ensures |Elements(p)| == |p|
  {
    if p != [] {
      var q := p[..|p| - 1];
      DistinctSize(q);
      assert Elements(p) == Elements(q) + {p[|p| - 1]};
    }
  }

  lemma {:induction false} AtMostLength<T>(p: seq<T>)
    ensures |Elements(p)| <= |p|
  {
    if p != [] {
      var q := p[..|p| - 1];
      AtMostLength(q);
      assert Elements(p) == Elements(q) + {p[|p| - 1]};
    }
  }

  lemma {:induction false} Below(n: nat) returns (s: set<nat>)
    ensures |s| == n && forall j: nat :: j in s <==> j < n
  {
    if n == 0 {
      s := {};
    } else {
      s := Below(n - 1);
      s := s + {n - 1};
    }
  }

  lemma {:induction false} SubsetSize<T>(a: set<T>, b: set<T>)
    requires a <= b
    ensures |a| <= |b| && (|a| == |b| ==> a == b)
  {
    var c := b - a;
    assert b == a + c && a !! c;
    assert |b| == |a| + |c|;
  }

  /** A permutation of 0..n reaches every index. */
  lemma PermReaches(p: seq<nat>, n: nat)
    requires IsPerm(p, n)
    ensures forall j: nat :: j < n ==> j in p
  {
    var s := Below(n);
    DistinctSize(p);
    assert Elements(p) <= s;
    SubsetSize(Elements(p), s);
    forall j: nat | j < n ensures j in p { assert j in Elements(p); }
  }

  /** n numbers that reach all of 0..n are a permutation. */
  lemma ReachesIsPerm(p: seq<int>, n: nat)
    requires |p| == n
    requires forall j: int :: 0 <= j < n ==> j in p
    ensures forall i :: 0 <= i < n ==> 0 <= p[i] < n
    ensures Distinct(p)
  {
    var s := IntsBelow(n);
    AtMostLength(p);
    forall v | v in s ensures v in Elements(p) {
      assert v in p;
    }
    SubsetSize(s, Elements(p));
    forall i | 0 <= i < n ensures 0 <= p[i] < n {
      assert p[i] in Elements(p);
    }
    forall i, j | 0 <= i < j < n
      ensures p[i] != p[j]
    {
      if p[i] == p[j] {
        var q := p[..j] + p[j + 1..];
        AtMostLength(q);
        forall v | v in s ensures v in Elements(q) {
          assert v in p;
          var k :| 0 <= k < n && p[k] == v;
          var k' := if k == j then i else k;
          assert v == q[if k' < j then k' else k' - 1];
        }
        SubsetSize(s, Elements(q));
      }
    }
  }

  lemma {:induction false} IntsBelow(n: nat) returns (s: set<int>)
    ensures |s| == n && forall j :: j in s <==> 0 <= j < n
  {
    if n == 0 {
      s := {};
    } else {
      s := IntsBelow(n - 1);
      s := s + {n - 1};
    }
  }

  /** Where value j stands in p. */
  function IndexOf(p: seq<nat>, j: nat): (i: nat)
    requires j in p
    ensures i < |p| && p[i] == j
  {
    if p[0] == j then 0 else 1 + IndexOf(p[1..], j)
  }

  /** hlo::InvPermute: element i of x moves to slot p[i]. */
  function InvPermute<T>(x: seq<T>, p: seq<nat>): (y: seq<T>)
    requires IsPerm(p, |x|)
    ensures |y| == |x|
    ensures forall i :: 0 <= i < |x| ==> y[p[i]] == x[i]
  {
    PermReaches(p, |x|);
    seq(|x|, j requires 0 <= j < |x| => x[IndexOf(p, j)])
  }

  // ---- multisets

  lemma CountsTwice<T>(s: seq<T>, a: nat, b: nat)
    requires a < b < |s| && s[a] == s[b]
    ensures multiset(s)[s[a]] >= 2
  {
    assert s == s[..b] + s[b..] && s[..b][a] == s[a] && s[b..][0] == s[b];
    assert multiset(s) == multiset(s[..b]) + multiset(s[b..]);
  }

  lemma {:induction false} OccursOnce<T>(s: seq<T>, x: T)
    requires Distinct(s)
    ensures multiset(s)[x] == if x in s then 1 else 0
  {
    if s != [] {
      var n := |s|;
      OccursOnce(s[..n - 1], x);
      assert s == s[..n - 1] + [s[n - 1]];
    }
  }

  lemma SplitAt<T>(s: seq<T>, i: nat)
    requires i < |s|
    ensures s == s[..i] + [s[i]] + s[i + 1..]
  {
  }

  lemma RemoveAt<T>(s: seq<T>, i: nat)
    requires i < |s|
    ensures multiset(s) == multiset(Without(s, i)) + multiset{s[i]}
  {
    SplitAt(s, i);
  }

  function Without<T>(s: seq<T>, i: nat): (r: seq<T>)
    requires i < |s|
    ensures |r| == |s| - 1
  {
    s[..i] + s[i + 1..]
  }

  lemma WithoutLast(p: seq<nat>, n: nat, k: nat)
    requires IsPerm(p, n) && k < n && p[k] == n - 1
    ensures IsPerm(Without(p, k), n - 1)
  {
  }

  lemma GatherWithout<T>(x: seq<T>, p: seq<nat>, k: nat)
    requires InRange(p, |x|) && k < |p| && x != [] && InRange(Without(p, k), |x| - 1)
    ensures Without(Gather(x, p), k) == Gather(x[..|x| - 1], Without(p, k))
  {
  }

  /** Gathering by a permutation keeps the multiset of values. */
  lemma {:induction false} GatherPerm<T>(x: seq<T>, p: seq<nat>)
    requires IsPerm(p, |x|)
    ensures multiset(Gather(x, p)) == multiset(x)
    decreases |x|
  {
    var n := |x|;
    if n > 0 {
      PermReaches(p, n);
      var k := IndexOf(p, n - 1);
      WithoutLast(p, n, k);
      GatherPerm(x[..n - 1], Without(p, k));
      GatherWithout(x, p, k);
      RemoveAt(Gather(x, p), k);
      assert x == x[..n - 1] + [x[n - 1]];
    }
  }

  lemma SumPush(f: seq<int>, x: int)
    ensures Sum(f + [x]) == Sum(f) + x
  {
    assert (f + [x])[..|f|] == f;
  }

  lemma SumMiddle(f: seq<int>, x: int, g: seq<int>)
    ensures Sum(f + [x] + g) == Sum(f + g) + x
  {
    SumConcat(f + [x], g);
    SumPush(f, x);
    SumConcat(f, g);
  }

  lemma SumWithout(b: seq<int>, k: nat)
    requires k < |b|
    ensures Sum(b) == Sum(Without(b, k)) + b[k]
  {
    SplitAt(b, k);
    SumMiddle(b[..k], b[k], b[k + 1..]);
  }

  lemma Cancel<T>(a: multiset<T>, b: multiset<T>, x: T)
    requires a + multiset{x} == b + multiset{x}
    ensures a == b
  {
    assert a == (a + multiset{x}) - multiset{x};
    assert b == (b + multiset{x}) - multiset{x};
  }

  lemma {:induction false} SumMultiset(a: seq<int>, b: seq<int>)
    requires multiset(a) == multiset(b)
    ensures Sum(a) == Sum(b)
    decreases |a|
  {
    if a == [] {
      assert |multiset(b)| == 0;
    } else {
      var x := a[0];
      assert x in multiset(b);
      var k :| 0 <= k < |b| && b[k] == x;
      RemoveAt(a, 0);
      RemoveAt(b, k);
      Cancel(multiset(Without(a, 0)), multiset(Without(b, k)), x);
      SumMultiset(Without(a, 0), Without(b, k));
      SumWithout(a, 0);
      SumWithout(b, k);
    }
  }
}
