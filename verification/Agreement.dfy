/** Values every party gathers from all parties, and the folds that make them agree
    (engine/framework/session.cc, engine/operator/bucket.cc, engine/services/pipeline.cc). */
module Agreement {

  function Least(s: seq<nat>): (m: nat)
    requires s != []
    ensures m in s && forall i :: 0 <= i < |s| ==> m <= s[i]
  {
    if |s| == 1 then s[0]
    else
      var m := Least(s[1..]);
      if s[0] < m then s[0] else m
  }

  function Largest(s: seq<nat>): (m: nat)
    requires s != []
    ensures m in s && forall i :: 0 <= i < |s| ==> s[i] <= m
  {
    if |s| == 1 then s[0]
    else
      var m := Largest(s[1..]);
      if s[0] > m then s[0] else m
  }

  /** The fold of EnableStreamingBatched at party `self`, over the values gathered from all:
      the result does not depend on the party. */
  method SmallestOption(values: seq<nat>, self: nat) returns (m: nat)
    requires self < |values|
    ensures m == Least(values)
  {
    m := values[self];
    for i := 0 to |values|
      invariant m in values
      invariant forall k :: 0 <= k < i ==> m <= values[k]
    {
      m := if values[i] < m then values[i] else m;
    }
  }

  /** GetMaxRowNum and GetMaxSliceNum: the largest of the gathered values. */
  method LargestGathered(values: seq<nat>) returns (m: nat)
    requires values != []
    ensures m == Largest(values)
  {
    m := 0;
    for i := 0 to |values|
      invariant i == 0 ==> m == 0
      invariant i > 0 ==> m in values
      invariant forall k :: 0 <= k < i ==> values[k] <= m
    {
      m := if m < values[i] then values[i] else m;
    }
  }
}
