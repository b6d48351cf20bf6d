/** Streaming a join: each of two parties splits its table by Bucket and runs its pipeline once per
    bucket on its own columns, where the nodes take the rows that the join of the bucket asks of
    this party (engine/operator/bucket.cc, engine/services/pipeline.cc).  The outputs of both
    parties line up row by row and are the join of the whole tables. */
module PipelineJoin {
  import opened Columns
  import opened Ordering
  import opened KeyGroups
  import opened Batching
  import opened Agreement
  import opened Outcomes
  import opened TensorTables
  import opened Pipeline
  import opened BucketJoin
  import Bucket
  import JoinSpec

  /** One party: its run of Bucket, its columns and which of them are join keys, the names of its
      columns, and its outputs with the column each is taken from. */
  datatype Side = Side(party: Party, cols: seq<Column>, keyPos: seq<nat>, names: seq<string>,
                       outputs: seq<string>, picks: seq<nat>)
  {
    ghost predicate Valid() {
      && |names| == |cols| > 0 && Aligned(cols, |party.keys|)
      && InRange(keyPos, |cols|) && party.keys == KeysIn(cols, keyPos, |party.keys|)
      && |picks| == |outputs| && InRange(picks, |cols|)
    }
  }

  /** The join keys in these columns. */
  ghost function KeysIn(cols: seq<Column>, keyPos: seq<nat>, n: nat): (k: seq<Key>)
    requires Aligned(cols, n) && InRange(keyPos, |cols|)
    ensures |k| == n
  {
    Rows(Gather(cols, keyPos), n)
  }

  /** These rows of every column. */
  ghost function Chosen(cols: seq<Column>, n: nat, rows: seq<nat>): (s: seq<Column>)
    requires Aligned(cols, n) && InRange(rows, n)
    ensures Aligned(s, |rows|) && |s| == |cols| && forall c :: 0 <= c < |s| ==> s[c] == Gather(cols[c], rows)
  {
    seq(|cols|, c requires 0 <= c < |cols| => Gather(cols[c], rows))
  }

  lemma ChosenKeys(cols: seq<Column>, keyPos: seq<nat>, n: nat, rows: seq<nat>)
    requires Aligned(cols, n) && InRange(rows, n) && InRange(keyPos, |cols|)
    ensures KeysIn(Chosen(cols, n, rows), keyPos, |rows|) == Gather(KeysIn(cols, keyPos, n), rows)
  {
    var a, b := Gather(cols, keyPos), Gather(Chosen(cols, n, rows), keyPos);
    forall i | 0 <= i < |rows| ensures RowKey(b, |rows|, i) == RowKey(a, n, rows[i]) {
    }
  }

  // ---- what one party takes from its buckets

  ghost predicate AllInRange(rows: seq<seq<nat>>, n: nat) {
    forall k :: 0 <= k < |rows| ==> InRange(rows[k], n)
  }

  /** For every bucket, positions into its rows. */
  ghost predicate Shares(rows: seq<seq<nat>>, share: seq<seq<nat>>) {
    |rows| == |share| && forall k :: 0 <= k < |rows| ==> InRange(share[k], |rows[k]|)
  }

  /** The rows of the whole table that the first n buckets give. */
  ghost function TakenRows(rows: seq<seq<nat>>, share: seq<seq<nat>>, n: nat): seq<nat>
    requires Shares(rows, share) && n <= |rows|
  {
    if n == 0 then [] else TakenRows(rows, share, n - 1) + Gather(rows[n - 1], share[n - 1])
  }

  lemma {:induction false} TakenInRange(rows: seq<seq<nat>>, share: seq<seq<nat>>, m: nat, n: nat)
    requires Shares(rows, share) && n <= |rows| && AllInRange(rows, m)
    ensures InRange(TakenRows(rows, share, n), m)
  {
    if n > 0 {
      TakenInRange(rows, share, m, n - 1);
      assert InRange(rows[n - 1], m);
    }
  }

  /** What bucket k gives of a column. */
  ghost function Portion(col: Column, rows: seq<nat>, share: seq<nat>): Column
    requires InRange(rows, |col|) && InRange(share, |rows|)
  {
    Gather(Gather(col, rows), share)
  }

  ghost function Portions(col: Column, rows: seq<seq<nat>>, share: seq<seq<nat>>): (r: seq<Column>)
    requires Shares(rows, share) && AllInRange(rows, |col|)
    ensures |r| == |rows| && forall k :: 0 <= k < |r| ==> r[k] == Portion(col, rows[k], share[k])
  {
    seq(|rows|, k requires 0 <= k < |rows| => Portion(col, rows[k], share[k]))
  }

  lemma {:induction false} PortionsConcat(col: Column, rows: seq<seq<nat>>, share: seq<seq<nat>>, n: nat)
    requires Shares(rows, share) && AllInRange(rows, |col|) && n <= |rows|
    ensures InRange(TakenRows(rows, share, n), |col|)
    ensures Concat(Portions(col, rows, share)[..n]) == Gather(col, TakenRows(rows, share, n))
  {
    TakenInRange(rows, share, |col|, n);
    var ps := Portions(col, rows, share);
    if n > 0 {
      PortionsConcat(col, rows, share, n - 1);
      assert ps[..n] == ps[..n - 1] + [ps[n - 1]];
      ConcatPush(ps[..n - 1], ps[n - 1]);
      GatherConcat(col, TakenRows(rows, share, n - 1), rows[n - 1], share[n - 1]);
    }
  }

  lemma GatherConcat(col: Column, a: seq<nat>, rows: seq<nat>, share: seq<nat>)
    requires InRange(a, |col|) && InRange(rows, |col|) && InRange(share, |rows|)
    ensures InRange(a + Gather(rows, share), |col|)
    ensures Gather(col, a + Gather(rows, share)) == Gather(col, a) + Portion(col, rows, share)
  {
  }

  /** The rows of every bucket of this party. */
  ghost function RowsIn(sd: Side, size: nat, buckets: nat, hash: Key -> nat): (rows: seq<seq<nat>>)
    requires Finished(sd.party, size) && buckets > 0
    ensures |rows| == buckets && AllInRange(rows, |sd.party.keys|)
    ensures forall k :: 0 <= k < buckets ==> rows[k] == BucketRows(sd.party, size, buckets, hash, k)
  {
    seq(buckets, k requires 0 <= k < buckets => BucketRows(sd.party, size, buckets, hash, k))
  }

  /** Given its columns of bucket k, the nodes of batch k leave in every output the share of its column. */
  ghost predicate TakesShare(sd: Side, rows: seq<seq<nat>>, share: seq<seq<nat>>, step: Step)
    requires sd.Valid() && AllInRange(rows, |sd.party.keys|)
  {
    && Shares(rows, share)
    && forall k, i :: 0 <= k < |rows| && 0 <= i < |sd.outputs| ==> TakesPortion(sd, rows[k], share[k], step, k, i)
  }

  ghost predicate TakesPortion(sd: Side, rows: seq<nat>, share: seq<nat>, step: Step, k: nat, i: nat)
    requires sd.Valid() && InRange(rows, |sd.party.keys|) && InRange(share, |rows|) && i < |sd.outputs|
  {
    forall table {:trigger step(k, table)} :: Holds(table, sd.names, Chosen(sd.cols, |sd.party.keys|, rows)) ==>
      && sd.outputs[i] in step(k, table)
      && TensorRows(step(k, table)[sd.outputs[i]]) == Portion(sd.cols[sd.picks[i]], rows, share)
  }

  // ---- one party

  /** The end of Bucket::Execute: the buckets of every column go into the table. */
  method Publish(table: TensorTable, names: seq<string>, stores: seq<seq<Column>>) returns (r: Result<()>)
    requires |names| == |stores|
    modifies table
    ensures r.Ok? <==> CanAdd(old(table.tensors), names)
    ensures r.Ok? ==> forall c :: 0 <= c < |names| ==>
      names[c] in table.tensors && table.tensors[names[c]] == Bucketed(stores[c])
  {
    assert names[..0] == [];
    for c := 0 to |names|
      invariant CanAdd(old(table.tensors), names[..c])
      invariant table.tensors.Keys == old(table.tensors).Keys + Names(names[..c])
      invariant forall h :: 0 <= h < c ==> names[h] in table.tensors && table.tensors[names[h]] == Bucketed(stores[h])
    {
      PublishStep(old(table.tensors), names, c);
      var added := table.AddTensor(names[c], Bucketed(stores[c]));
      if added.Err? {
        return added;
      }
    }
    assert names[..|names|] == names;
    r := Ok(());
  }

  lemma PublishStep(table: Table, names: seq<string>, c: nat)
    requires c < |names| && CanAdd(table, names[..c])
    ensures Names(names[..c + 1]) == Names(names[..c]) + {names[c]}
    ensures CanAdd(table, names[..c + 1]) <==> names[c] !in table.Keys + Names(names[..c])
    ensures CanAdd(table, names) ==> CanAdd(table, names[..c + 1])
  {
    var before, now := names[..c], names[..c + 1];
    assert now == before + [names[c]] && now[c] in Names(now);
    if names[c] in before {
      var h :| 0 <= h < c && before[h] == names[c];
      assert now[h] == now[c];
    }
    if CanAdd(table, names) {
      assert forall h :: 0 <= h < |now| ==> now[h] == names[h] && names[h] in Names(names);
    }
  }

  /** The table holds the buckets of this party. */
  ghost predicate Published(sd: Side, rows: seq<seq<nat>>, table: Table)
    requires sd.Valid() && AllInRange(rows, |sd.party.keys|)
  {
    forall c :: 0 <= c < |sd.cols| ==>
      && sd.names[c] in table && table[sd.names[c]].Bucketed? && |table[sd.names[c]].files| == |rows|
      && forall k :: 0 <= k < |rows| ==> table[sd.names[c]].files[k] == Gather(sd.cols[c], rows[k])
  }

  lemma PublishedSliceable(sd: Side, rows: seq<seq<nat>>, table: Table)
    requires sd.Valid() && AllInRange(rows, |sd.party.keys|) && Published(sd, rows, table)
    ensures Sliceable(table, sd.names) && LocalSlices(table, sd.names) == |rows|
  {
  }

  lemma PublishedSlices(sd: Side, rows: seq<seq<nat>>, table: Table, step: Step, k: nat)
    requires sd.Valid() && AllInRange(rows, |sd.party.keys|) && Published(sd, rows, table) && k < |rows|
    requires Sliceable(table, sd.names)
    ensures
      var j := JobOf(table, sd.names, sd.outputs, step);
      j.Valid() && Slices(j.tensors, k) == Chosen(sd.cols, |sd.party.keys|, rows[k])
  {
  }

  lemma LargestIsFirst(n: nat, others: seq<nat>)
    requires forall i :: 0 <= i < |others| ==> others[i] <= n
    ensures Largest([n] + others) == n
  {
    assert ([n] + others)[0] == n;
  }

  /** The rows this party's output holds in the end. */
  ghost predicate HoldsTaken(sd: Side, rows: seq<seq<nat>>, share: seq<seq<nat>>, table: Table, i: nat)
    requires sd.Valid() && i < |sd.outputs| && AllInRange(rows, |sd.party.keys|) && Shares(rows, share)
  {
    TakenInRange(rows, share, |sd.party.keys|, |rows|);
    && sd.outputs[i] in table
    && TensorRows(table[sd.outputs[i]]) == Gather(sd.cols[sd.picks[i]], TakenRows(rows, share, |rows|))
  }

  lemma SidePortions(sd: Side, rows: seq<seq<nat>>, share: seq<seq<nat>>, i: nat)
    requires sd.Valid() && i < |sd.outputs| && AllInRange(rows, |sd.party.keys|) && Shares(rows, share)
    ensures AllInRange(rows, |sd.cols[sd.picks[i]]|)
    ensures InRange(TakenRows(rows, share, |rows|), |sd.party.keys|)
    ensures Concat(Portions(sd.cols[sd.picks[i]], rows, share))
         == Gather(sd.cols[sd.picks[i]], TakenRows(rows, share, |rows|))
  {
    var col := sd.cols[sd.picks[i]];
    TakenInRange(rows, share, |sd.party.keys|, |rows|);
    PortionsConcat(col, rows, share, |rows|);
    assert Portions(col, rows, share)[..|rows|] == Portions(col, rows, share);
  }

  /** One bucket: the pipeline runs once, on the table as it is. */
  lemma SingleBucket(sd: Side, rows: seq<seq<nat>>, share: seq<seq<nat>>, before: Table, step: Step, i: nat)
    requires sd.Valid() && AllInRange(rows, |sd.party.keys|) && |rows| == 1 && i < |sd.outputs|
    requires Published(sd, rows, before) && TakesShare(sd, rows, share, step)
    ensures HoldsTaken(sd, rows, share, step(0, before), i)
  {
    var s := Chosen(sd.cols, |sd.party.keys|, rows[0]);
    forall c | 0 <= c < |s| ensures sd.names[c] in before && TensorRows(before[sd.names[c]]) == s[c] {
      var files := before[sd.names[c]].files;
      assert files == [files[0]];
      ConcatOne(files[0]);
    }
    assert Holds(before, sd.names, s);
    assert TakesPortion(sd, rows[0], share[0], step, 0, i);
    SidePortions(sd, rows, share, i);
    var ps := Portions(sd.cols[sd.picks[i]], rows, share);
    assert ps == [ps[0]];
    ConcatOne(ps[0]);
  }

  lemma SideLeaves(sd: Side, rows: seq<seq<nat>>, share: seq<seq<nat>>, before: Table, step: Step, i: nat, k: nat)
    requires sd.Valid() && AllInRange(rows, |sd.party.keys|) && i < |sd.outputs| && k < |rows|
    requires Published(sd, rows, before) && Sliceable(before, sd.names) && TakesShare(sd, rows, share, step)
    ensures
      var j := JobOf(before, sd.names, sd.outputs, step);
      && j.Valid() && InRange(rows[k], |sd.cols[sd.picks[i]]|)
      && Leaves(j, sd.outputs[i], k, Portion(sd.cols[sd.picks[i]], rows[k], share[k]))
  {
    PublishedSlices(sd, rows, before, step, k);
    assert TakesPortion(sd, rows[k], share[k], step, k, i);
  }

  /** Several buckets: every batch can be fetched exactly when no output is listed twice. */
  lemma SideFetchable(sd: Side, rows: seq<seq<nat>>, share: seq<seq<nat>>, before: Table, step: Step, k: nat)
    requires sd.Valid() && AllInRange(rows, |sd.party.keys|) && k < |rows|
    requires Published(sd, rows, before) && Sliceable(before, sd.names) && TakesShare(sd, rows, share, step)
    ensures
      var j := JobOf(before, sd.names, sd.outputs, step);
      j.Valid() && (Fetchable(j, k) <==> Distinct(sd.outputs))
  {
    var j := JobOf(before, sd.names, sd.outputs, step);
    PublishedSlices(sd, rows, before, step, k);
    LookupConsistent(before, sd.names);
    forall x | x in Names(sd.outputs) ensures x in After(j, k) {
      var i :| 0 <= i < |sd.outputs| && sd.outputs[i] == x;
      SideLeaves(sd, rows, share, before, step, i, k);
      LeavesAfter(j, x, k, Portion(sd.cols[sd.picks[i]], rows[k], share[k]));
    }
  }

  lemma SideChunks(sd: Side, rows: seq<seq<nat>>, share: seq<seq<nat>>, before: Table, step: Step, i: nat)
    requires sd.Valid() && AllInRange(rows, |sd.party.keys|) && i < |sd.outputs|
    requires Published(sd, rows, before) && Sliceable(before, sd.names) && TakesShare(sd, rows, share, step)
    requires
      var j := JobOf(before, sd.names, sd.outputs, step);
      j.Valid() && forall k :: 0 <= k < |rows| ==> Fetchable(j, k)
    ensures AllInRange(rows, |sd.cols[sd.picks[i]]|)
    ensures Chunks(JobOf(before, sd.names, sd.outputs, step), i, |rows|) == Portions(sd.cols[sd.picks[i]], rows, share)
  {
    var j, col := JobOf(before, sd.names, sd.outputs, step), sd.cols[sd.picks[i]];
    assert |col| == |sd.party.keys|;
    var ps := Portions(col, rows, share);
    SideLeavesAll(sd, rows, share, before, step, i, ps);
    LookupConsistent(before, sd.names);
    ChunksAre(j, i, ps, |rows|);
    assert ps[..|rows|] == ps;
  }

  lemma SideLeavesAll(sd: Side, rows: seq<seq<nat>>, share: seq<seq<nat>>, before: Table, step: Step, i: nat,
                      ps: seq<Column>)
    requires sd.Valid() && AllInRange(rows, |sd.party.keys|) && i < |sd.outputs|
    requires Published(sd, rows, before) && Sliceable(before, sd.names) && TakesShare(sd, rows, share, step)
    requires AllInRange(rows, |sd.cols[sd.picks[i]]|) && ps == Portions(sd.cols[sd.picks[i]], rows, share)
    requires JobOf(before, sd.names, sd.outputs, step).Valid()
    ensures forall k :: 0 <= k < |rows| ==>
      Leaves(JobOf(before, sd.names, sd.outputs, step), sd.outputs[i], k, ps[k])
  {
    forall k | 0 <= k < |rows| ensures Leaves(JobOf(before, sd.names, sd.outputs, step), sd.outputs[i], k, ps[k]) {
      SideLeaves(sd, rows, share, before, step, i, k);
    }
  }

  /** How the pipeline ends at this party, and what its outputs hold. */
  lemma SideEnds(sd: Side, rows: seq<seq<nat>>, share: seq<seq<nat>>, before: Table, after: Table, others: seq<nat>,
                 step: Step, r: Result<()>)
    requires sd.Valid() && AllInRange(rows, |sd.party.keys|) && rows != []
    requires Published(sd, rows, before) && Sliceable(before, sd.names) && TakesShare(sd, rows, share, step)
    requires forall i :: 0 <= i < |others| ==> others[i] <= |rows|
    requires Follows(r, before, after, sd.names, sd.outputs, others, step)
    ensures r.Ok? <==> |rows| == 1 || Distinct(sd.outputs)
    ensures r.Ok? ==> forall i :: 0 <= i < |sd.outputs| && (|rows| == 1 || sd.outputs[i] !in sd.names) ==>
      HoldsTaken(sd, rows, share, after, i)
  {
    var n, j := |rows|, JobOf(before, sd.names, sd.outputs, step);
    PublishedSliceable(sd, rows, before);
    LargestIsFirst(n, others);
    if n == 1 {
      forall i | 0 <= i < |sd.outputs| ensures HoldsTaken(sd, rows, share, after, i) {
        SingleBucket(sd, rows, share, before, step, i);
      }
    } else {
      forall k | 0 <= k < n ensures j.Valid() && (Fetchable(j, k) <==> Distinct(sd.outputs)) {
        SideFetchable(sd, rows, share, before, step, k);
      }
      assert Fetchable(j, 0) <==> Distinct(sd.outputs);
      if r.Ok? {
        RunResults(r, before, after, sd.names, sd.outputs, others, step, n);
        forall i | 0 <= i < |sd.outputs| && sd.outputs[i] !in sd.names ensures HoldsTaken(sd, rows, share, after, i) {
          SideChunks(sd, rows, share, before, step, i);
          SidePortions(sd, rows, share, i);
        }
      }
    }
  }

  /** Bucket and the pipeline at one party, under any schedule of Bucket: the outputs hold the
      rows of the table that the buckets give, bucket after bucket. */
  method RunSide(sd: Side, table: TensorTable, hash: Key -> nat, buckets: nat, size: nat, others: seq<nat>, step: Step,
                 ghost share: seq<seq<nat>>)
    returns (r: Result<()>)
    requires sd.Valid() && Finished(sd.party, size) && buckets > 0
    requires TakesShare(sd, RowsIn(sd, size, buckets, hash), share, step)
    requires forall i :: 0 <= i < |others| ==> others[i] <= buckets
    modifies table
    ensures r.Ok? <==> CanAdd(old(table.tensors), sd.names) && (buckets == 1 || Distinct(sd.outputs))
    ensures r.Ok? ==> forall i :: 0 <= i < |sd.outputs| && (buckets == 1 || sd.outputs[i] !in sd.names) ==>
      HoldsTaken(sd, RowsIn(sd, size, buckets, hash), share, table.tensors, i)
  {
    var p := sd.party;
    ghost var rows := RowsIn(sd, size, buckets, hash);
    var stores, stored := Bucket.StoreRun(p.media, sd.cols, p.keys, hash, buckets, size, p.events, p.end);
    r := Publish(table, sd.names, stores);
    if r.Err? {
      return;
    }
    ghost var before := table.tensors;
    assert Published(sd, rows, before);
    PublishedSliceable(sd, rows, before);
    r := RunPipeline(table, sd.names, sd.outputs, true, others, step);
    SideEnds(sd, rows, share, before, table.tensors, others, step, r);
  }

  // ---- both parties

  function Firsts(pairs: seq<(nat, nat)>): (r: seq<nat>)
    ensures |r| == |pairs| && forall t :: 0 <= t < |r| ==> r[t] == pairs[t].0
  {
    seq(|pairs|, t requires 0 <= t < |pairs| => pairs[t].0)
  }

  function Seconds(pairs: seq<(nat, nat)>): (r: seq<nat>)
    ensures |r| == |pairs| && forall t :: 0 <= t < |r| ==> r[t] == pairs[t].1
  {
    seq(|pairs|, t requires 0 <= t < |pairs| => pairs[t].1)
  }

  /** The join of every bucket, as the left and as the right party takes part in it. */
  ghost function LeftShare(pairs: seq<seq<(nat, nat)>>): (s: seq<seq<nat>>)
    ensures |s| == |pairs| && forall k :: 0 <= k < |s| ==> s[k] == Firsts(pairs[k])
  {
    seq(|pairs|, k requires 0 <= k < |pairs| => Firsts(pairs[k]))
  }

  ghost function RightShare(pairs: seq<seq<(nat, nat)>>): (s: seq<seq<nat>>)
    ensures |s| == |pairs| && forall k :: 0 <= k < |s| ==> s[k] == Seconds(pairs[k])
  {
    seq(|pairs|, k requires 0 <= k < |pairs| => Seconds(pairs[k]))
  }

  /** pairs[k] joins the keys that the parties find in their columns of bucket k. */
  ghost predicate JoinsBuckets(pairs: seq<seq<(nat, nat)>>, l: Side, r: Side, lrows: seq<seq<nat>>,
                               rrows: seq<seq<nat>>)
    requires l.Valid() && r.Valid() && AllInRange(lrows, |l.party.keys|) && AllInRange(rrows, |r.party.keys|)
  {
    && |pairs| == |lrows| == |rrows|
    && forall k :: 0 <= k < |pairs| ==>
         Joins(pairs[k], KeysIn(Chosen(l.cols, |l.party.keys|, lrows[k]), l.keyPos, |lrows[k]|),
               KeysIn(Chosen(r.cols, |r.party.keys|, rrows[k]), r.keyPos, |rrows[k]|))
  }

  ghost function PartsIn(pairs: seq<seq<(nat, nat)>>, lrows: seq<seq<nat>>, rrows: seq<seq<nat>>): (parts: seq<Part>)
    requires |pairs| == |lrows| == |rrows|
    ensures |parts| == |pairs|
    ensures forall k :: 0 <= k < |parts| ==> parts[k] == Part(lrows[k], rrows[k], pairs[k])
  {
    seq(|pairs|, k requires 0 <= k < |pairs| => Part(lrows[k], rrows[k], pairs[k]))
  }

  lemma BucketsAreParts(pairs: seq<seq<(nat, nat)>>, l: Side, r: Side, size: nat, buckets: nat, hash: Key -> nat,
                        parts: seq<Part>)
    requires l.Valid() && r.Valid() && Finished(l.party, size) && Finished(r.party, size) && buckets > 0
    requires JoinsBuckets(pairs, l, r, RowsIn(l, size, buckets, hash), RowsIn(r, size, buckets, hash))
    requires parts == PartsIn(pairs, RowsIn(l, size, buckets, hash), RowsIn(r, size, buckets, hash))
    ensures PartsOf(parts, l.party, r.party, size, buckets, buckets, hash)
  {
    forall k | 0 <= k < |parts|
      ensures Joins(parts[k].pairs, Gather(l.party.keys, parts[k].left), Gather(r.party.keys, parts[k].right))
    {
      ChosenKeys(l.cols, l.keyPos, |l.party.keys|, parts[k].left);
      ChosenKeys(r.cols, r.keyPos, |r.party.keys|, parts[k].right);
    }
  }

  /** What the parties take are the two sides of the pairs of all buckets, in one order. */
  lemma {:induction false} TakenArePairs(parts: seq<Part>, pairs: seq<seq<(nat, nat)>>, lrows: seq<seq<nat>>,
                                         rrows: seq<seq<nat>>, n: nat)
    requires |pairs| == |lrows| == |rrows| && parts == PartsIn(pairs, lrows, rrows) && AllWithin(parts) && n <= |parts|
    ensures Shares(lrows, LeftShare(pairs)) && Shares(rrows, RightShare(pairs))
    ensures TakenRows(lrows, LeftShare(pairs), n) == Firsts(AllPairs(parts[..n]))
    ensures TakenRows(rrows, RightShare(pairs), n) == Seconds(AllPairs(parts[..n]))
  {
    forall k | 0 <= k < |parts|
      ensures InRange(Firsts(pairs[k]), |lrows[k]|) && InRange(Seconds(pairs[k]), |rrows[k]|)
    {
      assert Within(parts[k].pairs, parts[k].left, parts[k].right);
    }
    if n > 0 {
      TakenArePairs(parts, pairs, lrows, rrows, n - 1);
      assert parts[..n][..n - 1] == parts[..n - 1];
      RenumberedSides(AllPairs(parts[..n - 1]), parts[n - 1]);
    }
  }

  lemma RenumberedSides(before: seq<(nat, nat)>, p: Part)
    requires Within(p.pairs, p.left, p.right)
    ensures InRange(Firsts(p.pairs), |p.left|) && InRange(Seconds(p.pairs), |p.right|)
    ensures Firsts(before + Renumber(p.pairs, p.left, p.right)) == Firsts(before) + Gather(p.left, Firsts(p.pairs))
    ensures Seconds(before + Renumber(p.pairs, p.left, p.right)) == Seconds(before) + Gather(p.right, Seconds(p.pairs))
  {
  }

  lemma JoinsEqual(p: seq<(nat, nat)>, q: seq<(nat, nat)>, lk: seq<Key>, rk: seq<Key>)
    requires Joins(p, lk, rk) && Joins(q, lk, rk)
    ensures multiset(p) == multiset(q)
  {
    forall x: (nat, nat) ensures multiset(p)[x] == multiset(q)[x] {
      assert x == (x.0, x.1);
    }
  }

  /** The pairs of all buckets: what both parties take, and when it is the whole join. */
  lemma StreamedPairs(l: Side, r: Side, size: nat, buckets: nat, hash: Key -> nat, pairs: seq<seq<(nat, nat)>>,
                      lrows: seq<seq<nat>>, rrows: seq<seq<nat>>)
    returns (all: seq<(nat, nat)>)
    requires l.Valid() && r.Valid() && Finished(l.party, size) && Finished(r.party, size) && buckets > 0
    requires lrows == RowsIn(l, size, buckets, hash) && rrows == RowsIn(r, size, buckets, hash)
    requires JoinsBuckets(pairs, l, r, lrows, rrows)
    ensures Shares(lrows, LeftShare(pairs)) && Shares(rrows, RightShare(pairs))
    ensures TakenRows(lrows, LeftShare(pairs), buckets) == Firsts(all)
    ensures TakenRows(rrows, RightShare(pairs), buckets) == Seconds(all)
    ensures Joins(all, l.party.keys, r.party.keys) <==> size > 0 || NoMatch(l.party.keys, r.party.keys)
  {
    var parts := PartsIn(pairs, lrows, rrows);
    BucketsAreParts(pairs, l, r, size, buckets, hash, parts);
    PartsJoinIff(parts, l.party, r.party, size, hash);
    TakenArePairs(parts, pairs, lrows, rrows, buckets);
    assert parts[..buckets] == parts;
    all := AllPairs(parts);
  }

  /** The table of one party after the run: output i holds its column at these rows. */
  ghost predicate Delivers(sd: Side, table: Table, rows: seq<nat>, i: nat)
    requires sd.Valid() && i < |sd.outputs| && InRange(rows, |sd.party.keys|)
  {
    sd.outputs[i] in table && TensorRows(table[sd.outputs[i]]) == Gather(sd.cols[sd.picks[i]], rows)
  }

  /** Streaming preserves the join.  Under every schedule of both parties' Bucket, and with any join
      of every bucket, each party ends with its columns at its side of one list of pairs; with a
      positive batch size that list is the inner join of the whole tables in some order. */
  method StreamJoin(l: Side, r: Side, ltable: TensorTable, rtable: TensorTable, hash: Key -> nat, buckets: nat,
                    size: nat, lothers: seq<nat>, rothers: seq<nat>, lstep: Step, rstep: Step,
                    ghost pairs: seq<seq<(nat, nat)>>, ghost whole: seq<(nat, nat)>)
    returns (lr: Result<()>, rr: Result<()>, ghost all: seq<(nat, nat)>)
    requires l.Valid() && r.Valid() && ltable != rtable && buckets > 0
    requires Finished(l.party, size) && Finished(r.party, size)
    requires JoinsBuckets(pairs, l, r, RowsIn(l, size, buckets, hash), RowsIn(r, size, buckets, hash))
    requires TakesShare(l, RowsIn(l, size, buckets, hash), LeftShare(pairs), lstep)
    requires TakesShare(r, RowsIn(r, size, buckets, hash), RightShare(pairs), rstep)
    requires forall i :: 0 <= i < |lothers| ==> lothers[i] <= buckets
    requires forall i :: 0 <= i < |rothers| ==> rothers[i] <= buckets
    requires JoinSpec.IsInnerJoin(whole, l.party.keys, r.party.keys)
    modifies ltable, rtable
    ensures size > 0 ==> multiset(all) == multiset(whole)
    ensures size == 0 ==> (multiset(all) == multiset(whole) <==> NoMatch(l.party.keys, r.party.keys))
    ensures InRange(Firsts(all), |l.party.keys|) && InRange(Seconds(all), |r.party.keys|)
    ensures lr.Ok? <==> CanAdd(old(ltable.tensors), l.names) && (buckets == 1 || Distinct(l.outputs))
    ensures rr.Ok? <==> CanAdd(old(rtable.tensors), r.names) && (buckets == 1 || Distinct(r.outputs))
    ensures lr.Ok? ==> forall i :: 0 <= i < |l.outputs| && (buckets == 1 || l.outputs[i] !in l.names) ==>
      Delivers(l, ltable.tensors, Firsts(all), i)
    ensures rr.Ok? ==> forall i :: 0 <= i < |r.outputs| && (buckets == 1 || r.outputs[i] !in r.names) ==>
      Delivers(r, rtable.tensors, Seconds(all), i)
  {
    ghost var lrows, rrows := RowsIn(l, size, buckets, hash), RowsIn(r, size, buckets, hash);
    all := StreamedPairs(l, r, size, buckets, hash, pairs, lrows, rrows);
    TakenInRange(lrows, LeftShare(pairs), |l.party.keys|, buckets);
    TakenInRange(rrows, RightShare(pairs), |r.party.keys|, buckets);
    WholeJoin(all, whole, l.party.keys, r.party.keys);
    lr := RunSide(l, ltable, hash, buckets, size, lothers, lstep, LeftShare(pairs));
    rr := RunSide(r, rtable, hash, buckets, size, rothers, rstep, RightShare(pairs));
  }

  /** A list of pairs joins the tables exactly when it is their inner join in some order. */
  lemma WholeJoin(all: seq<(nat, nat)>, whole: seq<(nat, nat)>, lk: seq<Key>, rk: seq<Key>)
    requires JoinSpec.IsInnerJoin(whole, lk, rk)
    ensures Joins(all, lk, rk) <==> multiset(all) == multiset(whole)
  {
    InnerJoinJoins(whole, lk, rk);
    if Joins(all, lk, rk) {
      JoinsEqual(all, whole, lk, rk);
    }
  }
}
