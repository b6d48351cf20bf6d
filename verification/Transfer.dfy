/** Transfers in several messages (engine/util/communicate_helper.h, engine/operator/copy.cc). */
module Transfer {
  import opened Batching

  // ---- SendMassiveMsgpack and RecvMassiveMsgpack

  const BATCH_SIZE: nat := 1000 * 1000

  /** The tags of one transfer, and what travels under them. */
  datatype Tag = CountInfo | BatchOf(index: nat)
  datatype Message<T> = Counts(total: nat, batches: nat) | Items(items: seq<T>)

  type Mail<T> = map<Tag, seq<Message<T>>>

  function Queue<T>(mail: Mail<T>, tag: Tag): seq<Message<T>> { if tag in mail then mail[tag] else [] }

  function BatchCount(n: nat): nat { (n + BATCH_SIZE - 1) / BATCH_SIZE }

  function Smaller(a: nat, b: nat): nat { if a < b then a else b }

  /** Items of batch i. */
  function BatchItems<T>(data: seq<T>, i: nat): seq<T>
    requires i < BatchCount(|data|)
  {
    data[i * BATCH_SIZE..Smaller((i + 1) * BATCH_SIZE, |data|)]
  }

  /** A million items in every message but the last, which is not empty; none for no data. */
  lemma FullBatches<T>(data: seq<T>, i: nat)
    ensures BatchCount(|data|) == 0 <==> data == []
    ensures i < BatchCount(|data|) ==> 0 < |BatchItems(data, i)| <= 1_000_000
    ensures i + 1 < BatchCount(|data|) ==> |BatchItems(data, i)| == 1_000_000
  {
  }

  /** The messages of a transfer whose first m batches are under way. */
  ghost function Sent<T>(data: seq<T>, m: nat, tag: Tag): seq<Message<T>>
    requires m <= BatchCount(|data|)
  {
    match tag
    case CountInfo => [Counts(|data|, BatchCount(|data|))]
    case BatchOf(i) => if i < m then [Items(BatchItems(data, i))] else []
  }

  /** Messages between two parties: first in, first out under each tag. */
  class Link<T(!new)> {
    var mail: Mail<T>

    constructor ()
      ensures mail == map[]
    {
      mail := map[];
    }

    method Send(tag: Tag, m: Message<T>)
      modifies this
      ensures Queue(mail, tag) == Queue(old(mail), tag) + [m]
      ensures forall t: Tag :: t != tag ==> Queue(mail, t) == Queue(old(mail), t)
    {
      mail := mail[tag := Queue(mail, tag) + [m]];
    }

    /** Waits for a message under the tag and takes it. */
    method Recv(tag: Tag) returns (m: Message<T>)
      requires Queue(mail, tag) != []
      modifies this
      ensures Takes(old(mail), mail, tag) && m == Queue(old(mail), tag)[0]
    {
      var q := Queue(mail, tag);
      m := q[0];
      mail := mail[tag := q[1..]];
    }

    method SendMassive(data: seq<T>)
      modifies this
      ensures forall t: Tag :: Queue(mail, t) == Queue(old(mail), t) + Sent(data, BatchCount(|data|), t)
    {
      var count := BatchCount(|data|);
      Send(CountInfo, Counts(|data|, count));
      for i := 0 to count
        invariant forall t: Tag :: Queue(mail, t) == Queue(old(mail), t) + Sent(data, i, t)
      {
        Send(BatchOf(i), Items(BatchItems(data, i)));
      }
    }

    /** Takes exactly the messages of the oldest transfer and rebuilds its data; whatever else
        is on the way stays. */
    method RecvMassive(ghost data: seq<T>, ghost rest: Mail<T>) returns (items: seq<T>)
      requires Arrives(mail, data, rest)
      modifies this
      ensures items == data
      ensures forall t: Tag :: Queue(mail, t) == Queue(rest, t)
    {
      ghost var before := mail;
      var count := Recv(CountInfo);
      TakeCount(before, mail, data, rest);
      items := [];
      for i := 0 to count.batches
        invariant items == data[..Smaller(i * BATCH_SIZE, |data|)] && Waits(mail, data, i, rest)
      {
        before := mail;
        assert Queue(mail, BatchOf(i)) == [Items(BatchItems(data, i))] + Queue(rest, BatchOf(i));
        var batch := Recv(BatchOf(i));
        TakeBatch(before, mail, data, i, rest);
        NextItems(data, i);
        items := items + batch.items;
      }
      AllItems(data);
    }
  }

  /** What is left of a transfer once its count and its first m batches have been received. */
  ghost function Pending<T>(data: seq<T>, m: nat, tag: Tag): seq<Message<T>> {
    match tag
    case CountInfo => []
    case BatchOf(i) => if m <= i < BatchCount(|data|) then [Items(BatchItems(data, i))] else []
  }

  /** The first message under the tag is gone. */
  ghost predicate Takes<T(!new)>(before: Mail<T>, after: Mail<T>, tag: Tag) {
    && Queue(before, tag) != [] && Queue(after, tag) == Queue(before, tag)[1..]
    && forall t: Tag :: t != tag ==> Queue(after, t) == Queue(before, t)
  }

  /** A transfer of data is the oldest on the way, followed by rest. */
  ghost predicate Arrives<T(!new)>(mail: Mail<T>, data: seq<T>, rest: Mail<T>) {
    forall t: Tag :: Queue(mail, t) == Sent(data, BatchCount(|data|), t) + Queue(rest, t)
  }

  ghost predicate Waits<T(!new)>(mail: Mail<T>, data: seq<T>, m: nat, rest: Mail<T>) {
    forall t: Tag :: Queue(mail, t) == Pending(data, m, t) + Queue(rest, t)
  }

  lemma TakeCount<T(!new)>(before: Mail<T>, after: Mail<T>, data: seq<T>, rest: Mail<T>)
    requires Arrives(before, data, rest) && Takes(before, after, CountInfo)
    ensures Queue(before, CountInfo)[0] == Counts(|data|, BatchCount(|data|)) && Waits(after, data, 0, rest)
  {
    forall t: Tag ensures Queue(after, t) == Pending(data, 0, t) + Queue(rest, t) {
      assert Queue(before, t) == Sent(data, BatchCount(|data|), t) + Queue(rest, t);
    }
  }

  lemma TakeBatch<T(!new)>(before: Mail<T>, after: Mail<T>, data: seq<T>, i: nat, rest: Mail<T>)
    requires i < BatchCount(|data|) && Waits(before, data, i, rest) && Takes(before, after, BatchOf(i))
    ensures Queue(before, BatchOf(i))[0] == Items(BatchItems(data, i)) && Waits(after, data, i + 1, rest)
  {
    assert Queue(before, BatchOf(i)) == [Items(BatchItems(data, i))] + Queue(rest, BatchOf(i));
    forall t: Tag ensures Queue(after, t) == Pending(data, i + 1, t) + Queue(rest, t) {
      assert Queue(before, t) == Pending(data, i, t) + Queue(rest, t);
    }
  }

  lemma NextItems<T>(data: seq<T>, i: nat)
    requires i < BatchCount(|data|)
    ensures data[..Smaller(i * BATCH_SIZE, |data|)] + BatchItems(data, i)
         == data[..Smaller((i + 1) * BATCH_SIZE, |data|)]
  {
  }

  lemma AllItems<T>(data: seq<T>)
    ensures data[..Smaller(BatchCount(|data|) * BATCH_SIZE, |data|)] == data
  {
  }

  /** A transfer and its reception, one after the other, on any link: the data arrives and the
      link is as before. */
  method RoundTrip<T(!new)>(link: Link<T>, data: seq<T>) returns (received: seq<T>)
    requires forall t: Tag :: Queue(link.mail, t) == []
    modifies link
    ensures received == data && forall t: Tag :: Queue(link.mail, t) == []
  {
    link.SendMassive(data);
    received := link.RecvMassive(data, map[]);
  }

  // ---- Copy

  /** The first empty message. */
  function Sentinel<T>(messages: seq<seq<T>>): (e: nat)
    ensures e <= |messages| && (e < |messages| ==> messages[e] == [])
    ensures forall i :: 0 <= i < e ==> messages[i] != []
  {
    if messages == [] || messages[0] == [] then 0 else 1 + Sentinel(messages[1..])
  }

  /** The messages of one Copy node on their way to the receiver. */
  class CopyStream<T(!new)> {
    var messages: seq<seq<T>>

    constructor ()
      ensures messages == []
    {
      messages := [];
    }

    /** The sender: the batches of its reader, then an empty one. */
    method SendTable(batches: seq<seq<T>>)
      modifies this
      ensures messages == old(messages) + batches + [[]]
    {
      for i := 0 to |batches|
        invariant messages == old(messages) + batches[..i]
      {
        messages := messages + [batches[i]];
        assert batches[..i + 1] == batches[..i] + [batches[i]];
      }
      assert batches[..|batches|] == batches;
      messages := messages + [[]];
    }

    /** The receiver: everything up to the first empty batch. */
    method ReceiveTable() returns (merged: seq<T>)
      requires Sentinel(messages) < |messages|
      modifies this
      ensures
        var e := Sentinel(old(messages));
        merged == Concat(old(messages)[..e]) && messages == old(messages)[e + 1..]
    {
      ghost var all, e := messages, Sentinel(messages);
      merged := [];
      var first, i := true, 0;
      while true
        invariant 0 <= i <= e && messages == all[i..] && merged == Concat(all[..i]) && (first ==> i == 0)
        decreases e - i
      {
        var table := messages[0];
        messages := messages[1..];
        assert table == all[i] && all[..i + 1] == all[..i] + [all[i]];
        ConcatPush(all[..i], table);
        if first {
          merged, first := table, false;
        } else if |table| > 0 {
          merged := merged + table;
        }
        if |table| == 0 {
          break;
        }
        i := i + 1;
      }
    }
  }

  /** The receiver ends with all rows and leaves nothing of the transfer behind exactly when no
      data batch is empty, whatever is sent afterwards. */
  lemma CopyIsExact<T>(batches: seq<seq<T>>, later: seq<seq<T>>)
    ensures
      var all := batches + [[]] + later;
      var e := Sentinel(all);
      && e < |all|
      && ((all[..e] == batches && all[e + 1..] == later) <==> forall i :: 0 <= i < |batches| ==> batches[i] != [])
  {
    var all := batches + [[]] + later;
    var e := Sentinel(all);
    assert all[|batches|] == [];
    if forall i :: 0 <= i < |batches| ==> batches[i] != [] {
      assert forall i :: 0 <= i < |batches| ==> all[i] != [];
      assert e == |batches|;
    } else {
      var i :| 0 <= i < |batches| && batches[i] == [];
      assert all[i] == [];
    }
  }

  /** An empty batch before the last row: the row does not arrive and stays behind. */
  lemma EmptyBatchEnds(all: seq<seq<int>>)
    requires all == [[], [1], []]
    ensures Sentinel(all) == 0 && Concat(all[..0]) == [] && all[1..] == [[1], []]
  {
  }
}
