/** The two queues of Bucket::Execute are the channels of engine/util/concurrent_queue.h: every
    step of the operator is a run of channel steps, with any unfinished pushes waiting. */
module BucketChannels {
  import opened BucketSchedule
  import Channel

  function HeldItems(c: Filter): seq<nat> { if c.Holding? then [c.batch] else [] }

  /** What the filter has taken from the read queue so far, in order. */
  function Taken(s: State): seq<nat> { s.written + s.writeQueue + HeldItems(s.filter) }

  function ClosedOnce(closed: bool): Channel.Closes { Channel.Closes(0, if closed then 1 else 0, false) }

  /** read_queue_, with these items in Push calls that wait for room. */
  function ReadChannel(s: State, waiting: seq<nat>): Channel.State<nat> {
    Channel.State(s.readQueue, s.readClosed, waiting, Taken(s) + s.readQueue, Taken(s), ClosedOnce(s.readClosed))
  }

  /** write_queue_. */
  function WriteChannel(s: State, waiting: seq<nat>): Channel.State<nat> {
    Channel.State(s.writeQueue, s.writeClosed, waiting, s.written + s.writeQueue, s.written, ClosedOnce(s.writeClosed))
  }

  /** Only tasks that have not pushed, and only the filter, can wait. */
  ghost predicate MayWait(s: State, reading: seq<nat>, writing: seq<nat>) {
    multiset(reading) <= Unpushed(s.futures) && multiset(writing) <= Held(s.filter)
  }

  // ---- runs of the channel

  lemma OneStep(a: Channel.State<nat>, e: Channel.Event<nat>, b: Channel.State<nat>)
    requires Channel.Step(PARALLELISM, a, e, b)
    ensures Channel.Runs(PARALLELISM, a, [e], b)
  {
    assert [e][1..] == [];
    assert Channel.Runs(PARALLELISM, b, [], b);
  }

  lemma {:induction false} RunsAppend(a: Channel.State<nat>, first: seq<Channel.Event<nat>>, b: Channel.State<nat>,
                                      second: seq<Channel.Event<nat>>, c: Channel.State<nat>)
    requires Channel.Runs(PARALLELISM, a, first, b) && Channel.Runs(PARALLELISM, b, second, c)
    ensures Channel.Runs(PARALLELISM, a, first + second, c)
    decreases |first|
  {
    if first == [] {
      assert first + second == second;
    } else {
      var mid :| Channel.Step(PARALLELISM, a, first[0], mid) && Channel.Runs(PARALLELISM, mid, first[1..], b);
      RunsAppend(mid, first[1..], b, second, c);
      assert (first + second)[1..] == first[1..] + second;
    }
  }

  lemma CloseRuns(a: Channel.State<nat>, b: Channel.State<nat>) returns (events: seq<Channel.Event<nat>>)
    requires !a.closed && a.closes == ClosedOnce(false) && b == a.(closed := true, closes := ClosedOnce(true))
    ensures Channel.Runs(PARALLELISM, a, events, b)
  {
    var mid := a.(closes := Channel.Closes(1, 0, false));
    OneStep(a, Channel.CloseEnter, mid);
    OneStep(mid, Channel.CloseLocked, b);
    RunsAppend(a, [Channel.CloseEnter], mid, [Channel.CloseLocked], b);
    events := [Channel.CloseEnter] + [Channel.CloseLocked];
  }

  // ---- waiting pushes

  function Without(w: seq<nat>, i: nat): (r: seq<nat>)
    requires i < |w|
    ensures multiset(r) == multiset(w) - multiset{w[i]}
  {
    assert w == w[..i] + [w[i]] + w[i + 1..];
    w[..i] + w[i + 1..]
  }

  /** A push of b that may or may not have waited before. */
  lemma PushRuns(a: Channel.State<nat>, b: nat) returns (events: seq<Channel.Event<nat>>, c: Channel.State<nat>)
    requires !a.closed && |a.queue| < PARALLELISM
    ensures Channel.Runs(PARALLELISM, a, events, c)
    ensures c == a.(queue := a.queue + [b], pushed := a.pushed + [b], waiting := c.waiting)
    ensures multiset(c.waiting) == multiset(a.waiting) - multiset{b}
  {
    if b in a.waiting {
      var i :| 0 <= i < |a.waiting| && a.waiting[i] == b;
      c := a.(queue := a.queue + [b], pushed := a.pushed + [b], waiting := Without(a.waiting, i));
      events := [Channel.PushResume(i)];
      OneStep(a, events[0], c);
    } else {
      c := a.(queue := a.queue + [b], pushed := a.pushed + [b]);
      events := [Channel.PushNow(b)];
      OneStep(a, events[0], c);
    }
  }

  lemma PopRuns(a: Channel.State<nat>, b: Channel.State<nat>) returns (events: seq<Channel.Event<nat>>)
    requires a.queue != [] && b == a.(queue := a.queue[1..], popped := a.popped + [a.queue[0]])
    ensures Channel.Runs(PARALLELISM, a, events, b)
  {
    events := [Channel.Pop(a.queue[0])];
    OneStep(a, events[0], b);
  }

  /** A task that has not pushed, or the filter, starts to wait: a step of the channel alone. */
  lemma StartsToWait(u: Supply, s: State, reading: seq<nat>, writing: seq<nat>, b: nat)
    requires Phased(u, s)
    ensures MayWait(s, reading + [b], writing) && |s.readQueue| >= PARALLELISM ==>
      Channel.Step(PARALLELISM, ReadChannel(s, reading), Channel.PushWait(b), ReadChannel(s, reading + [b]))
    ensures MayWait(s, reading, writing + [b]) && |s.writeQueue| >= PARALLELISM ==>
      Channel.Step(PARALLELISM, WriteChannel(s, writing), Channel.PushWait(b), WriteChannel(s, writing + [b]))
  {
    assert multiset(reading + [b])[b] > 0 && multiset(writing + [b])[b] > 0;
  }

  // ---- every step of the operator

  lemma NoEvents(a: Channel.State<nat>) returns (events: seq<Channel.Event<nat>>)
    ensures events == [] && Channel.Runs(PARALLELISM, a, events, a)
  {
    events := [];
  }

  lemma TaskPushes(u: Supply, s: State, i: nat, reading: seq<nat>)
    returns (events: seq<Channel.Event<nat>>, reading': seq<nat>)
    requires !s.readClosed && Enabled(u, s, TaskPush(i)) && multiset(reading) <= Unpushed(s.futures)
    ensures multiset(reading') <= Unpushed(Apply(u, s, TaskPush(i)).futures)
    ensures Channel.Runs(PARALLELISM, ReadChannel(s, reading), events, ReadChannel(Apply(u, s, TaskPush(i)), reading'))
  {
    var b, s', c := s.futures[i].batch, Apply(u, s, TaskPush(i)), ReadChannel(s, reading);
    events, c := PushRuns(c, b);
    reading' := c.waiting;
    PushedLast(Taken(s), s.readQueue, b);
    StillWaiting(s.futures, s'.futures, i, multiset(reading));
  }

  lemma PushedLast(popped: seq<nat>, queue: seq<nat>, b: nat)
    ensures popped + (queue + [b]) == popped + queue + [b]
  {
  }

  lemma StillWaiting(futures: seq<Task>, futures': seq<Task>, i: nat, w: multiset<nat>)
    requires i < |futures| && !futures[i].done && futures' == futures[i := Task(futures[i].batch, true)]
    requires w <= Unpushed(futures)
    ensures w - multiset{futures[i].batch} <= Unpushed(futures')
  {
    UnpushedUpdate(futures, i);
  }

  /** What a step does to the read queue. */
  lemma ReadStep(u: Supply, s: State, e: Event, reading: seq<nat>)
    returns (events: seq<Channel.Event<nat>>, reading': seq<nat>)
    requires Phased(u, s) && Enabled(u, s, e) && multiset(reading) <= Unpushed(s.futures)
    ensures multiset(reading') <= Unpushed(Apply(u, s, e).futures)
    ensures Channel.Runs(PARALLELISM, ReadChannel(s, reading), events, ReadChannel(Apply(u, s, e), reading'))
  {
    var s', a := Apply(u, s, e), ReadChannel(s, reading);
    reading' := reading;
    match e
    case ReadBatch =>
      UnpushedAppend(s.futures, Task(s.next, false));
      events := NoEvents(a);
    case JoinFront =>
      UnpushedTail(s.futures);
      events := NoEvents(a);
    case TaskPush(i) =>
      events, reading' := TaskPushes(u, s, i, reading);
    case FilterPop =>
      TakesFromRead(u, s);
      events := PopRuns(a, ReadChannel(s', reading));
    case FilterEnd =>
      events := [Channel.PopEmpty];
      OneStep(a, events[0], ReadChannel(s', reading));
    case CloseRead =>
      events := CloseRuns(a, ReadChannel(s', reading));
    case FilterPush =>
      MovesOn(u, s);
      events := NoEvents(a);
    case WriterPop =>
      Writes(u, s);
      events := NoEvents(a);
    case _ =>
      events := NoEvents(a);
  }

  lemma TakesFromRead(u: Supply, s: State)
    requires Enabled(u, s, FilterPop)
    ensures
      var s' := Apply(u, s, FilterPop);
      Taken(s') == Taken(s) + [s.readQueue[0]] && Taken(s') + s'.readQueue == Taken(s) + s.readQueue
  {
  }

  lemma MovesOn(u: Supply, s: State)
    requires Enabled(u, s, FilterPush)
    ensures Taken(Apply(u, s, FilterPush)) == Taken(s)
  {
  }

  lemma Writes(u: Supply, s: State)
    requires Enabled(u, s, WriterPop)
    ensures
      var s' := Apply(u, s, WriterPop);
      Taken(s') == Taken(s) && s'.written + s'.writeQueue == s.written + s.writeQueue
  {
    assert s.writeQueue == [s.writeQueue[0]] + s.writeQueue[1..];
    assert s.written + s.writeQueue == s.written + [s.writeQueue[0]] + s.writeQueue[1..];
  }

  /** What a step does to the write queue. */
  lemma WriteStep(u: Supply, s: State, e: Event, writing: seq<nat>)
    returns (events: seq<Channel.Event<nat>>, writing': seq<nat>)
    requires Phased(u, s) && Enabled(u, s, e) && multiset(writing) <= Held(s.filter)
    ensures multiset(writing') <= Held(Apply(u, s, e).filter)
    ensures Channel.Runs(PARALLELISM, WriteChannel(s, writing), events, WriteChannel(Apply(u, s, e), writing'))
  {
    var s', a := Apply(u, s, e), WriteChannel(s, writing);
    writing' := writing;
    match e
    case FilterPush =>
      var c;
      events, c := PushRuns(a, s.filter.batch);
      writing' := c.waiting;
      PushedLast(s.written, s.writeQueue, s.filter.batch);
    case FilterEnd =>
      events := CloseRuns(a, WriteChannel(s', writing));
    case WriterPop =>
      Writes(u, s);
      events := PopRuns(a, WriteChannel(s', writing));
    case WriterEnd =>
      events := [Channel.PopEmpty];
      OneStep(a, events[0], WriteChannel(s', writing));
    case _ =>
      events := NoEvents(a);
  }

  /** Every run of the operator is a run of each channel, whatever waits. */
  lemma {:induction false} RunsOnChannels(u: Supply, s: State, steps: seq<Event>, s': State,
                                          reading: seq<nat>, writing: seq<nat>)
    returns (readEvents: seq<Channel.Event<nat>>, reading': seq<nat>,
             writeEvents: seq<Channel.Event<nat>>, writing': seq<nat>)
    requires Invariant(u, s) && Runs(u, s, steps, s') && MayWait(s, reading, writing)
    ensures MayWait(s', reading', writing')
    ensures Channel.Runs(PARALLELISM, ReadChannel(s, reading), readEvents, ReadChannel(s', reading'))
    ensures Channel.Runs(PARALLELISM, WriteChannel(s, writing), writeEvents, WriteChannel(s', writing'))
    decreases |steps|
  {
    if steps == [] {
      readEvents, reading', writeEvents, writing' := [], reading, [], writing;
    } else {
      var mid := Apply(u, s, steps[0]);
      var re, r := ReadStep(u, s, steps[0], reading);
      var we, w := WriteStep(u, s, steps[0], writing);
      StepKeepsInvariant(u, s, steps[0]);
      readEvents, reading', writeEvents, writing' := RunsOnChannels(u, mid, steps[1..], s', r, w);
      RunsAppend(ReadChannel(s, reading), re, ReadChannel(mid, r), readEvents, ReadChannel(s', reading'));
      RunsAppend(WriteChannel(s, writing), we, WriteChannel(mid, w), writeEvents, WriteChannel(s', writing'));
      readEvents, writeEvents := re + readEvents, we + writeEvents;
    }
  }

  /** From the start: both channels are new, and nothing waits. */
  lemma RunsOnNewChannels(u: Supply, steps: seq<Event>, s: State)
    returns (readEvents: seq<Channel.Event<nat>>, reading: seq<nat>,
             writeEvents: seq<Channel.Event<nat>>, writing: seq<nat>)
    requires Runs(u, Initial(), steps, s)
    ensures MayWait(s, reading, writing)
    ensures Channel.Runs(PARALLELISM, Channel.Initial(), readEvents, ReadChannel(s, reading))
    ensures Channel.Runs(PARALLELISM, Channel.Initial(), writeEvents, WriteChannel(s, writing))
  {
    StartsInvariant(u);
    readEvents, reading, writeEvents, writing := RunsOnChannels(u, Initial(), steps, s, [], []);
  }

  // ---- closing

  lemma NothingWaits(w: seq<nat>)
    requires multiset(w) <= multiset{}
    ensures w == []
  {
    assert w != [] ==> multiset(w)[w[0]] > 0;
  }

  /** In every reachable state a closed queue has no waiting push, so from then on a Pop that
      reports the end has seen every batch that was pushed. */
  lemma ClosedQueuesDeliver(u: Supply, s: State, reading: seq<nat>, writing: seq<nat>)
    requires Invariant(u, s) && MayWait(s, reading, writing)
    ensures s.readClosed ==> reading == [] && Channel.EndMeansDelivered(PARALLELISM, ReadChannel(s, reading))
    ensures s.writeClosed ==> writing == [] && Channel.EndMeansDelivered(PARALLELISM, WriteChannel(s, writing))
  {
    if s.readClosed {
      NothingWaits(reading);
      Channel.SafeCloseIff(PARALLELISM, ReadChannel(s, reading));
    }
    if s.writeClosed {
      NothingWaits(writing);
      Channel.SafeCloseIff(PARALLELISM, WriteChannel(s, writing));
    }
  }
}
