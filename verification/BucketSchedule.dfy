/** The three-stage pipeline of Bucket::Execute (engine/operator/bucket.cc) as a step relation:
    the reading thread with its queue of parallel tasks, the filtering thread and the writing
    thread, joined by two bounded channels.  Batches are named by their number. */
module BucketSchedule {
  import opened Columns

  /** Bucket::kBatchParallelism: the bound on unfinished tasks and on both channels. */
  const PARALLELISM: nat := 10

  datatype Task = Task(batch: nat, done: bool)
  datatype Phase = Reading | Draining | JoiningFilter | JoiningWriter | Ended
  datatype Filter = FilterIdle | Holding(batch: nat) | FilterFinished

  datatype State = State(
    next: nat,              // batches read so far
    futures: seq<Task>,     // tasks not joined yet, oldest first
    phase: Phase,
    readQueue: seq<nat>, readClosed: bool,
    filter: Filter,
    writeQueue: seq<nat>, writeClosed: bool,
    written: seq<nat>,      // batches written, in order
    writerDone: bool)

  /** How often ReadArrays hands out a batch before it reports the end, if it ever does. */
  datatype Supply = Finite(count: nat) | Endless

  predicate HasNext(u: Supply, i: nat) { u.Endless? || i < u.count }

  datatype Event =
    | ReadBatch | JoinFront | EndOfInput | CloseRead | JoinFilter | JoinWriter
    | TaskPush(slot: nat)
    | FilterPop | FilterPush | FilterEnd
    | WriterPop | WriterEnd

  function Initial(): State {
    State(0, [], Reading, [], false, FilterIdle, [], false, [], false)
  }

  predicate Enabled(u: Supply, s: State, e: Event) {
    match e
    case ReadBatch => s.phase == Reading && |s.futures| < PARALLELISM && HasNext(u, s.next)
    case JoinFront =>
      && s.futures != [] && s.futures[0].done
      && (s.phase == Draining || (s.phase == Reading && |s.futures| >= PARALLELISM))
    case EndOfInput => s.phase == Reading && |s.futures| < PARALLELISM && !HasNext(u, s.next)
    case CloseRead => s.phase == Draining && s.futures == []
    case JoinFilter => s.phase == JoiningFilter && s.filter == FilterFinished
    case JoinWriter => s.phase == JoiningWriter && s.writerDone
    case TaskPush(i) => i < |s.futures| && !s.futures[i].done && |s.readQueue| < PARALLELISM
    case FilterPop => s.filter == FilterIdle && s.readQueue != []
    case FilterPush => s.filter.Holding? && |s.writeQueue| < PARALLELISM
    case FilterEnd => s.filter == FilterIdle && s.readQueue == [] && s.readClosed
    case WriterPop => !s.writerDone && s.writeQueue != []
    case WriterEnd => !s.writerDone && s.writeQueue == [] && s.writeClosed
  }

  function Apply(u: Supply, s: State, e: Event): State
    requires Enabled(u, s, e)
  {
    match e
    case ReadBatch => s.(next := s.next + 1, futures := s.futures + [Task(s.next, false)])
    case JoinFront => s.(futures := s.futures[1..])
    case EndOfInput => s.(phase := Draining)
    case CloseRead => s.(readClosed := true, phase := JoiningFilter)
    case JoinFilter => s.(phase := JoiningWriter)
    case JoinWriter => s.(phase := Ended)
    case TaskPush(i) =>
      s.(futures := s.futures[i := Task(s.futures[i].batch, true)], readQueue := s.readQueue + [s.futures[i].batch])
    case FilterPop => s.(filter := Holding(s.readQueue[0]), readQueue := s.readQueue[1..])
    case FilterPush => s.(filter := FilterIdle, writeQueue := s.writeQueue + [s.filter.batch])
    case FilterEnd => s.(filter := FilterFinished, writeClosed := true)
    case WriterPop => s.(written := s.written + [s.writeQueue[0]], writeQueue := s.writeQueue[1..])
    case WriterEnd => s.(writerDone := true)
  }

  function Pending(t: Task): multiset<nat> { if t.done then multiset{} else multiset{t.batch} }

  /** The batches of tasks that have not pushed yet. */
  function Unpushed(futures: seq<Task>): multiset<nat> {
    if futures == [] then multiset{}
    else Unpushed(futures[..|futures| - 1]) + Pending(futures[|futures| - 1])
  }

  function Held(c: Filter): multiset<nat> { if c.Holding? then multiset{c.batch} else multiset{} }

  /** Everything read and where it is now. */
  function InFlight(s: State): multiset<nat> {
    Unpushed(s.futures) + multiset(s.readQueue) + Held(s.filter) + multiset(s.writeQueue) + multiset(s.written)
  }

  /** A channel is closed only behind its last push, and the threads end in order. */
  ghost predicate Phased(u: Supply, s: State) {
    && (u.Finite? ==> s.next <= u.count)
    && |s.futures| <= PARALLELISM && |s.readQueue| <= PARALLELISM && |s.writeQueue| <= PARALLELISM
    && (s.phase != Reading ==> u.Finite? && s.next == u.count)
    && (s.phase.Reading? || s.phase.Draining? ==> !s.readClosed)
    && (s.phase.JoiningFilter? || s.phase.JoiningWriter? || s.phase.Ended? ==> s.readClosed && s.futures == [])
    && (s.filter == FilterFinished <==> s.writeClosed)
    && (s.writeClosed ==> s.readClosed && s.readQueue == [])
    && (s.phase.JoiningWriter? || s.phase.Ended? ==> s.writeClosed)
    && (s.writerDone ==> s.writeClosed && s.writeQueue == [])
    && (s.phase.Ended? ==> s.writerDone)
  }

  /** No batch is lost or duplicated. */
  ghost predicate Invariant(u: Supply, s: State) {
    Phased(u, s) && InFlight(s) == multiset(Iota(s.next))
  }

  lemma {:induction false} UnpushedAppend(futures: seq<Task>, t: Task)
    ensures Unpushed(futures + [t]) == Unpushed(futures) + Pending(t)
  {
    assert (futures + [t])[..|futures|] == futures;
  }

  lemma SwapLast(a: multiset<nat>, b: multiset<nat>, c: multiset<nat>)
    ensures a + b + c == a + c + b
  {
  }

  lemma {:induction false} UnpushedUpdate(futures: seq<Task>, i: nat)
    requires i < |futures| && !futures[i].done
    ensures Unpushed(futures) == Unpushed(futures[i := Task(futures[i].batch, true)]) + multiset{futures[i].batch}
  {
    var n := |futures| - 1;
    var init, last := futures[..n], futures[n];
    var pushed := Task(futures[i].batch, true);
    var updated := futures[i := pushed];
    if i < n {
      UnpushedUpdate(init, i);
      assert updated[..n] == init[i := pushed];
      SwapLast(Unpushed(updated[..n]), multiset{pushed.batch}, Pending(last));
    } else {
      assert updated[..n] == init;
    }
  }

  lemma {:induction false} UnpushedTail(futures: seq<Task>)
    requires futures != [] && futures[0].done
    ensures Unpushed(futures[1..]) == Unpushed(futures)
  {
    var n := |futures|;
    if n > 1 {
      UnpushedTail(futures[..n - 1]);
      assert futures[..n - 1][1..] == futures[1..][..n - 2];
    }
  }

  lemma IotaStep(n: nat)
    ensures multiset(Iota(n + 1)) == multiset(Iota(n)) + multiset{n}
  {
    assert Iota(n + 1) == Iota(n) + [n];
  }

  lemma HeadTail(q: seq<nat>)
    requires q != []
    ensures multiset(q) == multiset{q[0]} + multiset(q[1..])
  {
    assert q == [q[0]] + q[1..];
  }

  /** Reading adds the next batch to what is in flight; every other step only moves batches. */
  lemma ReadConserves(u: Supply, s: State)
    requires Enabled(u, s, ReadBatch)
    ensures InFlight(Apply(u, s, ReadBatch)) == InFlight(s) + multiset{s.next}
  {
    UnpushedAppend(s.futures, Task(s.next, false));
  }

  lemma TaskConserves(u: Supply, s: State, i: nat)
    requires Enabled(u, s, TaskPush(i))
    ensures InFlight(Apply(u, s, TaskPush(i))) == InFlight(s)
  {
    UnpushedUpdate(s.futures, i);
    assert multiset(Apply(u, s, TaskPush(i)).readQueue) == multiset(s.readQueue) + multiset{s.futures[i].batch};
  }

  lemma JoinConserves(u: Supply, s: State)
    requires Enabled(u, s, JoinFront)
    ensures InFlight(Apply(u, s, JoinFront)) == InFlight(s)
  {
    UnpushedTail(s.futures);
  }

  lemma FilterPopConserves(u: Supply, s: State)
    requires Enabled(u, s, FilterPop)
    ensures InFlight(Apply(u, s, FilterPop)) == InFlight(s)
  {
    HeadTail(s.readQueue);
  }

  lemma FilterPushConserves(u: Supply, s: State)
    requires Enabled(u, s, FilterPush)
    ensures InFlight(Apply(u, s, FilterPush)) == InFlight(s)
  {
    assert multiset(Apply(u, s, FilterPush).writeQueue) == multiset(s.writeQueue) + Held(s.filter);
  }

  lemma WriteConserves(u: Supply, s: State)
    requires Enabled(u, s, WriterPop)
    ensures InFlight(Apply(u, s, WriterPop)) == InFlight(s)
  {
    HeadTail(s.writeQueue);
    assert multiset(Apply(u, s, WriterPop).written) == multiset(s.written) + multiset{s.writeQueue[0]};
  }

  /** Conservation: no step loses or duplicates a batch. */
  lemma StepConserves(u: Supply, s: State, e: Event)
    requires Enabled(u, s, e) && InFlight(s) == multiset(Iota(s.next))
    ensures InFlight(Apply(u, s, e)) == multiset(Iota(Apply(u, s, e).next))
  {
    match e
    case ReadBatch =>
      ReadConserves(u, s);
      IotaStep(s.next);
    case JoinFront => JoinConserves(u, s);
    case TaskPush(i) => TaskConserves(u, s, i);
    case FilterPop => FilterPopConserves(u, s);
    case FilterPush => FilterPushConserves(u, s);
    case WriterPop => WriteConserves(u, s);
    case _ =>
  }

  lemma StepKeepsPhases(u: Supply, s: State, e: Event)
    requires Phased(u, s) && Enabled(u, s, e)
    ensures Phased(u, Apply(u, s, e))
  {
  }

  /** No thread pushes to a closed channel, and none waits to push when a channel is closed. */
  lemma ClosesSafely(u: Supply, s: State, e: Event)
    requires Phased(u, s) && Enabled(u, s, e)
    ensures e.TaskPush? ==> !s.readClosed
    ensures e.FilterPush? ==> !s.writeClosed
    ensures e.CloseRead? ==> Unpushed(s.futures) == multiset{}
    ensures e.FilterEnd? ==> Held(s.filter) == multiset{}
  {
  }

  lemma StepKeepsInvariant(u: Supply, s: State, e: Event)
    requires Invariant(u, s) && Enabled(u, s, e)
    ensures Invariant(u, Apply(u, s, e))
  {
    StepKeepsPhases(u, s, e);
    StepConserves(u, s, e);
  }

  ghost predicate Runs(u: Supply, s: State, events: seq<Event>, s': State)
    decreases |events|
  {
    if events == [] then s' == s
    else Enabled(u, s, events[0]) && Runs(u, Apply(u, s, events[0]), events[1..], s')
  }

  lemma {:induction false} RunKeepsInvariant(u: Supply, s: State, events: seq<Event>, s': State)
    requires Invariant(u, s) && Runs(u, s, events, s')
    ensures Invariant(u, s')
    decreases |events|
  {
    if events != [] {
      StepKeepsInvariant(u, s, events[0]);
      RunKeepsInvariant(u, Apply(u, s, events[0]), events[1..], s');
    }
  }

  lemma PermFromMultiset(p: seq<nat>, n: nat)
    requires multiset(p) == multiset(Iota(n))
    ensures IsPerm(p, n)
  {
    assert |p| == |multiset(p)| == |multiset(Iota(n))| == n;
    forall j | 0 <= j < n ensures j in p {
      assert Iota(n)[j] == j;
      assert j in multiset(Iota(n));
      assert j in multiset(p);
    }
    ReachesIsPerm(p, n);
  }

  /** Whatever the schedule, a finished run has written every batch exactly once. */
  lemma EveryBatchWritten(u: Supply, events: seq<Event>, s': State)
    requires Runs(u, Initial(), events, s') && s'.phase.Ended?
    ensures u.Finite? && IsPerm(s'.written, u.count)
  {
    assert Iota(0) == [];
    RunKeepsInvariant(u, Initial(), events, s');
    assert InFlight(s') == multiset(s'.written);
    PermFromMultiset(s'.written, u.count);
  }

  /** No schedule gets stuck: before the end some thread can move. */
  lemma NoDeadlock(u: Supply, s: State) returns (e: Event)
    requires Invariant(u, s) && !s.phase.Ended?
    ensures Enabled(u, s, e)
  {
    if s.writeQueue != [] {
      e := WriterPop;
    } else if s.filter.Holding? {
      e := FilterPush;
    } else if s.readQueue != [] {
      e := FilterPop;
    } else if s.futures != [] && !s.futures[0].done {
      e := TaskPush(0);
    } else {
      match s.phase
      case Reading =>
        e := if |s.futures| >= PARALLELISM then JoinFront else if HasNext(u, s.next) then ReadBatch else EndOfInput;
      case Draining =>
        e := if s.futures == [] then CloseRead else JoinFront;
      case JoiningFilter =>
        e := if s.filter == FilterFinished then JoinFilter else FilterEnd;
      case JoiningWriter =>
        e := if s.writerDone then JoinWriter else WriterEnd;
    }
  }

  function PhaseRank(p: Phase): nat {
    match p
    case Reading => 4
    case Draining => 3
    case JoiningFilter => 2
    case JoiningWriter => 1
    case Ended => 0
  }

  /** Steps still to come at most. */
  function Work(u: Supply, s: State): int
    requires u.Finite?
  {
    6 * (u.count - s.next) + 4 * |Unpushed(s.futures)| + |s.futures| + 3 * |s.readQueue|
    + (if s.filter.Holding? then 2 else 0) + |s.writeQueue|
    + PhaseRank(s.phase) + (if s.filter == FilterFinished then 0 else 1) + (if s.writerDone then 0 else 1)
  }

  lemma PendingChange(u: Supply, s: State, e: Event)
    requires Enabled(u, s, e)
    ensures |Unpushed(Apply(u, s, e).futures)|
         == |Unpushed(s.futures)| + (if e.ReadBatch? then 1 else if e.TaskPush? then -1 else 0)
  {
    match e
    case ReadBatch => UnpushedAppend(s.futures, Task(s.next, false));
    case JoinFront => UnpushedTail(s.futures);
    case TaskPush(i) => UnpushedUpdate(s.futures, i);
    case _ =>
  }

  predicate MainThread(e: Event) {
    e.ReadBatch? || e.JoinFront? || e.EndOfInput? || e.CloseRead? || e.JoinFilter? || e.JoinWriter?
  }

  lemma ReadUsesWork(u: Supply, s: State)
    requires u.Finite? && s.next <= u.count && Enabled(u, s, ReadBatch)
    ensures 0 <= Work(u, Apply(u, s, ReadBatch)) < Work(u, s)
  {
    PendingChange(u, s, ReadBatch);
  }

  lemma JoinUsesWork(u: Supply, s: State)
    requires u.Finite? && s.next <= u.count && Enabled(u, s, JoinFront)
    ensures 0 <= Work(u, Apply(u, s, JoinFront)) < Work(u, s)
  {
    PendingChange(u, s, JoinFront);
  }

  lemma PhaseUsesWork(u: Supply, s: State, e: Event)
    requires u.Finite? && s.next <= u.count && Enabled(u, s, e) && MainThread(e) && !e.ReadBatch? && !e.JoinFront?
    ensures 0 <= Work(u, Apply(u, s, e)) < Work(u, s)
  {
    assert Apply(u, s, e).futures == s.futures && Apply(u, s, e).next == s.next;
    assert PhaseRank(Apply(u, s, e).phase) == PhaseRank(s.phase) - 1;
  }

  lemma WorkersUseWork(u: Supply, s: State, e: Event)
    requires u.Finite? && s.next <= u.count && Enabled(u, s, e) && !MainThread(e)
    ensures 0 <= Work(u, Apply(u, s, e)) < Work(u, s)
  {
    PendingChange(u, s, e);
  }

  /** Every schedule ends: each step uses up work. */
  lemma StepUsesWork(u: Supply, s: State, e: Event)
    requires u.Finite? && s.next <= u.count && Enabled(u, s, e)
    ensures 0 <= Work(u, Apply(u, s, e)) < Work(u, s)
  {
    if e.ReadBatch? {
      ReadUsesWork(u, s);
    } else if e.JoinFront? {
      JoinUsesWork(u, s);
    } else if MainThread(e) {
      PhaseUsesWork(u, s, e);
    } else {
      WorkersUseWork(u, s, e);
    }
  }

  lemma {:induction false} RunsAreBounded(u: Supply, s: State, events: seq<Event>, s': State)
    requires u.Finite? && Invariant(u, s) && Runs(u, s, events, s')
    ensures |events| <= Work(u, s)
    decreases |events|
  {
    if events != [] {
      StepUsesWork(u, s, events[0]);
      StepKeepsInvariant(u, s, events[0]);
      RunsAreBounded(u, Apply(u, s, events[0]), events[1..], s');
    }
  }

  lemma StartsInvariant(u: Supply)
    ensures Invariant(u, Initial())
  {
    assert Iota(0) == [];
  }

  /** Every state of a finite run can be carried on to the end. */
  lemma {:induction false} Completes(u: Supply, s: State) returns (events: seq<Event>, end: State)
    requires u.Finite? && Invariant(u, s)
    ensures Runs(u, s, events, end) && end.phase.Ended?
    decreases Work(u, s)
  {
    if s.phase.Ended? {
      events, end := [], s;
    } else {
      var e := NoDeadlock(u, s);
      StepKeepsInvariant(u, s, e);
      StepUsesWork(u, s, e);
      var rest;
      rest, end := Completes(u, Apply(u, s, e));
      events := [e] + rest;
      assert events[1..] == rest;
    }
  }

  /** An endless supply keeps the operator reading: it goes on for any number of steps. */
  lemma {:induction false} GoesOn(s: State, steps: nat) returns (events: seq<Event>, s': State)
    requires Invariant(Endless, s)
    ensures Runs(Endless, s, events, s') && |events| == steps && s'.phase == Reading
    decreases steps
  {
    if steps == 0 {
      events, s' := [], s;
    } else {
      var e := NoDeadlock(Endless, s);
      StepKeepsInvariant(Endless, s, e);
      var rest;
      rest, s' := GoesOn(Apply(Endless, s, e), steps - 1);
      events := [e] + rest;
      assert events[1..] == rest;
    }
  }

  /** Some number of steps bounds every run of the operator. */
  ghost predicate Ends(u: Supply) {
    exists bound: nat :: Bounded(u, bound)
  }

  ghost predicate Bounded(u: Supply, bound: nat) {
    forall events, s' :: Runs(u, Initial(), events, s') ==> |events| <= bound
  }

  /** The operator ends, under every schedule, exactly when its readers do. */
  lemma EndsIff(u: Supply)
    ensures Ends(u) <==> u.Finite?
  {
    StartsInvariant(u);
    if u.Finite? {
      var bound: nat := if Work(u, Initial()) < 0 then 0 else Work(u, Initial());
      forall events, s' | Runs(u, Initial(), events, s') ensures |events| <= bound {
        RunsAreBounded(u, Initial(), events, s');
      }
      assert Bounded(u, bound);
    } else if Ends(u) {
      var bound: nat :| Bounded(u, bound);
      var events, s' := GoesOn(Initial(), bound + 1);
    }
  }
}
