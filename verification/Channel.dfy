/** The bounded channel of engine/util/concurrent_queue.h: its lock-atomic steps, and what
    every interleaving of them keeps. */
module Channel {

  /** queue and closed are the channel's own fields; waiting holds the items of Push calls that
      passed the closed check and wait for room; pushed and popped are the history. */
  datatype State<T> =
    State(queue: seq<T>, closed: bool, waiting: seq<T>, pushed: seq<T>, popped: seq<T>, closes: Closes)

  /** Close calls that passed the test outside the lock, that have returned, and whether one
      passed the test while another was between test and lock. */
  datatype Closes = Closes(entered: nat, returned: nat, overlapped: bool)

  function OneEntered(c: Closes): Closes { Closes(c.entered + 1, c.returned, c.overlapped || c.entered > 0) }

  function OneReturned(c: Closes): Closes
    requires c.entered > 0
  {
    Closes(c.entered - 1, c.returned + 1, c.overlapped)
  }

  datatype Event<T> =
    | PushNow(item: T)       // room at once
    | PushWait(item: T)      // no room: wait on the condition
    | PushResume(slot: nat)  // a waiting call finds room; closed is not looked at again
    | PushRejected           // closed on entry: throws
    | Pop(item: T)
    | PopEmpty               // closed and empty
    | CloseEnter             // the test before the lock: open
    | CloseRejected          // the test before the lock: closed, throws
    | CloseLocked            // a call that passed the test sets closed; it does not test again

  ghost predicate Step<T>(capacity: nat, s: State<T>, e: Event<T>, s': State<T>) {
    match e
    case PushNow(x) => !s.closed && |s.queue| < capacity && s' == s.(queue := s.queue + [x], pushed := s.pushed + [x])
    case PushWait(x) => !s.closed && |s.queue| >= capacity && s' == s.(waiting := s.waiting + [x])
    case PushResume(i) =>
      && i < |s.waiting| && |s.queue| < capacity
      && s' == s.(waiting := s.waiting[..i] + s.waiting[i + 1..],
                  queue := s.queue + [s.waiting[i]], pushed := s.pushed + [s.waiting[i]])
    case PushRejected => s.closed && s' == s
    case Pop(x) => s.queue != [] && x == s.queue[0] && s' == s.(queue := s.queue[1..], popped := s.popped + [x])
    case PopEmpty => s.closed && s.queue == [] && s' == s
    case CloseEnter => !s.closed && s' == s.(closes := OneEntered(s.closes))
    case CloseRejected => s.closed && s' == s
    case CloseLocked => s.closes.entered > 0 && s' == s.(closed := true, closes := OneReturned(s.closes))
  }

  ghost predicate Runs<T(!new)>(capacity: nat, s: State<T>, events: seq<Event<T>>, s': State<T>)
    decreases |events|
  {
    if events == [] then s' == s
    else exists mid :: Step(capacity, s, events[0], mid) && Runs(capacity, mid, events[1..], s')
  }

  function Initial<T>(): State<T> { State([], false, [], [], [], Closes(0, 0, false)) }

  /** First in, first out, within capacity. */
  ghost predicate Fifo<T>(capacity: nat, s: State<T>) {
    s.pushed == s.popped + s.queue && |s.queue| <= capacity
  }

  lemma StepKeepsFifo<T>(capacity: nat, s: State<T>, e: Event<T>, s': State<T>)
    requires Fifo(capacity, s) && Step(capacity, s, e, s')
    ensures Fifo(capacity, s')
  {
    if e.Pop? {
      assert s.queue == [s.queue[0]] + s.queue[1..];
    }
  }

  /** Under every interleaving the items come out in the order they went in. */
  lemma {:induction false} RunKeepsFifo<T(!new)>(capacity: nat, s: State<T>, events: seq<Event<T>>, s': State<T>)
    requires Fifo(capacity, s) && Runs(capacity, s, events, s')
    ensures Fifo(capacity, s')
    decreases |events|
  {
    if events != [] {
      var mid :| Step(capacity, s, events[0], mid) && Runs(capacity, mid, events[1..], s');
      StepKeepsFifo(capacity, s, events[0], mid);
      RunKeepsFifo(capacity, mid, events[1..], s');
    }
  }

  /** As long as no Close has been entered, no Pop reports the end, however empty the queue is. */
  lemma {:induction false} NoEndBeforeClose<T(!new)>(capacity: nat, s: State<T>, events: seq<Event<T>>, s': State<T>)
    requires !s.closed && s.closes.entered == 0 && Runs(capacity, s, events, s')
    requires forall i :: 0 <= i < |events| ==> !events[i].CloseEnter?
    ensures !s'.closed && s'.closes.entered == 0
    ensures forall s'' :: !Step(capacity, s', PopEmpty, s'')
    ensures forall i :: 0 <= i < |events| ==> !events[i].PopEmpty?
    decreases |events|
  {
    if events != [] {
      var mid :| Step(capacity, s, events[0], mid) && Runs(capacity, mid, events[1..], s');
      assert !events[0].CloseEnter?;
      NoEndBeforeClose(capacity, mid, events[1..], s');
      assert forall i :: 1 <= i < |events| ==> events[i] == events[1..][i - 1];
    }
  }

  /** Once closed with no Push waiting, nothing more is pushed. */
  lemma {:induction false} ClosedStaysClosed<T(!new)>(capacity: nat, s: State<T>, events: seq<Event<T>>, s': State<T>)
    requires s.closed && s.waiting == [] && Runs(capacity, s, events, s')
    ensures s'.closed && s'.waiting == [] && s'.pushed == s.pushed
    decreases |events|
  {
    if events != [] {
      var mid :| Step(capacity, s, events[0], mid) && Runs(capacity, mid, events[1..], s');
      ClosedStaysClosed(capacity, mid, events[1..], s');
    }
  }

  /** From s on, a Pop that reports the end has seen every accepted item delivered. */
  ghost predicate EndMeansDelivered<T(!new)>(capacity: nat, s: State<T>) {
    forall events, s', s'' :: Runs(capacity, s, events, s') && Step(capacity, s', PopEmpty, s'') ==>
      s'.waiting == [] && s'.popped == s'.pushed
  }

  lemma {:induction false} PopAll<T(!new)>(capacity: nat, s: State<T>) returns (events: seq<Event<T>>, s': State<T>)
    requires s.closed
    ensures Runs(capacity, s, events, s') && s'.queue == [] && s'.closed && s'.waiting == s.waiting
    decreases |s.queue|
  {
    if s.queue == [] {
      events, s' := [], s;
    } else {
      var mid := s.(queue := s.queue[1..], popped := s.popped + [s.queue[0]]);
      events, s' := PopAll(capacity, mid);
      var first := Pop(s.queue[0]);
      assert Step(capacity, s, first, mid);
      assert ([first] + events)[1..] == events;
      events := [first] + events;
    }
  }

  /** Closing is safe exactly when every Push call has returned: with one still waiting there
      is an interleaving whose Pop reports the end before that item is delivered. */
  lemma SafeCloseIff<T(!new)>(capacity: nat, s: State<T>)
    requires s.closed && Fifo(capacity, s)
    ensures EndMeansDelivered(capacity, s) <==> s.waiting == []
  {
    if s.waiting == [] {
      forall events, s', s'' | Runs(capacity, s, events, s') && Step(capacity, s', PopEmpty, s'')
        ensures s'.waiting == [] && s'.popped == s'.pushed
      {
        ClosedStaysClosed(capacity, s, events, s');
        RunKeepsFifo(capacity, s, events, s');
      }
    } else {
      var events, s' := PopAll(capacity, s);
      assert Step(capacity, s', PopEmpty, s');
    }
  }

  /** From any open channel: fill it, let one Push wait, and close. */
  lemma {:induction false} FillAndClose<T(!new)>(capacity: nat, s: State<T>, x: T)
    returns (events: seq<Event<T>>, s': State<T>)
    requires !s.closed && Fifo(capacity, s)
    ensures Runs(capacity, s, events, s') && s'.closed && s'.waiting == s.waiting + [x]
    decreases capacity - |s.queue|
  {
    if |s.queue| < capacity {
      var mid := s.(queue := s.queue + [x], pushed := s.pushed + [x]);
      assert Step(capacity, s, PushNow(x), mid);
      var rest;
      rest, s' := FillAndClose(capacity, mid, x);
      events := [PushNow(x)] + rest;
      assert events[1..] == rest;
    } else {
      var full := s.(waiting := s.waiting + [x]);
      assert Step(capacity, s, PushWait(x), full);
      var rest;
      rest, s' := CloseNow(capacity, full);
      events := [PushWait(x)] + rest;
      assert events[1..] == rest;
    }
  }

  lemma CloseNow<T(!new)>(capacity: nat, s: State<T>) returns (events: seq<Event<T>>, s': State<T>)
    requires !s.closed
    ensures Runs(capacity, s, events, s') && s'.closed && s'.waiting == s.waiting
  {
    var mid := s.(closes := OneEntered(s.closes));
    s' := mid.(closed := true, closes := OneReturned(mid.closes));
    events := [CloseEnter, CloseLocked];
    assert Step(capacity, s, CloseEnter, mid) && Step(capacity, mid, CloseLocked, s');
    assert events[1..] == [CloseLocked] && events[1..][1..] == [];
    assert Runs(capacity, s', [], s');
    assert Runs(capacity, mid, events[1..], s');
  }

  /** At every capacity such a state is reached from the new channel. */
  lemma UnsafeCloseReachable<T(!new)>(capacity: nat, x: T) returns (events: seq<Event<T>>, s: State<T>)
    ensures Runs(capacity, Initial(), events, s) && s.closed && s.waiting == [x]
    ensures !EndMeansDelivered(capacity, s)
  {
    events, s := FillAndClose(capacity, Initial(), x);
    RunKeepsFifo(capacity, Initial(), events, s);
    SafeCloseIff(capacity, s);
  }

  // ---- how often Close succeeds

  /** At most one Close call gets past the test unless two overlap, and then more do. */
  ghost predicate ClosesCounted<T>(s: State<T>) {
    && (s.closed <==> s.closes.returned > 0)
    && (s.closes.entered + s.closes.returned <= 1 <==> !s.closes.overlapped)
  }

  lemma StepCountsCloses<T>(capacity: nat, s: State<T>, e: Event<T>, s': State<T>)
    requires ClosesCounted(s) && Step(capacity, s, e, s')
    ensures ClosesCounted(s')
  {
  }

  /** A second Close throws, over every interleaving, exactly when no two Close calls overlap:
      otherwise more than one of them gets past the test. */
  lemma {:induction false} CloseOnceIff<T(!new)>(capacity: nat, s: State<T>, events: seq<Event<T>>, s': State<T>)
    requires ClosesCounted(s) && Runs(capacity, s, events, s')
    ensures ClosesCounted(s')
    decreases |events|
  {
    if events != [] {
      var mid :| Step(capacity, s, events[0], mid) && Runs(capacity, mid, events[1..], s');
      StepCountsCloses(capacity, s, events[0], mid);
      CloseOnceIff(capacity, mid, events[1..], s');
    }
  }

  /** Two overlapping calls do both succeed. */
  lemma ClosedTwice<T(!new)>(capacity: nat) returns (s: State<T>)
    ensures Runs(capacity, Initial(), [CloseEnter, CloseEnter, CloseLocked, CloseLocked], s)
    ensures s.closed && s.closes == Closes(0, 2, true)
  {
    var a: State<T> := Initial();
    var b := a.(closes := Closes(1, 0, false));
    var c := a.(closes := Closes(2, 0, true));
    var d := a.(closed := true, closes := Closes(1, 1, true));
    s := a.(closed := true, closes := Closes(0, 2, true));
    var events: seq<Event<T>> := [CloseEnter, CloseEnter, CloseLocked, CloseLocked];
    assert Step(capacity, a, events[0], b) && Step(capacity, b, events[1..][0], c);
    assert Step(capacity, c, events[2..][0], d) && Step(capacity, d, events[3..][0], s);
    assert events[1..][1..] == events[2..] && events[2..][1..] == events[3..] && events[3..][1..] == [];
    assert Runs(capacity, d, events[3..], s);
    assert Runs(capacity, c, events[2..], s);
    assert Runs(capacity, b, events[1..], s);
  }

  datatype PushOutcome = Pushed | Waiting | Thrown
  datatype PopOutcome<T> = Item(value: T) | Ended | Blocked

  /** The channel itself; every method is one atomic section. */
  class SimpleChannel<T(!new)> {
    const capacity: nat
    var queue: seq<T>
    var closed: bool
    ghost var waiting: seq<T>
    ghost var pushed: seq<T>
    ghost var popped: seq<T>
    ghost var closes: Closes

    constructor (capacity: nat)
      ensures this.capacity == capacity && Snapshot() == Initial()
    {
      this.capacity := capacity;
      queue, closed, waiting, pushed, popped := [], false, [], [], [];
      closes := Closes(0, 0, false);
    }

    ghost function Snapshot(): State<T>
      reads this
    {
      State(queue, closed, waiting, pushed, popped, closes)
    }

    /** Push up to its first wait. */
    method PushEnter(item: T) returns (r: PushOutcome)
      modifies this
      ensures match r
              case Pushed => Step(capacity, old(Snapshot()), PushNow(item), Snapshot())
              case Waiting => Step(capacity, old(Snapshot()), PushWait(item), Snapshot())
              case Thrown => Step(capacity, old(Snapshot()), PushRejected, Snapshot())
    {
      if closed {
        return Thrown;
      }
      if |queue| >= capacity {
        waiting := waiting + [item];
        return Waiting;
      }
      queue := queue + [item];
      pushed := pushed + [item];
      r := Pushed;
    }

    /** A waiting Push that was notified and found room. */
    method PushWake(item: T, ghost slot: nat)
      requires |queue| < capacity && slot < |waiting| && waiting[slot] == item
      modifies this
      ensures Step(capacity, old(Snapshot()), PushResume(slot), Snapshot())
    {
      queue := queue + [item];
      pushed := pushed + [item];
      waiting := waiting[..slot] + waiting[slot + 1..];
    }

    method TryPop() returns (r: PopOutcome<T>)
      modifies this
      ensures match r
              case Item(x) => Step(capacity, old(Snapshot()), Event.Pop(x), Snapshot())
              case Ended => Step(capacity, old(Snapshot()), PopEmpty, Snapshot())
              case Blocked => Snapshot() == old(Snapshot())
      ensures r == Blocked <==> old(queue) == [] && !old(closed)
      ensures r == Ended <==> old(queue) == [] && old(closed)
    {
      if queue == [] && !closed {
        return Blocked;
      }
      if closed && queue == [] {
        return Ended;
      }
      r := Item(queue[0]);
      popped := popped + [queue[0]];
      queue := queue[1..];
    }

    /** Close up to the lock: the test is made outside it. */
    method CloseTest() returns (ok: bool)
      modifies this
      ensures ok ==> Step(capacity, old(Snapshot()), CloseEnter, Snapshot())
      ensures !ok ==> Step(capacity, old(Snapshot()), CloseRejected, Snapshot())
    {
      if closed {
        return false;
      }
      closes := OneEntered(closes);
      ok := true;
    }

    /** The rest of a Close that passed its test. */
    method CloseChannel()
      requires closes.entered > 0
      modifies this
      ensures Step(capacity, old(Snapshot()), CloseLocked, Snapshot())
    {
      closed := true;
      closes := OneReturned(closes);
    }
  }
}
