/**
 The multi-producer queue of memory/mpsc_queue.hpp: producers pass through the spinlock, then run the
 single-producer push one shared access at a time. Any number of producers and one consumer interleave.
 */
module Mpsc {
  import opened Spsc
  import opened SpscQueue
  import Spinlock

  datatype Call<T> = Call(value: T, ok: bool)

  datatype Outcome = InFlight | Done(ok: bool)

  /** One taking of the lock: by whom, to push what, and how that push ended. */
  datatype Entry<T> = Entry(thread: nat, value: T, outcome: Outcome)

  /** A producer thread: the argument of its current push, its place inside it, and its finished calls. */
  datatype Client<T> = Client(value: T, pc: Producer<T>, calls: seq<Call<T>>)

  datatype State<T> = MpscState(
    lock: Spinlock.Lock, clients: seq<Client<T>>,
    data: seq<T>, head: nat, tail: nat, consumer: Consumer<T>, accepted: seq<T>, taken: seq<T>,
    log: seq<Entry<T>>)

  datatype Action<T> = Thread(i: nat, value: T) | Pop(headFirst: bool)

  /** The ring as the thread whose place inside `push` is `pc` sees it. */
  function Ring<T>(s: State<T>, pc: Producer<T>): Spsc.State<T> {
    Spsc.State(true, s.data, s.head, s.tail, pc, s.consumer, s.accepted, s.taken)
  }

  function WithRing<T>(s: State<T>, q: Spsc.State<T>): State<T> {
    s.(data := q.data, head := q.head, tail := q.tail, consumer := q.consumer, accepted := q.accepted, taken := q.taken)
  }

  function Start<T>(n: nat, maxSize: nat, blank: T): (s: State<T>)
    requires maxSize > 0
    ensures WellFormed(s)
  {
    MpscState(Spinlock.Init(n), seq(n, _ => Client(blank, PIdle, [])), seq(maxSize + 1, _ => blank), 0, 0, CIdle, [], [], [])
  }

  ghost predicate WellFormed<T>(s: State<T>) {
    && |s.clients| == |s.lock.threads|
    && Spsc.InRange(Ring(s, PIdle))
    && (forall i: nat {:trigger s.clients[i]} :: i < |s.clients| ==> Spsc.InRange(Ring(s, s.clients[i].pc)))
  }

  /** Records how the push of the thread that took the lock last has ended. */
  function Resolve<T>(log: seq<Entry<T>>, pc: Producer<T>): seq<Entry<T>> {
    if log == [] || !pc.PReturned? then log
    else log[..|log| - 1] + [log[|log| - 1].(outcome := Done(pc.ok))]
  }

  /** The next access of producer `i`; `value` matters only when it starts a new call. */
  function ThreadStep<T>(s: State<T>, i: nat, value: T): (s': State<T>)
    requires WellFormed(s) && i < |s.clients|
    ensures WellFormed(s') && |s'.clients| == |s.clients|
  {
    var c := s.clients[i];
    var lock := Spinlock.Step(s.lock, i);
    match s.lock.threads[i]
    case Outside => s.(lock := lock, clients := s.clients[i := c.(value := value)])
    case Holding =>
      if c.pc.PReturned? then
        s.(lock := lock, clients := s.clients[i := Client(c.value, PIdle, c.calls + [Call(c.value, c.pc.ok)])])
      else
        var q := ProducerStep(Ring(s, c.pc), c.value);
        WithRing(s, q).(clients := s.clients[i := c.(pc := q.producer)], log := Resolve(s.log, q.producer))
    case _ =>
      var log := if lock.threads[i].Holding? then s.log + [Entry(i, c.value, InFlight)] else s.log;
      s.(lock := lock, clients := s.clients[i := c.(pc := PIdle)], log := log)
  }

  function Access<T>(s: State<T>, a: Action<T>): (s': State<T>)
    requires WellFormed(s) && (a.Thread? ==> a.i < |s.clients|)
    ensures WellFormed(s') && |s'.clients| == |s.clients|
  {
    match a
    case Thread(i, v) => ThreadStep(s, i, v)
    case Pop(headFirst) => WithRing(s, ConsumerStep(Ring(s, PIdle), headFirst))
  }

  ghost predicate Schedule<T>(n: nat, acts: seq<Action<T>>) {
    forall k :: 0 <= k < |acts| ==> acts[k].Thread? ==> acts[k].i < n
  }

  function Execute<T>(s: State<T>, acts: seq<Action<T>>): (s': State<T>)
    requires WellFormed(s) && Schedule(|s.clients|, acts)
    ensures WellFormed(s') && |s'.clients| == |s.clients|
  {
    if acts == [] then s else Access(Execute(s, acts[..|acts| - 1]), acts[|acts| - 1])
  }

  /** The values of the successful pushes, in the order in which their threads took the lock. */
  function AcceptedOf<T>(log: seq<Entry<T>>): seq<T> {
    if log == [] then []
    else
      var e := log[|log| - 1];
      AcceptedOf(log[..|log| - 1]) + if e.outcome == Done(true) then [e.value] else []
  }

  /** The threads those values came from. */
  function OwnersOf<T>(log: seq<Entry<T>>): (r: seq<nat>)
    ensures |r| == |AcceptedOf(log)|
  {
    if log == [] then []
    else
      var e := log[|log| - 1];
      OwnersOf(log[..|log| - 1]) + if e.outcome == Done(true) then [e.thread] else []
  }

  /** The finished pushes of thread `i`. */
  function CallsOf<T>(log: seq<Entry<T>>, i: nat): seq<Call<T>> {
    if log == [] then []
    else
      var e := log[|log| - 1];
      CallsOf(log[..|log| - 1], i) + if e.thread == i && e.outcome.Done? then [Call(e.value, e.outcome.ok)] else []
  }

  /** The subsequence of `values` owned by thread `i`. */
  function Select<T>(values: seq<T>, owners: seq<nat>, i: nat): seq<T>
    requires |values| == |owners|
  {
    if values == [] then []
    else
      var n := |values| - 1;
      Select(values[..n], owners[..n], i) + if owners[n] == i then [values[n]] else []
  }

  /** The values of the successful calls. */
  function OkValues<T>(calls: seq<Call<T>>): seq<T> {
    if calls == [] then []
    else
      var c := calls[|calls| - 1];
      OkValues(calls[..|calls| - 1]) + if c.ok then [c.value] else []
  }

  /** The calls of thread `i` whose push has ended, counting one that still has to release the lock. */
  ghost function Ended<T>(s: State<T>, i: nat): seq<Call<T>>
    requires i < |s.clients|
  {
    var c := s.clients[i];
    c.calls + if Spinlock.Held(s.lock, i) && c.pc.PReturned? then [Call(c.value, c.pc.ok)] else []
  }

  /** The ring invariant, from the viewpoint of whichever thread is inside `push`. */
  ghost predicate RingInv<T>(s: State<T>) {
    && |s.clients| == |s.lock.threads|
    && Spsc.Inv(Ring(s, PIdle))
    && (forall i: nat {:trigger Spinlock.Held(s.lock, i)} :: Spinlock.Held(s.lock, i) ==> Spsc.Inv(Ring(s, s.clients[i].pc)))
    && (forall i: nat {:trigger Spinlock.Held(s.lock, i)} :: i < |s.clients| && !Spinlock.Held(s.lock, i) ==> s.clients[i].pc == PIdle)
  }

  ghost predicate LogInv<T>(s: State<T>) {
    && |s.clients| == |s.lock.threads|
    && AcceptedOf(s.log) == s.accepted
    && (forall i: nat {:trigger Spinlock.Held(s.lock, i)} :: Spinlock.Held(s.lock, i) ==>
          var c := s.clients[i];
          && s.log != []
          && (c.pc.PIdle? || c.pc.PReturned? || c.pc.value == c.value)
          && s.log[|s.log| - 1] == Entry(i, c.value, if c.pc.PReturned? then Done(c.pc.ok) else InFlight))
    && (forall i: nat {:trigger Ended(s, i)} :: i < |s.clients| ==> CallsOf(s.log, i) == Ended(s, i))
  }

  ghost predicate Inv<T>(s: State<T>) {
    WellFormed(s) && Spinlock.Inv(s.lock) && RingInv(s) && LogInv(s)
  }

  /** Only thread `i` has moved, it is outside the ring's push, and the ring is as it was. */
  ghost predicate RingUntouched<T>(s: State<T>, s': State<T>, i: nat) {
    && |s.clients| == |s.lock.threads| == |s'.clients| == |s'.lock.threads| && i < |s.clients|
    && Ring(s', PIdle) == Ring(s, PIdle) && s'.clients[i].pc == PIdle
    && (forall j: nat {:trigger Spinlock.Held(s'.lock, j)} :: j != i ==> (Spinlock.Held(s'.lock, j) <==> Spinlock.Held(s.lock, j)))
    && (forall j: nat {:trigger s'.clients[j]} :: j < |s.clients| && j != i ==> s'.clients[j] == s.clients[j])
  }

  lemma RingKept<T>(s: State<T>, s': State<T>, i: nat)
    requires RingInv(s) && RingUntouched(s, s', i)
    ensures RingInv(s')
  {
    forall j: nat | Spinlock.Held(s'.lock, j) ensures Spsc.Inv(Ring(s', s'.clients[j].pc)) {
      if j != i {
        assert Spinlock.Held(s.lock, j);
      }
    }
  }

  lemma WaitTouchesNoRing<T>(s: State<T>, i: nat, value: T)
    requires Inv(s) && i < |s.clients| && !Spinlock.Held(s.lock, i)
    ensures RingUntouched(s, ThreadStep(s, i, value), i)
  {
  }

  /** A push that has not ended adds nothing to what the log says. */
  lemma InFlightAddsNothing<T>(log: seq<Entry<T>>, e: Entry<T>, j: nat)
    requires e.outcome.InFlight?
    ensures AcceptedOf(log + [e]) == AcceptedOf(log) && CallsOf(log + [e], j) == CallsOf(log, j)
  {
    assert (log + [e])[..|log|] == log;
  }

  lemma EndedOutside<T>(s: State<T>, i: nat)
    requires i < |s.clients| && s.clients[i].pc == PIdle
    ensures Ended(s, i) == s.clients[i].calls
  {
  }

  /** What the log says of a waiting thread and of all others stays true. */
  lemma WaitKeepsCalls<T>(s: State<T>, i: nat, value: T, j: nat)
    requires Inv(s) && i < |s.clients| && !Spinlock.Held(s.lock, i) && j < |s.clients|
    ensures var s' := ThreadStep(s, i, value); CallsOf(s'.log, j) == Ended(s', j)
  {
    var s' := ThreadStep(s, i, value);
    assert CallsOf(s.log, j) == Ended(s, j);
    if j == i {
      EndedOutside(s, i);
      EndedOutside(s', i);
    }
    if s'.log != s.log {
      InFlightAddsNothing(s.log, Entry(i, s.clients[i].value, InFlight), j);
    }
  }

  lemma WaitKeepsLog<T>(s: State<T>, i: nat, value: T)
    requires Inv(s) && i < |s.clients| && !Spinlock.Held(s.lock, i)
    ensures LogInv(ThreadStep(s, i, value))
  {
    var s' := ThreadStep(s, i, value);
    Spinlock.StepKeepsInv(s.lock, i);
    InFlightAddsNothing(s.log, Entry(i, s.clients[i].value, InFlight), i);
    forall j: nat | Spinlock.Held(s'.lock, j) && j != i
      ensures !Spinlock.Held(s'.lock, i) && Spinlock.Held(s.lock, j)
    {
    }
    forall j: nat | j < |s.clients| ensures CallsOf(s'.log, j) == Ended(s', j) {
      WaitKeepsCalls(s, i, value, j);
    }
  }

  /** While waiting for the lock, or taking it, nothing of the ring changes. */
  lemma WaitKeepsInv<T>(s: State<T>, i: nat, value: T)
    requires Inv(s) && i < |s.clients| && !Spinlock.Held(s.lock, i)
    ensures Inv(ThreadStep(s, i, value))
  {
    WaitTouchesNoRing(s, i, value);
    RingKept(s, ThreadStep(s, i, value), i);
    WaitKeepsLog(s, i, value);
    Spinlock.StepKeepsInv(s.lock, i);
  }

  lemma ReleaseKeepsLog<T>(s: State<T>, i: nat, value: T)
    requires Inv(s) && Spinlock.Held(s.lock, i) && s.clients[i].pc.PReturned?
    ensures LogInv(ThreadStep(s, i, value))
  {
    var s' := ThreadStep(s, i, value);
    assert forall j: nat :: !Spinlock.Held(s'.lock, j) by {
      assert forall j: nat :: Spinlock.Held(s'.lock, j) ==> Spinlock.Held(s.lock, j) && j != i;
    }
    forall j: nat | j < |s.clients| ensures CallsOf(s'.log, j) == Ended(s', j) {
      assert CallsOf(s.log, j) == Ended(s, j);
      if j == i {
        EndedOutside(s', i);
      }
    }
  }

  /** Releasing the lock moves the ended push to the finished calls. */
  lemma ReleaseKeepsInv<T>(s: State<T>, i: nat, value: T)
    requires Inv(s) && Spinlock.Held(s.lock, i) && s.clients[i].pc.PReturned?
    ensures Inv(ThreadStep(s, i, value))
  {
    Spinlock.StepKeepsInv(s.lock, i);
    RingKept(s, ThreadStep(s, i, value), i);
    ReleaseKeepsLog(s, i, value);
  }

  /** One access of the holder inside `push` is one access of the only producer of the ring. */
  lemma PushKeepsRing<T>(s: State<T>, i: nat, value: T)
    requires Inv(s) && Spinlock.Held(s.lock, i) && !s.clients[i].pc.PReturned?
    ensures RingInv(ThreadStep(s, i, value))
  {
    var s', c := ThreadStep(s, i, value), s.clients[i];
    ProducerKeepsInv(Ring(s, c.pc), c.value);
    assert Ring(s', s'.clients[i].pc) == ProducerStep(Ring(s, c.pc), c.value);
    assert Spsc.Inv(Ring(s', PIdle));
  }

  /** The end of the push that took the lock last, as the log learns it. */
  lemma ResolveAdds<T>(log: seq<Entry<T>>, pc: Producer<T>, j: nat)
    requires log != [] && log[|log| - 1].outcome.InFlight? && pc.PReturned?
    ensures var e := log[|log| - 1];
            && AcceptedOf(Resolve(log, pc)) == AcceptedOf(log) + (if pc.ok then [e.value] else [])
            && CallsOf(Resolve(log, pc), j) == CallsOf(log, j) + if e.thread == j then [Call(e.value, pc.ok)] else []
  {
    var n := |log| - 1;
    assert Resolve(log, pc)[..n] == log[..n];
    assert AcceptedOf(log) == AcceptedOf(log[..n]) && CallsOf(log, j) == CallsOf(log[..n], j);
  }

  lemma PushKeepsCalls<T>(s: State<T>, i: nat, value: T, j: nat)
    requires WellFormed(s) && Spinlock.Inv(s.lock) && LogInv(s) && j < |s.clients|
    requires Spinlock.Held(s.lock, i) && !s.clients[i].pc.PReturned?
    ensures var s' := ThreadStep(s, i, value); CallsOf(s'.log, j) == Ended(s', j)
  {
    var s' := ThreadStep(s, i, value);
    assert CallsOf(s.log, j) == Ended(s, j);
    if s'.clients[i].pc.PReturned? {
      ResolveAdds(s.log, s'.clients[i].pc, j);
    }
    if j != i {
      assert !Spinlock.Held(s.lock, j);
    }
  }

  /** The log learns how the push ended at the access that ends it. */
  lemma PushKeepsLog<T>(s: State<T>, i: nat, value: T)
    requires WellFormed(s) && Spinlock.Inv(s.lock) && LogInv(s)
    requires Spinlock.Held(s.lock, i) && !s.clients[i].pc.PReturned?
    ensures LogInv(ThreadStep(s, i, value))
  {
    var s' := ThreadStep(s, i, value);
    if s'.clients[i].pc.PReturned? {
      ResolveAdds(s.log, s'.clients[i].pc, i);
    }
    forall j: nat | j < |s.clients| ensures CallsOf(s'.log, j) == Ended(s', j) {
      PushKeepsCalls(s, i, value, j);
    }
  }

  lemma PushKeepsInv<T>(s: State<T>, i: nat, value: T)
    requires Inv(s) && Spinlock.Held(s.lock, i) && !s.clients[i].pc.PReturned?
    ensures Inv(ThreadStep(s, i, value))
  {
    PushKeepsRing(s, i, value);
    PushKeepsLog(s, i, value);
  }

  lemma PopKeepsRing<T>(s: State<T>, headFirst: bool)
    requires WellFormed(s) && RingInv(s)
    ensures RingInv(Access(s, Pop(headFirst)))
  {
    var s' := Access(s, Pop(headFirst));
    ConsumerKeepsInv(Ring(s, PIdle), headFirst);
    forall i: nat | Spinlock.Held(s.lock, i) ensures Spsc.Inv(Ring(s', s'.clients[i].pc)) {
      ConsumerKeepsInv(Ring(s, s.clients[i].pc), headFirst);
      assert Ring(s', s.clients[i].pc) == ConsumerStep(Ring(s, s.clients[i].pc), headFirst);
    }
    assert Ring(s', PIdle) == ConsumerStep(Ring(s, PIdle), headFirst);
  }

  lemma PopKeepsLog<T>(s: State<T>, headFirst: bool)
    requires WellFormed(s) && LogInv(s)
    ensures LogInv(Access(s, Pop(headFirst)))
  {
    var s' := Access(s, Pop(headFirst));
    forall j: nat | j < |s.clients| ensures CallsOf(s'.log, j) == Ended(s', j) {
      assert CallsOf(s.log, j) == Ended(s, j);
    }
  }

  /** Popping touches neither the producers nor the log. */
  lemma PopKeepsInv<T>(s: State<T>, headFirst: bool)
    requires Inv(s)
    ensures Inv(Access(s, Pop(headFirst)))
  {
    PopKeepsRing(s, headFirst);
    PopKeepsLog(s, headFirst);
  }

  lemma {:induction false} RunKeepsInv<T>(s: State<T>, acts: seq<Action<T>>)
    requires Inv(s) && Schedule(|s.clients|, acts)
    ensures Inv(Execute(s, acts))
    decreases |acts|
  {
    if acts != [] {
      var before := acts[..|acts| - 1];
      RunKeepsInv(s, before);
      var r := Execute(s, before);
      match acts[|acts| - 1]
      case Pop(headFirst) => PopKeepsInv(r, headFirst);
      case Thread(i, v) =>
        if !Spinlock.Held(r.lock, i) {
          WaitKeepsInv(r, i, v);
        } else if r.clients[i].pc.PReturned? {
          ReleaseKeepsInv(r, i, v);
        } else {
          PushKeepsInv(r, i, v);
        }
    }
  }

  /** Selecting one thread's share of the accepted values gives its own successful calls, in its own order. */
  lemma {:induction false} SelectIsOkCalls<T>(log: seq<Entry<T>>, i: nat)
    ensures Select(AcceptedOf(log), OwnersOf(log), i) == OkValues(CallsOf(log, i))
    decreases |log|
  {
    if log != [] {
      var n := |log| - 1;
      SelectIsOkCalls(log[..n], i);
      var e, a, o, c := log[n], AcceptedOf(log[..n]), OwnersOf(log[..n]), CallsOf(log[..n], i);
      assert (a + [e.value])[..|a|] == a && (o + [e.thread])[..|o|] == o;
      assert a + [] == a && o + [] == o && c + [] == c;
      if e.outcome.Done? {
        assert (c + [Call(e.value, e.outcome.ok)])[..|c|] == c;
      }
    }
  }

  /** The arguments of the pushes that thread `i` has begun: those given at its accesses from outside the lock. */
  function Arguments<T>(s: State<T>, acts: seq<Action<T>>, i: nat): seq<T>
    requires WellFormed(s) && Schedule(|s.clients|, acts) && i < |s.clients|
  {
    if acts == [] then []
    else
      var n := |acts| - 1;
      var a, r := acts[n], Execute(s, acts[..n]);
      Arguments(s, acts[..n], i) + if a.Thread? && a.i == i && r.lock.threads[i].Outside? then [a.value] else []
  }

  /** The arguments of calls, whether they succeeded or not. */
  function ValuesOf<T>(calls: seq<Call<T>>): (r: seq<T>)
    ensures |r| == |calls| && forall k :: 0 <= k < |calls| ==> r[k] == calls[k].value
  {
    seq(|calls|, k requires 0 <= k < |calls| => calls[k].value)
  }

  /** The argument of a push that has begun and not yet ended. */
  ghost function UnderWay<T>(s: State<T>, i: nat): seq<T>
    requires i < |s.clients| == |s.lock.threads|
  {
    var c := s.clients[i];
    if s.lock.threads[i].Outside? || (Spinlock.Held(s.lock, i) && c.pc.PReturned?) then [] else [c.value]
  }

  lemma ValuesOfMore<T>(calls: seq<Call<T>>, c: Call<T>)
    ensures ValuesOf(calls + [c]) == ValuesOf(calls) + [c.value]
    ensures ValuesOf(calls + []) == ValuesOf(calls)
  {
    assert calls + [] == calls;
  }

  /** What thread `i` is known to have been asked to push. */
  ghost function Begun<T>(s: State<T>, i: nat): seq<T>
    requires i < |s.clients| == |s.lock.threads|
  {
    ValuesOf(Ended(s, i)) + UnderWay(s, i)
  }

  /** An access begins a push with its own argument when the thread is outside, and begins none otherwise. */
  lemma StepBegins<T>(s: State<T>, i: nat, value: T)
    requires Inv(s) && i < |s.clients|
    ensures Begun(ThreadStep(s, i, value), i) == Begun(s, i) + if s.lock.threads[i].Outside? then [value] else []
  {
    var c, s' := s.clients[i], ThreadStep(s, i, value);
    ValuesOfMore(c.calls, Call(c.value, true));
    ValuesOfMore(c.calls, Call(c.value, false));
    if s.lock.threads[i].Outside? {
      assert c.pc == PIdle by { assert !Spinlock.Held(s.lock, i); }
    }
    assert c.calls + [] == c.calls && s'.clients[i].calls + [] == s'.clients[i].calls;
  }

  lemma OthersStay<T>(s: State<T>, i: nat, value: T, j: nat)
    requires WellFormed(s) && i < |s.clients| && j < |s.clients| && j != i
    ensures var s' := ThreadStep(s, i, value);
            s'.clients[j] == s.clients[j] && |s'.lock.threads| == |s.clients| && s'.lock.threads[j] == s.lock.threads[j]
  {
  }

  lemma OthersBeginNothing<T>(s: State<T>, i: nat, value: T, j: nat)
    requires WellFormed(s) && i < |s.clients| && j < |s.clients| && j != i
    ensures Begun(ThreadStep(s, i, value), j) == Begun(s, j)
  {
    OthersStay(s, i, value, j);
  }

  /**
   In every interleaving the calls of a thread, ended or under way, were made with exactly the arguments it
   was given, in order: nothing else is pushed.
   */
  lemma {:induction false} CallsHaveArguments<T>(s: State<T>, acts: seq<Action<T>>, i: nat)
    requires Inv(s) && Schedule(|s.clients|, acts) && i < |s.clients| && Begun(s, i) == []
    ensures Begun(Execute(s, acts), i) == Arguments(s, acts, i)
    decreases |acts|
  {
    if acts != [] {
      var n := |acts| - 1;
      var r := Execute(s, acts[..n]);
      CallsHaveArguments(s, acts[..n], i);
      RunKeepsInv(s, acts[..n]);
      match acts[n]
      case Pop(headFirst) =>
      case Thread(j, v) =>
        if j == i {
          StepBegins(r, i, v);
        } else {
          OthersBeginNothing(r, j, v, i);
        }
    }
  }

  lemma InitInv<T>(n: nat, maxSize: nat, blank: T)
    requires maxSize > 0
    ensures Inv(Start(n, maxSize, blank))
  {
    var s := Start(n, maxSize, blank);
    assert forall i: nat :: !Spinlock.Held(s.lock, i);
    forall i: nat | i < n ensures CallsOf(s.log, i) == Ended(s, i) {
    }
  }

  /** What the invariant says about the values, the ring and the producers. */
  lemma InvMeans<T>(s: State<T>)
    requires Inv(s)
    ensures s.accepted == s.taken + Pending(Ring(s, PIdle))
    ensures s.accepted == AcceptedOf(s.log)
    ensures forall i: nat :: i < |s.clients| ==> Select(AcceptedOf(s.log), OwnersOf(s.log), i) == OkValues(Ended(s, i))
  {
    PendingIsRest(Ring(s, PIdle));
    forall i: nat | i < |s.clients|
      ensures Select(AcceptedOf(s.log), OwnersOf(s.log), i) == OkValues(Ended(s, i))
    {
      SelectIsOkCalls(s.log, i);
      assert CallsOf(s.log, i) == Ended(s, i);
    }
  }

  /**
   In every interleaving of any number of producers and one consumer: at most one producer is inside `push`
   and the flag says whether one is; the consumer has taken a prefix of the accepted values and the ring
   holds the rest; the accepted values are in lock-acquisition order, and each producer's are those of its
   successful calls, whose arguments, with that of a call under way, are exactly those it was given, in order.
   */
  lemma ManyProducers<T>(n: nat, maxSize: nat, blank: T, acts: seq<Action<T>>)
    requires maxSize > 0 && Schedule(n, acts)
    ensures var s := Execute(Start(n, maxSize, blank), acts);
            && Spinlock.Inv(s.lock)
            && s.accepted == s.taken + Pending(Ring(s, PIdle))
            && s.accepted == AcceptedOf(s.log)
            && (forall i: nat :: i < n ==>
                  && Select(AcceptedOf(s.log), OwnersOf(s.log), i) == OkValues(Ended(s, i))
                  && ValuesOf(Ended(s, i)) + UnderWay(s, i) == Arguments(Start(n, maxSize, blank), acts, i))
  {
    var start := Start(n, maxSize, blank);
    InitInv(n, maxSize, blank);
    RunKeepsInv(start, acts);
    InvMeans(Execute(start, acts));
    forall i: nat | i < n ensures Begun(Execute(start, acts), i) == Arguments(start, acts, i) {
      assert Begun(start, i) == [];
      CallsHaveArguments(start, acts, i);
    }
  }

  /** A push of the holder is refused exactly when the ring is full as it loads the tail. */
  lemma {:induction false} RefusedIffFull<T>(n: nat, maxSize: nat, blank: T, acts: seq<Action<T>>, i: nat)
    requires maxSize > 0 && Schedule(n, acts) && i < n
    ensures var s := Execute(Start(n, maxSize, blank), acts);
            Spinlock.Held(s.lock, i) && s.clients[i].pc.PHead? ==>
            (ThreadStep(s, i, blank).clients[i].pc == PReturned(false) <==> Full(Ring(s, PIdle)))
  {
    InitInv(n, maxSize, blank);
    RunKeepsInv(Start(n, maxSize, blank), acts);
    var s := Execute(Start(n, maxSize, blank), acts);
    if Spinlock.Held(s.lock, i) {
      IndexTests(Ring(s, s.clients[i].pc));
    }
  }

  /** The queue object: the ring object behind the lock. */
  class MPSCQueue<T> {
    const ring: SPSCQueue<T>
    var flag: bool
    var threads: seq<Spinlock.Thread>
    var clients: seq<Client<T>>
    ghost var log: seq<Entry<T>>

    ghost predicate Valid()
      reads this, ring, ring.data
    {
      ring.returnOnEmpty && ring.producer == PIdle && WellFormed(Value())
    }

    ghost function Value(): State<T>
      reads this, ring, ring.data
    {
      MpscState(Spinlock.Lock(flag, threads), clients, ring.data[..], ring.head, ring.tail,
                ring.consumer, ring.accepted, ring.taken, log)
    }

    constructor (n: nat, maxSize: nat, blank: T)
      requires maxSize > 0
      ensures Valid() && Value() == Start(n, maxSize, blank)
      ensures fresh(ring) && fresh(ring.data)
    {
      ring := new SPSCQueue(maxSize, true, blank);
      flag, threads := false, seq(n, _ => Spinlock.Outside);
      clients, log := seq(n, _ => Client(blank, PIdle, [])), [];
    }

    /** The holder of the lock executes its next access of the ring's push. */
    method PushAccess(i: nat, value: T)
      requires Valid() && i < |clients|
      requires threads[i].Holding? && !clients[i].pc.PReturned?
      modifies this, ring, ring.data
      ensures Valid() && Value() == ThreadStep(old(Value()), i, value)
    {
      var c := clients[i];
      ring.producer := c.pc;
      assert ring.Value() == Ring(Value(), c.pc);
      ring.ProducerAccess(c.value);
      var pc := ring.producer;
      ring.producer := PIdle;
      clients := clients[i := c.(pc := pc)];
      log := Resolve(log, pc);
    }

    /** A thread that does not hold the lock executes its next access of `lock`. */
    method LockAccess(i: nat, value: T)
      requires Valid() && i < |clients| && !threads[i].Holding?
      modifies this
      ensures Valid() && Value() == ThreadStep(old(Value()), i, value)
    {
      var c := clients[i];
      if threads[i].Outside? {
        clients := clients[i := c.(value := value)];
      } else {
        clients := clients[i := c.(pc := PIdle)];
      }
      match threads[i] {
        case Outside =>
          threads := threads[i := Spinlock.AtExchange(false)];
        case AtExchange(expected) =>
          if flag == expected {
            flag, threads := true, threads[i := Spinlock.Holding];
            log := log + [Entry(i, c.value, InFlight)];
          } else {
            threads := threads[i := Spinlock.AtBackoff];
          }
        case AtBackoff =>
          threads := threads[i := Spinlock.AtLoad];
        case AtLoad =>
          threads := threads[i := if flag then Spinlock.AtBackoff else Spinlock.AtExchange(false)];
      }
    }

    /** The holder, whose push has ended, releases the lock. */
    method UnlockAccess(i: nat, value: T)
      requires Valid() && i < |clients| && threads[i].Holding? && clients[i].pc.PReturned?
      modifies this
      ensures Valid() && Value() == ThreadStep(old(Value()), i, value)
    {
      var c := clients[i];
      flag, threads := false, threads[i := Spinlock.Outside];
      clients := clients[i := Client(c.value, PIdle, c.calls + [Call(c.value, c.pc.ok)])];
    }

    /** Producer `i` executes its next access: of the lock, of the ring, or the release. */
    method ThreadAccess(i: nat, value: T)
      requires Valid() && i < |clients|
      modifies this, ring, ring.data
      ensures Valid() && Value() == ThreadStep(old(Value()), i, value)
    {
      if !threads[i].Holding? {
        LockAccess(i, value);
      } else if clients[i].pc.PReturned? {
        UnlockAccess(i, value);
      } else {
        PushAccess(i, value);
      }
    }

    /** The consumer executes its next access of `pop`, which takes no lock. */
    method PopAccess(headFirst: bool)
      requires Valid()
      modifies ring
      ensures Valid() && Value() == Access(old(Value()), Pop(headFirst))
    {
      assert ring.Value() == Ring(Value(), PIdle);
      ring.ConsumerAccess(headFirst);
    }
  }
}
