/**
 The single-producer single-consumer ring of memory/spsc_queue.hpp.

 A `State` holds the shared memory of the queue and, for each of its two threads, how far that thread
 has got in its current call together with the locals it has loaded. `Step` executes exactly one shared
 memory access (one atomic load or store, or one slot read or write) of one thread, so that a sequence
 of actions is an arbitrary interleaving under sequential consistency.
 */
module Spsc {
  import opened Modular
  import opened Wrappers

  /** Where the producer is inside `push`. `PWait` and `PRecheck` occur only in the blocking mode. */
  datatype Producer<T> =
    | PIdle
    | PHead(value: T, head: nat)                // m_head loaded, m_tail is loaded next
    | PWait(value: T, head: nat)                // about to evaluate the wait predicate
    | PRecheck(value: T, head: nat, seen: nat)  // the predicate has loaded m_head, m_tail is next
    | PWrite(value: T, head: nat)               // found not full, about to write the slot
    | PStore(value: T, head: nat)               // slot written, about to publish it
    | PReturned(ok: bool)

  /** Where the consumer is inside `pop`. The operands of the comparison in `empty` are unsequenced. */
  datatype Consumer<T> =
    | CIdle
    | CHead(head: nat)             // `empty` has loaded m_head, m_tail is loaded next
    | CTail(tail: nat)             // `empty` has loaded m_tail, m_head is loaded next
    | CWait                        // about to evaluate the wait predicate (blocking mode only)
    | CReady                       // found not empty, about to load m_tail
    | CRead(tail: nat)             // about to read the slot
    | CGot(tail: nat, value: T)    // slot read, about to release it
    | CReturned(result: Option<T>)

  /** `accepted` and `taken` record the values of the successful pushes and pops so far. */
  datatype State<T> = State(
    returnOnEmpty: bool, data: seq<T>, head: nat, tail: nat,
    producer: Producer<T>, consumer: Consumer<T>, accepted: seq<T>, taken: seq<T>)

  /** One access by one thread; the argument matters only when the access starts a new call. */
  datatype Action<T> = Produce(value: T) | Consume(headFirst: bool)

  function Increment(value: nat, size: nat): nat
    requires size > 0
  {
    (value + 1) % size
  }

  function Init<T>(maxSize: nat, returnOnEmpty: bool, blank: T): (s: State<T>)
    requires maxSize > 0
    ensures InRange(s)
  {
    State(returnOnEmpty, seq(maxSize + 1, _ => blank), 0, 0, PIdle, CIdle, [], [])
  }

  /** Every index held in memory or in a local addresses a slot. */
  ghost predicate InRange<T>(s: State<T>) {
    var size := |s.data|;
    && size >= 2 && s.head < size && s.tail < size
    && (match s.producer
        case PHead(_, h) => h < size
        case PWait(_, h) => h < size
        case PRecheck(_, h, seen) => h < size && seen < size
        case PWrite(_, h) => h < size
        case PStore(_, h) => h < size
        case _ => true)
    && (match s.consumer
        case CHead(h) => h < size
        case CTail(t) => t < size
        case CRead(t) => t < size
        case CGot(t, _) => t < size
        case _ => true)
  }

  /** The next access of the producer. */
  function ProducerStep<T>(s: State<T>, value: T): (s': State<T>)
    requires InRange(s)
    ensures InRange(s')
  {
    var size := |s.data|;
    match s.producer
    case PIdle => s.(producer := PHead(value, s.head))
    case PReturned(_) => s.(producer := PHead(value, s.head))
    case PHead(v, h) =>
      if Increment(h, size) != s.tail then s.(producer := PWrite(v, h))
      else if s.returnOnEmpty then s.(producer := PReturned(false))
      else s.(producer := PWait(v, h))
    case PWait(v, h) => s.(producer := PRecheck(v, h, s.head))
    case PRecheck(v, h, seen) =>
      s.(producer := if Increment(seen, size) == s.tail then PWait(v, h) else PWrite(v, h))
    case PWrite(v, h) => s.(data := s.data[h := v], producer := PStore(v, h))
    case PStore(v, h) => s.(head := Increment(h, size), producer := PReturned(true), accepted := s.accepted + [v])
  }

  function StartEmpty<T>(s: State<T>, headFirst: bool): State<T> {
    s.(consumer := if headFirst then CHead(s.head) else CTail(s.tail))
  }

  function FinishEmpty<T>(s: State<T>, empty: bool): State<T> {
    s.(consumer := if !empty then CReady else if s.returnOnEmpty then CReturned(None) else CWait)
  }

  /** The next access of the consumer. */
  function ConsumerStep<T>(s: State<T>, headFirst: bool): (s': State<T>)
    requires InRange(s)
    ensures InRange(s')
  {
    match s.consumer
    case CIdle => StartEmpty(s, headFirst)
    case CReturned(_) => StartEmpty(s, headFirst)
    case CWait => StartEmpty(s, headFirst)
    case CHead(h) => FinishEmpty(s, h == s.tail)
    case CTail(t) => FinishEmpty(s, s.head == t)
    case CReady => s.(consumer := CRead(s.tail))
    case CRead(t) => s.(consumer := CGot(t, s.data[t]))
    case CGot(t, v) =>
      s.(tail := Increment(t, |s.data|), consumer := CReturned(Some(v)), taken := s.taken + [v])
  }

  function Step<T>(s: State<T>, a: Action<T>): (s': State<T>)
    requires InRange(s)
    ensures InRange(s')
  {
    match a
    case Produce(v) => ProducerStep(s, v)
    case Consume(headFirst) => ConsumerStep(s, headFirst)
  }

  /** The state after an interleaving. */
  function Run<T>(s: State<T>, acts: seq<Action<T>>): (s': State<T>)
    requires InRange(s)
    ensures InRange(s')
  {
    if acts == [] then s else Step(Run(s, acts[..|acts| - 1]), acts[|acts| - 1])
  }

  lemma {:induction false} RunAppend<T>(s: State<T>, a: seq<Action<T>>, b: seq<Action<T>>)
    requires InRange(s)
    ensures Run(s, a + b) == Run(Run(s, a), b)
    decreases |b|
  {
    if b == [] {
      assert a + b == a;
    } else {
      var n := |b| - 1;
      assert (a + b)[..|a + b| - 1] == a + b[..n];
      RunAppend(s, a, b[..n]);
    }
  }

  /** The number of values between two indices of a ring of the given size. */
  function Distance(head: nat, tail: nat, size: nat): int {
    if tail <= head then head - tail else head + size - tail
  }

  /** The `n` slots met when walking from `from` by `Increment`. */
  function Slots<T>(data: seq<T>, from: nat, n: nat): (r: seq<T>)
    requires from < |data|
    ensures |r| == n
    decreases n
  {
    if n == 0 then [] else [data[from]] + Slots(data, Increment(from, |data|), n - 1)
  }

  /** The values in the slots from tail to head. */
  function Pending<T>(s: State<T>): seq<T>
    requires InRange(s)
  {
    Slots(s.data, s.tail, Distance(s.head, s.tail, |s.data|))
  }

  /** The values that have been pushed and not yet popped. */
  function Count<T>(s: State<T>): int { |s.accepted| - |s.taken| }

  ghost predicate Empty<T>(s: State<T>) { Count(s) == 0 }

  ghost predicate Full<T>(s: State<T>) { Count(s) == |s.data| - 1 }

  /** The shared memory agrees with the histories. */
  ghost predicate SharedInv<T>(s: State<T>) {
    var size := |s.data|;
    && 0 <= Count(s) <= size - 1
    && s.taken == s.accepted[..|s.taken|]
    && s.head == |s.accepted| % size
    && s.tail == |s.taken| % size
    && (forall i: nat {:trigger s.accepted[i]} :: |s.taken| <= i < |s.accepted| ==> s.data[i % size] == s.accepted[i])
  }

  /** What the producer's locals still tell it; its copy of head is never stale. */
  ghost predicate ProducerInv<T>(s: State<T>) {
    match s.producer
    case PHead(_, h) => h == s.head
    case PWait(_, h) => h == s.head && !s.returnOnEmpty
    case PRecheck(_, h, seen) => h == seen == s.head && !s.returnOnEmpty
    case PWrite(_, h) => h == s.head && !Full(s)
    case PStore(v, h) => h == s.head && h < |s.data| && !Full(s) && s.data[h] == v
    case _ => true
  }

  /** What the consumer's locals still tell it; its copy of head may be stale, but never a false alarm. */
  ghost predicate ConsumerInv<T>(s: State<T>) {
    match s.consumer
    case CHead(h) => h == s.tail || !Empty(s)
    case CTail(t) => t == s.tail
    case CWait => !s.returnOnEmpty
    case CReady => !Empty(s)
    case CRead(t) => t == s.tail && !Empty(s)
    case CGot(t, v) => t == s.tail && Count(s) > 0 && v == s.accepted[|s.taken|]
    case _ => true
  }

  ghost predicate Inv<T>(s: State<T>) {
    InRange(s) && SharedInv(s) && ProducerInv(s) && ConsumerInv(s)
  }

  /** The index comparisons of `empty` and `full` decide emptiness and fullness of the abstract queue. */
  lemma IndexTests<T>(s: State<T>)
    requires InRange(s) && SharedInv(s)
    ensures s.head == s.tail <==> Empty(s)
    ensures Increment(s.head, |s.data|) == s.tail <==> Full(s)
    ensures Distance(s.head, s.tail, |s.data|) == Count(s)
  {
    var size, a, t := |s.data|, |s.accepted|, |s.taken|;
    if s.head == s.tail { SameSlot(t, a, size); }
    ModSucc(a, size);
    if Full(s) {
      assert a + 1 == t + size;
      UniqueRemainder(t + size, t / size + 1, t % size, size);
    } else if Increment(s.head, size) == s.tail {
      SameSlot(t, a + 1, size);
    }
    DistanceIsCount(t, a, size);
  }

  lemma DistanceIsCount(t: nat, a: nat, size: nat)
    requires t <= a < t + size
    ensures Distance(a % size, t % size, size) == a - t
  {
    var r := t % size + (a - t);
    assert t == size * (t / size) + t % size;
    if r < size {
      UniqueRemainder(a, t / size, r, size);
    } else {
      assert size * (t / size + 1) == size * (t / size) + size;
      UniqueRemainder(a, t / size + 1, r - size, size);
    }
  }

  /** Writing the slot at head leaves every pending value where it was. */
  lemma WriteSlot<T>(s: State<T>, value: T)
    requires Inv(s) && s.producer.PWrite?
    ensures Inv(ProducerStep(s, value))
  {
    var s', size := ProducerStep(s, value), |s.data|;
    var h := s.producer.head;
    forall i: nat | |s.taken| <= i < |s.accepted| ensures s'.data[i % size] == s'.accepted[i] {
      if i % size == h { SameSlot(i, |s.accepted|, size); }
      assert s.data[i % size] == s.accepted[i];
    }
    assert SharedInv(s') && ProducerInv(s') && ConsumerInv(s');
  }

  /** Publishing the slot appends its value to the abstract queue. */
  lemma PublishSlot<T>(s: State<T>, value: T)
    requires Inv(s) && s.producer.PStore?
    ensures Inv(ProducerStep(s, value))
  {
    var s', size := ProducerStep(s, value), |s.data|;
    ModSucc(|s.accepted|, size);
    assert s'.accepted[..|s.taken|] == s.accepted[..|s.taken|];
    forall i: nat | |s.taken| <= i < |s'.accepted| ensures s'.data[i % size] == s'.accepted[i] {
      if i < |s.accepted| { assert s.data[i % size] == s.accepted[i]; }
    }
    assert SharedInv(s') && ProducerInv(s') && ConsumerInv(s');
  }

  /** The loads of `full` tell the truth about a queue that only gets emptier. */
  lemma TestFull<T>(s: State<T>, value: T)
    requires Inv(s) && !s.producer.PWrite? && !s.producer.PStore?
    ensures Inv(ProducerStep(s, value))
  {
    var s' := ProducerStep(s, value);
    IndexTests(s);
    assert SharedInv(s') && ProducerInv(s') && ConsumerInv(s');
  }

  lemma ProducerKeepsInv<T>(s: State<T>, value: T)
    requires Inv(s)
    ensures Inv(ProducerStep(s, value))
  {
    if s.producer.PWrite? {
      WriteSlot(s, value);
    } else if s.producer.PStore? {
      PublishSlot(s, value);
    } else {
      TestFull(s, value);
    }
  }

  /** Releasing the slot removes the oldest value of the abstract queue. */
  lemma ReleaseSlot<T>(s: State<T>, headFirst: bool)
    requires Inv(s) && s.consumer.CGot?
    ensures Inv(ConsumerStep(s, headFirst))
  {
    var s' := ConsumerStep(s, headFirst);
    ModSucc(|s.taken|, |s.data|);
    assert s.accepted[..|s.taken| + 1] == s.accepted[..|s.taken|] + [s.consumer.value];
    assert SharedInv(s') && ProducerInv(s') && ConsumerInv(s');
  }

  /** The slot read is the oldest value of the abstract queue. */
  lemma ReadSlot<T>(s: State<T>, headFirst: bool)
    requires Inv(s) && s.consumer.CRead?
    ensures Inv(ConsumerStep(s, headFirst))
  {
    var s' := ConsumerStep(s, headFirst);
    assert s.data[|s.taken| % |s.data|] == s.accepted[|s.taken|];
    assert SharedInv(s') && ProducerInv(s') && ConsumerInv(s');
  }

  /** Whatever the order of the loads of `empty`, they tell the truth about a queue that only gets fuller. */
  lemma TestEmpty<T>(s: State<T>, headFirst: bool)
    requires Inv(s) && !s.consumer.CRead? && !s.consumer.CGot?
    ensures Inv(ConsumerStep(s, headFirst))
  {
    var s' := ConsumerStep(s, headFirst);
    assert s' == s.(consumer := s'.consumer);
    IndexTests(s);
    assert SharedInv(s') && ProducerInv(s') && ConsumerInv(s');
  }

  lemma ConsumerKeepsInv<T>(s: State<T>, headFirst: bool)
    requires Inv(s)
    ensures Inv(ConsumerStep(s, headFirst))
  {
    match s.consumer
    case CGot(_, _) => ReleaseSlot(s, headFirst);
    case CRead(_) => ReadSlot(s, headFirst);
    case _ => TestEmpty(s, headFirst);
  }

  /** The invariant holds in every state of every interleaving, in both modes. */
  lemma {:induction false} RunKeepsInv<T>(s: State<T>, acts: seq<Action<T>>)
    requires Inv(s)
    ensures Inv(Run(s, acts))
    decreases |acts|
  {
    if acts != [] {
      var before := acts[..|acts| - 1];
      RunKeepsInv(s, before);
      match acts[|acts| - 1]
      case Produce(v) => ProducerKeepsInv(Run(s, before), v);
      case Consume(headFirst) => ConsumerKeepsInv(Run(s, before), headFirst);
    }
  }

  lemma InitInv<T>(maxSize: nat, returnOnEmpty: bool, blank: T)
    requires maxSize > 0
    ensures Inv(Init(maxSize, returnOnEmpty, blank))
  {
  }

  lemma {:induction false} SlotsAre<T>(s: State<T>, k: nat)
    requires InRange(s) && SharedInv(s) && |s.taken| <= k <= |s.accepted|
    ensures Slots(s.data, k % |s.data|, |s.accepted| - k) == s.accepted[k..]
    decreases |s.accepted| - k
  {
    if k < |s.accepted| {
      ModSucc(k, |s.data|);
      SlotsAre(s, k + 1);
      assert s.accepted[k..] == [s.accepted[k]] + s.accepted[k + 1..];
    }
  }

  /** The values in the ring are those accepted and not yet taken. */
  lemma PendingIsRest<T>(s: State<T>)
    requires Inv(s)
    ensures s.accepted == s.taken + Pending(s) && |Pending(s)| == Count(s) < |s.data|
  {
    IndexTests(s);
    SlotsAre(s, |s.taken|);
    assert s.accepted == s.accepted[..|s.taken|] + s.accepted[|s.taken|..];
  }

  /** In every interleaving the popped values are a prefix of the pushed ones, and the ring holds the rest. */
  lemma Fifo<T>(maxSize: nat, returnOnEmpty: bool, blank: T, acts: seq<Action<T>>)
    requires maxSize > 0
    ensures var s := Run(Init(maxSize, returnOnEmpty, blank), acts);
            && s.accepted == s.taken + Pending(s)
            && |Pending(s)| <= maxSize
  {
    var start := Init(maxSize, returnOnEmpty, blank);
    InitInv(maxSize, returnOnEmpty, blank);
    RunKeepsInv(start, acts);
    RunKeepsSize(start, acts);
    PendingIsRest(Run(start, acts));
  }

  /** The producer leaves the consumer's side alone. */
  lemma ProducerLeaves<T>(s: State<T>, value: T)
    requires InRange(s)
    ensures var r := ProducerStep(s, value);
            && r.consumer == s.consumer && r.tail == s.tail && r.taken == s.taken && s.accepted <= r.accepted
            && |r.data| == |s.data| && r.returnOnEmpty == s.returnOnEmpty
  {
  }

  lemma ConsumerLeaves<T>(s: State<T>, headFirst: bool)
    requires InRange(s)
    ensures var r := ConsumerStep(s, headFirst);
            && r.producer == s.producer && r.head == s.head && r.accepted == s.accepted
            && r.data == s.data && r.returnOnEmpty == s.returnOnEmpty
  {
  }

  lemma {:induction false} RunKeepsSize<T>(s: State<T>, acts: seq<Action<T>>)
    requires InRange(s)
    ensures |Run(s, acts).data| == |s.data| && Run(s, acts).returnOnEmpty == s.returnOnEmpty
    decreases |acts|
  {
    if acts != [] {
      var before := acts[..|acts| - 1];
      RunKeepsSize(s, before);
      match acts[|acts| - 1]
      case Produce(v) => ProducerLeaves(Run(s, before), v);
      case Consume(headFirst) => ConsumerLeaves(Run(s, before), headFirst);
    }
  }

  /** The slot about to be written is never the slot about to be read, nor one that holds a pending value. */
  lemma {:induction false} NoSlotConflict<T>(s: State<T>, acts: seq<Action<T>>)
    requires Inv(s)
    ensures var r := Run(s, acts);
            && (r.producer.PWrite? && r.consumer.CRead? ==> r.producer.head != r.consumer.tail)
            && (r.producer.PWrite? ==> forall i: nat :: |r.taken| <= i < |r.accepted| ==> i % |r.data| != r.producer.head)
  {
    RunKeepsInv(s, acts);
    var r := Run(s, acts);
    if r.producer.PWrite? {
      forall i: nat | |r.taken| <= i < |r.accepted| ensures i % |r.data| != r.producer.head {
        if i % |r.data| == r.producer.head { SameSlot(i, |r.accepted|, |r.data|); }
      }
      IndexTests(r);
    }
  }

  /** A push that decides returns false exactly when the queue is full at its load of the tail. */
  lemma PushFailsIffFull<T>(s: State<T>, acts: seq<Action<T>>, value: T)
    requires Inv(s) && s.returnOnEmpty
    requires Run(s, acts).producer.PHead?
    ensures var r := Run(s, acts);
            ProducerStep(r, value).producer == PReturned(false) <==> Full(r)
  {
    RunKeepsInv(s, acts);
    RunKeepsSize(s, acts);
    IndexTests(Run(s, acts));
  }

  /** In the blocking mode no call has given up. */
  ghost predicate NoneGaveUp<T>(s: State<T>) {
    s.producer != PReturned(false) && s.consumer != CReturned(None)
  }

  /** Blocking calls never return false. */
  lemma {:induction false} BlockingNeverGivesUp<T>(s: State<T>, acts: seq<Action<T>>)
    requires Inv(s) && NoneGaveUp(s) && !s.returnOnEmpty
    ensures NoneGaveUp(Run(s, acts)) && !Run(s, acts).returnOnEmpty
    decreases |acts|
  {
    if acts != [] {
      BlockingNeverGivesUp(s, acts[..|acts| - 1]);
    }
  }

  /** A waiting producer that finds room in two accesses in a row goes on to write. */
  lemma RoomEndsWait<T>(s: State<T>, value: T)
    requires Inv(s) && s.producer.PWait? && !Full(s)
    ensures ProducerStep(ProducerStep(s, value), value).producer == PWrite(s.producer.value, s.head)
  {
    IndexTests(s);
  }

  /** A waiting consumer that finds a value in two accesses in a row goes on to read, whichever load comes first. */
  lemma ValueEndsWait<T>(s: State<T>, headFirst: bool, again: bool)
    requires Inv(s) && s.consumer.CWait? && !Empty(s)
    ensures ConsumerStep(ConsumerStep(s, headFirst), again).consumer == CReady
  {
    IndexTests(s);
  }

  ghost predicate InPop<T>(c: Consumer<T>) { !c.CIdle? && !c.CReturned? }

  /** The interleaving reached an empty queue after its `k`-th step and stayed inside one pop call since. */
  ghost predicate EmptySince<T>(s: State<T>, acts: seq<Action<T>>, k: nat)
    requires InRange(s)
  {
    && k <= |acts| && Empty(Run(s, acts[..k]))
    && (forall j :: k <= j <= |acts| ==> InPop(Run(s, acts[..j]).consumer))
  }

  lemma EmptySinceExtends<T>(s: State<T>, before: seq<Action<T>>, acts: seq<Action<T>>, k: nat)
    requires InRange(s) && |acts| == |before| + 1 && before == acts[..|before|]
    requires EmptySince(s, before, k) && InPop(Run(s, acts).consumer)
    ensures EmptySince(s, acts, k)
  {
    assert acts[..|acts|] == acts;
    forall j | k <= j <= |acts| ensures InPop(Run(s, acts[..j]).consumer) {
      if j < |acts| { assert acts[..j] == before[..j]; }
    }
    assert acts[..k] == before[..k];
  }

  lemma EmptyNow<T>(s: State<T>, acts: seq<Action<T>>)
    requires InRange(s) && Empty(Run(s, acts)) && InPop(Run(s, acts).consumer)
    ensures EmptySince(s, acts, |acts|)
  {
    assert acts[..|acts|] == acts;
  }

  /** A loaded head can equal the tail only because the queue was empty, unless it was loaded earlier. */
  lemma HeadLoad<T>(p: State<T>, a: Action<T>)
    requires Inv(p)
    requires var r := Step(p, a); r.consumer.CHead? && r.consumer.head == r.tail
    ensures var r := Step(p, a);
      if a.Produce? then p.consumer == r.consumer && p.tail == r.tail else Empty(r) && InPop(r.consumer)
  {
    if a.Produce? {
      ProducerLeaves(p, a.value);
    } else {
      ConsumerKeepsInv(p, a.headFirst);
      OnlyStartLoadsHead(p, a.headFirst);
      IndexTests(Step(p, a));
    }
  }

  lemma OnlyStartLoadsHead<T>(p: State<T>, headFirst: bool)
    requires InRange(p) && ConsumerStep(p, headFirst).consumer.CHead?
    ensures var r := ConsumerStep(p, headFirst); r.consumer.head == r.head
  {
  }

  /** A loaded head that still equals the tail was loaded, inside this call, while the queue was empty. */
  lemma {:induction false} HeadLoadedWhenEmpty<T>(s: State<T>, acts: seq<Action<T>>) returns (k: nat)
    requires Inv(s) && !InPop(s.consumer)
    requires var r := Run(s, acts); r.consumer.CHead? && r.consumer.head == r.tail
    ensures EmptySince(s, acts, k)
    decreases |acts|
  {
    var n := |acts| - 1;
    var before := acts[..n];
    RunKeepsInv(s, before);
    HeadLoad(Run(s, before), acts[n]);
    if acts[n].Produce? {
      k := HeadLoadedWhenEmpty(s, before);
      EmptySinceExtends(s, before, acts, k);
    } else {
      k := n + 1;
      EmptyNow(s, acts);
    }
  }

  /** Every pop that returns false had an instant inside the call at which the queue was empty. */
  lemma {:induction false} FalsePopWasEmpty<T>(s: State<T>, acts: seq<Action<T>>, headFirst: bool)
    requires Inv(s) && !InPop(s.consumer)
    requires InPop(Run(s, acts).consumer)
    requires ConsumerStep(Run(s, acts), headFirst).consumer == CReturned(None)
    ensures exists k :: EmptySince(s, acts, k)
  {
    var r := Run(s, acts);
    RunKeepsInv(s, acts);
    IndexTests(r);
    if r.consumer.CHead? {
      var k := HeadLoadedWhenEmpty(s, acts);
    } else {
      EmptyNow(s, acts);
    }
  }
}
