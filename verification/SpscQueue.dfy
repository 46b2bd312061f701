/**
 The queue object itself: `push` and `pop` as methods over the fields of the class, with every load, store
 and slot access of the other thread allowed in between. Each method is proved to be one interleaving of
 the step system in module `Spsc`, so every theorem there is about these methods.
 */
module SpscQueue {
  import opened Spsc
  import opened Wrappers

  function Consumes<T>(orders: seq<bool>): seq<Action<T>> {
    seq(|orders|, i requires 0 <= i < |orders| => Consume(orders[i]))
  }

  function Produces<T>(values: seq<T>): seq<Action<T>> {
    seq(|values|, i requires 0 <= i < |values| => Produce(values[i]))
  }

  /** The consumer's accesses in `env` surrounding the producer's accesses of one push. */
  function PushSchedule<T>(value: T, env: seq<seq<bool>>): (acts: seq<Action<T>>)
    decreases |env|
  {
    if env == [] then []
    else PushSchedule(value, env[..|env| - 1]) + Consumes(env[|env| - 1]) + [Produce(value)]
  }

  /** The producer's accesses in `env` surrounding the consumer's accesses of one pop. */
  function PopSchedule<T>(headFirst: bool, env: seq<seq<T>>): (acts: seq<Action<T>>)
    decreases |env|
  {
    if env == [] then []
    else PopSchedule(headFirst, env[..|env| - 1]) + Produces(env[|env| - 1]) + [Consume(headFirst)]
  }

  /** What one push does: in each round the consumer runs, then the producer makes one access. */
  function PushRounds<T>(s: State<T>, value: T, env: seq<seq<bool>>): (s': State<T>)
    requires InRange(s)
    ensures InRange(s')
    decreases |env|
  {
    if env == [] then s
    else ProducerStep(Run(PushRounds(s, value, env[..|env| - 1]), Consumes(env[|env| - 1])), value)
  }

  /** What one pop does: in each round the producer runs, then the consumer makes one access. */
  function PopRounds<T>(s: State<T>, headFirst: bool, env: seq<seq<T>>): (s': State<T>)
    requires InRange(s)
    ensures InRange(s')
    decreases |env|
  {
    if env == [] then s
    else ConsumerStep(Run(PopRounds(s, headFirst, env[..|env| - 1]), Produces(env[|env| - 1])), headFirst)
  }

  lemma FourRounds<T>(s: State<T>, value: T, env: seq<seq<bool>>)
    requires InRange(s) && |env| == 4
    ensures var s1 := ProducerStep(Run(s, Consumes(env[0])), value);
            var s2 := ProducerStep(Run(s1, Consumes(env[1])), value);
            var s3 := ProducerStep(Run(s2, Consumes(env[2])), value);
            && PushRounds(s, value, env[..2]) == s2
            && PushRounds(s, value, env) == ProducerStep(Run(s3, Consumes(env[3])), value)
  {
    assert env[..1][..0] == [] && env[..2][..1] == env[..1] && env[..3][..2] == env[..2];
    assert PushRounds(s, value, env[..1]) == ProducerStep(Run(s, Consumes(env[0])), value);
    assert PushRounds(s, value, env[..2]) == ProducerStep(Run(PushRounds(s, value, env[..1]), Consumes(env[1])), value);
    assert PushRounds(s, value, env[..3]) == ProducerStep(Run(PushRounds(s, value, env[..2]), Consumes(env[2])), value);
  }

  lemma LastTwoRounds<T>(s: State<T>, value: T, env: seq<seq<bool>>)
    requires InRange(s) && |env| == 4
    ensures var s2 := PushRounds(s, value, env[..2]);
            var s3 := ProducerStep(Run(s2, Consumes(env[2])), value);
            PushRounds(s, value, env) == ProducerStep(Run(s3, Consumes(env[3])), value)
  {
    assert env[..3][..2] == env[..2];
    assert PushRounds(s, value, env[..3]) == ProducerStep(Run(PushRounds(s, value, env[..2]), Consumes(env[2])), value);
  }

  lemma LastThreeRounds<T>(s: State<T>, headFirst: bool, env: seq<seq<T>>)
    requires InRange(s) && |env| == 5
    ensures var s2 := PopRounds(s, headFirst, env[..2]);
            var s3 := ConsumerStep(Run(s2, Produces(env[2])), headFirst);
            var s4 := ConsumerStep(Run(s3, Produces(env[3])), headFirst);
            PopRounds(s, headFirst, env) == ConsumerStep(Run(s4, Produces(env[4])), headFirst)
  {
    assert env[..3][..2] == env[..2];
    assert env[..4][..3] == env[..3];
    assert PopRounds(s, headFirst, env[..3]) == ConsumerStep(Run(PopRounds(s, headFirst, env[..2]), Produces(env[2])), headFirst);
  }

  /** A push, however the consumer interferes with it, is an interleaving of the step system. */
  lemma {:induction false} PushIsInterleaving<T>(s: State<T>, value: T, env: seq<seq<bool>>)
    requires InRange(s)
    ensures PushRounds(s, value, env) == Run(s, PushSchedule(value, env))
    decreases |env|
  {
    if env != [] {
      var n := |env| - 1;
      var a, b := PushSchedule(value, env[..n]), Consumes(env[n]);
      PushIsInterleaving(s, value, env[..n]);
      RunAppend(s, a, b);
      assert (a + b + [Produce(value)])[..|a + b|] == a + b;
    }
  }

  /** A pop, however the producer interferes with it, is an interleaving of the step system. */
  lemma {:induction false} PopIsInterleaving<T>(s: State<T>, headFirst: bool, env: seq<seq<T>>)
    requires InRange(s)
    ensures PopRounds(s, headFirst, env) == Run(s, PopSchedule(headFirst, env))
    decreases |env|
  {
    if env != [] {
      var n := |env| - 1;
      var a, b := PopSchedule(headFirst, env[..n]), Produces(env[n]);
      PopIsInterleaving(s, headFirst, env[..n]);
      RunAppend(s, a, b);
      assert (a + b + [Consume(headFirst)])[..|a + b|] == a + b;
    }
  }

  /** The producer only ever adds to the accepted values, and leaves the consumer alone. */
  lemma {:induction false} ProducesExtends<T>(s: State<T>, values: seq<T>)
    requires InRange(s)
    ensures var r := Run(s, Produces(values));
            && s.accepted <= r.accepted && r.taken == s.taken && r.consumer == s.consumer
            && r.tail == s.tail && |r.data| == |s.data| && r.returnOnEmpty == s.returnOnEmpty
    decreases |values|
  {
    if values != [] {
      var n := |values| - 1;
      assert Produces(values)[..n] == Produces(values[..n]);
      ProducesExtends(s, values[..n]);
      ProducerLeaves(Run(s, Produces(values[..n])), values[n]);
    }
  }

  lemma {:induction false} PopExtends<T>(s: State<T>, headFirst: bool, env: seq<seq<T>>)
    requires InRange(s)
    ensures s.accepted <= PopRounds(s, headFirst, env).accepted
    decreases |env|
  {
    if env != [] {
      var n := |env| - 1;
      PopExtends(s, headFirst, env[..n]);
      ProducesExtends(PopRounds(s, headFirst, env[..n]), env[n]);
      ConsumerLeaves(Run(PopRounds(s, headFirst, env[..n]), Produces(env[n])), headFirst);
    }
  }

  /** The first load of `empty` on a queue that is not empty. */
  lemma FirstLoad<T>(s: State<T>, headFirst: bool, values: seq<T>)
    requires Inv(s) && !Empty(s) && (s.consumer.CIdle? || s.consumer.CReturned?)
    ensures var r := ConsumerStep(Run(s, Produces(values)), headFirst);
            && Inv(r) && !Empty(r) && r.returnOnEmpty == s.returnOnEmpty
            && r.consumer == if headFirst then CHead(r.head) else CTail(r.tail)
  {
    RunKeepsInv(s, Produces(values));
    ProducesExtends(s, values);
    ConsumerKeepsInv(Run(s, Produces(values)), headFirst);
  }

  /** The second load cannot make the queue look empty. */
  lemma SecondLoad<T>(s: State<T>, headFirst: bool, values: seq<T>)
    requires Inv(s) && !Empty(s)
    requires s.consumer == if headFirst then CHead(s.head) else CTail(s.tail)
    ensures ConsumerStep(Run(s, Produces(values)), headFirst).consumer == CReady
  {
    RunKeepsInv(s, Produces(values));
    ProducesExtends(s, values);
    IndexTests(s);
    IndexTests(Run(s, Produces(values)));
  }

  /** A pop that starts on a queue that is not empty finds it so, whatever the producer does meanwhile. */
  lemma NonEmptyPops<T>(s: State<T>, headFirst: bool, env: seq<seq<T>>)
    requires Inv(s) && !Empty(s) && (s.consumer.CIdle? || s.consumer.CReturned?) && |env| == 2
    ensures PopRounds(s, headFirst, env).consumer == CReady
  {
    var s1 := ConsumerStep(Run(s, Produces(env[0])), headFirst);
    assert env[..1][..0] == [] && env[..2][..1] == env[..1];
    assert PopRounds(s, headFirst, env[..1]) == s1;
    FirstLoad(s, headFirst, env[0]);
    SecondLoad(s1, headFirst, env[1]);
  }

  class SPSCQueue<T> {
    const returnOnEmpty: bool
    const data: array<T>
    var head: nat
    var tail: nat
    // Where each of the two threads is, with the locals it has loaded.
    var producer: Producer<T>
    var consumer: Consumer<T>
    ghost var accepted: seq<T>
    ghost var taken: seq<T>

    ghost function Value(): State<T>
      reads this, data
    {
      State(returnOnEmpty, data[..], head, tail, producer, consumer, accepted, taken)
    }

    constructor (maxSize: nat, returnOnEmpty: bool, blank: T)
      requires maxSize > 0
      ensures Value() == Init(maxSize, returnOnEmpty, blank)
      ensures fresh(data)
    {
      this.returnOnEmpty := returnOnEmpty;
      data := new T[maxSize + 1](_ => blank);
      head, tail := 0, 0;
      producer, consumer := PIdle, CIdle;
      accepted, taken := [], [];
      new;
      assert data[..] == seq(maxSize + 1, _ => blank);
    }

    /** One access of a thread inside `pop`, in either mode. */
    method ConsumerAccess(headFirst: bool)
      requires InRange(Value())
      modifies `tail, `consumer, `taken
      ensures Value() == ConsumerStep(old(Value()), headFirst)
    {
      match consumer {
        case CHead(h) =>
          consumer := if h != tail then CReady else if returnOnEmpty then CReturned(None) else CWait;
        case CTail(t) =>
          consumer := if head != t then CReady else if returnOnEmpty then CReturned(None) else CWait;
        case CReady => consumer := CRead(tail);
        case CRead(t) => consumer := CGot(t, data[t]);
        case CGot(t, v) =>
          tail := Increment(t, data.Length);
          consumer, taken := CReturned(Some(v)), taken + [v];
        case _ => consumer := if headFirst then CHead(head) else CTail(tail);
      }
    }

    /** One access of a thread inside `push`, in either mode. */
    method ProducerAccess(value: T)
      requires InRange(Value())
      modifies `head, `producer, `accepted, data
      ensures Value() == ProducerStep(old(Value()), value)
    {
      match producer {
        case PHead(v, h) =>
          if Increment(h, data.Length) != tail {
            producer := PWrite(v, h);
          } else {
            producer := if returnOnEmpty then PReturned(false) else PWait(v, h);
          }
        case PWait(v, h) => producer := PRecheck(v, h, head);
        case PRecheck(v, h, seen) =>
          producer := if Increment(seen, data.Length) == tail then PWait(v, h) else PWrite(v, h);
        case PWrite(v, h) =>
          data[h] := v;
          producer := PStore(v, h);
        case PStore(v, h) =>
          head := Increment(h, data.Length);
          producer, accepted := PReturned(true), accepted + [v];
        case _ => producer := PHead(value, head);
      }
    }

    /** The consumer runs for a while. */
    method ConsumerRuns(orders: seq<bool>)
      requires InRange(Value())
      modifies `tail, `consumer, `taken
      ensures Value() == Run(old(Value()), Consumes(orders))
    {
      ghost var s := Value();
      for i := 0 to |orders|
        invariant Value() == Run(s, Consumes(orders[..i]))
      {
        assert Consumes<T>(orders[..i + 1])[..i] == Consumes(orders[..i]);
        ConsumerAccess(orders[i]);
      }
      assert orders[..|orders|] == orders;
    }

    /** The producer runs for a while. */
    method ProducerRuns(values: seq<T>)
      requires InRange(Value())
      modifies `head, `producer, `accepted, data
      ensures Value() == Run(old(Value()), Produces(values))
    {
      ghost var s := Value();
      for i := 0 to |values|
        invariant Value() == Run(s, Produces(values[..i]))
      {
        assert Produces(values[..i + 1])[..i] == Produces(values[..i]);
        ProducerAccess(values[i]);
      }
      assert values[..|values|] == values;
    }

    /** The two loads that open a non-blocking push, and the comparison that refuses it. */
    method Decide(value: T, env: seq<seq<bool>>) returns (ok: bool)
      requires InRange(Value()) && returnOnEmpty && |env| == 2
      requires producer.PIdle? || producer.PReturned?
      modifies `tail, `consumer, `taken, `producer
      ensures producer == if ok then PWrite(value, head) else PReturned(false)
      ensures Value() == PushRounds(old(Value()), value, env)
    {
      ghost var s := Value();
      assert env[..1][..0] == [] && env[..2] == env && env[..2][..1] == env[..1];

      ConsumerRuns(env[0]);
      var h := head;
      producer := PHead(value, h);
      assert Value() == PushRounds(s, value, env[..1]);

      ConsumerRuns(env[1]);
      var t := tail;
      ok := Increment(h, data.Length) != t;
      producer := if ok then PWrite(value, h) else PReturned(false);
    }

    /** The slot write and the store that end an accepted push. */
    method Publish(value: T, before: seq<bool>, between: seq<bool>)
      requires InRange(Value()) && producer == PWrite(value, head)
      modifies this, data
      ensures producer == PReturned(true) && accepted == old(accepted) + [value]
      ensures var s3 := ProducerStep(Run(old(Value()), Consumes(before)), value);
              Value() == ProducerStep(Run(s3, Consumes(between)), value)
    {
      var h := head;
      ghost var s2 := Value();
      ConsumerRuns(before);
      data[h] := value;
      producer := PStore(value, h);
      ghost var s3 := Value();
      assert s3 == ProducerStep(Run(s2, Consumes(before)), value);

      ConsumerRuns(between);
      head := Increment(h, data.Length);
      producer, accepted := PReturned(true), accepted + [value];
    }

    /** A whole non-blocking push, with the consumer running for `env[k]` accesses before the k-th access. */
    method Push(value: T, env: seq<seq<bool>>) returns (ok: bool)
      requires InRange(Value()) && returnOnEmpty && |env| == 4
      requires producer.PIdle? || producer.PReturned?
      modifies this, data
      ensures producer == PReturned(ok)
      ensures accepted == if ok then old(accepted) + [value] else old(accepted)
      ensures Value() == PushRounds(old(Value()), value, if ok then env else env[..2])
    {
      LastTwoRounds(Value(), value, env);
      ok := Decide(value, env[..2]);
      if ok {
        Publish(value, env[2], env[3]);
      }
    }

    /** The emptiness test that opens a non-blocking pop; its two loads come in either order. */
    method Empty(headFirst: bool, env: seq<seq<T>>) returns (empty: bool)
      requires InRange(Value()) && returnOnEmpty && |env| == 2
      requires consumer.CIdle? || consumer.CReturned?
      modifies `head, `producer, `accepted, `consumer, data
      ensures consumer == if empty then CReturned(None) else CReady
      ensures Value() == PopRounds(old(Value()), headFirst, env)
    {
      ghost var s := Value();
      assert env[..1][..0] == [] && env[..2] == env && env[..2][..1] == env[..1];

      ProducerRuns(env[0]);
      var first := if headFirst then head else tail;
      consumer := if headFirst then CHead(first) else CTail(first);
      assert Value() == PopRounds(s, headFirst, env[..1]);

      ProducerRuns(env[1]);
      var second := if headFirst then tail else head;
      empty := first == second;
      consumer := if empty then CReturned(None) else CReady;
    }

    /** The accesses after the emptiness test of a pop: load the tail, read the slot, release it. */
    method Take(headFirst: bool, env: seq<seq<T>>) returns (value: T)
      requires InRange(Value()) && consumer == CReady && |env| == 3
      modifies this, data
      ensures consumer == CReturned(Some(value)) && taken == old(taken) + [value]
      ensures var s3 := ConsumerStep(Run(old(Value()), Produces(env[0])), headFirst);
              var s4 := ConsumerStep(Run(s3, Produces(env[1])), headFirst);
              Value() == ConsumerStep(Run(s4, Produces(env[2])), headFirst)
    {
      ghost var s2 := Value();
      ProducerRuns(env[0]);
      var t := tail;
      consumer := CRead(t);
      ghost var s3 := Value();
      assert s3 == ConsumerStep(Run(s2, Produces(env[0])), headFirst);

      ProducerRuns(env[1]);
      value := data[t];
      consumer := CGot(t, value);
      ghost var s4 := Value();
      assert s4 == ConsumerStep(Run(s3, Produces(env[1])), headFirst);

      ProducerRuns(env[2]);
      tail := Increment(t, data.Length);
      consumer, taken := CReturned(Some(value)), taken + [value];
    }

    /** A whole non-blocking pop, with the producer running for `env[k]` accesses before the k-th access. */
    method Pop(headFirst: bool, env: seq<seq<T>>) returns (result: Option<T>)
      requires InRange(Value()) && returnOnEmpty && |env| == 5
      requires consumer.CIdle? || consumer.CReturned?
      modifies this, data
      ensures consumer == CReturned(result)
      ensures taken == if result.Some? then old(taken) + [result.value] else old(taken)
      ensures Value() == PopRounds(old(Value()), headFirst, if result.Some? then env else env[..2])
    {
      LastThreeRounds(Value(), headFirst, env);
      var empty := Empty(headFirst, env[..2]);
      if empty {
        return None;
      }
      var value := Take(headFirst, env[2..]);
      return Some(value);
    }
  }
}
