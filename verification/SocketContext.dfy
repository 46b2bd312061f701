/** The read and write timers of one socket, after poller/socket_context.cpp. */
module SocketContext {
  import opened UInt64

  const DEFAULT_TIMEOUT_MS: nat := 30000

  /** One direction's deadline and the step by which activity moves it. */
  datatype Timeout = Timeout(time: nat, step: nat)

  const UNARMED := Timeout(INVALID_TIME, INVALID_TIME)

  datatype Context = Context(read: Timeout, write: Timeout)

  function Touched(t: Timeout, now: nat): Timeout { t.(time := Wrap(now + t.step)) }

  /** The step change goes through a signed 64-bit difference. */
  function Stepped(t: Timeout, step: nat): Timeout {
    var diff := ToInt64(Wrap(step - t.step));
    Timeout(if t.time != INVALID_TIME then Wrap(t.time + diff) else t.time, step)
  }

  predicate Armed(c: Context) { c.read.time != INVALID_TIME || c.write.time != INVALID_TIME }

  function Nearest(c: Context): nat { if c.write.time < c.read.time then c.write.time else c.read.time }

  /** The deadline is the last activity plus the step, in 64-bit arithmetic. */
  predicate Based(t: Timeout, base: nat) { t.time == Wrap(base + t.step) }

  /** Wrapping an addend before it is added changes nothing modulo 2^64. */
  lemma WrapOfSum(x: int, y: int)
    ensures Wrap(x + ToInt64(Wrap(y))) == Wrap(x + y)
  {
    var q := if 0 <= y < UINT64 then 0 else y / UINT64;
    assert Wrap(y) == y - UINT64 * q;
    var e := if Wrap(y) < INT64_LIMIT then 0 else 1;
    assert x + ToInt64(Wrap(y)) == x + y - UINT64 * (q + e);
    SameResidue(x + y, q + e);
  }

  lemma WrapInside(x: int, y: int)
    ensures Wrap(Wrap(x) + y) == Wrap(x + y)
  {
    var q := if 0 <= x < UINT64 then 0 else x / UINT64;
    assert Wrap(x) == x - UINT64 * q;
    SameResidue(x + y, q);
  }

  /** Whatever the two steps are, changing the step of an armed timer re-bases it on the same activity. */
  lemma StepChangeKeepsBase(t: Timeout, base: nat, step: nat)
    requires Based(t, base) && t.time != INVALID_TIME
    ensures Based(Stepped(t, step), base)
  {
    WrapOfSum(t.time, step - t.step);
    WrapInside(base + t.step, step - t.step);
  }

  lemma SameResidue(x: int, k: int)
    ensures Wrap(x - UINT64 * k) == Wrap(x)
  {
  }

  /** The timer object of one direction. */
  class TimeoutCell {
    var time: nat
    var step: nat

    function Value(): Timeout
      reads this
    {
      Timeout(time, step)
    }

    constructor (t: Timeout)
      ensures Value() == t
    {
      time, step := t.time, t.step;
    }

    /** Activity at `now` is what the deadline is based on from then on. */
    method UpdateTimeout(now: nat)
      modifies `time
      ensures Based(Value(), now) && (now + step < UINT64 ==> time == now + step)
    {
      time := Wrap(now + step);
    }

    /** A step change leaves an armed deadline based on the same activity, and an unarmed one unarmed. */
    method UpdateTimeoutStep(newStep: nat)
      modifies this
      ensures step == newStep
      ensures old(time) == INVALID_TIME ==> time == INVALID_TIME
      ensures old(time) != INVALID_TIME ==> forall base: nat :: Based(old(Value()), base) ==> Based(Value(), base)
      ensures Value() == Stepped(old(Value()), newStep)
    {
      ghost var t := Value();
      var diff := ToInt64(Wrap(newStep - step));
      if time != INVALID_TIME {
        time := Wrap(time + diff);
      }
      step := newStep;
      forall base: nat | Based(t, base) && t.time != INVALID_TIME ensures Based(Value(), base) {
        StepChangeKeepsBase(t, base, newStep);
      }
    }
  }
}
