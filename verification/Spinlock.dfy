/**
 The test-and-test-and-set lock of thread/spinlock.hpp for any number of threads.

 Each thread is a program counter; `Step` performs the next access of one thread to the shared flag
 (a compare-exchange, a load, or the releasing store), so a schedule is any interleaving.
 */
module Spinlock {
  import opened Wrappers

  datatype Thread =
    | Outside
    | AtExchange(expected: bool)  // about to compare-exchange `expected` for true
    | AtBackoff                   // about to run the backoff policy
    | AtLoad                      // about to test the flag
    | Holding

  datatype Lock = Lock(flag: bool, threads: seq<Thread>)

  function Init(n: nat): Lock { Lock(false, seq(n, _ => Outside)) }

  /** The next access of thread `i`; a thread outside starts `lock`, a holder calls `unlock`. */
  function Step(s: Lock, i: nat): (s': Lock)
    requires i < |s.threads|
    ensures |s'.threads| == |s.threads|
  {
    match s.threads[i]
    case Outside => s.(threads := s.threads[i := AtExchange(false)])
    case AtExchange(expected) =>
      if s.flag == expected then Lock(true, s.threads[i := Holding])
      else s.(threads := s.threads[i := AtBackoff])
    case AtBackoff => s.(threads := s.threads[i := AtLoad])
    case AtLoad => s.(threads := s.threads[i := if s.flag then AtBackoff else AtExchange(false)])
    case Holding => Lock(false, s.threads[i := Outside])
  }

  ghost predicate Schedule(s: Lock, order: seq<nat>) {
    forall k :: 0 <= k < |order| ==> order[k] < |s.threads|
  }

  function Run(s: Lock, order: seq<nat>): (s': Lock)
    requires Schedule(s, order)
    ensures |s'.threads| == |s.threads|
  {
    if order == [] then s else Step(Run(s, order[..|order| - 1]), order[|order| - 1])
  }

  ghost predicate Held(s: Lock, i: nat) { i < |s.threads| && s.threads[i] == Holding }

  ghost predicate Inv(s: Lock) {
    && (s.flag <==> exists i: nat :: Held(s, i))
    && (forall i: nat, j: nat :: Held(s, i) && Held(s, j) ==> i == j)
    && (forall i: nat :: i < |s.threads| && s.threads[i].AtExchange? ==> !s.threads[i].expected)
  }

  lemma StepKeepsInv(s: Lock, i: nat)
    requires Inv(s) && i < |s.threads|
    ensures Inv(Step(s, i))
  {
    var s' := Step(s, i);
    assert forall j: nat :: j != i ==> (Held(s', j) <==> Held(s, j));
    if s.threads[i] == Holding {
      assert Held(s, i);
    } else if s'.threads[i] == Holding {
      assert Held(s', i);
    } else {
      assert !Held(s, i) && !Held(s', i);
    }
  }

  /** In every interleaving at most one thread holds the lock, and the flag says whether one does. */
  lemma {:induction false} MutualExclusion(n: nat, order: seq<nat>)
    requires Schedule(Init(n), order)
    ensures Inv(Run(Init(n), order))
    decreases |order|
  {
    if order != [] {
      var before := order[..|order| - 1];
      MutualExclusion(n, before);
      StepKeepsInv(Run(Init(n), before), order[|order| - 1]);
    }
  }

  /** An exchange takes the lock exactly when no thread holds it, and releasing always makes it free. */
  lemma ExchangeTakesFreeLock(n: nat, order: seq<nat>, i: nat)
    requires Schedule(Init(n), order) && i < n
    ensures var s := Run(Init(n), order);
            && (s.threads[i].AtExchange? ==> (Held(Step(s, i), i) <==> forall j: nat :: !Held(s, j)))
            && (Held(s, i) ==> forall j: nat :: !Held(Step(s, i), j))
  {
    MutualExclusion(n, order);
    var s := Run(Init(n), order);
    StepKeepsInv(s, i);
  }

  /**
   What `lock` does in an environment: `env[k]` is what the other threads have left in the flag just before
   this thread's k-th access to it. Gives the number of accesses made when the lock is taken, or None when
   the environment ends first. While `spinning` the access is the plain load of the inner loop.
   */
  function Taken(env: seq<bool>, k: nat, spinning: bool): (used: Option<nat>)
    requires k <= |env|
    ensures used.Some? ==> k < used.value <= |env| && !env[used.value - 1]
    decreases |env| - k
  {
    if k == |env| then None
    else if spinning then Taken(env, k + 1, env[k])
    else if env[k] then Taken(env, k + 1, true)
    else Some(k + 1)
  }

  /** Two accesses in a row that find the flag free are enough to take the lock. */
  lemma {:induction false} FreeTwiceIsTaken(env: seq<bool>, k: nat, spinning: bool, m: nat)
    requires k <= m && m + 1 < |env| && !env[m] && !env[m + 1]
    ensures var used := Taken(env, k, spinning);
            used.Some? && used.value <= m + 2
    decreases m - k
  {
    if k < m {
      FreeTwiceIsTaken(env, k + 1, env[k], m);
    }
  }

  /** A step of one thread depends on the flag and its own place only, and moves no other thread. */
  lemma StepIsLocal(s: Lock, i: nat, j: nat)
    requires i < |s.threads| && j < |s.threads|
    ensures Step(s, i).threads[j] == if j == i then Step(Lock(s.flag, [s.threads[i]]), 0).threads[0] else s.threads[j]
    ensures Step(s, i).flag == Step(Lock(s.flag, [s.threads[i]]), 0).flag
  {
  }

  /** Where a thread that finds the flag as given is after its next access to it, backing off not being one. */
  function NextPlace(t: Thread, flag: bool): Thread {
    var t' := Step(Lock(flag, [t]), 0).threads[0];
    if t'.AtBackoff? then Step(Lock(flag, [t']), 0).threads[0] else t'
  }

  /** The number of accesses after which the steps of a thread, finding the flag as `env` says, take the lock. */
  function TakenBySteps(t: Thread, env: seq<bool>, k: nat): Option<nat>
    requires k <= |env|
    decreases |env| - k
  {
    if k == |env| then None
    else
      var t' := NextPlace(t, env[k]);
      if t'.Holding? then Some(k + 1) else TakenBySteps(t', env, k + 1)
  }

  /** The steps of the transition system are the accesses of `lock`. */
  lemma {:induction false} StepsAreAccesses(env: seq<bool>, k: nat, spinning: bool)
    requires k <= |env|
    ensures TakenBySteps(if spinning then AtLoad else AtExchange(false), env, k) == Taken(env, k, spinning)
    decreases |env| - k
  {
    if k < |env| {
      if spinning {
        StepsAreAccesses(env, k + 1, env[k]);
      } else if env[k] {
        StepsAreAccesses(env, k + 1, true);
      }
    }
  }

  /** A spinning thread that makes two accesses in a row on a free lock holds it, whatever the others are at. */
  lemma SpinnerGetsFreeLock(s: Lock, i: nat)
    requires i < |s.threads| && s.threads[i].AtLoad? && !s.flag
    ensures Held(Step(Step(s, i), i), i)
  {
  }

  /** The lock object, its methods written access by access. */
  class SpinlockFlag {
    var flag: bool

    constructor ()
      ensures !flag
    {
      flag := false;
    }

    /** Sets the flag when it equals `expected`; returns whether it did and the value observed. */
    method CompareExchange(expected: bool) returns (ok: bool, observed: bool)
      modifies this
      ensures observed == old(flag) && (ok <==> old(flag) == expected)
      ensures flag == (if ok then true else old(flag))
    {
      observed := flag;
      ok := flag == expected;
      if ok {
        flag := true;
      }
    }

    /** `lock`, with the other threads overwriting the flag before each access as `env` says. */
    method Acquire(env: seq<bool>) returns (used: Option<nat>)
      modifies this
      ensures used == Taken(env, 0, false)
      ensures used.Some? ==> flag
    {
      var expected, k := false, 0;
      while k < |env|
        invariant k <= |env| && !expected
        invariant Taken(env, 0, false) == Taken(env, k, false)
      {
        flag := env[k];
        var ok;
        ok, expected := CompareExchange(expected);
        k := k + 1;
        if ok {
          return Some(k);
        }
        var busy := true;
        while busy && k < |env|
          invariant k <= |env|
          invariant Taken(env, 0, false) == Taken(env, k, busy)
          decreases |env| - k
        {
          flag := env[k];
          busy := flag;
          k := k + 1;
        }
        expected := false;
      }
      return None;
    }

    method Release()
      modifies this
      ensures !flag
    {
      flag := false;
    }
  }
}
