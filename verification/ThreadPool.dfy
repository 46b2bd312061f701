/** The round-robin dispatcher of thread/thread_pool.cpp. */
module ThreadPool {
  import opened Modular

  const DEFAULT_WORKER_QUEUE_SIZE := 10
  const DEFAULT_NUMBER_OF_WORKERS := 1

  /** What each worker has been given, and the worker that is tried first by the next call. */
  datatype Pool<T> = Pool(given: seq<seq<T>>, next: nat)

  ghost predicate Valid<T>(p: Pool<T>) { p.next < |p.given| }

  function NextWorkerId(id: nat, n: nat): nat
    requires n > 0
  {
    (id + 1) % n
  }

  /** The worker tried `d` places after the first one. */
  function Tried<T>(p: Pool<T>, d: nat): (i: nat)
    requires Valid(p)
    ensures i < |p.given|
  {
    (p.next + d) % |p.given|
  }

  /** Every worker tried before place `d` refuses. */
  ghost predicate RefusedBefore<T>(p: Pool<T>, accepts: seq<bool>, d: nat)
    requires Valid(p) && |accepts| == |p.given|
  {
    forall e: nat {:trigger Tried(p, e)} :: e < d ==> !accepts[Tried(p, e)]
  }

  /** The pool after the worker at place `d` has been given the task. */
  function Give<T>(p: Pool<T>, task: T, d: nat): Pool<T>
    requires Valid(p)
  {
    var w := Tried(p, d);
    Pool(p.given[w := p.given[w] + [task]], NextWorkerId(w, |p.given|))
  }

  /** The first place from `d` on whose worker accepts; the number of workers when all refuse. */
  function FirstTaker<T>(p: Pool<T>, accepts: seq<bool>, d: nat): (e: nat)
    requires Valid(p) && |accepts| == |p.given| && d <= |p.given|
    ensures d <= e <= |p.given|
    decreases |p.given| - d
  {
    if d == |p.given| || accepts[Tried(p, d)] then d else FirstTaker(p, accepts, d + 1)
  }

  /** What one call of the dispatcher does to the pool. */
  function Served<T>(p: Pool<T>, task: T, accepts: seq<bool>): (p': Pool<T>)
    requires Valid(p) && |accepts| == |p.given|
    ensures Valid(p') && |p'.given| == |p.given|
  {
    var d := FirstTaker(p, accepts, 0);
    if d == |p.given| then p else Give(p, task, d)
  }

  /** The first taker is the accepting worker before whom all refuse, and there is only one such. */
  lemma {:induction false} FirstTakerIs<T>(p: Pool<T>, accepts: seq<bool>, d: nat, e: nat)
    requires Valid(p) && |accepts| == |p.given| && d <= e <= |p.given|
    requires RefusedBefore(p, accepts, e) && (e < |p.given| ==> accepts[Tried(p, e)])
    ensures FirstTaker(p, accepts, d) == e
    decreases e - d
  {
    if d < e {
      FirstTakerIs(p, accepts, d + 1, e);
    }
  }

  /** The first `n` places reach every worker. */
  lemma EveryWorkerTried<T>(p: Pool<T>, w: nat)
    requires Valid(p) && w < |p.given|
    ensures exists d: nat :: d < |p.given| && Tried(p, d) == w
  {
    var n := |p.given|;
    if w >= p.next {
      assert Tried(p, w - p.next) == w;
    } else {
      UniqueRemainder(w + n, 1, w, n);
      assert Tried(p, w + n - p.next) == w;
    }
  }

  /** One place on is one worker on. */
  lemma NextTried<T>(p: Pool<T>, d: nat)
    requires Valid(p)
    ensures Tried(p, d + 1) == (Tried(p, d) + 1) % |p.given| == NextWorkerId(Tried(p, d), |p.given|)
  {
    ModSucc(p.next + d, |p.given|);
  }

  /** Coming back to the first worker takes exactly `n` places. */
  lemma BackAtStart<T>(p: Pool<T>, d: nat)
    requires Valid(p) && 0 < d <= |p.given|
    ensures Tried(p, d) == p.next <==> d == |p.given|
  {
    var n := |p.given|;
    UniqueRemainder(p.next, 0, p.next, n);
    if d == n {
      UniqueRemainder(p.next + n, 1, p.next, n);
    } else if Tried(p, d) == p.next {
      SameSlot(p.next, p.next + d, n);
    }
  }

  lemma AskedInOrder<T>(p: Pool<T>, asked: seq<nat>)
    requires Valid(p) && forall k :: 0 <= k < |asked| ==> asked[k] == Tried(p, k)
    ensures forall k :: 0 < k < |asked| ==> asked[k] == (asked[k - 1] + 1) % |p.given|
  {
    forall k | 0 < k < |asked| ensures asked[k] == (asked[k - 1] + 1) % |p.given| {
      NextTried(p, k - 1);
    }
  }

  lemma RefusedByAll<T>(p: Pool<T>, accepts: seq<bool>)
    requires Valid(p) && |accepts| == |p.given| && RefusedBefore(p, accepts, |p.given|)
    ensures forall w :: 0 <= w < |accepts| ==> !accepts[w]
  {
    forall w | 0 <= w < |accepts| ensures !accepts[w] {
      EveryWorkerTried(p, w);
    }
  }

  /** The workers asked have refused, except for the last one when it takes the task. */
  lemma Concluded<T>(p: Pool<T>, task: T, accepts: seq<bool>, asked: seq<nat>, result: bool)
    requires Valid(p) && |accepts| == |p.given| && 1 <= |asked| <= |p.given|
    requires forall k :: 0 <= k < |asked| ==> asked[k] == Tried(p, k)
    requires RefusedBefore(p, accepts, |asked| - 1) && result == accepts[Tried(p, |asked| - 1)]
    requires !result ==> |asked| == |p.given|
    ensures forall k :: 0 < k < |asked| ==> asked[k] == (asked[k - 1] + 1) % |p.given|
    ensures asked[0] == p.next && forall k :: 0 <= k < |asked| - 1 ==> !accepts[asked[k]]
    ensures Served(p, task, accepts) == if result then Give(p, task, |asked| - 1) else p
    ensures !result ==> forall w :: 0 <= w < |accepts| ==> !accepts[w]
  {
    UniqueRemainder(p.next, 0, p.next, |p.given|);
    AskedInOrder(p, asked);
    FirstTakerIs(p, accepts, 0, if result then |asked| - 1 else |p.given|);
    if !result {
      RefusedByAll(p, accepts);
    }
  }

  class ThreadPool<T> {
    var given: seq<seq<T>>
    var next: nat
    const queueSize: nat

    ghost function Value(): Pool<T>
      reads this
    {
      Pool(given, next)
    }

    /** `hardware` is what the machine reports; zero means unknown. */
    constructor (threads: nat, queueSize: nat, hardware: nat)
      ensures Valid(Value()) && next == 0
      ensures |given| == if threads > 0 then threads else if hardware > 0 then hardware else DEFAULT_NUMBER_OF_WORKERS
      ensures forall w :: 0 <= w < |given| ==> given[w] == []
      ensures this.queueSize == if queueSize > 0 then queueSize else DEFAULT_WORKER_QUEUE_SIZE
    {
      var n := if threads > 0 then threads else if hardware > 0 then hardware else DEFAULT_NUMBER_OF_WORKERS;
      given := seq(n, _ => []);
      next := 0;
      this.queueSize := if queueSize > 0 then queueSize else DEFAULT_WORKER_QUEUE_SIZE;
    }

    /**
     `accepts[w]` is what worker `w`'s queue answers if it is asked during this call. Workers are asked in
     cyclic order from `next`, each at most once and none after one that accepts; the task goes to that one
     and to no other, it is refused only by all of them, and the next call begins behind the last one asked.
     */
    method AddTask(task: T, accepts: seq<bool>) returns (result: bool, asked: seq<nat>)
      requires Valid(Value()) && |accepts| == |given|
      modifies this
      ensures 1 <= |asked| <= |given| == |old(given)| && asked[0] == old(next)
      ensures forall k :: 0 <= k < |asked| ==> asked[k] < |given|
      ensures forall k :: 0 < k < |asked| ==> asked[k] == (asked[k - 1] + 1) % |given|
      ensures forall k :: 0 <= k < |asked| - 1 ==> !accepts[asked[k]]
      ensures var w := asked[|asked| - 1];
              && result == accepts[w] && next == (w + 1) % |given|
              && given == if result then old(given)[w := old(given)[w] + [task]] else old(given)
      ensures !result ==> next == old(next) && forall w :: 0 <= w < |accepts| ==> !accepts[w]
      ensures Value() == Served(old(Value()), task, accepts)
    {
      ghost var p := Value();
      var n := |given|;
      var workerId := next;
      UniqueRemainder(next, 0, next, n);
      result, asked := false, [];
      while true
        invariant |asked| < n && !result && |given| == n
        invariant given == p.given && next == Tried(p, |asked|)
        invariant RefusedBefore(p, accepts, |asked|)
        invariant forall k :: 0 <= k < |asked| ==> asked[k] == Tried(p, k)
        decreases n - |asked|
      {
        result := accepts[next];
        if result {
          given := given[next := given[next] + [task]];
        }
        asked := asked + [next];
        NextTried(p, |asked| - 1);
        next := NextWorkerId(next, n);
        BackAtStart(p, |asked|);
        if next == workerId {
          break;
        }
        if result {
          break;
        }
      }
      Concluded(p, task, accepts, asked, result);
    }
  }

  /** One call: the task, and what each worker's queue answers if it is asked. */
  datatype Offer<T> = Offer(task: T, accepts: seq<bool>)

  ghost predicate Answered<T>(n: nat, offers: seq<Offer<T>>) { forall k :: 0 <= k < |offers| ==> |offers[k].accepts| == n }

  /** The pool of `n` workers after a run of calls. */
  function ServedAll<T>(n: nat, offers: seq<Offer<T>>): (p: Pool<T>)
    requires n > 0 && Answered(n, offers)
    ensures Valid(p) && |p.given| == n
  {
    if offers == [] then Pool(seq(n, _ => []), 0)
    else
      var k := |offers| - 1;
      Served(ServedAll(n, offers[..k]), offers[k].task, offers[k].accepts)
  }

  /** The call gives the task to worker `w`, and the next call begins behind it. */
  ghost predicate GivesTo<T>(p: Pool<T>, p': Pool<T>, offer: Offer<T>, w: nat) {
    && w < |p.given| == |offer.accepts| && offer.accepts[w]
    && p'.given == p.given[w := p.given[w] + [offer.task]]
    && p'.next == (w + 1) % |p.given|
  }

  ghost predicate AllRefuse<T>(offer: Offer<T>) { forall w :: 0 <= w < |offer.accepts| ==> !offer.accepts[w] }

  /** A call that all refuse changes nothing; any other serves one worker and moves on behind it. */
  lemma ServedMovesOn<T>(p: Pool<T>, offer: Offer<T>) returns (w: nat)
    requires Valid(p) && |offer.accepts| == |p.given|
    ensures var p' := Served(p, offer.task, offer.accepts);
            if AllRefuse(offer) then p' == p else GivesTo(p, p', offer, w)
  {
    var n := |p.given|;
    var d := FirstTaker(p, offer.accepts, 0);
    w := 0;
    TakerAccepts(p, offer.accepts, 0);
    if d < n {
      w := Tried(p, d);
      assert !AllRefuse(offer);
    } else {
      RefusedByAll(p, offer.accepts);
    }
  }

  lemma {:induction false} TakerAccepts<T>(p: Pool<T>, accepts: seq<bool>, d: nat)
    requires Valid(p) && |accepts| == |p.given| && d <= |p.given|
    ensures var e := FirstTaker(p, accepts, d);
            && (e < |p.given| ==> accepts[Tried(p, e)])
            && forall f: nat {:trigger Tried(p, f)} :: d <= f < e ==> !accepts[Tried(p, f)]
    decreases |p.given| - d
  {
    if d < |p.given| && !accepts[Tried(p, d)] {
      TakerAccepts(p, accepts, d + 1);
    }
  }

  /**
   In any run, with refusals or without, a call begins behind the worker that was served last: call `k` served
   worker `w`, and all calls since were refused by everyone.
   */
  lemma {:induction false} BeginsBehindLast<T>(n: nat, offers: seq<Offer<T>>, k: nat) returns (w: nat)
    requires n > 0 && Answered(n, offers) && k < |offers| && !AllRefuse(offers[k])
    requires forall i :: k < i < |offers| ==> AllRefuse(offers[i])
    ensures Answered(n, offers[..k]) && Answered(n, offers[..k + 1])
    ensures GivesTo(ServedAll(n, offers[..k]), ServedAll(n, offers[..k + 1]), offers[k], w)
    ensures ServedAll(n, offers).next == (w + 1) % n && ServedAll(n, offers).given == ServedAll(n, offers[..k + 1]).given
    decreases |offers|
  {
    var last := |offers| - 1;
    var before := offers[..last];
    if k == last {
      assert offers[..k + 1] == offers;
      w := ServedMovesOn(ServedAll(n, before), offers[k]);
    } else {
      assert before[..k] == offers[..k] && before[..k + 1] == offers[..k + 1];
      w := BeginsBehindLast(n, before, k);
      var v := ServedMovesOn(ServedAll(n, before), offers[last]);
    }
  }

  /** In every call the worker that is asked first accepts. */
  ghost predicate NeverRefused<T>(n: nat, offers: seq<Offer<T>>)
    requires n > 0 && Answered(n, offers)
  {
    forall k :: 0 <= k < |offers| ==> offers[k].accepts[ServedAll(n, offers[..k]).next]
  }

  /** One more task moves on to the next worker, and to the next lap after the last one. */
  lemma OneMore(k: nat, n: nat)
    requires n > 0
    ensures var wraps := k % n + 1 == n;
            && (k + 1) % n == (if wraps then 0 else k % n + 1)
            && (k + 1) / n == k / n + if wraps then 1 else 0
  {
    var q, r := k / n, k % n;
    var q', r' := if r + 1 == n then q + 1 else q, if r + 1 == n then 0 else r + 1;
    assert n * (q + 1) == n * q + n;
    UniqueRemainder(k + 1, q', r', n);
    Distribute(n, (k + 1) / n, q');
    NoGap(n, (k + 1) / n, q', 0);
  }

  /** A call whose first worker accepts gives the task to that worker. */
  lemma FirstServes<T>(p: Pool<T>, task: T, accepts: seq<bool>)
    requires Valid(p) && |accepts| == |p.given| && accepts[p.next]
    ensures Served(p, task, accepts) == Pool(p.given[p.next := p.given[p.next] + [task]], NextWorkerId(p.next, |p.given|))
  {
    UniqueRemainder(p.next, 0, p.next, |p.given|);
    assert Tried(p, 0) == p.next;
  }

  lemma NeverRefusedBefore<T>(n: nat, offers: seq<Offer<T>>, k: nat)
    requires n > 0 && Answered(n, offers) && NeverRefused(n, offers) && k <= |offers|
    ensures Answered(n, offers[..k]) && NeverRefused(n, offers[..k])
  {
    forall i | 0 <= i < k ensures offers[..k][i].accepts[ServedAll(n, offers[..k][..i]).next] {
      assert offers[..k][..i] == offers[..i];
    }
  }

  /** Without refusals the k-th task goes to worker k mod n, so the workers' counts differ by at most one. */
  lemma {:induction false} Fair<T>(n: nat, offers: seq<Offer<T>>, w: nat)
    requires n > 0 && w < n && Answered(n, offers) && NeverRefused(n, offers)
    ensures var p := ServedAll(n, offers);
            && p.next == |offers| % n
            && |p.given[w]| == |offers| / n + if w < |offers| % n then 1 else 0
    decreases |offers|
  {
    var k := |offers| - 1;
    if k < 0 {
      UniqueRemainder(0, 0, 0, n);
    } else {
      var before := offers[..k];
      NeverRefusedBefore(n, offers, k);
      var p := ServedAll(n, before);
      Fair(n, before, w);
      FirstServes(p, offers[k].task, offers[k].accepts);
      OneMore(k, n);
      NextIsNext(k, n);
    }
  }

  lemma NextIsNext(k: nat, n: nat)
    requires n > 0
    ensures NextWorkerId(k % n, n) == (k + 1) % n
  {
    ModSucc(k, n);
  }
}
