/** The worker thread of thread/worker.cpp draining its task queue, and its run loop. */
module Worker {
  import opened Wrappers
  import opened Spsc
  import opened SpscQueue

  /** A task either throws a standard exception or returns; the stop task sets the done flag. */
  datatype Task = Work(id: nat, throws: bool) | StopTask

  /** `ran` is a prefix of `accepted` in which a stop task can only come last. */
  ghost predicate RanUpToStop(ran: seq<Task>, accepted: seq<Task>) {
    && ran <= accepted
    && (forall k :: 0 <= k < |ran| - 1 ==> ran[k] != StopTask)
  }

  ghost predicate FirstStop(tasks: seq<Task>, k: nat) {
    && k < |tasks| && tasks[k] == StopTask
    && (forall j :: 0 <= j < k ==> tasks[j] != StopTask)
  }

  /** The tasks of a run that threw. */
  function Thrown(ran: seq<Task>): seq<Task> {
    if ran == [] then []
    else
      var n := |ran| - 1;
      Thrown(ran[..n]) + if ran[n].Work? && ran[n].throws then [ran[n]] else []
  }

  /** What the interleaved queue guarantees after a pop, whatever the producer did meanwhile. */
  lemma PopKeepsQueue<T>(s: State<T>, headFirst: bool, env: seq<seq<T>>)
    requires Inv(s)
    ensures Inv(PopRounds(s, headFirst, env))
  {
    PopIsInterleaving(s, headFirst, env);
    RunKeepsInv(s, PopSchedule(headFirst, env));
  }

  const ALONE: seq<seq<bool>> := [[], [], [], []]

  lemma PushKeepsQueue<T>(s: State<T>, value: T, env: seq<seq<bool>>)
    requires Inv(s)
    ensures Inv(PushRounds(s, value, env))
  {
    PushIsInterleaving(s, value, env);
    RunKeepsInv(s, PushSchedule(value, env));
  }

  lemma DecidesAlone<T>(s: State<T>, value: T)
    requires Inv(s) && s.returnOnEmpty && (s.producer.PIdle? || s.producer.PReturned?)
    ensures var s2 := ProducerStep(ProducerStep(s, value), value);
            s2 == s.(producer := if Full(s) then PReturned(false) else PWrite(value, s.head))
  {
    IndexTests(s);
  }

  /** A push with no consumer access in between is accepted exactly when the queue is not full. */
  lemma PushAlone<T>(s: State<T>, value: T)
    requires Inv(s) && s.returnOnEmpty && (s.producer.PIdle? || s.producer.PReturned?)
    ensures var r := PushRounds(s, value, if Full(s) then ALONE[..2] else ALONE);
            Inv(r) && r.consumer == s.consumer && r.taken == s.taken && r.producer == PReturned(!Full(s))
    ensures PushRounds(s, value, ALONE[..2]).producer == PReturned(false) ==> Full(s)
    ensures PushRounds(s, value, ALONE).producer == PReturned(true) ==> !Full(s)
  {
    PushKeepsQueue(s, value, if Full(s) then ALONE[..2] else ALONE);
    DecidesAlone(s, value);
    FourRounds(s, value, ALONE);
    assert Consumes<T>([]) == [];
  }

  /** One turn of the run loop: the load order of its emptiness test and the producer's accesses during it. */
  datatype Turn = Turn(headFirst: bool, env: seq<seq<Task>>)

  function Least(a: int, b: int): int { if a < b then a else b }

  /** The loop is done exactly when the tasks run are those up to and including the first stop task. */
  lemma DoneIffStopped(ran: seq<Task>, accepted: seq<Task>, done: bool)
    requires RanUpToStop(ran, accepted) && (done <==> StopTask in ran)
    ensures done <==> exists k: nat :: FirstStop(accepted, k) && ran == accepted[..k + 1]
  {
    if done {
      var k := |ran| - 1;
      assert FirstStop(accepted, k) && ran == accepted[..k + 1];
    }
    forall k: nat | FirstStop(accepted, k) && ran == accepted[..k + 1] ensures done {
      assert ran[k] == StopTask;
    }
  }

  /** A stop task among the tasks run is the last of them. */
  lemma StopReached(ran: seq<Task>, accepted: seq<Task>, done: bool, first: seq<Task>, k: nat)
    requires RanUpToStop(ran, accepted) && (done <==> StopTask in ran)
    requires first <= accepted && FirstStop(first, k) && (done || |ran| > k)
    ensures done && ran == first[..k + 1]
  {
    assert |ran| > k ==> ran[k] == accepted[k] == StopTask;
    var j :| 0 <= j < |ran| && ran[j] == StopTask;
    assert j == |ran| - 1 && accepted[j] == StopTask;
  }

  class WorkerThread {
    const tasks: SPSCQueue<Task>
    var done: bool
    // The tasks that have been called, and those whose exception was reported.
    var ran: seq<Task>
    var reported: seq<Task>

    /** The loop has run exactly the tasks it has popped, and is done exactly when the last was the stop task. */
    ghost predicate Valid()
      reads this, tasks, tasks.data
    {
      && tasks.returnOnEmpty && Inv(tasks.Value())
      && (tasks.consumer.CIdle? || tasks.consumer.CReturned?)
      && ran == tasks.taken && reported == Thrown(ran)
      && (done <==> StopTask in ran)
      && RanUpToStop(ran, tasks.accepted)
    }

    constructor (queueSize: nat)
      requires queueSize > 0
      ensures Valid() && !done && ran == []
      ensures fresh(tasks) && fresh(tasks.data)
    {
      tasks := new SPSCQueue(queueSize, true, StopTask);
      done, ran, reported := false, [], [];
      new;
      InitInv(queueSize, true, StopTask);
    }

    /** Offers a task between two turns of the loop; a full queue refuses it. */
    method Add(task: Task) returns (ok: bool)
      requires Valid() && (tasks.producer.PIdle? || tasks.producer.PReturned?)
      modifies tasks, tasks.data
      ensures Valid() && tasks.producer == PReturned(ok)
      ensures ok <==> !Full(old(tasks.Value()))
      ensures tasks.accepted == if ok then old(tasks.accepted) + [task] else old(tasks.accepted)
    {
      ghost var before := tasks.Value();
      ok := tasks.Push(task, ALONE);
      PushAlone(before, task);
    }

    /** Stopping is offering the stop task, which a full queue refuses like any other. */
    method Stop()
      requires Valid() && (tasks.producer.PIdle? || tasks.producer.PReturned?)
      modifies tasks, tasks.data
      ensures Valid()
      ensures tasks.accepted == if Full(old(tasks.Value())) then old(tasks.accepted) else old(tasks.accepted) + [StopTask]
    {
      var ok := Add(StopTask);
    }

    /** Calls a task; the stop task sets the flag, any other may throw a standard exception. */
    method Invoke(task: Task) returns (threw: bool)
      modifies `done, `ran
      ensures ran == old(ran) + [task] && done == (old(done) || task.StopTask?)
      ensures threw <==> task.Work? && task.throws
    {
      ran := ran + [task];
      match task {
        case StopTask =>
          done := true;
          return false;
        case Work(_, throws) => return throws;
      }
    }

    /** Runs a task inside the loop's try block: an exception is reported and the loop goes on. */
    method Execute(task: Task)
      requires !done && reported == Thrown(ran)
      modifies `done, `ran, `reported
      ensures ran == old(ran) + [task] && reported == Thrown(ran)
      ensures reported == old(reported) + if task.Work? && task.throws then [task] else []
      ensures done <==> task.StopTask?
    {
      var threw := Invoke(task);
      assert ran[..|ran| - 1] == old(ran);
      if threw {
        reported := reported + [task];
      }
    }

    /** One turn of the loop: pops a task, if there is one, and runs it. A queue that is not empty yields one. */
    method TakeTurn(headFirst: bool, env: seq<seq<Task>>)
      requires Valid() && !done && |env| == 5
      modifies this, tasks, tasks.data
      ensures Valid() && old(tasks.accepted) <= tasks.accepted
      ensures ran == old(ran) || (|ran| == |old(ran)| + 1 && old(ran) <= ran)
      ensures |old(ran)| < |old(tasks.accepted)| ==> |ran| == |old(ran)| + 1
    {
      ghost var before := tasks.Value();
      var func := tasks.Pop(headFirst, env);
      ghost var used := if func.Some? then env else env[..2];
      PopKeepsQueue(before, headFirst, used);
      PopExtends(before, headFirst, used);
      if func.Some? {
        Execute(func.value);
      } else if |before.taken| < |before.accepted| {
        NonEmptyPops(before, headFirst, used);
      }
    }

    /**
     The run loop, for as many turns as the environment lasts. The tasks run are always a prefix of the
     accepted ones. Unless the loop ends before, every turn runs a task as long as one accepted before the
     loop is left; so a stop task accepted before the loop ends it after as many turns as there are tasks up
     to it, and these are then exactly the tasks run.
     */
    method Run(turns: seq<Turn>)
      requires Valid()
      requires forall k :: 0 <= k < |turns| ==> |turns[k].env| == 5
      modifies this, tasks, tasks.data
      ensures Valid() && old(ran) <= ran && old(tasks.accepted) <= tasks.accepted
      ensures done || |ran| >= |old(ran)| + Least(|turns|, |old(tasks.accepted)| - |old(ran)|)
      ensures done <==> exists k: nat :: FirstStop(tasks.accepted, k) && ran == tasks.accepted[..k + 1]
      ensures forall k: nat :: FirstStop(old(tasks.accepted), k) && |turns| >= k + 1 - |old(ran)| ==>
                done && ran == old(tasks.accepted)[..k + 1]
    {
      var used := 0;
      ghost var start, first := |ran|, tasks.accepted;
      while !done && used < |turns|
        invariant used <= |turns| && Valid() && old(ran) <= ran && first <= tasks.accepted
        invariant done || |ran| >= start + Least(used, |first| - start)
        decreases |turns| - used
      {
        TakeTurn(turns[used].headFirst, turns[used].env);
        used := used + 1;
      }
      DoneIffStopped(ran, tasks.accepted, done);
      forall k: nat | FirstStop(first, k) && |turns| >= k + 1 - start
        ensures done && ran == first[..k + 1]
      {
        StopReached(ran, tasks.accepted, done, first, k);
      }
    }
  }
}
