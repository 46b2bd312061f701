/** One turn of the reactor loop of poller/reactor.cpp: a poll, then dispatch until no event is pending. */
module Reactor {
  import opened Wrappers
  import opened PollerModel
  import opened PollerRuns
  import Poller

  /** What one dispatch's callbacks do to the poller, and whether they end by throwing. */
  datatype Callback = Callback(acts: seq<Action>, throws: bool)

  /** Callbacks only update and remove sockets, as callers of the poller may. */
  ghost predicate CallbackOk(c: Callback) {
    forall k :: 0 <= k < |c.acts| ==> (c.acts[k].Update? || c.acts[k].Remove?) && Allowed(START, c.acts[k])
  }

  ghost predicate Reached(acts: seq<Action>, m: Machine) { Permitted(acts) && Run(acts) == m }

  lemma Extend(acts: seq<Action>, m: Machine, a: Action)
    requires Reached(acts, m) && Allowed(m, a)
    ensures Reached(acts + [a], Step(m, a))
  {
    RunMore(acts, a);
  }

  /** What is still pending was pending before, unchanged; what is not was removed. */
  ghost predicate Remains(now: map<FD, Event>, before: map<FD, Event>, acts: seq<Action>) {
    && now.Keys <= before.Keys && (forall fd :: fd in now ==> now[fd] == before[fd])
    && (forall fd :: fd in before && fd !in now ==> Remove(fd) in acts)
  }

  lemma RemainsOn(now: map<FD, Event>, mid: map<FD, Event>, before: map<FD, Event>, acts: seq<Action>, more: seq<Action>)
    requires Remains(mid, before, acts) && Remains(now, mid, more)
    ensures Remains(now, before, acts + more)
  {
  }

  /** The callback that the `i`-th event meets; those beyond the given ones do nothing. */
  function CallbackAt(callbacks: seq<Callback>, i: nat): Callback {
    if i < |callbacks| then callbacks[i] else Callback([], false)
  }

  /** One pass of the drain loop: the event is taken, its callbacks act, the dispatch ends. */
  function PassLog(fd: FD, c: Callback): seq<Action> { [Take(fd)] + c.acts + [Finish(c.throws)] }

  lemma PassLogged(history: seq<Action>, fd: FD, c: Callback)
    ensures history + [Take(fd)] + c.acts + [Finish(c.throws)] == history + PassLog(fd, c)
  {
  }

  lemma OneMore<T>(start: seq<T>, s: seq<T>, i: nat)
    requires i < |s|
    ensures s[..i + 1] == s[..i] + [s[i]]
    ensures start + s[..i + 1] == start + s[..i] + [s[i]]
  {
  }

  lemma Regroup<T>(a: seq<T>, b: seq<T>, c: seq<T>)
    ensures (a + b) + c == a + (b + c)
  {
  }

  /** The actions of the passes in which the events are dispatched, in order. */
  function DrainLog(dispatched: seq<(FD, Event)>, callbacks: seq<Callback>): seq<Action> {
    if dispatched == [] then []
    else
      var n := |dispatched| - 1;
      DrainLog(dispatched[..n], callbacks) + PassLog(dispatched[n].0, CallbackAt(callbacks, n))
  }

  lemma DrainLogMore(dispatched: seq<(FD, Event)>, event: (FD, Event), callbacks: seq<Callback>)
    ensures DrainLog(dispatched + [event], callbacks)
      == DrainLog(dispatched, callbacks) + PassLog(event.0, CallbackAt(callbacks, |dispatched|))
  {
    assert (dispatched + [event])[..|dispatched|] == dispatched;
  }

  /** The log, pass by pass: an event is taken, the callbacks given for it act, the dispatch ends. */
  lemma DrainLogIs(dispatched: seq<(FD, Event)>, event: (FD, Event), callbacks: seq<Callback>)
    ensures DrainLog([], callbacks) == []
    ensures |dispatched| < |callbacks| ==>
              var c := callbacks[|dispatched|];
              DrainLog(dispatched + [event], callbacks)
                == DrainLog(dispatched, callbacks) + ([Take(event.0)] + c.acts + [Finish(c.throws)])
    ensures |dispatched| >= |callbacks| ==>
              DrainLog(dispatched + [event], callbacks) == DrainLog(dispatched, callbacks) + [Take(event.0), Finish(false)]
  {
    DrainLogMore(dispatched, event, callbacks);
    assert PassLog(event.0, Callback([], false)) == [Take(event.0), Finish(false)];
  }

  ghost predicate Dispatched(dispatched: seq<(FD, Event)>, fd: FD) { exists i :: 0 <= i < |dispatched| && dispatched[i].0 == fd }

  /** Each event dispatched was pending at first, as it is, and is neither pending now nor dispatched twice. */
  ghost predicate EachOnce(initial: map<FD, Event>, pending: map<FD, Event>, dispatched: seq<(FD, Event)>) {
    && (forall i :: 0 <= i < |dispatched| ==>
          var (fd, e) := dispatched[i]; fd in initial && initial[fd] == e && fd !in pending)
    && (forall i, j :: 0 <= i < j < |dispatched| ==> dispatched[i].0 != dispatched[j].0)
  }

  /** Every event pending at first is still pending as it was, or was dispatched, or its socket was removed. */
  ghost predicate Covered(initial: map<FD, Event>, pending: map<FD, Event>, dispatched: seq<(FD, Event)>, acts: seq<Action>) {
    && pending.Keys <= initial.Keys && (forall fd :: fd in pending ==> pending[fd] == initial[fd])
    && (forall fd :: fd in initial && fd !in pending ==> Dispatched(dispatched, fd) || Remove(fd) in acts)
  }

  lemma EachOnceMore(initial: map<FD, Event>, before: map<FD, Event>, after: map<FD, Event>, dispatched: seq<(FD, Event)>,
                     fd: FD, acts: seq<Action>)
    requires EachOnce(initial, before, dispatched) && before.Keys <= initial.Keys
    requires fd in before && before[fd] == initial[fd] && Remains(after, before - {fd}, acts)
    ensures EachOnce(initial, after, dispatched + [(fd, before[fd])])
    ensures after.Keys < before.Keys
  {
    assert fd in before.Keys && fd !in after.Keys;
  }

  lemma CoveredMore(initial: map<FD, Event>, before: map<FD, Event>, after: map<FD, Event>, dispatched: seq<(FD, Event)>,
                    fd: FD, log: seq<Action>, acts: seq<Action>)
    requires Covered(initial, before, dispatched, log) && fd in before && Remains(after, before - {fd}, acts)
    ensures Covered(initial, after, dispatched + [(fd, before[fd])], log + acts)
  {
    var more := dispatched + [(fd, before[fd])];
    forall g | g in initial && g !in after ensures Dispatched(more, g) || Remove(g) in log + acts {
      if g == fd {
        assert more[|dispatched|].0 == g;
      } else if g !in before && Dispatched(dispatched, g) {
        var i :| 0 <= i < |dispatched| && dispatched[i].0 == g;
        assert more[i].0 == g;
      }
    }
  }

  lemma Included(now: map<FD, Event>, before: map<FD, Event>, fd: FD, c: Callback)
    requires Remains(now, before, c.acts)
    ensures Remains(now, before, PassLog(fd, c))
  {
  }

  /** Neither an update nor a removal adds a pending event or changes one. */
  lemma CallbacksAddNoEvent(m: Machine, a: Action)
    requires Inv(m) && Allowed(m, a) && (a.Update? || a.Remove?)
    ensures Remains(Step(m, a).poller.pending, m.poller.pending, [a])
    ensures Step(m, a).hand == m.hand
  {
  }

  /** A finished dispatch closes at most its own socket, whose event is no longer pending. */
  lemma FinishKeepsEvents(m: Machine, fd: FD, e: Event, throws: bool)
    requires Inv(m) && m.hand == Some((fd, e)) && fd !in m.poller.pending
    ensures var m' := Step(m, Finish(throws));
            && m'.hand.None? && m'.poller.pending == m.poller.pending
            && m'.poller.active == (if e.close || throws then m.poller.active - {fd} else m.poller.active)
            && m'.poller.interest == (if e.close || throws then m.poller.interest - {fd} else m.poller.interest)
            && m'.poller == if e.close || throws then RemoveSocket(m.poller, fd) else m.poller
  {
    assert m.poller.pending - {fd} == m.poller.pending;
    assert fd !in m.poller.active ==> m.poller.active - {fd} == m.poller.active;
  }

  class Reactor {
    const poller: Poller.EventPoller
    ghost var history: seq<Action>
    ghost var machine: Machine

    /** The poller is in the state of a run, so all that holds of runs holds of it. */
    ghost predicate Valid()
      reads this, poller, poller.scheduler
    {
      && poller.Valid() && Reached(history, machine)
      && machine.poller == poller.Value()
    }

    constructor ()
      ensures Valid() && machine == START && history == []
      ensures fresh(poller) && fresh(poller.scheduler)
    {
      poller := new Poller.EventPoller();
      history, machine := [], START;
    }

    /** Notes the next action of the run; the poller's fields follow separately. */
    ghost method Record(a: Action)
      requires Reached(history, machine) && Allowed(machine, a)
      modifies `history, `machine
      ensures history == old(history) + [a] && machine == Step(old(machine), a) && Reached(history, machine)
    {
      Extend(history, machine, a);
      history, machine := history + [a], Step(machine, a);
    }

    /** A callback or another caller registers, updates or removes a socket. */
    method Perform(a: Action)
      requires Valid() && (a.Update? || a.Remove?) && Allowed(START, a)
      modifies this, poller, poller.scheduler
      ensures Valid() && history == old(history) + [a]
      ensures machine.hand == old(machine).hand
      ensures Remains(poller.pending, old(poller.pending), [a])
    {
      ghost var m := machine;
      CallbacksAddNoEvent(m, a);
      Record(a);
      if a.Update? {
        UpdateIsAsserted(m, a);
        poller.UpdateSocket(a.fd, a.mask, a.step, a.nowRead, a.nowWrite);
      } else {
        poller.RemoveSocket(a.fd);
      }
    }

    /** The updates and removals that the callbacks of the event in hand make. */
    method RunCallbacks(callback: Callback)
      requires Valid() && CallbackOk(callback)
      modifies this, poller, poller.scheduler
      ensures Valid() && history == old(history) + callback.acts && machine.hand == old(machine).hand
      ensures Remains(poller.pending, old(poller.pending), callback.acts)
    {
      ghost var initial, start, hand := poller.pending, history, machine.hand;
      for i := 0 to |callback.acts|
        invariant Valid() && history == start + callback.acts[..i] && machine.hand == hand
        invariant Remains(poller.pending, initial, callback.acts[..i])
      {
        ghost var mid := poller.pending;
        var a := callback.acts[i];
        Perform(a);
        OneMore(start, callback.acts, i);
        RemainsOn(poller.pending, mid, initial, callback.acts[..i], [a]);
      }
      assert callback.acts[..|callback.acts|] == callback.acts;
    }

    /** The end of a dispatch closes the socket if the event asks for it or a callback threw. */
    method FinishDispatch(fd: FD, event: Event, throws: bool)
      requires Valid() && machine.hand == Some((fd, event)) && fd !in poller.pending
      modifies this, poller, poller.scheduler
      ensures Valid() && machine.hand.None? && history == old(history) + [Finish(throws)]
      ensures poller.pending == old(poller.pending)
      ensures poller.active == if event.close || throws then old(poller.active) - {fd} else old(poller.active)
      ensures poller.interest == if event.close || throws then old(poller.interest) - {fd} else old(poller.interest)
    {
      FinishKeepsEvents(machine, fd, event, throws);
      Record(Finish(throws));
      if event.close || throws {
        poller.RemoveSocket(fd);
      }
    }

    /** Runs the callbacks of the event in hand, then closes its socket if asked to or if they threw. */
    method Dispatch(fd: FD, event: Event, callback: Callback)
      requires Valid() && CallbackOk(callback) && machine.hand == Some((fd, event)) && fd !in poller.pending
      modifies this, poller, poller.scheduler
      ensures Valid() && machine.hand.None? && history == old(history) + callback.acts + [Finish(callback.throws)]
      ensures Remains(poller.pending, old(poller.pending), callback.acts)
      ensures event.close || callback.throws ==> fd !in poller.active && fd !in poller.interest
    {
      RunCallbacks(callback);
      FinishDispatch(fd, event, callback.throws);
    }

    /** Takes some pending event into hand, if there is one. */
    method TakeNext() returns (event: Option<(FD, Event)>)
      requires Valid() && machine.hand.None?
      modifies this, poller
      ensures Valid() && machine.hand == event
      ensures event.None? <==> old(poller.pending) == map[]
      ensures event.None? ==> poller.pending == map[] && history == old(history)
      ensures event.Some? ==>
                var (fd, e) := event.value;
                && fd in old(poller.pending) && e == old(poller.pending)[fd]
                && history == old(history) + [Take(fd)] && poller.pending == old(poller.pending) - {fd}
    {
      event := poller.GetNextEvent();
      if event.None? || !HasAction(event.value.1) {
        return None;
      }
      Record(Take(event.value.0));
    }

    /** One pass of the drain loop: takes some pending event and dispatches it, or finds none. */
    method DispatchNext(callback: Callback) returns (event: Option<(FD, Event)>)
      requires Valid() && machine.hand.None? && CallbackOk(callback)
      modifies this, poller, poller.scheduler
      ensures Valid() && machine.hand.None?
      ensures event.None? <==> old(poller.pending) == map[]
      ensures event.None? ==> poller.pending == map[] && history == old(history)
      ensures event.Some? ==>
                var (fd, e) := event.value;
                && fd in old(poller.pending) && e == old(poller.pending)[fd]
                && history == old(history) + PassLog(fd, callback)
                && Remains(poller.pending, old(poller.pending) - {fd}, callback.acts)
    {
      event := TakeNext();
      if event.Some? {
        Dispatch(event.value.0, event.value.1, callback);
        PassLogged(old(history), event.value.0, callback);
      }
    }

    /**
     The drain loop. Whatever the callbacks do it ends, exactly when no event is pending. Every event pending
     at the start is dispatched, as it was and once, unless a callback removed its socket before; each
     dispatch is the event taken, its callbacks performed in order, and its end, and nothing else happens.
     */
    method Drain(callbacks: seq<Callback>) returns (dispatched: seq<(FD, Event)>)
      requires Valid() && machine.hand.None? && forall c :: c in callbacks ==> CallbackOk(c)
      modifies this, poller, poller.scheduler
      ensures Valid() && machine.hand.None? && poller.pending == map[]
      ensures history == old(history) + DrainLog(dispatched, callbacks)
      ensures EachOnce(old(poller.pending), map[], dispatched)
      ensures forall fd :: fd in old(poller.pending) ==>
                Dispatched(dispatched, fd) || Remove(fd) in DrainLog(dispatched, callbacks)
    {
      dispatched := [];
      ghost var initial, start := poller.pending, history;
      while true
        invariant Valid() && machine.hand.None?
        invariant history == start + DrainLog(dispatched, callbacks)
        invariant EachOnce(initial, poller.pending, dispatched)
        invariant Covered(initial, poller.pending, dispatched, DrainLog(dispatched, callbacks))
        decreases poller.pending.Keys
      {
        var callback := CallbackAt(callbacks, |dispatched|);
        ghost var before, log := poller.pending, DrainLog(dispatched, callbacks);
        var event := DispatchNext(callback);
        if event.None? {
          break;
        }
        ghost var fd, pass := event.value.0, PassLog(event.value.0, callback);
        Included(poller.pending, before - {fd}, fd, callback);
        EachOnceMore(initial, before, poller.pending, dispatched, fd, pass);
        CoveredMore(initial, before, poller.pending, dispatched, fd, log, pass);
        DrainLogMore(dispatched, event.value, callbacks);
        Regroup(start, log, pass);
        dispatched := dispatched + [event.value];
      }
    }

    /** A poll and the drain after it; the next poll finds no event pending, as its guarantees assume. */
    method Turn(batch: seq<Notice>, now1: nat, now2: nat, callbacks: seq<Callback>) returns (dispatched: seq<(FD, Event)>)
      requires Valid() && Allowed(machine, PollerRuns.Poll(batch, now1, now2))
      requires forall c :: c in callbacks ==> CallbackOk(c)
      modifies this, poller, poller.scheduler
      ensures Valid() && machine.hand.None? && poller.pending == map[]
      ensures history == old(history) + [PollerRuns.Poll(batch, now1, now2)] + DrainLog(dispatched, callbacks)
      ensures var pending := Step(old(machine), PollerRuns.Poll(batch, now1, now2)).poller.pending;
              && EachOnce(pending, map[], dispatched)
              && forall fd :: fd in pending ==> Dispatched(dispatched, fd) || Remove(fd) in DrainLog(dispatched, callbacks)
    {
      ghost var a := PollerRuns.Poll(batch, now1, now2);
      TimesInRange(machine);
      BatchAllowed(machine, batch, now1, now2);
      Record(a);
      poller.Poll(batch, now1, now2);
      dispatched := Drain(callbacks);
    }
  }
}
