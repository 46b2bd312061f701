/** The poller object of poller/poller.cpp, each method proved against the poller's specification. */
module Poller {
  import opened Wrappers
  import opened UInt64
  import opened SocketContext
  import opened PollerModel
  import Scheduler

  class EventPoller {
    var active: map<FD, Context>
    var pending: map<FD, Event>
    const scheduler: Scheduler.SchedulerQueue
    // What epoll holds for each descriptor; the kernel's state rather than the poller's.
    var interest: map<FD, Mask>

    ghost predicate Valid()
      reads this, scheduler
    {
      Scheduler.Valid(scheduler.Value())
    }

    ghost function Value(): PollerModel.Poller
      reads this, scheduler
    {
      PollerModel.Poller(active, interest, pending, Scheduler.Deadlines(scheduler.Value()))
    }

    constructor ()
      ensures Valid() && Value() == EMPTY && fresh(scheduler)
    {
      active, pending, interest := map[], map[], map[];
      scheduler := new Scheduler.SchedulerQueue();
    }

    /** Stores a socket's context and schedules the socket at its nearest deadline. */
    method Reschedule(fd: FD, c: Context)
      requires Valid() && c.read.time <= INVALID_TIME && c.write.time <= INVALID_TIME
      modifies this, scheduler
      ensures Valid()
      ensures var p := old(Value());
              Value() == p.(active := p.active[fd := c], deadlines := Scheduled(p.deadlines, fd, Nearest(c)))
    {
      active := active[fd := c];
      scheduler.AddEvent(Nearest(c), fd);
    }

    /** Re-steps one timer of a context, and gives it a first deadline when it has none. */
    method ArmTimer(t: Timeout, step: nat, now: nat) returns (t': Timeout)
      ensures t' == ArmedBy(t, step, now)
    {
      var cell := new TimeoutCell(t);
      cell.UpdateTimeoutStep(step);
      if cell.time == INVALID_TIME {
        cell.time := Wrap(now + step);
      }
      return cell.Value();
    }

    /** Moves one timer of a context on after activity. */
    method TouchTimer(t: Timeout, now: nat) returns (t': Timeout)
      ensures t' == Touched(t, now)
    {
      var cell := new TimeoutCell(t);
      cell.UpdateTimeout(now);
      return cell.Value();
    }

    /** Arms the directions of the mask and reschedules the socket; its assertion demands an armed direction. */
    method AddToScheduler(fd: FD, mask: Mask, step: nat, nowRead: nat, nowWrite: nat)
      requires Valid() && fd in active
      requires Armed(ContextArmed(active[fd], mask, step, nowRead, nowWrite))
      requires active[fd].read.time <= INVALID_TIME && active[fd].write.time <= INVALID_TIME
      modifies this, scheduler
      ensures Valid()
      ensures var p, c := old(Value()), ContextArmed(old(active[fd]), mask, step, nowRead, nowWrite);
              Value() == p.(active := p.active[fd := c], deadlines := Scheduled(p.deadlines, fd, Nearest(c)))
    {
      var c := active[fd];
      if mask.input {
        var read := ArmTimer(c.read, step, nowRead);
        c := c.(read := read);
      }
      if mask.output {
        var write := ArmTimer(c.write, step, nowWrite);
        c := c.(write := write);
      }
      assert c == ContextArmed(old(active[fd]), mask, step, nowRead, nowWrite);
      ghost var d := Value().deadlines;
      Reschedule(fd, c);
      assert Value().deadlines == Scheduled(d, fd, Nearest(c));
    }

    method UpdateSocket(fd: FD, mask: Mask, step: nat, nowRead: nat, nowWrite: nat)
      requires Valid()
      requires var c := ContextOf(Value(), fd);
               && c.read.time <= INVALID_TIME && c.write.time <= INVALID_TIME
               && (step != INVALID_TIME ==> Armed(ContextArmed(c, mask, EffectiveStep(step), nowRead, nowWrite)))
      modifies this, scheduler
      ensures Valid()
      ensures Value() == PollerModel.UpdateSocket(old(Value()), fd, mask, step, nowRead, nowWrite)
    {
      ghost var p, c := Value(), ContextOf(Value(), fd);
      if fd !in active {
        interest := interest[fd := mask];
        active := active[fd := Context(UNARMED, UNARMED)];
        Overwritten(p.active, fd, c, ContextArmed(c, mask, EffectiveStep(step), nowRead, nowWrite));
        if step != INVALID_TIME {
          AddToScheduler(fd, mask, if step != 0 then step else DEFAULT_TIMEOUT_MS, nowRead, nowWrite);
        }
        return;
      }
      assert active == active[fd := active[fd]];
      if step != INVALID_TIME {
        AddToScheduler(fd, mask, if step != 0 then step else DEFAULT_TIMEOUT_MS, nowRead, nowWrite);
      }
      interest := interest[fd := mask];
    }

    method RemoveSocket(fd: FD)
      requires Valid()
      modifies this, scheduler
      ensures Valid()
      ensures Value() == PollerModel.RemoveSocket(old(Value()), fd)
    {
      interest := interest - {fd};
      if fd !in active {
        return;
      }
      scheduler.DeleteEvent(fd);
      if fd in pending {
        pending := pending - {fd};
      }
      active := active - {fd};
    }

    /** Returns the signal when it is an update, and zero otherwise. */
    method ProcessSignal(value: nat) returns (result: nat)
      modifies `active, `pending
      ensures result == if value >= STOP then 0 else value
      ensures result == 0 <==> Ends(value)
      ensures Value() == Signalled(old(Value()), value)
    {
      if value >= STOP {
        active := map[];
        pending := map[];
      } else {
        return value;
      }
      return 0;
    }

    /** One report of the batch. */
    method ProcessReport(fd: FD, r: Report, now: nat)
      requires Valid() && ReportOk(Value(), fd, r, now)
      requires active[fd].read.time <= INVALID_TIME && active[fd].write.time <= INVALID_TIME
      modifies this, scheduler
      ensures Valid() && Value() == ReportSocket(old(Value()), fd, r, now)
    {
      ghost var p := Value();
      var c, event := active[fd], Event(false, false, false, NO_REASON);
      if r.input {
        var read := TouchTimer(c.read, now);
        c := c.(read := read);
        event := event.(read := true);
      }
      if r.output {
        var write := TouchTimer(c.write, now);
        c := c.(write := write);
        event := event.(write := true);
      }
      if r.hup || r.rdhup || r.err {
        event := event.(close := true);
        scheduler.DeleteEvent(fd);
        event := event.(reason := Reason(r.hup, r.rdhup, r.err, false, false));
      }
      assert c == ContextReported(old(active[fd]), r, now) && event == EventOf(r);
      ghost var q := Value();
      assert q == p.(deadlines := if Closing(r) then p.deadlines - {fd} else p.deadlines);
      Reschedule(fd, c);
      assert Value() == q.(active := q.active[fd := c], deadlines := Scheduled(q.deadlines, fd, Nearest(c)));
      if fd !in pending {
        pending := pending[fd := event];
      }
    }

    method ProcessEpollEvents(batch: seq<Notice>, now: nat)
      requires Valid() && BatchOk(Value(), batch, now)
      requires forall fd :: fd in active ==> active[fd].read.time <= INVALID_TIME && active[fd].write.time <= INVALID_TIME
      modifies this, scheduler
      ensures Valid() && Value() == EpollEvents(old(Value()), batch, now)
    {
      var i := 0;
      while i < |batch|
        invariant i <= |batch| && Valid() && BatchOk(Value(), batch[i..], now)
        invariant forall fd :: fd in active ==> active[fd].read.time <= INVALID_TIME && active[fd].write.time <= INVALID_TIME
        invariant EpollEvents(Value(), batch[i..], now) == EpollEvents(old(Value()), batch, now)
      {
        ghost var p, rest := Value(), batch[i..];
        assert rest[1..] == batch[i + 1..];
        match batch[i] {
          case Signal(value) =>
            var result := ProcessSignal(value);
            if result == 0 {
              return;
            }
          case Socket(fd, r) =>
            RestOk(p, rest, now);
            assert ReportOk(p, rest[0].fd, rest[0].report, now);
            ProcessReport(fd, r, now);
        }
        i := i + 1;
      }
    }

    /** One due entry, already taken out of the schedule. */
    method SettleDue(fd: FD, now: nat)
      requires Valid() && fd !in Value().deadlines
      modifies this, scheduler
      ensures Valid() && scheduler.events == old(scheduler.events)
      ensures var p := old(Value());
              Value() == if fd in p.active then p.(pending := Expired(p.pending, fd, p.active[fd], now)) else p
    {
      if fd !in active {
        return;
      }
      var r, w := now >= active[fd].read.time, now >= active[fd].write.time;
      if !r && !w {
        return;
      }
      if fd !in pending {
        pending := pending[fd := Event(false, false, true, Reason(false, false, false, r, w))];
        return;
      }
      var event := pending[fd];
      if event.close {
        return;
      }
      if event.read && r {
        r := false;
      }
      if event.write && w {
        w := false;
      }
      if r || w {
        scheduler.DeleteEvent(fd);
        pending := pending[fd := event.(close := true, reason := Reason(false, false, false, r, w))];
      }
    }

    /** Entries are taken one by one, nearest first; the result does not depend on that order. */
    method ProcessScheduler(now: nat)
      requires Valid()
      modifies this, scheduler
      ensures Valid() && Value() == PollerModel.ProcessScheduler(old(Value()), now)
    {
      ghost var p := Value();
      while true
        invariant Valid() && Progress(p, Value(), now)
        decreases |scheduler.events|
      {
        ghost var q := Value();
        var payload := scheduler.GetNextEvent(now);
        if payload.None? {
          Finished(p, q, now);
          return;
        }
        assert Value() == q.(deadlines := q.deadlines - {payload.value});
        Settled(p, q, payload.value, now);
        SettleDue(payload.value, now);
      }
    }

    /** One pending event, whichever comes first in the unordered set; none when the set is empty. */
    method GetNextEvent() returns (event: Option<(FD, Event)>)
      requires Valid()
      modifies `pending
      ensures Valid()
      ensures event.None? <==> old(pending) == map[]
      ensures event.None? ==> Value() == old(Value())
      ensures event.Some? ==>
                var (fd, e) := event.value;
                && fd in old(pending) && e == old(pending)[fd]
                && Value() == old(Value()).(pending := old(pending) - {fd})
    {
      if pending == map[] {
        return None;
      }
      assert pending.Keys != {};
      var fd :| fd in pending;
      event := Some((fd, pending[fd]));
      pending := pending - {fd};
    }

    method Poll(batch: seq<Notice>, now1: nat, now2: nat)
      requires Valid() && BatchOk(Value(), batch, now1)
      requires forall fd :: fd in active ==> active[fd].read.time <= INVALID_TIME && active[fd].write.time <= INVALID_TIME
      modifies this, scheduler
      ensures Valid() && Value() == PollerModel.Poll(old(Value()), batch, now1, now2)
    {
      ProcessEpollEvents(batch, now1);
      ProcessScheduler(now2);
    }
  }

  lemma Overwritten(m: map<FD, Context>, fd: FD, c: Context, c': Context)
    ensures m[fd := c][fd := c'] == m[fd := c']
  {
  }

  /** The two event sets agree on one socket. */
  ghost predicate Same(a: map<FD, Event>, b: map<FD, Event>, fd: FD) {
    (fd in a <==> fd in b) && (fd in a ==> a[fd] == b[fd])
  }

  /** `q` is `p` with some of the due entries taken and their sockets' events settled. */
  ghost predicate Progress(p: PollerModel.Poller, q: PollerModel.Poller, now: nat) {
    && q.active == p.active && q.interest == p.interest
    && (forall fd :: fd in q.deadlines ==> fd in p.deadlines && q.deadlines[fd] == p.deadlines[fd])
    && (forall fd :: fd in p.deadlines && p.deadlines[fd] > now ==> fd in q.deadlines)
    && (forall fd :: Same(q.pending, if fd in q.deadlines then p.pending else EventAfter(p, fd, now), fd))
  }

  /** Settling one due socket is progress, and touches no other socket. */
  lemma Settled(p: PollerModel.Poller, q: PollerModel.Poller, due: FD, now: nat)
    requires Progress(p, q, now) && DueAt(q, due, now)
    ensures Progress(p, q.(deadlines := q.deadlines - {due},
                           pending := if due in q.active then Expired(q.pending, due, q.active[due], now) else q.pending), now)
  {
    assert Same(q.pending, p.pending, due);
    var pending := if due in q.active then Expired(q.pending, due, q.active[due], now) else q.pending;
    assert Same(pending, EventAfter(p, due, now), due);
    forall fd ensures Same(pending, if fd in q.deadlines - {due} then p.pending else EventAfter(p, fd, now), fd) {
      assert Same(q.pending, if fd in q.deadlines then p.pending else EventAfter(p, fd, now), fd);
    }
  }

  /** When no due entry is left, the schedule has been processed. */
  lemma Finished(p: PollerModel.Poller, q: PollerModel.Poller, now: nat)
    requires Progress(p, q, now) && forall fd :: fd in q.deadlines ==> q.deadlines[fd] > now
    ensures q == PollerModel.ProcessScheduler(p, now)
  {
    var r := PollerModel.ProcessScheduler(p, now);
    forall fd ensures Same(q.pending, r.pending, fd) {
      assert Same(q.pending, if fd in q.deadlines then p.pending else EventAfter(p, fd, now), fd);
      OnlyKnownEvents(p, fd, now);
    }
    assert q.pending == r.pending by {
      assert forall fd :: fd in q.pending <==> Same(q.pending, r.pending, fd) && fd in r.pending;
    }
    assert q.deadlines == r.deadlines;
  }

  lemma OnlyKnownEvents(p: PollerModel.Poller, fd: FD, now: nat)
    ensures fd in EventAfter(p, fd, now) ==> fd in p.pending.Keys + p.deadlines.Keys
  {
  }
}
