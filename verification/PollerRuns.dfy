/**
 Runs of the poller: registrations, removals, polls and dispatches in any order the reactor and its
 callbacks produce, and what holds in every state they reach.
 */
module PollerRuns {
  import opened Wrappers
  import opened UInt64
  import opened SocketContext
  import opened PollerModel

  /** Clocks and steps are far below the 64-bit limit. */
  const LIMIT: nat := 0x4000_0000_0000_0000

  /** One direction's last activity, or its arming time, and the step last asked for in that direction. */
  datatype Arming = Arming(base: nat, step: nat)

  /** What a socket's owner asked for and what happened to it; None for a direction that has no timer. */
  datatype Activity = Activity(read: Option<Arming>, write: Option<Arming>, mask: Mask)

  /** The poller, the event being dispatched if any, and the history of each socket. */
  datatype Machine = Machine(poller: Poller, hand: Option<(FD, Event)>, activity: map<FD, Activity>)

  const START := Machine(EMPTY, None, map[])

  datatype Action =
    | Update(fd: FD, mask: Mask, step: nat, nowRead: nat, nowWrite: nat)
    | Remove(fd: FD)
    | Poll(batch: seq<Notice>, now1: nat, now2: nat)
    | Take(fd: FD)            // a pending event is taken for dispatch
    | Finish(failed: bool)    // its callbacks are over; close runs if asked for or if a callback threw

  /** The step that an update asks for: half a minute when it names none. */
  function AskedStep(step: nat): nat { if step == 0 then 30000 else step }

  function Touch(a: Option<Arming>, active: bool, now: nat): Option<Arming> {
    if active && a.Some? then Some(a.value.(base := now)) else a
  }

  /** An update asks for a step in the directions of its mask; its time is a direction's first activity. */
  function Ask(a: Option<Arming>, active: bool, step: nat, now: nat): Option<Arming> {
    if !active then a
    else if a.None? then Some(Arming(now, step))
    else Some(a.value.(step := step))
  }

  function ActivityOf(m: Machine, fd: FD): Activity {
    if fd in m.activity then m.activity[fd] else Activity(None, None, Mask(false, false))
  }

  function AfterUpdate(a: Activity, mask: Mask, step: nat, nowRead: nat, nowWrite: nat): Activity {
    Activity(Ask(a.read, mask.input, AskedStep(step), nowRead), Ask(a.write, mask.output, AskedStep(step), nowWrite), mask)
  }

  function AfterReport(a: Activity, r: Report, now: nat): Activity {
    a.(read := Touch(a.read, r.input, now), write := Touch(a.write, r.output, now))
  }

  /** What the reactor, the kernel and the callers of the poller guarantee about the next action. */
  ghost predicate Allowed(m: Machine, a: Action) {
    match a
    case Update(fd, mask, step, nowRead, nowWrite) =>
      (mask.input || mask.output) && AskedStep(step) < LIMIT && nowRead < LIMIT && nowWrite < LIMIT
    case Remove(fd) => true
    case Poll(batch, now1, now2) =>
      && m.hand.None? && m.poller.pending == map[]
      && now1 <= now2 < LIMIT && StopFree(batch) && Distinct(batch)
      && (forall k :: 0 <= k < |batch| && batch[k].Socket? ==> Reportable(m.poller, batch[k].fd, batch[k].report))
    case Take(fd) => m.hand.None? && fd in m.poller.pending
    case Finish(_) => m.hand.Some?
  }

  /** Epoll reports registered descriptors, with some flag, in the directions it was asked for. */
  ghost predicate Reportable(p: Poller, fd: FD, r: Report) {
    && fd in p.active && fd in p.interest
    && (r.input || r.output || Closing(r))
    && (r.input ==> p.interest[fd].input) && (r.output ==> p.interest[fd].output)
  }

  /** One direction: its step is the one last asked for, and its deadline its last activity plus that step. */
  ghost predicate TimerOk(t: Timeout, a: Option<Arming>) {
    match a
    case None => t == UNARMED
    case Some(h) => h.base < LIMIT && h.step < LIMIT && t.step == h.step && t.time == h.base + h.step
  }

  /** Epoll holds the mask last asked for, and a direction in it has a timer. */
  ghost predicate SocketOk(m: Machine, fd: FD) {
    var p := m.poller;
    && fd in p.active && fd in p.interest && fd in m.activity
    && TimerOk(p.active[fd].read, m.activity[fd].read)
    && TimerOk(p.active[fd].write, m.activity[fd].write)
    && p.interest[fd] == m.activity[fd].mask
    && (p.interest[fd].input ==> m.activity[fd].read.Some?)
    && (p.interest[fd].output ==> m.activity[fd].write.Some?)
    && Armed(p.active[fd])
  }

  predicate HasAction(e: Event) { e.read || e.write || e.close }

  /** The three structures are consistent and every armed deadline is sound. */
  ghost predicate Inv(m: Machine) {
    var p := m.poller;
    && (forall fd :: fd in p.active ==> SocketOk(m, fd))
    && (forall fd :: fd in p.deadlines ==> fd in p.active)
    && (forall fd :: fd in p.pending ==> fd in p.active && HasAction(p.pending[fd]))
    && (forall fd :: fd in m.activity ==> fd in p.active)
    && (forall fd :: fd in p.interest ==> fd in p.active)
    && (m.hand.Some? ==> HasAction(m.hand.value.1))
  }

  lemma BatchAllowed(m: Machine, batch: seq<Notice>, now1: nat, now2: nat)
    requires Inv(m) && Allowed(m, Poll(batch, now1, now2))
    ensures BatchOk(m.poller, batch, now1)
  {
    forall k | 0 <= k < |batch| && batch[k].Socket?
      ensures ReportOk(m.poller, batch[k].fd, batch[k].report, now1)
    {
      assert Reportable(m.poller, batch[k].fd, batch[k].report);
      assert SocketOk(m, batch[k].fd);
    }
  }

  function Step(m: Machine, a: Action): Machine
    requires Inv(m) && Allowed(m, a)
  {
    match a
    case Update(fd, mask, step, nowRead, nowWrite) =>
      m.(poller := UpdateSocket(m.poller, fd, mask, step, nowRead, nowWrite),
         activity := m.activity[fd := AfterUpdate(ActivityOf(m, fd), mask, step, nowRead, nowWrite)])
    case Remove(fd) => m.(poller := RemoveSocket(m.poller, fd), activity := m.activity - {fd})
    case Poll(batch, now1, now2) =>
      BatchAllowed(m, batch, now1, now2);
      var reports := Reports(batch);
      m.(poller := PollerModel.Poll(m.poller, batch, now1, now2),
         activity := map fd | fd in m.activity :: if fd in reports then AfterReport(m.activity[fd], reports[fd], now1) else m.activity[fd])
    case Take(fd) =>
      m.(poller := m.poller.(pending := m.poller.pending - {fd}), hand := Some((fd, m.poller.pending[fd])))
    case Finish(failed) =>
      var (fd, e) := m.hand.value;
      if e.close || failed then Machine(RemoveSocket(m.poller, fd), None, m.activity - {fd}) else m.(hand := None)
  }

  /** Arming or re-stepping a direction leaves a sound deadline. */
  lemma ArmingIsSound(t: Timeout, a: Option<Arming>, step: nat, now: nat)
    requires TimerOk(t, a) && step < LIMIT && now < LIMIT
    ensures TimerOk(ArmedBy(t, step, now), Ask(a, true, step, now))
  {
    if a.Some? {
      StepChangeKeepsBase(t, a.value.base, step);
    }
  }

  /** The socket of an update has the timers and the mask that it asks for. */
  lemma UpdatedIsOk(m: Machine, a: Action)
    requires Inv(m) && a.Update? && Allowed(m, a)
    ensures SocketOk(Step(m, a), a.fd)
    ensures var p := Step(m, a).poller; a.fd in p.deadlines && p.deadlines[a.fd] == Nearest(p.active[a.fd])
  {
    var fd, before, c := a.fd, ActivityOf(m, a.fd), ContextOf(m.poller, a.fd);
    if fd in m.poller.active {
      assert SocketOk(m, fd);
    }
    assert EffectiveStep(a.step) == AskedStep(a.step);
    if a.mask.input { ArmingIsSound(c.read, before.read, AskedStep(a.step), a.nowRead); }
    if a.mask.output { ArmingIsSound(c.write, before.write, AskedStep(a.step), a.nowWrite); }
  }

  lemma UpdateKeepsInv(m: Machine, a: Action)
    requires Inv(m) && a.Update? && Allowed(m, a)
    ensures Inv(Step(m, a))
    ensures var p := Step(m, a).poller; a.fd in p.deadlines && p.deadlines[a.fd] == Nearest(p.active[a.fd])
  {
    var m' := Step(m, a);
    UpdatedIsOk(m, a);
    forall other | other in m'.poller.active ensures SocketOk(m', other) {
      if other != a.fd { assert SocketOk(m, other); }
    }
  }

  /** The assertion inside an update holds in every run. */
  lemma UpdateIsAsserted(m: Machine, a: Action)
    requires Inv(m) && a.Update? && Allowed(m, a)
    ensures var c := ContextOf(m.poller, a.fd);
            && c.read.time <= INVALID_TIME && c.write.time <= INVALID_TIME
            && Armed(ContextArmed(c, a.mask, EffectiveStep(a.step), a.nowRead, a.nowWrite))
  {
    var c, before, step := ContextOf(m.poller, a.fd), ActivityOf(m, a.fd), EffectiveStep(a.step);
    if a.fd in m.poller.active {
      assert SocketOk(m, a.fd);
    }
    assert TimerOk(c.read, before.read) && TimerOk(c.write, before.write);
    if a.mask.input {
      ArmingIsSound(c.read, before.read, step, a.nowRead);
    } else {
      ArmingIsSound(c.write, before.write, step, a.nowWrite);
    }
  }

  lemma TimesInRange(m: Machine)
    requires Inv(m)
    ensures forall fd :: fd in m.poller.active ==> m.poller.active[fd].read.time <= INVALID_TIME && m.poller.active[fd].write.time <= INVALID_TIME
  {
    forall fd | fd in m.poller.active
      ensures m.poller.active[fd].read.time <= INVALID_TIME && m.poller.active[fd].write.time <= INVALID_TIME
    {
      assert SocketOk(m, fd);
    }
  }

  lemma RemovalKeepsInv(m: Machine, fd: FD)
    requires Inv(m)
    ensures Inv(m.(poller := RemoveSocket(m.poller, fd), activity := m.activity - {fd}))
  {
    var m' := m.(poller := RemoveSocket(m.poller, fd), activity := m.activity - {fd});
    forall other | other in m'.poller.active ensures SocketOk(m', other) {
      assert SocketOk(m, other);
    }
  }

  /** The state of one socket after a poll, in terms of its state before. */
  ghost predicate SocketPolled(m: Machine, m': Machine, a: Action, fd: FD)
    requires a.Poll? && fd in m.poller.active && fd in m.activity
  {
    var p, p', reports := m.poller, m'.poller, Reports(a.batch);
    var reported := fd in reports;
    var c := if reported then ContextReported(p.active[fd], reports[fd], a.now1) else p.active[fd];
    var event := if reported then map[fd := EventOf(reports[fd])] else map[];
    var due := if reported then Nearest(c) <= a.now2 else fd in p.deadlines && p.deadlines[fd] <= a.now2;
    var event' := if due then Expired(event, fd, c, a.now2) else event;
    && fd in p'.active && p'.active[fd] == c
    && (fd in p'.pending <==> fd in event') && (fd in event' ==> p'.pending[fd] == event'[fd])
    && (fd in p'.deadlines <==> !due && (reported || fd in p.deadlines))
    && (fd in p'.deadlines ==> p'.deadlines[fd] == if reported then Nearest(c) else p.deadlines[fd])
    && fd in m'.activity
    && m'.activity[fd] == (if reported then AfterReport(m.activity[fd], reports[fd], a.now1) else m.activity[fd])
  }

  lemma PollIsPointwise(m: Machine, a: Action, fd: FD)
    requires Inv(m) && a.Poll? && Allowed(m, a) && fd in m.poller.active
    ensures fd in m.activity && SocketPolled(m, Step(m, a), a, fd)
  {
    assert SocketOk(m, fd);
    BatchAllowed(m, a.batch, a.now1, a.now2);
    BatchIsPointwise(m.poller, a.batch, a.now1, fd);
    var q := EpollEvents(m.poller, a.batch, a.now1);
    var reports := Reports(a.batch);
    if fd in reports {
      var n := Socket(fd, reports[fd]);
      assert n in a.batch;
      ReportedIsArmed(m, fd, reports[fd], a.now1);
    }
    OnlyThisEvent(q.pending, fd, q.active[fd], a.now2);
  }

  /** A reported socket's timers stay sound, so its nearest deadline is a real time. */
  lemma ReportedIsArmed(m: Machine, fd: FD, r: Report, now: nat)
    requires SocketOk(m, fd) && now < LIMIT && Reportable(m.poller, fd, r)
    ensures var c, a := ContextReported(m.poller.active[fd], r, now), AfterReport(m.activity[fd], r, now);
            TimerOk(c.read, a.read) && TimerOk(c.write, a.write) && Armed(c) && Nearest(c) != INVALID_TIME
  {
  }

  lemma OnlyThisEvent(pending: map<FD, Event>, fd: FD, c: Context, now: nat)
    ensures var one := if fd in pending then map[fd := pending[fd]] else map[];
            var r, r' := Expired(pending, fd, c, now), Expired(one, fd, c, now);
            (fd in r <==> fd in r') && (fd in r ==> r[fd] == r'[fd])
  {
  }

  /** A poll neither adds nor forgets a socket. */
  lemma PollKeepsActive(m: Machine, a: Action, fd: FD)
    requires Inv(m) && a.Poll? && Allowed(m, a)
    ensures fd in Step(m, a).poller.active <==> fd in m.poller.active
  {
    BatchAllowed(m, a.batch, a.now1, a.now2);
    BatchIsPointwise(m.poller, a.batch, a.now1, fd);
    if fd in Reports(a.batch) {
      var n := Socket(fd, Reports(a.batch)[fd]);
      assert n in a.batch;
    }
  }

  lemma PollKeepsInterest(m: Machine, a: Action)
    requires Inv(m) && a.Poll? && Allowed(m, a)
    ensures Step(m, a).poller.interest == m.poller.interest && Step(m, a).hand == m.hand
    ensures Step(m, a).activity.Keys == m.activity.Keys
  {
    BatchAllowed(m, a.batch, a.now1, a.now2);
    BatchIsPointwise(m.poller, a.batch, a.now1, 0);
  }

  /** One socket's timers stay sound through a poll. */
  lemma PolledIsOk(m: Machine, m': Machine, a: Action, fd: FD)
    requires a.Poll? && SocketOk(m, fd) && a.now1 < LIMIT && SocketPolled(m, m', a, fd)
    requires m'.poller.interest == m.poller.interest
    requires fd in Reports(a.batch) ==> Reportable(m.poller, fd, Reports(a.batch)[fd])
    ensures SocketOk(m', fd)
  {
    if fd in Reports(a.batch) {
      ReportedIsArmed(m, fd, Reports(a.batch)[fd], a.now1);
    }
  }

  lemma PollKeepsSocket(m: Machine, a: Action, fd: FD)
    requires Inv(m) && a.Poll? && Allowed(m, a) && fd in m.poller.active
    ensures SocketOk(Step(m, a), fd)
  {
    assert SocketOk(m, fd);
    PollIsPointwise(m, a, fd);
    PollKeepsInterest(m, a);
    if fd in Reports(a.batch) {
      var n := Socket(fd, Reports(a.batch)[fd]);
      assert n in a.batch;
    }
    PolledIsOk(m, Step(m, a), a, fd);
  }

  /** A poll schedules and reports active sockets only, and its events ask for something. */
  lemma PollKeepsOthers(m: Machine, a: Action, fd: FD)
    requires Inv(m) && a.Poll? && Allowed(m, a)
    requires fd in Step(m, a).poller.deadlines || fd in Step(m, a).poller.pending
    ensures var p := Step(m, a).poller; fd in m.poller.active && (fd in p.pending ==> HasAction(p.pending[fd]))
  {
    BatchAllowed(m, a.batch, a.now1, a.now2);
    BatchIsPointwise(m.poller, a.batch, a.now1, fd);
    if fd in m.poller.active {
      PollIsPointwise(m, a, fd);
    }
    if fd in Reports(a.batch) {
      var n := Socket(fd, Reports(a.batch)[fd]);
      assert n in a.batch;
    }
  }

  lemma PollKeepsInv(m: Machine, a: Action)
    requires Inv(m) && a.Poll? && Allowed(m, a)
    ensures Inv(Step(m, a))
  {
    var m' := Step(m, a);
    PollKeepsInterest(m, a);
    forall fd ensures fd in m'.poller.active <==> fd in m.poller.active {
      PollKeepsActive(m, a, fd);
    }
    forall fd | fd in m'.poller.active ensures SocketOk(m', fd) {
      PollKeepsSocket(m, a, fd);
    }
    forall fd | fd in m'.poller.deadlines || fd in m'.poller.pending
      ensures fd in m'.poller.active && (fd in m'.poller.pending ==> HasAction(m'.poller.pending[fd]))
    {
      PollKeepsOthers(m, a, fd);
    }
  }

  lemma StepKeepsInv(m: Machine, a: Action)
    requires Inv(m) && Allowed(m, a)
    ensures Inv(Step(m, a))
  {
    match a
    case Update(_, _, _, _, _) => UpdateKeepsInv(m, a);
    case Remove(fd) => RemovalKeepsInv(m, fd);
    case Poll(_, _, _) => PollKeepsInv(m, a);
    case Take(fd) =>
      var m' := Step(m, a);
      forall other | other in m'.poller.active ensures SocketOk(m', other) {
        assert SocketOk(m, other);
      }
    case Finish(_) =>
      RemovalKeepsInv(m, m.hand.value.0);
      var m' := Step(m, a);
      forall other | other in m'.poller.active ensures SocketOk(m', other) {
        assert SocketOk(m, other);
      }
  }

  /** Every action is allowed in the state that the actions before it lead to. */
  ghost predicate Permitted(acts: seq<Action>)
    decreases |acts|, 0
  {
    acts == [] || (Permitted(acts[..|acts| - 1]) && Allowed(Run(acts[..|acts| - 1]), acts[|acts| - 1]))
  }

  /**
   The state after a run. Scheduled and pending descriptors are active, each socket has at most one pending
   event and it asks for something, and every armed deadline is the last activity plus the current step.
   */
  ghost function Run(acts: seq<Action>): (m: Machine)
    requires Permitted(acts)
    ensures Inv(m)
    decreases |acts|, 1
  {
    if acts == [] then START
    else
      var before := Run(acts[..|acts| - 1]);
      StepKeepsInv(before, acts[|acts| - 1]);
      Step(before, acts[|acts| - 1])
  }

  /** The socket is scheduled at its nearest deadline, or an event asking to close it is pending or in hand. */
  ghost predicate TimerKept(m: Machine, fd: FD) {
    var p := m.poller;
    && fd in p.active
    && (|| (fd in p.deadlines && p.deadlines[fd] == Nearest(p.active[fd]))
        || (fd in p.pending && p.pending[fd].close)
        || (m.hand.Some? && m.hand.value.0 == fd && m.hand.value.1.close))
  }

  /**
   The poll takes the socket's due entry and neither reschedules nor closes it: it was reported without an
   error, and every direction that has expired by the second clock reading was reported at the first.
   */
  ghost predicate Swallowed(m: Machine, a: Action, fd: FD)
    requires a.Poll?
  {
    var reports := Reports(a.batch);
    && fd in reports && fd in m.poller.active && !Closing(reports[fd])
    && var c := ContextReported(m.poller.active[fd], reports[fd], a.now1);
       && Nearest(c) <= a.now2
       && (ReadExpired(c, a.now2) ==> reports[fd].input)
       && (WriteExpired(c, a.now2) ==> reports[fd].output)
  }

  /** A poll keeps a socket's timer exactly when it does not swallow it. */
  lemma PollKeepsTimerIff(m: Machine, a: Action, fd: FD)
    requires Inv(m) && a.Poll? && Allowed(m, a) && TimerKept(m, fd)
    ensures TimerKept(Step(m, a), fd) <==> !Swallowed(m, a, fd)
  {
    assert SocketOk(m, fd);
    PollIsPointwise(m, a, fd);
  }

  /** Less time passes between the two clock readings than the step of any direction reported. */
  ghost predicate Prompt(m: Machine, a: Action) {
    a.Poll? ==>
      forall fd :: fd in Reports(a.batch) && fd in m.poller.active ==>
        && (Reports(a.batch)[fd].input ==> a.now2 - a.now1 < m.poller.active[fd].read.step)
        && (Reports(a.batch)[fd].output ==> a.now2 - a.now1 < m.poller.active[fd].write.step)
  }

  lemma PromptIsNotSwallowed(m: Machine, a: Action, fd: FD)
    requires Inv(m) && a.Poll? && Allowed(m, a) && Prompt(m, a)
    ensures !Swallowed(m, a, fd)
  {
    var reports := Reports(a.batch);
    if fd in reports && fd in m.poller.active {
      assert SocketOk(m, fd);
      var n := Socket(fd, reports[fd]);
      assert n in a.batch;
      ReportedIsArmed(m, fd, reports[fd], a.now1);
    }
  }

  ghost predicate AllPrompt(acts: seq<Action>)
    requires Permitted(acts)
    decreases |acts|
  {
    acts == [] || (AllPrompt(acts[..|acts| - 1]) && Prompt(Run(acts[..|acts| - 1]), acts[|acts| - 1]))
  }

  lemma UpdateKeepsTimer(m: Machine, a: Action, fd: FD)
    requires Inv(m) && a.Update? && Allowed(m, a)
    requires fd in m.poller.active ==> TimerKept(m, fd)
    requires fd in Step(m, a).poller.active
    ensures TimerKept(Step(m, a), fd)
  {
    if fd == a.fd {
      UpdateKeepsInv(m, a);
    } else {
      var p, p' := m.poller, Step(m, a).poller;
      assert fd in p.active && p'.active[fd] == p.active[fd];
    }
  }

  lemma DispatchKeepsTimer(m: Machine, a: Action, fd: FD)
    requires Inv(m) && !a.Update? && !a.Poll? && Allowed(m, a)
    requires fd in m.poller.active ==> TimerKept(m, fd)
    requires fd in Step(m, a).poller.active
    ensures TimerKept(Step(m, a), fd)
  {
  }

  lemma PollKeepsTimer(m: Machine, a: Action, fd: FD)
    requires Inv(m) && a.Poll? && Allowed(m, a) && Prompt(m, a)
    requires fd in m.poller.active ==> TimerKept(m, fd)
    requires fd in Step(m, a).poller.active
    ensures TimerKept(Step(m, a), fd)
  {
    PollKeepsActive(m, a, fd);
    PollKeepsTimerIff(m, a, fd);
    PromptIsNotSwallowed(m, a, fd);
  }

  lemma StepKeepsTimer(m: Machine, a: Action, fd: FD)
    requires Inv(m) && Allowed(m, a) && Prompt(m, a)
    requires fd in m.poller.active ==> TimerKept(m, fd)
    requires fd in Step(m, a).poller.active
    ensures TimerKept(Step(m, a), fd)
  {
    if a.Update? {
      UpdateKeepsTimer(m, a, fd);
    } else if a.Poll? {
      PollKeepsTimer(m, a, fd);
    } else {
      DispatchKeepsTimer(m, a, fd);
    }
  }

  /** No timer is lost: in every state of a run whose polls are prompt, each active socket's timer is kept. */
  lemma {:induction false} NoTimerLost(acts: seq<Action>, fd: FD)
    requires Permitted(acts) && AllPrompt(acts)
    ensures fd in Run(acts).poller.active ==> TimerKept(Run(acts), fd)
    decreases |acts|
  {
    if acts != [] && fd in Run(acts).poller.active {
      var before := acts[..|acts| - 1];
      if fd in Run(before).poller.active {
        NoTimerLost(before, fd);
      }
      StepKeepsTimer(Run(before), acts[|acts| - 1], fd);
    }
  }

  lemma RunMore(acts: seq<Action>, a: Action)
    requires Permitted(acts) && Allowed(Run(acts), a)
    ensures Permitted(acts + [a]) && Run(acts + [a]) == Step(Run(acts), a)
  {
    assert (acts + [a])[..|acts|] == acts;
  }

  /** A registration, and a poll whose second clock reading comes a whole step after the first. */
  const REGISTER := Update(7, Mask(true, false), 5, 100, 100)

  const LATE_POLL := Poll([Socket(7, Report(true, false, false, false, false))], 102, 107)

  lemma Registered()
    ensures Permitted([REGISTER])
    ensures Run([REGISTER])
      == Machine(PollerModel.Poller(map[7 := Context(Timeout(105, 5), UNARMED)], map[7 := Mask(true, false)], map[], map[7 := 105]),
                 None, map[7 := Activity(Some(Arming(100, 5)), None, Mask(true, false))])
  {
    assert [REGISTER][..0] == [];
    assert Allowed(Run([]), REGISTER);
  }

  lemma LatePollAllowed(m: Machine)
    requires Inv(m) && m.hand.None? && m.poller.pending == map[]
    requires 7 in m.poller.active && 7 in m.poller.interest && m.poller.interest[7].input
    ensures Allowed(m, LATE_POLL) && Reports(LATE_POLL.batch) == map[7 := LATE_POLL.batch[0].report]
  {
    assert LATE_POLL.batch[1..] == [];
    assert Reportable(m.poller, 7, LATE_POLL.batch[0].report);
  }

  lemma LatePollSwallows(m: Machine)
    requires Inv(m) && Allowed(m, LATE_POLL) && TimerKept(m, 7)
    requires 7 in m.poller.active && m.poller.active[7] == Context(Timeout(105, 5), UNARMED)
    requires Reports(LATE_POLL.batch) == map[7 := LATE_POLL.batch[0].report]
    ensures 7 in Step(m, LATE_POLL).poller.active && !TimerKept(Step(m, LATE_POLL), 7)
  {
    PollKeepsTimerIff(m, LATE_POLL, 7);
    PollKeepsActive(m, LATE_POLL, 7);
  }

  /** A run in which a poll that is not prompt loses the timer of an active socket. */
  lemma LatePollLosesTimer()
    ensures var before := [REGISTER];
            var acts := before + [LATE_POLL];
            && Permitted(before) && TimerKept(Run(before), 7)
            && Permitted(acts) && 7 in Run(acts).poller.active && !TimerKept(Run(acts), 7)
  {
    Registered();
    var m := Run([REGISTER]);
    LatePollAllowed(m);
    LatePollSwallows(m);
    RunMore([REGISTER], LATE_POLL);
  }

  /** The event of a socket without a pending close blames only directions that have expired unreported. */
  ghost predicate BlamesExpired(e: Event, c: Context, now: nat) {
    && (e.reason.timeoutRead ==> e.close && !e.read && c.read.time <= now)
    && (e.reason.timeoutWrite ==> e.close && !e.write && c.write.time <= now)
  }

  lemma ExpiryBlamesExpired(event: map<FD, Event>, fd: FD, c: Context, now: nat)
    requires fd in event ==> BlamesExpired(event[fd], c, now)
    ensures fd in Expired(event, fd, c, now) ==> BlamesExpired(Expired(event, fd, c, now)[fd], c, now)
  {
  }

  lemma PollBlamesExpired(m: Machine, m': Machine, a: Action, fd: FD)
    requires a.Poll? && fd in m.poller.active && fd in m.activity && SocketPolled(m, m', a, fd)
    requires fd in m'.poller.pending
    ensures BlamesExpired(m'.poller.pending[fd], m'.poller.active[fd], a.now2)
  {
    var reports := Reports(a.batch);
    var event := if fd in reports then map[fd := EventOf(reports[fd])] else map[];
    ExpiryBlamesExpired(event, fd, m'.poller.active[fd], a.now2);
  }

  /** After a poll an event blames a timeout only on a direction whose deadline has passed unreported. */
  lemma TimeoutsAreSound(m: Machine, a: Action, fd: FD)
    requires Inv(m) && a.Poll? && Allowed(m, a) && fd in Step(m, a).poller.pending
    ensures var m' := Step(m, a);
            var e := m'.poller.pending[fd];
            && fd in m'.poller.active && fd in m'.activity
            && var act := m'.activity[fd];
               && (e.reason.timeoutRead ==> e.close && !e.read && act.read.Some? && act.read.value.base + act.read.value.step <= a.now2)
               && (e.reason.timeoutWrite ==> e.close && !e.write && act.write.Some? && act.write.value.base + act.write.value.step <= a.now2)
  {
    PollKeepsInv(m, a);
    PollKeepsActive(m, a, fd);
    assert SocketOk(Step(m, a), fd);
    PollIsPointwise(m, a, fd);
    PollBlamesExpired(m, Step(m, a), a, fd);
  }

  /** The read deadline has passed by the second clock reading and no input was reported. */
  ghost predicate IdleRead(m: Machine, a: Action, fd: FD)
    requires a.Poll? && fd in m.poller.active
  {
    m.poller.active[fd].read.time <= a.now2 && (fd in Reports(a.batch) ==> !Reports(a.batch)[fd].input)
  }

  ghost predicate IdleWrite(m: Machine, a: Action, fd: FD)
    requires a.Poll? && fd in m.poller.active
  {
    m.poller.active[fd].write.time <= a.now2 && (fd in Reports(a.batch) ==> !Reports(a.batch)[fd].output)
  }

  /** The report of a socket in a batch, or one without any flag. */
  function ReportOf(a: Action, fd: FD): Report
    requires a.Poll?
  {
    if fd in Reports(a.batch) then Reports(a.batch)[fd] else Report(false, false, false, false, false)
  }

  /**
   The event after a poll, flag by flag: there is one exactly when the socket was reported or is idle; it reads
   and writes exactly in the directions reported; it closes exactly for an error or an idle direction; its
   errors are exactly those reported; and it blames a timeout exactly of an idle direction, unless an error
   was reported.
   */
  ghost predicate EventIsExact(m: Machine, p: PollerModel.Poller, a: Action, fd: FD)
    requires a.Poll? && fd in m.poller.active
  {
    var r, idleRead, idleWrite := ReportOf(a, fd), IdleRead(m, a, fd), IdleWrite(m, a, fd);
    var failed := r.hup || r.rdhup || r.err;
    && (fd in p.pending <==> fd in Reports(a.batch) || idleRead || idleWrite)
    && (fd in p.pending ==>
          var e := p.pending[fd];
          && (e.read <==> r.input) && (e.write <==> r.output)
          && (e.close <==> failed || idleRead || idleWrite)
          && (e.reason.peer <==> r.hup) && (e.reason.unexpected <==> r.rdhup) && (e.reason.error <==> r.err)
          && (e.reason.timeoutRead <==> idleRead && !failed)
          && (e.reason.timeoutWrite <==> idleWrite && !failed))
  }

  lemma EventBecomesExact(m: Machine, m': Machine, a: Action, fd: FD)
    requires a.Poll? && fd in m.poller.active && fd in m.activity && SocketPolled(m, m', a, fd)
    requires fd in m.poller.deadlines && m.poller.deadlines[fd] == Nearest(m.poller.active[fd])
    ensures EventIsExact(m, m'.poller, a, fd)
  {
  }

  /** In every run with prompt polls, the next poll leaves each active socket the event it should have. */
  lemma EventsAreExact(acts: seq<Action>, a: Action, fd: FD)
    requires Permitted(acts) && AllPrompt(acts) && a.Poll?
    ensures Allowed(Run(acts), a) && fd in Run(acts).poller.active ==>
              Permitted(acts + [a]) && EventIsExact(Run(acts), Run(acts + [a]).poller, a, fd)
  {
    var m := Run(acts);
    if Allowed(m, a) && fd in m.poller.active {
      RunMore(acts, a);
      NoTimerLost(acts, fd);
      PollIsPointwise(m, a, fd);
      EventBecomesExact(m, Step(m, a), a, fd);
    }
  }

  /** The event answers every direction that has expired: by closing, or by reporting it. */
  ghost predicate Answered(p: Poller, fd: FD, c: Context, now: nat) {
    && fd in p.pending
    && var e := p.pending[fd];
       || e.close
       || ((ReadExpired(c, now) ==> e.read) && (WriteExpired(c, now) ==> e.write))
  }

  /**
   In any state at all, processing the schedule leaves nothing due, answers every socket it found due and
   expired, keeps every pending event with its read and write bits, and never takes a close back.
   */
  lemma ScheduleIsSettled(p: Poller, now: nat, fd: FD)
    ensures var p' := ProcessScheduler(p, now);
            && (fd in p'.deadlines ==> p'.deadlines[fd] > now)
            && (fd in p.pending ==>
                  && fd in p'.pending && p'.pending[fd].read == p.pending[fd].read
                  && p'.pending[fd].write == p.pending[fd].write && (p.pending[fd].close ==> p'.pending[fd] == p.pending[fd]))
            && (DueAt(p, fd, now) && fd in p.active && (ReadExpired(p.active[fd], now) || WriteExpired(p.active[fd], now)) ==>
                  Answered(p', fd, p.active[fd], now))
  {
    assert fd in EventAfter(p, fd, now) ==> fd in p.pending.Keys + p.deadlines.Keys;
  }

  /** A socket registered without a timeout is given one by its first report, already in the past. */
  lemma UntimedSocketExpires(r: Report, now: nat)
    requires r.input && 0 < now < LIMIT
    ensures var c := ContextReported(Context(UNARMED, UNARMED), r, now);
            c.read.time == now - 1 && ReadExpired(c, now)
  {
  }
}
