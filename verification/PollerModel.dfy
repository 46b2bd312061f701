/**
 What the operations of poller/poller.cpp do to the poller's three structures: the active sockets, the
 pending events and the schedule. A socket and its descriptor are identified; flag words are records.
 */
module PollerModel {
  import opened UInt64
  import opened SocketContext

  type FD = nat

  /** The directions epoll has been asked to report: EPOLLIN and EPOLLOUT. */
  datatype Mask = Mask(input: bool, output: bool)

  /** The flags of one epoll report: EPOLLIN, EPOLLOUT, EPOLLHUP, EPOLLRDHUP, EPOLLERR. */
  datatype Report = Report(input: bool, output: bool, hup: bool, rdhup: bool, err: bool)

  datatype Reason = Reason(peer: bool, unexpected: bool, error: bool, timeoutRead: bool, timeoutWrite: bool)

  const NO_REASON := Reason(false, false, false, false, false)

  /** A pending event: its action word and its close reason. */
  datatype Event = Event(read: bool, write: bool, close: bool, reason: Reason)

  /** One element of an epoll batch: a socket's report, or the value read from the signal descriptor. */
  datatype Notice = Socket(fd: FD, report: Report) | Signal(value: nat)

  const STOP: nat := 0xffff_ffff_ffff

  /** `interest` is what epoll holds for each descriptor; `deadlines` is the abstract value of the scheduler. */
  datatype Poller = Poller(
    active: map<FD, Context>, interest: map<FD, Mask>, pending: map<FD, Event>, deadlines: map<FD, nat>)

  const EMPTY := Poller(map[], map[], map[], map[])

  /** A step change, and a first deadline for a direction that has none. */
  function ArmedBy(t: Timeout, step: nat, now: nat): Timeout {
    var t' := Stepped(t, step);
    if t'.time == INVALID_TIME then t'.(time := Wrap(now + step)) else t'
  }

  /** The clock is read once for each direction in the mask. */
  function ContextArmed(c: Context, mask: Mask, step: nat, nowRead: nat, nowWrite: nat): Context {
    Context(if mask.input then ArmedBy(c.read, step, nowRead) else c.read,
            if mask.output then ArmedBy(c.write, step, nowWrite) else c.write)
  }

  function Scheduled(deadlines: map<FD, nat>, fd: FD, time: nat): map<FD, nat> {
    if time == INVALID_TIME then deadlines else deadlines[fd := time]
  }

  function EffectiveStep(step: nat): nat { if step == 0 then DEFAULT_TIMEOUT_MS else step }

  function ContextOf(p: Poller, fd: FD): Context {
    if fd in p.active then p.active[fd] else Context(UNARMED, UNARMED)
  }

  function UpdateSocket(p: Poller, fd: FD, mask: Mask, step: nat, nowRead: nat, nowWrite: nat): Poller {
    var c := ContextOf(p, fd);
    if step == INVALID_TIME then p.(active := p.active[fd := c], interest := p.interest[fd := mask])
    else
      var c' := ContextArmed(c, mask, EffectiveStep(step), nowRead, nowWrite);
      Poller(p.active[fd := c'], p.interest[fd := mask], p.pending, Scheduled(p.deadlines, fd, Nearest(c')))
  }

  function RemoveSocket(p: Poller, fd: FD): Poller {
    if fd !in p.active then p.(interest := p.interest - {fd})
    else Poller(p.active - {fd}, p.interest - {fd}, p.pending - {fd}, p.deadlines - {fd})
  }

  function ContextReported(c: Context, r: Report, now: nat): Context {
    Context(if r.input then Touched(c.read, now) else c.read, if r.output then Touched(c.write, now) else c.write)
  }

  predicate Closing(r: Report) { r.hup || r.rdhup || r.err }

  function EventOf(r: Report): Event {
    Event(r.input, r.output, Closing(r), Reason(r.hup, r.rdhup, r.err, false, false))
  }

  /** One report: timers moved, deadline rescheduled even when closing, event added unless one is pending. */
  function ReportSocket(p: Poller, fd: FD, r: Report, now: nat): Poller
    requires fd in p.active
  {
    var c := ContextReported(p.active[fd], r, now);
    var deadlines := if Closing(r) then p.deadlines - {fd} else p.deadlines;
    Poller(p.active[fd := c], p.interest,
           if fd in p.pending then p.pending else p.pending[fd := EventOf(r)],
           Scheduled(deadlines, fd, Nearest(c)))
  }

  /** A signal that is not an update ends the batch; a stop also forgets the sockets and their events. */
  predicate Ends(value: nat) { value == 0 || value >= STOP }

  function Signalled(p: Poller, value: nat): Poller {
    if value >= STOP then p.(active := map[], pending := map[]) else p
  }

  /** What epoll and the assertions of the loop demand of a report. */
  ghost predicate ReportOk(p: Poller, fd: FD, r: Report, now: nat) {
    && fd in p.active
    && (r.input || r.output || Closing(r))
    && Armed(ContextReported(p.active[fd], r, now))
  }

  /** Each descriptor is reported at most once. */
  ghost predicate Distinct(batch: seq<Notice>) {
    forall i, j :: 0 <= i < j < |batch| && batch[i].Socket? && batch[j].Socket? ==> batch[i].fd != batch[j].fd
  }

  ghost predicate BatchOk(p: Poller, batch: seq<Notice>, now: nat) {
    && Distinct(batch)
    && (forall k :: 0 <= k < |batch| && batch[k].Socket? ==> ReportOk(p, batch[k].fd, batch[k].report, now))
  }

  /** The epoll batch, in order. */
  function EpollEvents(p: Poller, batch: seq<Notice>, now: nat): Poller
    requires BatchOk(p, batch, now)
    decreases |batch|
  {
    if batch == [] then p
    else
      match batch[0]
      case Signal(value) =>
        if Ends(value) then Signalled(p, value) else EpollEvents(p, batch[1..], now)
      case Socket(fd, r) =>
        RestOk(p, batch, now);
        EpollEvents(ReportSocket(p, fd, r, now), batch[1..], now)
  }

  lemma RestOk(p: Poller, batch: seq<Notice>, now: nat)
    requires BatchOk(p, batch, now) && batch != [] && batch[0].Socket?
    ensures BatchOk(ReportSocket(p, batch[0].fd, batch[0].report, now), batch[1..], now)
  {
    var p', rest := ReportSocket(p, batch[0].fd, batch[0].report, now), batch[1..];
    forall k | 0 <= k < |rest| && rest[k].Socket? ensures ReportOk(p', rest[k].fd, rest[k].report, now) {
      assert rest[k] == batch[k + 1];
      assert ReportOk(p, batch[k + 1].fd, batch[k + 1].report, now);
    }
  }

  /** The reports of a batch, by descriptor. */
  function Reports(batch: seq<Notice>): (m: map<FD, Report>)
    ensures forall fd :: fd in m ==> Socket(fd, m[fd]) in batch
    ensures forall n :: n in batch && n.Socket? ==> n.fd in m
  {
    if batch == [] then map[]
    else if batch[0].Socket? then Reports(batch[1..])[batch[0].fd := batch[0].report]
    else Reports(batch[1..])
  }

  ghost predicate StopFree(batch: seq<Notice>) {
    forall k :: 0 <= k < |batch| && batch[k].Signal? ==> !Ends(batch[k].value)
  }

  /** What one socket's timers, event and deadline are after the batch. */
  ghost predicate SocketAfterBatch(p: Poller, p': Poller, reports: map<FD, Report>, fd: FD, now: nat) {
    if fd in reports && fd in p.active then
      var c, r := ContextReported(p.active[fd], reports[fd], now), reports[fd];
      && fd in p'.active && p'.active[fd] == c
      && fd in p'.pending && p'.pending[fd] == (if fd in p.pending then p.pending[fd] else EventOf(r))
      && (Nearest(c) != INVALID_TIME ==> fd in p'.deadlines && p'.deadlines[fd] == Nearest(c))
    else
      && (fd in p'.active <==> fd in p.active) && (fd in p.active ==> p'.active[fd] == p.active[fd])
      && (fd in p'.pending <==> fd in p.pending) && (fd in p.pending ==> p'.pending[fd] == p.pending[fd])
      && (fd in p'.deadlines <==> fd in p.deadlines) && (fd in p.deadlines ==> p'.deadlines[fd] == p.deadlines[fd])
  }

  /** Without a stop the batch acts on each socket by itself, whatever the order of its reports. */
  lemma {:induction false} BatchIsPointwise(p: Poller, batch: seq<Notice>, now: nat, fd: FD)
    requires BatchOk(p, batch, now) && StopFree(batch)
    ensures SocketAfterBatch(p, EpollEvents(p, batch, now), Reports(batch), fd, now)
    ensures EpollEvents(p, batch, now).interest == p.interest
    decreases |batch|
  {
    if batch != [] {
      var rest := batch[1..];
      if batch[0].Socket? {
        RestOk(p, batch, now);
        assert ReportOk(p, batch[0].fd, batch[0].report, now);
        assert batch[0].fd !in Reports(rest);
        BatchIsPointwise(ReportSocket(p, batch[0].fd, batch[0].report, now), rest, now, fd);
      } else {
        BatchIsPointwise(p, rest, now, fd);
      }
    }
  }

  /**
   A signal that is not an update ends the batch there; a stop also forgets every socket and every event, and
   leaves what epoll and the schedule hold as the reports before it left them.
   */
  lemma {:induction false} SignalEndsBatch(p: Poller, batch: seq<Notice>, now: nat, k: nat)
    requires BatchOk(p, batch, now) && k < |batch| && StopFree(batch[..k])
    requires batch[k].Signal? && (batch[k].value == 0 || batch[k].value >= 0xffff_ffff_ffff)
    ensures BatchOk(p, batch[..k], now)
    ensures var q := EpollEvents(p, batch[..k], now);
            EpollEvents(p, batch, now)
              == if batch[k].value == 0 then q else Poller(map[], q.interest, map[], q.deadlines)
    decreases k
  {
    if k > 0 {
      var rest := batch[1..];
      assert rest[..k - 1] == batch[..k][1..];
      var before := rest[..k - 1];
      forall i | 0 <= i < k - 1 && before[i].Signal? ensures !Ends(before[i].value) {
        assert before[i] == batch[..k][i + 1];
      }
      if batch[0].Socket? {
        RestOk(p, batch, now);
        RestOk(p, batch[..k], now);
        SignalEndsBatch(ReportSocket(p, batch[0].fd, batch[0].report, now), rest, now, k - 1);
      } else {
        assert batch[..k][0] == batch[0];
        SignalEndsBatch(p, rest, now, k - 1);
      }
    }
  }

  /** An update without a timeout registers the socket or changes its mask, and touches no timer or event. */
  lemma UntimedUpdate(p: Poller, fd: FD, mask: Mask, nowRead: nat, nowWrite: nat)
    ensures var p' := UpdateSocket(p, fd, mask, 0xffff_ffff_ffff_ffff, nowRead, nowWrite);
            && p'.interest == p.interest[fd := mask] && p'.pending == p.pending && p'.deadlines == p.deadlines
            && p'.active == if fd in p.active then p.active else p.active[fd := Context(UNARMED, UNARMED)]
  {
    assert fd in p.active ==> p.active[fd := p.active[fd]] == p.active;
  }

  /** A removal takes the socket, and nothing else, out of all four structures, known or not. */
  lemma RemovalIsComplete(p: Poller, fd: FD)
    requires fd in p.active || (fd !in p.pending && fd !in p.deadlines)
    ensures RemoveSocket(p, fd) == Poller(p.active - {fd}, p.interest - {fd}, p.pending - {fd}, p.deadlines - {fd})
  {
    if fd !in p.active {
      assert p.active - {fd} == p.active && p.pending - {fd} == p.pending && p.deadlines - {fd} == p.deadlines;
    }
  }

  predicate ReadExpired(c: Context, now: nat) { now >= c.read.time }

  predicate WriteExpired(c: Context, now: nat) { now >= c.write.time }

  /** What becomes of a socket's pending event when its entry in the schedule comes due. */
  function Expired(pending: map<FD, Event>, fd: FD, c: Context, now: nat): map<FD, Event> {
    var r, w := ReadExpired(c, now), WriteExpired(c, now);
    if !r && !w then pending
    else if fd !in pending then pending[fd := Event(false, false, true, Reason(false, false, false, r, w))]
    else
      var e := pending[fd];
      var r', w' := r && !e.read, w && !e.write;
      if e.close || (!r' && !w') then pending
      else pending[fd := e.(close := true, reason := Reason(false, false, false, r', w'))]
  }

  ghost predicate DueAt(p: Poller, fd: FD, now: nat) { fd in p.deadlines && p.deadlines[fd] <= now }

  /** The pending event of one socket after the schedule has been processed. */
  function EventAfter(p: Poller, fd: FD, now: nat): map<FD, Event> {
    if fd in p.deadlines && p.deadlines[fd] <= now && fd in p.active then Expired(p.pending, fd, p.active[fd], now)
    else p.pending
  }

  /** Processing the schedule: every due entry goes, and each due socket's event is settled by itself. */
  function ProcessScheduler(p: Poller, now: nat): Poller {
    p.(deadlines := map fd | fd in p.deadlines && p.deadlines[fd] > now :: p.deadlines[fd],
       pending := map fd | fd in p.pending.Keys + p.deadlines.Keys && fd in EventAfter(p, fd, now) :: EventAfter(p, fd, now)[fd])
  }

  function Poll(p: Poller, batch: seq<Notice>, now1: nat, now2: nat): Poller
    requires BatchOk(p, batch, now1)
  {
    ProcessScheduler(EpollEvents(p, batch, now1), now2)
  }
}
