/**
 The timer queue of poller/scheduler.cpp: a multimap from deadline to payload, kept in deadline order with
 equal deadlines in insertion order, and an index from payload to its node in the multimap.
 */
module Scheduler {
  import opened Wrappers
  import opened UInt64

  /** A multimap node. `id` stamps its insertion, so that a node value designates one node, as an iterator does. */
  datatype Node = Node(id: nat, time: nat, payload: nat)

  datatype Schedule = Schedule(events: seq<Node>, timeouts: map<nat, Node>, nextId: nat)

  const EMPTY := Schedule([], map[], 0)

  /** The first position whose deadline is later than `time`. */
  function UpperBound(events: seq<Node>, time: nat): (k: nat)
    ensures k <= |events|
    ensures forall i :: 0 <= i < k ==> events[i].time <= time
    ensures k < |events| ==> events[k].time > time
  {
    if events == [] || events[0].time > time then 0 else 1 + UpperBound(events[1..], time)
  }

  function Insert(events: seq<Node>, n: Node): seq<Node> {
    var k := UpperBound(events, n.time);
    events[..k] + [n] + events[k..]
  }

  /** The position of a node, or the length when it is not there. */
  function Find(events: seq<Node>, n: Node): (k: nat)
    ensures k <= |events|
    ensures k < |events| ==> events[k] == n
    ensures n in events ==> k < |events|
  {
    if events == [] || events[0] == n then 0 else 1 + Find(events[1..], n)
  }

  function Erase(events: seq<Node>, n: Node): seq<Node> {
    var k := Find(events, n);
    if k < |events| then events[..k] + events[k + 1..] else events
  }

  function Added(s: Schedule, time: nat, payload: nat): Schedule {
    if time == INVALID_TIME then s
    else
      var rest := if payload in s.timeouts then Erase(s.events, s.timeouts[payload]) else s.events;
      var event := Node(s.nextId, time, payload);
      Schedule(Insert(rest, event), s.timeouts[payload := event], s.nextId + 1)
  }

  function Deleted(s: Schedule, payload: nat): Schedule {
    if payload !in s.timeouts then s
    else s.(events := Erase(s.events, s.timeouts[payload]), timeouts := s.timeouts - {payload})
  }

  predicate Due(s: Schedule, now: nat) { s.events != [] && s.events[0].time <= now }

  function Popped(s: Schedule): Schedule
    requires s.events != []
  {
    s.(events := s.events[1..], timeouts := s.timeouts - {s.events[0].payload})
  }

  function WaitMs(s: Schedule, now: nat): int {
    if s.events == [] then -1
    else if s.events[0].time <= now then 0
    else ToInt64(s.events[0].time - now)
  }

  /** Deadline order, and insertion order among equal deadlines. */
  predicate Before(a: Node, b: Node) { a.time < b.time || (a.time == b.time && a.id < b.id) }

  ghost predicate Ordered(events: seq<Node>) {
    forall i, j :: 0 <= i < j < |events| ==> Before(events[i], events[j])
  }

  /** The multimap and its index are in bijection: each payload maps to the one node that holds it. */
  ghost predicate Indexed(s: Schedule) {
    && (forall n :: n in s.events ==> n.payload in s.timeouts && s.timeouts[n.payload] == n)
    && (forall p :: p in s.timeouts ==> s.timeouts[p] in s.events && s.timeouts[p].payload == p)
  }

  ghost predicate Valid(s: Schedule) {
    && Ordered(s.events) && Indexed(s)
    && (forall n :: n in s.events ==> n.id < s.nextId && n.time < INVALID_TIME)
  }

  /** The abstract schedule: the deadline of every scheduled payload. */
  function Deadlines(s: Schedule): map<nat, nat> {
    map p | p in s.timeouts :: s.timeouts[p].time
  }

  lemma InsertOrdered(events: seq<Node>, n: Node)
    requires Ordered(events) && forall m :: m in events ==> m.id < n.id
    ensures Ordered(Insert(events, n))
    ensures forall m :: m in Insert(events, n) <==> m == n || m in events
  {
    var k := UpperBound(events, n.time);
    var r := Insert(events, n);
    forall i, j | 0 <= i < j < |r| ensures Before(r[i], r[j]) {
      if i < k && j == k {
        assert events[i] in events;
      }
      if i == k && k < |events| && j > k + 1 {
        assert Before(events[k], events[j - 1]);
      }
    }
    assert events == events[..k] + events[k..];
  }

  lemma EraseOrdered(events: seq<Node>, n: Node)
    requires Ordered(events) && n in events
    ensures Ordered(Erase(events, n))
    ensures forall m :: m in Erase(events, n) <==> m in events && m != n
  {
    var k := Find(events, n);
    var r := Erase(events, n);
    assert events == events[..k] + [n] + events[k + 1..];
    forall i | 0 <= i < |r| ensures r[i] != n {
      if i < k {
        assert Before(events[i], events[k]);
      } else {
        assert Before(events[k], events[i + 1]);
      }
    }
  }

  /** The bijection after `node` has replaced whatever node its payload had. */
  lemma Replaced(s: Schedule, s': Schedule, node: Node)
    requires Valid(s) && node.id == s.nextId && node.time < INVALID_TIME
    requires Ordered(s'.events) && s'.nextId == s.nextId + 1 && s'.timeouts == s.timeouts[node.payload := node]
    requires forall m :: m in s'.events <==> m == node || (m in s.events && m.payload != node.payload)
    ensures Valid(s') && Deadlines(s') == Deadlines(s)[node.payload := node.time]
  {
  }

  /** The bijection after the node of `payload` has gone. */
  lemma Removed(s: Schedule, s': Schedule, payload: nat)
    requires Valid(s)
    requires Ordered(s'.events) && s'.nextId == s.nextId && s'.timeouts == s.timeouts - {payload}
    requires forall m :: m in s'.events <==> m in s.events && m.payload != payload
    ensures Valid(s') && Deadlines(s') == Deadlines(s) - {payload}
  {
  }

  /** Adding overwrites: the payload gets the new deadline, every other one keeps its own. */
  lemma AddRefines(s: Schedule, time: nat, payload: nat)
    requires Valid(s) && time < INVALID_TIME
    ensures Valid(Added(s, time, payload))
    ensures Deadlines(Added(s, time, payload)) == Deadlines(s)[payload := time]
  {
    var node := Node(s.nextId, time, payload);
    var s' := Added(s, time, payload);
    if payload in s.timeouts {
      var rest := Erase(s.events, s.timeouts[payload]);
      EraseOrdered(s.events, s.timeouts[payload]);
      InsertOrdered(rest, node);
    } else {
      InsertOrdered(s.events, node);
    }
    Replaced(s, s', node);
  }

  /** Deleting removes the payload and nothing else. */
  lemma DeleteRefines(s: Schedule, payload: nat)
    requires Valid(s)
    ensures Valid(Deleted(s, payload))
    ensures Deadlines(Deleted(s, payload)) == Deadlines(s) - {payload}
  {
    if payload in s.timeouts {
      EraseOrdered(s.events, s.timeouts[payload]);
      Removed(s, Deleted(s, payload), payload);
    }
  }

  /** The first node has the least deadline of all. */
  lemma FirstIsLeast(s: Schedule, p: nat)
    requires Valid(s) && p in s.timeouts
    ensures s.events != []
    ensures p != s.events[0].payload ==> Before(s.events[0], s.timeouts[p])
    ensures s.events[0].time <= s.timeouts[p].time
  {
    var i :| 0 <= i < |s.events| && s.events[i] == s.timeouts[p];
    if i > 0 { assert Before(s.events[0], s.events[i]); }
  }

  /** Taking the first event removes one with the least deadline and nothing else. */
  lemma {:induction false} PopRefines(s: Schedule)
    requires Valid(s) && s.events != []
    ensures var d, p := Deadlines(s), s.events[0].payload;
            && Valid(Popped(s)) && Deadlines(Popped(s)) == d - {p}
            && p in d && d[p] == s.events[0].time
            && forall q :: q in d ==> d[p] <= d[q]
  {
    var first := s.events[0];
    forall q | q in s.timeouts ensures first.time <= s.timeouts[q].time {
      FirstIsLeast(s, q);
    }
    assert first in s.events;
    assert Erase(s.events, first) == s.events[1..];
    EraseOrdered(s.events, first);
    Removed(s, Popped(s), first.payload);
  }

  /** An event is due exactly when some deadline has passed. */
  lemma DueIffPassed(s: Schedule, now: nat)
    requires Valid(s)
    ensures Due(s, now) <==> exists p :: p in Deadlines(s) && Deadlines(s)[p] <= now
  {
    forall q | q in s.timeouts ensures s.events != [] && s.events[0].time <= s.timeouts[q].time {
      FirstIsLeast(s, q);
    }
    if s.events != [] {
      assert s.events[0] in s.events;
      assert s.events[0].payload in Deadlines(s);
    }
  }

  /** The payloads that repeated calls of `get_next_event` at one fixed time yield, until it returns false. */
  function Drain(s: Schedule, now: nat): seq<nat>
    decreases |s.events|
  {
    if !Due(s, now) then [] else [s.events[0].payload] + Drain(Popped(s), now)
  }

  /** Draining walks along the multimap up to the first deadline that has not passed. */
  lemma {:induction false} DrainIsPrefix(s: Schedule, now: nat)
    ensures var k, r := UpperBound(s.events, now), Drain(s, now);
            |r| == k && forall i :: 0 <= i < k ==> r[i] == s.events[i].payload
    decreases |s.events|
  {
    if Due(s, now) {
      var s' := Popped(s);
      DrainIsPrefix(s', now);
      var r, r' := Drain(s, now), Drain(s', now);
      assert r == [s.events[0].payload] + r';
      forall i | 0 <= i < |r| ensures r[i] == s.events[i].payload {
        if i > 0 { assert r[i] == r'[i - 1]; }
      }
    }
  }

  /** Draining yields exactly the due payloads, once each. */
  lemma DrainIsDue(s: Schedule, now: nat)
    requires Valid(s)
    ensures var d, r := Deadlines(s), Drain(s, now);
            && (forall p :: p in r <==> p in d && d[p] <= now)
            && (forall i, j :: 0 <= i < j < |r| ==> r[i] != r[j])
  {
    var d, r, k := Deadlines(s), Drain(s, now), UpperBound(s.events, now);
    DrainIsPrefix(s, now);
    forall p ensures p in r <==> p in d && d[p] <= now {
      if p in d && d[p] <= now {
        var i :| 0 <= i < |s.events| && s.events[i] == s.timeouts[p];
        if i >= k {
          LaterThanBound(s.events, now, i);
        }
        assert r[i] == p;
      }
      if p in r {
        var i :| 0 <= i < |r| && r[i] == p;
        assert s.events[i] in s.events;
      }
    }
    forall i, j | 0 <= i < j < |r| ensures r[i] != r[j] {
      assert s.events[i] in s.events && s.events[j] in s.events;
      assert Before(s.events[i], s.events[j]);
    }
  }

  lemma LaterThanBound(events: seq<Node>, now: nat, i: nat)
    requires Ordered(events) && UpperBound(events, now) <= i < |events|
    ensures events[i].time > now
  {
    var k := UpperBound(events, now);
    if k < i { assert Before(events[k], events[i]); }
  }

  /**
   Draining goes by deadline, and through equal deadlines in the order in which their payloads were last
   added: the index holds the stamp of the latest addition.
   */
  lemma {:induction false} DrainIsOrdered(s: Schedule, now: nat, i: nat, j: nat)
    requires Valid(s) && i < j < |Drain(s, now)|
    ensures var r := Drain(s, now);
            && r[i] in s.timeouts && r[j] in s.timeouts
            && Before(s.timeouts[r[i]], s.timeouts[r[j]])
  {
    DrainIsPrefix(s, now);
    assert s.events[i] in s.events && s.events[j] in s.events;
    assert Before(s.events[i], s.events[j]);
  }

  /** The most recent addition carries the largest stamp of all. */
  lemma LatestStamp(s: Schedule, time: nat, payload: nat, other: nat)
    requires Valid(s) && time < INVALID_TIME && other in s.timeouts && other != payload
    ensures var s' := Added(s, time, payload);
            other in s'.timeouts && s'.timeouts[other] == s.timeouts[other] && s.timeouts[other].id < s'.timeouts[payload].id
  {
    assert s.timeouts[other] in s.events;
  }

  /**
   The announced wait: -1 exactly when nothing is scheduled, 0 exactly when an event is due, and otherwise
   the least wait after which an event is due, exactly when the least deadline is less than 2^63 away.
   */
  lemma WaitIsExact(s: Schedule, now: nat)
    requires Valid(s)
    ensures var w := WaitMs(s, now);
            && (w == -1 <==> Deadlines(s) == map[])
            && (w == 0 <==> Due(s, now))
            && (s.events != [] ==> (LeastWait(s, now, w) <==> s.events[0].time - now < INT64_LIMIT))
  {
    var w := WaitMs(s, now);
    if s.events != [] {
      assert s.events[0] in s.events;
      assert s.events[0].payload in Deadlines(s);
      assert w < 0 ==> !LeastWait(s, now, w);
      if s.events[0].time - now < INT64_LIMIT {
        assert Due(s, now + w);
      }
    } else if p: nat :| p in s.timeouts {
      FirstIsLeast(s, p);
    }
  }

  /** `w` is the least wait after which an event is due. */
  ghost predicate LeastWait(s: Schedule, now: nat, w: int) {
    w >= 0 && Due(s, now + w) && forall t: nat :: now <= t < now + w ==> !Due(s, t)
  }

  datatype Call = Add(time: nat, payload: nat) | Next(now: nat) | Delete(payload: nat)

  function Apply(s: Schedule, c: Call): Schedule {
    match c
    case Add(time, payload) => Added(s, time, payload)
    case Next(now) => if Due(s, now) then Popped(s) else s
    case Delete(payload) => Deleted(s, payload)
  }

  function Execute(calls: seq<Call>): Schedule {
    if calls == [] then EMPTY else Apply(Execute(calls[..|calls| - 1]), calls[|calls| - 1])
  }

  /** After any sequence of calls the multimap and its index are in bijection and the multimap is in order. */
  lemma {:induction false} AlwaysValid(calls: seq<Call>)
    requires forall k :: 0 <= k < |calls| && calls[k].Add? ==> calls[k].time <= INVALID_TIME
    ensures Valid(Execute(calls))
    decreases |calls|
  {
    if calls != [] {
      var s, c := Execute(calls[..|calls| - 1]), calls[|calls| - 1];
      AlwaysValid(calls[..|calls| - 1]);
      if c.Add? && c.time < INVALID_TIME {
        AddRefines(s, c.time, c.payload);
      } else if c.Delete? {
        DeleteRefines(s, c.payload);
      } else if c.Next? && Due(s, c.now) {
        PopRefines(s);
      }
    }
  }

  /** The scheduler object. */
  class SchedulerQueue {
    var events: seq<Node>
    var timeouts: map<nat, Node>
    var nextId: nat

    ghost function Value(): Schedule
      reads this
    {
      Schedule(events, timeouts, nextId)
    }

    constructor ()
      ensures Value() == EMPTY
    {
      events, timeouts, nextId := [], map[], 0;
    }

    method AddEvent(time: nat, payload: nat)
      requires Valid(Value()) && time <= INVALID_TIME
      modifies this
      ensures Value() == Added(old(Value()), time, payload) && Valid(Value())
      ensures Deadlines(Value()) == if time == INVALID_TIME then old(Deadlines(Value())) else old(Deadlines(Value()))[payload := time]
    {
      if time == INVALID_TIME {
        return;
      }
      AddRefines(Value(), time, payload);
      ghost var s := Value();
      if payload in timeouts {
        events := Erase(events, timeouts[payload]);
      }
      var event := Node(nextId, time, payload);
      nextId := nextId + 1;
      events := Insert(events, event);
      timeouts := timeouts[payload := event];
      assert Value() == Added(s, time, payload);
    }

    method GetNextEvent(now: nat) returns (payload: Option<nat>)
      requires Valid(Value())
      modifies this
      ensures Valid(Value())
      ensures payload.None? <==> forall p :: p in old(Deadlines(Value())) ==> old(Deadlines(Value()))[p] > now
      ensures payload.None? ==> Value() == old(Value())
      ensures payload.Some? ==>
                var d, p := old(Deadlines(Value())), payload.value;
                && p == old(events)[0].payload && Value() == Popped(old(Value()))
                && p in d && d[p] <= now && Deadlines(Value()) == d - {p}
                && forall q :: q in d ==> d[p] <= d[q]
    {
      DueIffPassed(Value(), now);
      if events != [] {
        PopRefines(Value());
      }
      if events == [] || events[0].time > now {
        return None;
      }
      var p := events[0].payload;
      events := events[1..];
      timeouts := timeouts - {p};
      return Some(p);
    }

    method DeleteEvent(payload: nat)
      requires Valid(Value())
      modifies this
      ensures Value() == Deleted(old(Value()), payload)
      ensures Valid(Value()) && Deadlines(Value()) == old(Deadlines(Value())) - {payload}
    {
      DeleteRefines(Value(), payload);
      if payload !in timeouts {
        return;
      }
      events := Erase(events, timeouts[payload]);
      timeouts := timeouts - {payload};
    }

    method MsToNextEvent(now: nat) returns (wait: int)
      ensures wait == WaitMs(Value(), now)
    {
      if events == [] {
        return -1;
      }
      var first := events[0].time;
      return if first <= now then 0 else ToInt64(first - now);
    }
  }
}
