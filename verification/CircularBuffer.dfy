/**
 The byte ring of common/circular_buffer.cpp. Pointers are offsets from the start of the storage; the
 overlap flag tells a full ring from an empty one. A client fills bytes at the head and commits them with
 `write`, and reads bytes at the tail and drops them with `read`.
 */
module CircularBuffer {
  import opened Wrappers

  datatype Ring<T> = Ring(data: seq<T>, head: nat, tail: nat, overlap: bool)

  ghost predicate Valid<T>(r: Ring<T>) {
    && r.head <= |r.data| && r.tail <= |r.data|
    && (|r.data| > 0 ==> r.head < |r.data| && r.tail < |r.data|)
    && (if r.overlap then r.head <= r.tail else r.tail <= r.head)
    && (|r.data| == 0 ==> !r.overlap)
  }

  function AvailableRead<T>(r: Ring<T>): int { if r.overlap then |r.data| - r.tail else r.head - r.tail }

  function AvailableWrite<T>(r: Ring<T>): int { if r.overlap then r.tail - r.head else |r.data| - r.head }

  function Size<T>(r: Ring<T>): int {
    if r.overlap then |r.data| - r.tail + r.head else r.head - r.tail
  }

  /** The committed and unread bytes, oldest first. */
  function Contents<T>(r: Ring<T>): seq<T>
    requires Valid(r)
  {
    if r.overlap then r.data[r.tail..] + r.data[..r.head] else r.data[r.tail..r.head]
  }

  /** Commits `bytes`, which the client has just filled in at the head; refused when they exceed the room there. */
  function Written<T>(r: Ring<T>, bytes: seq<T>): (r': Option<Ring<T>>)
    requires Valid(r)
  {
    var n := |bytes|;
    if n == 0 then Some(r)
    else if n > AvailableWrite(r) then None
    else
      var data := r.data[..r.head] + bytes + r.data[r.head + n..];
      var wraps := r.head + n == |r.data|;
      Some(Ring(data, if wraps then 0 else r.head + n, r.tail, if wraps then !r.overlap else r.overlap))
  }

  /** Drops `n` bytes at the tail; refused when they exceed those readable there. */
  function Dropped<T>(r: Ring<T>, n: nat): (r': Option<Ring<T>>)
    requires Valid(r)
  {
    if n == 0 then Some(r)
    else if n > AvailableRead(r) then None
    else
      var wraps := r.tail + n == |r.data|;
      Some(r.(tail := if wraps then 0 else r.tail + n, overlap := if wraps then !r.overlap else r.overlap))
  }

  /** The size is the number of bytes held, and the emptiness and fullness tests decide the two extremes. */
  lemma SizeIsLength<T>(r: Ring<T>)
    requires Valid(r)
    ensures Size(r) == |Contents(r)| <= |r.data|
    ensures AvailableRead(r) == 0 <==> Contents(r) == []
    ensures AvailableWrite(r) == 0 <==> Size(r) == |r.data|
  {
  }

  lemma StraightWriteAppends<T>(data: seq<T>, tail: nat, head: nat, bytes: seq<T>)
    requires tail <= head && head + |bytes| <= |data|
    ensures var data' := data[..head] + bytes + data[head + |bytes|..];
            data'[tail..head + |bytes|] == data[tail..head] + bytes
  {
  }

  lemma WrappedWriteAppends<T>(data: seq<T>, tail: nat, head: nat, bytes: seq<T>)
    requires head + |bytes| <= tail <= |data|
    ensures var data' := data[..head] + bytes + data[head + |bytes|..];
            data'[tail..] == data[tail..] && data'[..head + |bytes|] == data[..head] + bytes
  {
  }

  /** A commit appends the bytes to the queue. */
  lemma WriteAppends<T>(r: Ring<T>, bytes: seq<T>)
    requires Valid(r) && Written(r, bytes).Some?
    ensures var r' := Written(r, bytes).value;
            Valid(r') && |r'.data| == |r.data| && Contents(r') == Contents(r) + bytes
  {
    if bytes == [] {
      assert Contents(r) + bytes == Contents(r);
    } else if r.overlap {
      WrappedWriteAppends(r.data, r.tail, r.head, bytes);
    } else {
      StraightWriteAppends(r.data, r.tail, r.head, bytes);
    }
  }

  /** The ring after its head has moved on by `n`, back to the start at the end. */
  function Advanced<T>(r: Ring<T>, n: nat): Ring<T> {
    if r.head + n == |r.data| then r.(head := 0, overlap := !r.overlap) else r.(head := r.head + n)
  }

  lemma Rewritten<T>(data: seq<T>, head: nat, n: nat)
    requires head + n <= |data|
    ensures data[..head] + data[head..head + n] + data[head + n..] == data
  {
  }

  /** Committing bytes that are in place already only moves the head. */
  lemma InPlace<T>(r: Ring<T>, n: nat, bytes: seq<T>)
    requires Valid(r) && 0 < n <= AvailableWrite(r) && bytes == r.data[r.head..r.head + n]
    ensures Written(r, bytes) == Some(Advanced(r, n))
    ensures Valid(Advanced(r, n)) && Contents(Advanced(r, n)) == Contents(r) + bytes
  {
    Rewritten(r.data, r.head, n);
    WriteAppends(r, bytes);
  }

  lemma Cut<T>(data: seq<T>, from: nat, n: nat, upto: nat)
    requires from + n <= upto <= |data|
    ensures data[from..upto] == data[from..from + n] + data[from + n..upto]
  {
  }

  lemma Regroup<T>(a: seq<T>, b: seq<T>, c: seq<T>)
    ensures (a + b) + c == a + (b + c)
  {
  }

  lemma NothingBefore<T>(s: seq<T>, t: seq<T>)
    requires s == []
    ensures s + t == t
  {
  }

  /** The ring after its tail has moved on by `n`, back to the start at the end. */
  function Passed<T>(r: Ring<T>, n: nat): Ring<T> {
    if r.tail + n == |r.data| then r.(tail := 0, overlap := !r.overlap) else r.(tail := r.tail + n)
  }

  lemma PassedIsDropped<T>(r: Ring<T>, n: nat)
    requires Valid(r) && 0 < n <= AvailableRead(r)
    ensures Dropped(r, n) == Some(Passed(r, n)) && Valid(Passed(r, n)) && r.tail + n <= |r.data|
  {
  }

  lemma WrappedCut<T>(data: seq<T>, tail: nat, n: nat, head: nat)
    requires tail + n <= |data| && head <= |data|
    ensures data[tail..] + data[..head] == data[tail..tail + n] + (data[tail + n..] + data[..head])
  {
    Cut(data, tail, n, |data|);
    Regroup(data[tail..tail + n], data[tail + n..], data[..head]);
  }

  lemma WrappedReadRemoves<T>(r: Ring<T>, n: nat)
    requires Valid(r) && 0 < n <= AvailableRead(r) && r.overlap
    ensures Valid(Passed(r, n)) && Contents(r) == r.data[r.tail..r.tail + n] + Contents(Passed(r, n))
  {
    WrappedCut(r.data, r.tail, n, r.head);
    if r.tail + n == |r.data| {
      NothingBefore(r.data[r.tail + n..], r.data[..r.head]);
      assert Contents(Passed(r, n)) == r.data[..r.head];
    }
  }

  /** A read removes the oldest bytes, and it is those the client finds at the tail. */
  lemma ReadRemoves<T>(r: Ring<T>, n: nat)
    requires Valid(r) && Dropped(r, n).Some?
    ensures var r' := Dropped(r, n).value;
            && Valid(r') && |r'.data| == |r.data| && r.tail + n <= |r.data|
            && Contents(r) == r.data[r.tail..r.tail + n] + Contents(r')
  {
    if n == 0 {
      NothingBefore(r.data[r.tail..r.tail], Contents(r));
    } else {
      PassedIsDropped(r, n);
      if r.overlap {
        WrappedReadRemoves(r, n);
      } else {
        Cut(r.data, r.tail, n, r.head);
      }
    }
  }

  /** A refusal means that the room or the bytes are not there in one piece. */
  lemma RefusalsAreExact<T>(r: Ring<T>, bytes: seq<T>, n: nat)
    requires Valid(r)
    ensures Written(r, bytes).None? <==> |bytes| > (if r.overlap then |r.data| - Size(r) else |r.data| - r.head)
    ensures Dropped(r, n).None? <==> n > (if r.overlap then |r.data| - r.tail else Size(r))
  {
  }

  /** Two maximal reads drain the ring, across the wrap. */
  lemma TwoReadsDrain<T>(r: Ring<T>)
    requires Valid(r)
    ensures var once := Dropped(r, AvailableRead(r));
            && once.Some? && Valid(once.value)
            && var twice := Dropped(once.value, AvailableRead(once.value));
               twice.Some? && Valid(twice.value) && Contents(twice.value) == []
  {
  }

  datatype Op<T> = Put(bytes: seq<T>) | Take(n: nat)

  /** A ring with all that was ever committed and all that was ever read. */
  datatype History<T> = History(ring: Ring<T>, written: seq<T>, read: seq<T>)

  /** One commit; a refused one changes nothing. */
  function Apply<T>(h: History<T>, op: Op<T>): History<T>
    requires Valid(h.ring)
  {
    match op
    case Put(bytes) =>
      var r := Written(h.ring, bytes);
      if r.None? then h else h.(ring := r.value, written := h.written + bytes)
    case Take(n) =>
      var r := Dropped(h.ring, n);
      if r.None? then h
      else
        ReadRemoves(h.ring, n);
        h.(ring := r.value, read := h.read + h.ring.data[h.ring.tail..h.ring.tail + n])
  }

  /** After any run of commits, what was read followed by what is held is what was written, in order. */
  ghost function Run<T>(blank: seq<T>, ops: seq<Op<T>>): (h: History<T>)
    ensures Valid(h.ring) && |h.ring.data| == |blank|
    ensures h.written == h.read + Contents(h.ring)
    ensures Size(h.ring) == |h.written| - |h.read|
    decreases |ops|
  {
    if ops == [] then History(Ring(blank, 0, 0, false), [], [])
    else
      var h, op := Run(blank, ops[..|ops| - 1]), ops[|ops| - 1];
      var h' := Apply(h, op);
      assert Valid(h'.ring) && |h'.ring.data| == |blank| && h'.written == h'.read + Contents(h'.ring) by {
        ApplyKeepsFifo(h, op);
      }
      SizeIsLength(h'.ring);
      h'
  }

  lemma PutKeepsFifo<T>(h: History<T>, bytes: seq<T>)
    requires Valid(h.ring) && h.written == h.read + Contents(h.ring) && Written(h.ring, bytes).Some?
    ensures var h' := Apply(h, Put(bytes));
            Valid(h'.ring) && |h'.ring.data| == |h.ring.data| && h'.written == h'.read + Contents(h'.ring)
  {
    WriteAppends(h.ring, bytes);
    Regroup(h.read, Contents(h.ring), bytes);
  }

  lemma TakeKeepsFifo<T>(h: History<T>, n: nat)
    requires Valid(h.ring) && h.written == h.read + Contents(h.ring) && Dropped(h.ring, n).Some?
    ensures var h' := Apply(h, Take(n));
            Valid(h'.ring) && |h'.ring.data| == |h.ring.data| && h'.written == h'.read + Contents(h'.ring)
  {
    ReadRemoves(h.ring, n);
    Regroup(h.read, h.ring.data[h.ring.tail..h.ring.tail + n], Contents(Dropped(h.ring, n).value));
  }

  lemma ApplyKeepsFifo<T>(h: History<T>, op: Op<T>)
    requires Valid(h.ring) && h.written == h.read + Contents(h.ring)
    ensures var h' := Apply(h, op);
            Valid(h'.ring) && |h'.ring.data| == |h.ring.data| && h'.written == h'.read + Contents(h'.ring)
  {
    match op
    case Put(bytes) =>
      if Written(h.ring, bytes).Some? {
        PutKeepsFifo(h, bytes);
      }
    case Take(n) =>
      if Dropped(h.ring, n).Some? {
        TakeKeepsFifo(h, n);
      }
  }

  /** The buffer object. */
  class Buffer<T> {
    const data: array<T>
    var head: nat
    var tail: nat
    var overlap: bool

    ghost function Value(): Ring<T>
      reads this, data
    {
      Ring(data[..], head, tail, overlap)
    }

    constructor (size: nat, blank: T)
      ensures Valid(Value()) && Contents(Value()) == [] && data.Length == size && fresh(data)
    {
      data := new T[size](_ => blank);
      head, tail, overlap := 0, 0, false;
    }

    /** Moves an offset on and back to the start at the end; the flag is toggled there. Throws past the end. */
    method Increase(at: nat, size: nat) returns (moved: Option<nat>)
      modifies `overlap
      ensures moved.None? <==> at + size > data.Length
      ensures moved.Some? ==> moved.value == if at + size == data.Length then 0 else at + size
      ensures overlap == if moved.Some? && at + size == data.Length then !old(overlap) else old(overlap)
    {
      if at + size > data.Length {
        return None;
      }
      var p := at + size;
      if p == data.Length {
        p := 0;
        overlap := !overlap;
      }
      return Some(p);
    }

    /** Commits the `size` bytes the client has filled in at the head; throws when there is no such room. */
    method Write(size: nat) returns (ok: bool)
      requires Valid(Value())
      modifies `head, `overlap
      ensures Valid(Value())
      ensures ok <==> size <= old(AvailableWrite(Value()))
      ensures !ok ==> Value() == old(Value())
      ensures ok ==> old(head) + size <= data.Length
                     && Some(Value()) == Written(old(Value()), data[..][old(head)..old(head) + size])
                     && Contents(Value()) == old(Contents(Value())) + data[..][old(head)..old(head) + size]
    {
      ghost var r := Value();
      if size == 0 {
        assert Contents(r) + r.data[head..head] == Contents(r);
        return true;
      }
      if size > (if overlap then tail - head else data.Length - head) {
        return false;
      }
      ghost var bytes := r.data[r.head..r.head + size];
      InPlace(r, size, bytes);
      var moved := Increase(head, size);
      head := moved.value;
      assert Value() == Advanced(r, size) && data[..][old(head)..old(head) + size] == bytes;
      return true;
    }

    /** Drops the `size` bytes at the tail; throws when there are not that many. */
    method Read(size: nat) returns (ok: bool)
      requires Valid(Value())
      modifies `tail, `overlap
      ensures Valid(Value())
      ensures ok <==> size <= old(AvailableRead(Value()))
      ensures !ok ==> Value() == old(Value())
      ensures ok ==> old(tail) + size <= data.Length && Some(Value()) == Dropped(old(Value()), size)
                     && old(Contents(Value())) == data[..][old(tail)..old(tail) + size] + Contents(Value())
    {
      ghost var r := Value();
      if size == 0 {
        NothingBefore(r.data[tail..tail], Contents(r));
        return true;
      }
      if size > (if overlap then data.Length - tail else head - tail) {
        return false;
      }
      ghost var bytes := r.data[r.tail..r.tail + size];
      PassedIsDropped(r, size);
      ReadRemoves(r, size);
      var moved := Increase(tail, size);
      tail := moved.value;
      assert Value() == Passed(r, size) && data[..][old(tail)..old(tail) + size] == bytes;
      return true;
    }

    /** The client's copy to the head of a buffer with room for it leaves the held bytes alone. */
    method Fill(bytes: seq<T>)
      requires Valid(Value()) && |bytes| <= AvailableWrite(Value())
      modifies data
      ensures Valid(Value()) && head + |bytes| <= data.Length && data[head..head + |bytes|] == bytes
      ensures Contents(Value()) == old(Contents(Value()))
    {
      ghost var r := Value();
      for i := 0 to |bytes|
        invariant data[head..head + i] == bytes[..i]
        invariant forall k :: 0 <= k < data.Length && !(head <= k < head + i) ==> data[k] == r.data[k]
      {
        data[head + i] := bytes[i];
      }
      if overlap {
        assert data[tail..] == r.data[tail..] && data[..head] == r.data[..head];
      } else {
        assert data[tail..head] == r.data[tail..head];
      }
    }

    /** A client filling and committing `bytes` appends them to the queue. */
    method Put(bytes: seq<T>)
      requires Valid(Value()) && |bytes| <= AvailableWrite(Value())
      modifies this, data
      ensures Valid(Value()) && Contents(Value()) == old(Contents(Value())) + bytes
    {
      Fill(bytes);
      assert data[..][head..head + |bytes|] == data[head..head + |bytes|];
      var ok := Write(|bytes|);
    }
  }
}
