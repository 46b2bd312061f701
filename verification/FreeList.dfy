/**
 The free list of memory/chunker.tpp as a value: where it starts, and the `next` field of every block. A
 field holds the index of the next free block, or the number of blocks at the end of the list.
 */
module FreeList {
  import opened Wrappers

  datatype Heap = Heap(next: Option<nat>, fields: seq<nat>)

  function Ascending(from: nat, n: nat): (r: seq<nat>)
    ensures |r| == n && forall i :: 0 <= i < n ==> r[i] == from + i
  {
    seq(n, i => from + i)
  }

  function Init(n: nat): Heap
    requires n > 0
  {
    Heap(Some(0), Ascending(1, n))
  }

  /** The block a field value leads to. */
  function Link(v: nat, n: nat): Option<nat> { if v == n then None else Some(v) }

  /** The block handed out, and the list without it. */
  function Create(h: Heap): (r: (Option<nat>, Heap))
    requires h.next.Some? ==> h.next.value < |h.fields|
  {
    if h.next.None? then (None, h)
    else (h.next, h.(next := Link(h.fields[h.next.value], |h.fields|)))
  }

  function Destroy(h: Heap, block: nat): Heap
    requires block < |h.fields|
  {
    Heap(Some(block), h.fields[block := if h.next.None? then |h.fields| else h.next.value])
  }

  /** Following the fields from `from` visits exactly the blocks of `c` and then meets the end mark. */
  ghost predicate IsChain(fields: seq<nat>, from: Option<nat>, c: seq<nat>)
    decreases |c|
  {
    if c == [] then from.None?
    else from == Some(c[0]) && c[0] < |fields| && IsChain(fields, Link(fields[c[0]], |fields|), c[1..])
  }

  /** The fields determine the chain. */
  lemma {:induction false} ChainIsUnique(fields: seq<nat>, from: Option<nat>, c: seq<nat>, d: seq<nat>)
    requires IsChain(fields, from, c) && IsChain(fields, from, d)
    ensures c == d
    decreases |c|
  {
    if c != [] {
      ChainIsUnique(fields, Link(fields[c[0]], |fields|), c[1..], d[1..]);
      assert c == [c[0]] + c[1..] && d == [d[0]] + d[1..];
    }
  }

  lemma {:induction false} ChainSuffix(fields: seq<nat>, from: Option<nat>, c: seq<nat>, k: nat)
    requires IsChain(fields, from, c) && k < |c|
    ensures c[k] < |fields| && IsChain(fields, Some(c[k]), c[k..])
    decreases k
  {
    if k > 0 {
      ChainSuffix(fields, Link(fields[c[0]], |fields|), c[1..], k - 1);
      assert c[1..][k - 1..] == c[k..];
    }
  }

  ghost predicate NoRepeats(c: seq<nat>) { forall i, j :: 0 <= i < j < |c| ==> c[i] != c[j] }

  /** A chain that ends cannot visit a block twice. */
  lemma ChainIsAcyclic(fields: seq<nat>, from: Option<nat>, c: seq<nat>)
    requires IsChain(fields, from, c)
    ensures NoRepeats(c)
  {
    forall i, j | 0 <= i < j < |c| ensures c[i] != c[j] {
      ChainSuffix(fields, from, c, i);
      ChainSuffix(fields, from, c, j);
      if c[i] == c[j] {
        ChainIsUnique(fields, Some(c[i]), c[i..], c[j..]);
      }
    }
  }

  /** Writing the field of a block outside the chain does not change the chain. */
  lemma {:induction false} ChainFrame(fields: seq<nat>, from: Option<nat>, c: seq<nat>, block: nat, v: nat)
    requires IsChain(fields, from, c) && block < |fields| && block !in c
    ensures IsChain(fields[block := v], from, c)
    decreases |c|
  {
    if c != [] {
      ChainFrame(fields, Link(fields[c[0]], |fields|), c[1..], block, v);
    }
  }

  /** The heap with the list of its free blocks. */
  datatype State = State(heap: Heap, free: seq<nat>)

  datatype Op = Alloc | Free(block: nat)

  ghost predicate Inv(s: State) {
    && IsChain(s.heap.fields, s.heap.next, s.free)
    && NoRepeats(s.free)
    && (forall b :: b in s.free ==> b < |s.heap.fields|)
  }

  ghost function All(n: nat): (r: set<nat>)
    ensures forall b: nat :: b in r <==> b < n
  {
    if n == 0 then {} else All(n - 1) + {n - 1}
  }

  ghost function FreeSet(s: State): set<nat> { set b | b in s.free }

  ghost function Live(s: State): set<nat> { All(|s.heap.fields|) - FreeSet(s) }

  /** Only a live block may be freed. */
  ghost predicate Allowed(s: State, op: Op) { op.Free? ==> op.block in Live(s) }

  function Step(s: State, op: Op): State
    requires op.Alloc? && s.heap.next.Some? ==> s.heap.next.value < |s.heap.fields| && s.free != []
    requires op.Free? ==> op.block < |s.heap.fields|
  {
    match op
    case Alloc => State(Create(s.heap).1, if s.heap.next.None? then s.free else s.free[1..])
    case Free(b) => State(Destroy(s.heap, b), [b] + s.free)
  }

  /** Allocation fails exactly when every block is live; otherwise the block it hands out becomes live. */
  lemma CreateIsFresh(s: State)
    requires Inv(s)
    ensures var (b, h) := Create(s.heap);
            && (b.None? <==> Live(s) == All(|s.heap.fields|))
            && Inv(Step(s, Alloc))
            && (b.Some? ==> b.value !in Live(s) && Live(Step(s, Alloc)) == Live(s) + {b.value})
            && (b.None? ==> Step(s, Alloc) == s)
  {
    if s.free != [] {
      var s' := Step(s, Alloc);
      assert s.free == [s.free[0]] + s.free[1..];
      assert forall b :: b in s'.free ==> b in s.free;
      assert s.free[0] in FreeSet(s) && s.free[0] in All(|s.heap.fields|);
      assert FreeSet(s') == FreeSet(s) - {s.free[0]} by {
        assert forall k :: 0 <= k < |s'.free| ==> s'.free[k] == s.free[k + 1];
      }
    } else {
      assert FreeSet(s) == {};
    }
  }

  /** Freeing a live block makes it, and only it, free again. */
  lemma DestroyFrees(s: State, b: nat)
    requires Inv(s) && b in Live(s)
    ensures Inv(Step(s, Free(b))) && Live(Step(s, Free(b))) == Live(s) - {b}
  {
    var s', n := Step(s, Free(b)), |s.heap.fields|;
    assert b !in s.free;
    var v := if s.heap.next.None? then n else s.heap.next.value;
    ChainFrame(s.heap.fields, s.heap.next, s.free, b, v);
    assert s'.free[1..] == s.free;
    assert Link(v, n) == s.heap.next;
    ChainIsAcyclic(s'.heap.fields, s'.heap.next, s'.free);
    assert FreeSet(s') == FreeSet(s) + {b};
  }

  /** Freeing the block just handed out restores the whole heap, fields and all. */
  lemma FreeUndoesAlloc(s: State)
    requires Inv(s) && s.heap.next.Some?
    ensures Step(Step(s, Alloc), Free(s.heap.next.value)) == s
  {
    assert [s.free[0]] + s.free[1..] == s.free;
  }

  lemma {:induction false} InitialChain(n: nat, k: nat)
    requires k < n
    ensures IsChain(Ascending(1, n), Some(k), Ascending(k, n - k))
    decreases n - k
  {
    var c := Ascending(k, n - k);
    if k + 1 < n {
      InitialChain(n, k + 1);
      assert c[1..] == Ascending(k + 1, n - k - 1);
    } else {
      assert c[1..] == [];
    }
  }

  function Start(n: nat): State
    requires n > 0
  {
    State(Init(n), Ascending(0, n))
  }

  lemma StartInv(n: nat)
    requires n > 0
    ensures Inv(Start(n)) && Live(Start(n)) == {}
  {
    InitialChain(n, 0);
    var s := Start(n);
    forall b: nat | b < n ensures b in FreeSet(s) {
      assert s.free[b] == b;
    }
  }

  function Allocated(n: nat, k: nat): (s: State)
    requires k <= n && n > 0
    ensures s == State(Heap(if k == n then None else Some(k), Ascending(1, n)), Ascending(k, n - k))
  {
    if k == 0 then Start(n) else Step(Allocated(n, k - 1), Alloc)
  }

  ghost predicate Permitted(n: nat, ops: seq<Op>)
    requires n > 0
    decreases |ops|, 0
  {
    ops == [] || (Permitted(n, ops[..|ops| - 1]) && Allowed(Run(n, ops[..|ops| - 1]), ops[|ops| - 1]))
  }

  /**
   The state after any valid sequence of allocations and frees. The chain from the head of the list ends,
   visits no block twice, and with the live blocks partitions all blocks.
   */
  ghost function Run(n: nat, ops: seq<Op>): (s: State)
    requires n > 0 && Permitted(n, ops)
    ensures Inv(s) && |s.heap.fields| == n
    ensures Live(s) !! FreeSet(s) && Live(s) + FreeSet(s) == All(n)
    decreases |ops|, 1
  {
    if ops == [] then
      StartInv(n);
      Start(n)
    else
      var before, op := Run(n, ops[..|ops| - 1]), ops[|ops| - 1];
      if op.Alloc? then
        CreateIsFresh(before);
        Step(before, op)
      else
        DestroyFrees(before, op.block);
        Step(before, op)
  }
}
