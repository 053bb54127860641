/** The synchronous FIFO with one extra pointer bit. Pointers count modulo twice the depth;
    the extra bit tells full from empty. The hardware cuts a pointer's index out of its low
    bits, for which DEPTH has to be a power of two, at least 2; here the two halves of the
    pointer range are taken apart directly, which PointerBits shows to be the same. */
module SyncFifo {
  import opened Bits

  /** The memory index in a pointer and its wrap bit. */
  function Low(depth: nat, ptr: nat): nat {
    if ptr >= depth then ptr - depth else ptr
  }

  predicate Toggle(depth: nat, ptr: nat) {
    ptr >= depth
  }

  /** ptr + 1 in the pointer's register. */
  function Advance(depth: nat, ptr: nat): nat {
    if ptr + 1 == 2 * depth then 0 else ptr + 1
  }

  /** The pointer difference modulo twice the depth. */
  function Count(depth: nat, wr: nat, rd: nat): int {
    if wr >= rd then wr - rd else wr + 2 * depth - rd
  }

  /** The comparison of the full flag. */
  predicate SameIndexOtherTurn(depth: nat, wr: nat, rd: nat) {
    Low(depth, wr) == Low(depth, rd) && Toggle(depth, wr) != Toggle(depth, rd)
  }

  ghost predicate PtrsOk(depth: nat, wr: nat, rd: nat) {
    depth > 0 && wr < 2 * depth && rd < 2 * depth && Count(depth, wr, rd) <= depth
  }

  /** In registers of $clog2(DEPTH) + 1 bits these are the hardware's slices and increment. */
  lemma PointerBits(depth: nat, w: nat, ptr: nat)
    requires depth == Pow2(w) && ptr < 2 * depth
    ensures Clog2(depth) == w
    ensures Low(depth, ptr) == And(ptr, Pow2(w) - 1)
    ensures Toggle(depth, ptr) <==> Shr(ptr, w) == 1
    ensures Advance(depth, ptr) == (ptr + 1) % Pow2(w + 1)
  {
    hide Pow2, And;
    Clog2Exact(w);
    AndLowMask(ptr, w);
    DivModUnique(ptr, depth, if ptr >= depth then 1 else 0, Low(depth, ptr));
    Pow2Double(w);
    if ptr + 1 == 2 * depth {
      DivModUnique(ptr + 1, 2 * depth, 1, 0);
    } else {
      DivModUnique(ptr + 1, 2 * depth, 0, ptr + 1);
    }
  }

  lemma Clog2Exact(w: nat)
    ensures Clog2(Pow2(w)) == w
  {
    hide Pow2;
    var c := Clog2(Pow2(w));
    if c < w {
      Pow2Monotone(c + 1, w);
      Pow2Double(c);
    } else if c > w {
      Pow2Monotone(w, c - 1);
    }
  }

  /** The pointers of $clog2(DEPTH) + 1 bits run through exactly two turns of the memory if
      and only if DEPTH is a power of two. */
  lemma PointerRangeIff(depth: nat)
    ensures Pow2(Clog2(depth) + 1) == 2 * depth <==> exists w: nat :: Pow2(w) == depth
  {
    hide Pow2;
    Pow2Double(Clog2(depth));
    if w: nat :| Pow2(w) == depth {
      Clog2Exact(w);
    }
  }

  /** The flags are exact: full at DEPTH entries, empty at none. */
  lemma FlagsExact(depth: nat, wr: nat, rd: nat)
    requires PtrsOk(depth, wr, rd)
    ensures SameIndexOtherTurn(depth, wr, rd) <==> Count(depth, wr, rd) == depth
    ensures wr == rd <==> Count(depth, wr, rd) == 0
  {}

  // ---- The full flag as it is wired --------------------------------------------------

  /** In the source the flag compares the write pointer's next value, which depends on the
      flag. A value of the flag is stable when the wires reproduce it. */
  predicate StableFull(depth: nat, wr: nat, rd: nat, wrEn: bool, full: bool) {
    var next := if wrEn && !full then Advance(depth, wr) else wr;
    full == SameIndexOtherTurn(depth, next, rd)
  }

  /** With a write pending the loop has no stable value one entry before full and two when
      full; otherwise it settles on whether the FIFO is full. */
  lemma FullLoop(depth: nat, wr: nat, rd: nat, wrEn: bool)
    requires PtrsOk(depth, wr, rd)
    ensures var n := Count(depth, wr, rd);
      && (StableFull(depth, wr, rd, wrEn, true) <==> n == depth)
      && (StableFull(depth, wr, rd, wrEn, false) <==>
            (if wrEn then n != depth - 1 else n != depth))
  {
    assert Count(depth, Advance(depth, wr), rd)
        == if Count(depth, wr, rd) + 1 == 2 * depth then 0 else Count(depth, wr, rd) + 1;
  }

  /** The flag has exactly one stable value, the right one, exactly when no write is pending
      or at least two places are free. */
  lemma FullLoopSettlesIff(depth: nat, wr: nat, rd: nat, wrEn: bool)
    requires PtrsOk(depth, wr, rd)
    ensures (forall full :: StableFull(depth, wr, rd, wrEn, full) <==> full == (Count(depth, wr, rd) == depth))
      <==> !wrEn || Count(depth, wr, rd) < depth - 1
  {
    FullLoop(depth, wr, rd, wrEn);
    var n := Count(depth, wr, rd);
    assert StableFull(depth, wr, rd, wrEn, true) <==> n == depth;
    assert StableFull(depth, wr, rd, wrEn, false) <==> (if wrEn then n != depth - 1 else n != depth);
  }

  // ---- The queue ---------------------------------------------------------------------

  /** The write pointer after an edge of the wired FIFO, whatever stable value its flag takes,
      is the one of the FIFO below exactly when that value is right; otherwise a write to a
      full FIFO has gone over its oldest entry. */
  lemma WiredEdgeIff(depth: nat, wr: nat, rd: nat, wrEn: bool, full: bool)
    requires PtrsOk(depth, wr, rd) && StableFull(depth, wr, rd, wrEn, full)
    ensures var wired := if wrEn && !full then Advance(depth, wr) else wr;
      var n := Count(depth, wr, rd);
      && (wired == (if wrEn && n < depth then Advance(depth, wr) else wr) <==> full == (n == depth))
      && (full != (n == depth) ==> n == depth && Low(depth, wr) == Low(depth, rd))
  {
    FullLoop(depth, wr, rd, wrEn);
  }

  /** The memory index of entry i, counted from the read pointer. */
  function Slot(depth: nat, rd: nat, i: nat): int {
    var x := Low(depth, rd) + i;
    if x >= depth then x - depth else x
  }

  ghost function Entries<T>(depth: nat, mem: seq<T>, wr: nat, rd: nat): seq<T>
    requires |mem| == depth && PtrsOk(depth, wr, rd)
  {
    seq(Count(depth, wr, rd), i requires 0 <= i < Count(depth, wr, rd) => mem[Slot(depth, rd, i)])
  }

  /** A write below capacity appends, whatever turn the pointers are in. */
  lemma PushAppends<T>(depth: nat, mem: seq<T>, wr: nat, rd: nat, x: T)
    requires |mem| == depth && PtrsOk(depth, wr, rd) && Count(depth, wr, rd) < depth
    ensures PtrsOk(depth, Advance(depth, wr), rd) && Low(depth, wr) < depth
    ensures Entries(depth, mem[Low(depth, wr) := x], Advance(depth, wr), rd)
         == Entries(depth, mem, wr, rd) + [x]
  {
    var n := Count(depth, wr, rd);
    assert Count(depth, Advance(depth, wr), rd) == n + 1;
    assert Slot(depth, rd, n) == Low(depth, wr);
    assert forall i :: 0 <= i < n ==> Slot(depth, rd, i) != Low(depth, wr);
  }

  /** A read drops the oldest entry. */
  lemma PopDrops<T>(depth: nat, mem: seq<T>, wr: nat, rd: nat)
    requires |mem| == depth && PtrsOk(depth, wr, rd) && Count(depth, wr, rd) > 0
    ensures PtrsOk(depth, wr, Advance(depth, rd))
    ensures Entries(depth, mem, wr, Advance(depth, rd)) == Entries(depth, mem, wr, rd)[1..]
  {
    var n := Count(depth, wr, rd);
    assert Count(depth, wr, Advance(depth, rd)) == n - 1;
    assert forall i: nat :: i < n - 1 ==> Slot(depth, Advance(depth, rd), i) == Slot(depth, rd, i + 1);
  }

  /** What one clock edge does to a bounded queue. */
  function QueueStep<T>(depth: nat, q: seq<T>, wrEn: bool, x: T, rdEn: bool): seq<T> {
    (if rdEn && |q| > 0 then q[1..] else q) + (if wrEn && |q| < depth then [x] else [])
  }

  /** One edge's inputs, and what a run of edges takes in and gives out. */
  datatype Edge<T> = Edge(wrEn: bool, x: T, rdEn: bool)

  datatype Flow<T> = Flow(queue: seq<T>, taken: seq<T>, given: seq<T>)

  function EdgeFlow<T>(depth: nat, f: Flow<T>, e: Edge<T>): Flow<T> {
    Flow(QueueStep(depth, f.queue, e.wrEn, e.x, e.rdEn),
         f.taken + (if e.wrEn && |f.queue| < depth then [e.x] else []),
         f.given + (if e.rdEn && |f.queue| > 0 then [f.queue[0]] else []))
  }

  function RunFlow<T>(depth: nat, edges: seq<Edge<T>>): Flow<T>
    decreases |edges|
  {
    if |edges| == 0 then Flow([], [], [])
    else EdgeFlow(depth, RunFlow(depth, edges[..|edges| - 1]), edges[|edges| - 1])
  }

  /** Over any mix of pushes and pops the items given out, then those still inside, are the
      items taken in, in order; and no more than DEPTH are ever inside. */
  lemma {:induction false} NothingLost<T>(depth: nat, edges: seq<Edge<T>>)
    requires depth > 0
    ensures var f := RunFlow(depth, edges);
      f.taken == f.given + f.queue && |f.queue| <= depth
    decreases |edges|
  {
    if |edges| > 0 {
      var f := RunFlow(depth, edges[..|edges| - 1]);
      NothingLost(depth, edges[..|edges| - 1]);
      EdgeConserves(depth, f, edges[|edges| - 1]);
    }
  }

  lemma EdgeConserves<T>(depth: nat, f: Flow<T>, e: Edge<T>)
    requires depth > 0 && f.taken == f.given + f.queue && |f.queue| <= depth
    ensures var f' := EdgeFlow(depth, f, e); f'.taken == f'.given + f'.queue && |f'.queue| <= depth
  {
    if e.rdEn && |f.queue| > 0 {
      assert f.queue == [f.queue[0]] + f.queue[1..];
    }
  }

  class SyncFifo<T(0)> {
    const depth: nat
    const mem: array<T>
    var wrPtr: nat
    var rdPtr: nat

    ghost predicate Valid()
      reads this
    {
      mem.Length == depth && PtrsOk(depth, wrPtr, rdPtr)
    }

    /** Waiting items, oldest first. */
    ghost function Contents(): (q: seq<T>)
      reads this, mem
      requires Valid()
      ensures |q| <= depth
    {
      Entries(depth, mem[..], wrPtr, rdPtr)
    }

    constructor (depth: nat)
      requires depth > 0
      ensures Valid() && Contents() == [] && this.depth == depth && fresh(mem)
    {
      this.depth := depth;
      mem := new T[depth];
      wrPtr, rdPtr := 0, 0;
    }

    /** The flags and the data output, which shows the oldest item as soon as there is one. */
    method Outputs() returns (full: bool, empty: bool, rdData: T)
      requires Valid()
      ensures full == (|Contents()| == depth) && empty == (Contents() == [])
      ensures !empty ==> rdData == Contents()[0]
    {
      FlagsExact(depth, wrPtr, rdPtr);
      full := SameIndexOtherTurn(depth, wrPtr, rdPtr);
      empty := wrPtr == rdPtr;
      rdData := mem[Low(depth, rdPtr)];
    }

    /** One clock edge. Push and pop may coincide; a push when full and a pop when empty are
        ignored; items leave in the order they came. */
    method Clock(wrEn: bool, wrData: T, rdEn: bool)
      requires Valid()
      modifies this, mem
      ensures Valid()
      ensures Contents() == QueueStep(depth, old(Contents()), wrEn, wrData, rdEn)
      ensures var kept := if rdEn && old(|Contents()|) > 0 then old(Contents())[1..] else old(Contents());
        Contents() == if wrEn && old(|Contents()|) < depth then kept + [wrData] else kept
    {
      FlagsExact(depth, wrPtr, rdPtr);
      var full := SameIndexOtherTurn(depth, wrPtr, rdPtr);
      var empty := wrPtr == rdPtr;
      ghost var before, wr, rd := mem[..], wrPtr, rdPtr;
      if wrEn && !full {
        PushAppends(depth, before, wr, rd, wrData);
        mem[Low(depth, wrPtr)] := wrData;
        wrPtr := Advance(depth, wrPtr);
        assert mem[..] == before[Low(depth, wr) := wrData];
      }
      if rdEn && !empty {
        PopDrops(depth, mem[..], wrPtr, rd);
        rdPtr := Advance(depth, rdPtr);
      }
    }
  }
}
