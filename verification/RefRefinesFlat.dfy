/** The reference model with its memory behaves as a flat memory of words, for every sequence
    of requests. */
module RefRefinesFlat {
  import opened CacheLines
  import opened DCacheTypes
  import opened Replacement
  import opened RefSpec

  lemma EvictedMem(p: Params, mem: Memory, victim: Line, s: nat, b: nat)
    requires p.Ok() && |mem| == p.Blocks() && b < |mem|
    requires s < p.sets && victim.tag < p.tags
    ensures BlockNo(p, victim.tag, s) < |mem|
    ensures MemAfterEviction(p, mem, victim, s)[b]
            == if NeedsWriteBack(victim) && b == BlockNo(p, victim.tag, s) then victim.data else mem[b]
  {
    hide BlockNo, BlockTag, BlockIndex, BlockAt, LineAddr, Decode;
    BlockNoSplit(p, victim.tag, s);
  }

  // ---- Invariant ---------------------------------------------------------------------

  /** Replacing one line keeps the set's invariant when the new line is dirty or equal to
      memory, has a tag of its own, and is not an empty one. */
  lemma SetOkReplace(p: Params, row: seq<Line>, ptr: nat, ptr': nat, s: nat, mem: Memory,
                     mem': Memory, w: nat, line: Line)
    requires SetOk(p, row, ptr, s, mem) && w < |row| && |mem'| == |mem|
    requires line.valid && (!line.dirty ==> InMemory(p, line, s, mem'))
    requires forall i :: 0 <= i < |row| && i != w && row[i].valid ==> row[i].tag != line.tag
    requires forall i :: 0 <= i < |row| && i != w && row[i].valid && !row[i].dirty ==> InMemory(p, row[i], s, mem')
    requires (row[w].valid && ptr' == ptr) || (w == ptr && ptr' == ptr + 1)
             || (w == ptr && ptr + 1 == |row|) || forall i :: 0 <= i < |row| ==> row[i].valid
    ensures SetOk(p, row[w := line], ptr', s, mem')
  {}

  lemma VictimFacts(p: Params, row: seq<Line>, ptr: nat, s: nat, mem: Memory)
    requires SetOk(p, row, ptr, s, mem) && ptr < |row| == p.ways
    ensures RefAlloc(LineValid(row), ptr) == ptr
    ensures RefAdvance(p.ways, ptr) == CounterNext(p.ways, ptr)
  {
    hide BlockNo, BlockTag, BlockIndex, BlockAt, LineAddr, Decode;
    FirstInvalidPrefix(LineValid(row), if forall i :: 0 <= i < |row| ==> row[i].valid then |row| else ptr);
    PointersAgree(p.ways, ptr);
  }

  lemma StepKeepsInv(p: Params, w: World, req: Req)
    requires Inv(p, w) && p.OnBus(req.addr)
    ensures Inv(p, Step(p, w, req).0)
  {
    hide BlockNo, BlockTag, BlockIndex, BlockAt, LineAddr, Decode;
    var f := Decode(p, req.addr);
    var row, ptr := w.ref.sets[f.index], w.ref.ptr[f.index];
    BlockNoSplit(p, f.tag, f.index);
    var h := FirstHit(row, f.tag);
    if h < |row| {
      if req.write {
        SetOkReplace(p, row, ptr, ptr, f.index, w.mem, w.mem, h, Poke(row[h], f.word, req.wdata));
      }
    } else {
      VictimFacts(p, row, ptr, f.index, w.mem);
      MissKeepsInv(p, w, req);
    }
  }

  lemma MissKeepsInv(p: Params, w: World, req: Req)
    requires Inv(p, w) && p.OnBus(req.addr)
    requires var f := Decode(p, req.addr); !IsHit(w.ref.sets[f.index], f.tag)
    ensures Inv(p, Step(p, w, req).0)
  {
    hide BlockNo, BlockTag, BlockIndex, BlockAt, LineAddr, Decode;
    var f := Decode(p, req.addr);
    var s := f.index;
    var row, ptr := w.ref.sets[s], w.ref.ptr[s];
    BlockNoSplit(p, f.tag, s);
    VictimFacts(p, row, ptr, s, w.mem);
    var mem := MemAfterEviction(p, w.mem, row[ptr], s);
    EvictionShape(p, w.mem, row[ptr], s);
    var b := BlockNo(p, f.tag, s);
    var line := Refilled(f.tag, mem[b], req, f.word);
    forall i | 0 <= i < |row| && i != ptr && row[i].valid && !row[i].dirty
      ensures InMemory(p, row[i], s, mem)
    {
      BlockNoSplit(p, row[i].tag, s);
      BlockNoSplit(p, row[ptr].tag, s);
      EvictedMem(p, w.mem, row[ptr], s, BlockNo(p, row[i].tag, s));
    }
    SetOkReplace(p, row, ptr, RefAdvance(p.ways, ptr), s, w.mem, mem, ptr, line);
    var w' := Step(p, w, req).0;
    forall s' | 0 <= s' < p.sets && s' != s
      ensures SetOk(p, w'.ref.sets[s'], w'.ref.ptr[s'], s', w'.mem)
    {
      OtherSetOk(p, w, row[ptr], s, s');
    }
  }

  /** Writing a victim of set s back does not touch the blocks of another set. */
  lemma OtherSetOk(p: Params, w: World, victim: Line, s: nat, s': nat)
    requires Inv(p, w) && s < p.sets && s' < p.sets && s != s' && victim.tag < p.tags
    ensures SetOk(p, w.ref.sets[s'], w.ref.ptr[s'], s', MemAfterEviction(p, w.mem, victim, s))
  {
    hide BlockNo, BlockTag, BlockIndex, BlockAt, LineAddr, Decode;
    var row := w.ref.sets[s'];
    var mem := MemAfterEviction(p, w.mem, victim, s);
    forall i | 0 <= i < |row| && row[i].valid && !row[i].dirty
      ensures InMemory(p, row[i], s', mem)
    {
      BlockNoSplit(p, row[i].tag, s');
      BlockNoSplit(p, victim.tag, s);
      EvictedMem(p, w.mem, victim, s, BlockNo(p, row[i].tag, s'));
    }
  }

  // ---- View --------------------------------------------------------------------------

  /** One request acts on the CPU's view as on a flat memory and reads what it holds. */
  lemma StepRefinesFlat(p: Params, w: World, req: Req)
    requires Inv(p, w) && p.OnBus(req.addr)
    ensures var (w', _, rdata) := Step(p, w, req);
      && FlatShape(p, View(p, w.ref.sets, w.mem))
      && (View(p, w'.ref.sets, w'.mem), rdata) == FlatStep(p, View(p, w.ref.sets, w.mem), req)
  {
    hide BlockNo, BlockTag, BlockIndex, BlockAt, LineAddr, Decode;
    var f := Decode(p, req.addr);
    BlockNoSplit(p, f.tag, f.index);
    ViewShape(p, w);
    var (w', _, rdata) := Step(p, w, req);
    var view, view' := View(p, w.ref.sets, w.mem), View(p, w'.ref.sets, w'.mem);
    forall b | 0 <= b < |w.mem|
      ensures view'[b] == FlatStep(p, view, req).0[b]
    {
      if IsHit(w.ref.sets[f.index], f.tag) {
        HitView(p, w, req, b);
      } else {
        MissFetches(p, w, req);
        MissView(p, w, req, b);
      }
    }
    assert view' == FlatStep(p, view, req).0;
  }

  lemma ViewShape(p: Params, w: World)
    requires WorldShape(p, w)
    ensures FlatShape(p, View(p, w.ref.sets, w.mem))
  {}

  lemma HitView(p: Params, w: World, req: Req, b: nat)
    requires Inv(p, w) && p.OnBus(req.addr) && b < |w.mem|
    requires var f := Decode(p, req.addr); IsHit(w.ref.sets[f.index], f.tag)
    ensures var w' := Step(p, w, req).0; var f := Decode(p, req.addr);
      && BlockView(p, w'.ref.sets, w'.mem, b)
         == (if req.write && b == BlockNo(p, f.tag, f.index)
             then BlockView(p, w.ref.sets, w.mem, b)[f.word := req.wdata]
             else BlockView(p, w.ref.sets, w.mem, b))
  {
    hide BlockNo, BlockTag, BlockIndex, BlockAt, LineAddr, Decode;
    var f := Decode(p, req.addr);
    BlockNoSplit(p, f.tag, f.index);
    BlockNoJoin(p, b);
    var w' := Step(p, w, req).0;
    FirstHitSame(w.ref.sets[BlockIndex(p, b)], w'.ref.sets[BlockIndex(p, b)], BlockTag(p, b));
  }

  /** What lookups find in a set once way w holds a line whose tag missed. */
  lemma ReplacedRow(row: seq<Line>, w: nat, line: Line, tag: nat)
    requires UniqueTags(row) && w < |row| && line.valid && !IsHit(row, line.tag)
    ensures var h, h' := FirstHit(row, tag), FirstHit(row[w := line], tag);
      if tag == line.tag then h == |row| && h' == w
      else if Matches(row[w], tag) then h == w && h' == |row|
      else h' == h && h != w
  {
    hide BlockNo, BlockTag, BlockIndex, BlockAt, LineAddr, Decode;
    var row' := row[w := line];
    if tag == line.tag {
      assert Matches(row'[w], tag);
      assert forall i :: 0 <= i < w ==> !Matches(row'[i], tag);
    } else if Matches(row[w], tag) {
      FirstHitIs(row, w, tag);
      assert forall i :: 0 <= i < |row| ==> !Matches(row'[i], tag);
    } else {
      FirstHitSame(row, row', tag);
    }
  }

  /** The victim's copy is in memory once it has been written back; nothing else moves, in
      particular not the block about to be fetched. */
  lemma EvictionView(p: Params, w: World, s: nat, i: nat, b: nat)
    requires Inv(p, w) && s < p.sets && i < p.ways && b < |w.mem|
    ensures var victim := w.ref.sets[s][i];
      MemAfterEviction(p, w.mem, victim, s)[b]
      == if victim.valid && b == BlockNo(p, victim.tag, s) then victim.data else w.mem[b]
  {
    hide BlockNo, BlockTag, BlockIndex, BlockAt, LineAddr, Decode;
    EvictedMem(p, w.mem, w.ref.sets[s][i], s, b);
  }

  lemma MissView(p: Params, w: World, req: Req, b: nat)
    requires Inv(p, w) && p.OnBus(req.addr) && b < |w.mem|
    requires var f := Decode(p, req.addr); !IsHit(w.ref.sets[f.index], f.tag)
    ensures var w' := Step(p, w, req).0; var f := Decode(p, req.addr);
      && BlockView(p, w'.ref.sets, w'.mem, b)
         == (if req.write && b == BlockNo(p, f.tag, f.index)
             then BlockView(p, w.ref.sets, w.mem, b)[f.word := req.wdata]
             else BlockView(p, w.ref.sets, w.mem, b))
  {
    hide BlockNo, BlockTag, BlockIndex, BlockAt, LineAddr, Decode;
    var f := Decode(p, req.addr);
    var s := f.index;
    var row, ptr := w.ref.sets[s], w.ref.ptr[s];
    VictimFacts(p, row, ptr, s, w.mem);
    var victim := row[ptr];
    BlockNoSplit(p, f.tag, s);
    BlockNoSplit(p, victim.tag, s);
    BlockNoJoin(p, b);
    EvictionView(p, w, s, ptr, b);
    if BlockIndex(p, b) == s {
      MissFetches(p, w, req);
      ReplacedRow(row, ptr, Step(p, w, req).0.ref.sets[s][ptr], BlockTag(p, b));
    }
  }

  /** A miss fetches the block as it stood before the victim was written back: the victim is
      another block. */
  lemma MissFetches(p: Params, w: World, req: Req)
    requires Inv(p, w) && p.OnBus(req.addr)
    requires var f := Decode(p, req.addr); !IsHit(w.ref.sets[f.index], f.tag)
    ensures var f := Decode(p, req.addr);
      && var b := BlockNo(p, f.tag, f.index);
      && b < |w.mem| && BlockIndex(p, b) == f.index && BlockTag(p, b) == f.tag
      && var ptr := w.ref.ptr[f.index];
      && var (w', _, rdata) := Step(p, w, req);
      && w'.ref.sets[f.index] == w.ref.sets[f.index][ptr := Refilled(f.tag, w.mem[b], req, f.word)]
      && w'.mem == MemAfterEviction(p, w.mem, w.ref.sets[f.index][ptr], f.index)
      && BlockView(p, w.ref.sets, w.mem, b) == w.mem[b]
      && (!req.write ==> rdata == w.mem[b][f.word])
  {
    hide BlockNo, BlockTag, BlockIndex, BlockAt, LineAddr, Decode;
    var f := Decode(p, req.addr);
    var s := f.index;
    var row, ptr := w.ref.sets[s], w.ref.ptr[s];
    VictimFacts(p, row, ptr, s, w.mem);
    BlockNoSplit(p, f.tag, s);
    BlockNoSplit(p, row[ptr].tag, s);
    EvictionView(p, w, s, ptr, BlockNo(p, f.tag, s));
  }

  // ---- Runs --------------------------------------------------------------------------

  /** What a sequence of requests leaves behind: the state, the memory requests made, in
      order, and the read data of each CPU request. */
  datatype RefLog = RefLog(world: World, requests: seq<MemReq>, rdata: seq<Word>)

  ghost predicate AllOnBus(p: Params, reqs: seq<Req>) {
    forall i :: 0 <= i < |reqs| ==> p.OnBus(reqs[i].addr)
  }

  ghost function Run(p: Params, w: World, reqs: seq<Req>): (log: RefLog)
    requires Inv(p, w) && AllOnBus(p, reqs)
    ensures Inv(p, log.world) && |log.rdata| == |reqs|
    decreases |reqs|
  {
    if |reqs| == 0 then RefLog(w, [], [])
    else
      var log := Run(p, w, reqs[..|reqs| - 1]);
      var last := reqs[|reqs| - 1];
      var (w', requests, rdata) := Step(p, log.world, last);
      StepKeepsInv(p, log.world, last);
      RefLog(w', log.requests + requests, log.rdata + [rdata])
  }

  ghost function FlatRun(p: Params, flat: Memory, reqs: seq<Req>): (r: (Memory, seq<Word>))
    requires FlatShape(p, flat) && AllOnBus(p, reqs)
    ensures FlatShape(p, r.0) && |r.1| == |reqs|
    decreases |reqs|
  {
    if |reqs| == 0 then (flat, [])
    else
      var (m, rdata) := FlatRun(p, flat, reqs[..|reqs| - 1]);
      var (m', v) := FlatStep(p, m, reqs[|reqs| - 1]);
      (m', rdata + [v])
  }

  /** Every sequence of requests returns the words a flat memory returns and leaves the view
      the flat memory is left with. */
  lemma {:induction false} RunRefinesFlat(p: Params, w: World, reqs: seq<Req>)
    requires Inv(p, w) && AllOnBus(p, reqs)
    ensures FlatShape(p, View(p, w.ref.sets, w.mem))
    ensures var log := Run(p, w, reqs);
      (View(p, log.world.ref.sets, log.world.mem), log.rdata)
      == FlatRun(p, View(p, w.ref.sets, w.mem), reqs)
    decreases |reqs|
  {
    hide BlockNo, BlockTag, BlockIndex, BlockAt, LineAddr, Decode;
    ViewShape(p, w);
    if |reqs| > 0 {
      var before := reqs[..|reqs| - 1];
      RunRefinesFlat(p, w, before);
      StepRefinesFlat(p, Run(p, w, before).world, reqs[|reqs| - 1]);
    }
  }

  /** After reset the cache is transparent: the view is the memory. */
  lemma ResetInv(p: Params, mem: Memory)
    requires FlatShape(p, mem)
    ensures Inv(p, World(ResetRef(p), mem))
    ensures View(p, ResetRef(p).sets, mem) == mem
  {}
}
