/** Conservation of dirty lines: each write dirties at most one line, each write-back cleans
    one, so write-backs and lines still dirty never outnumber the writes served. */
module WriteBackBudget {
  import opened Bits
  import opened CacheLines
  import opened DCacheTypes
  import opened Replacement
  import opened RefSpec
  import opened RefRefinesFlat
  import opened DCacheSpec
  import opened DCacheSystem
  import opened DCacheRefinement

  ghost function WriteBacks(requests: seq<MemReq>): nat {
    if |requests| == 0 then 0 else Bit(requests[0].WriteBack?) + WriteBacks(requests[1..])
  }

  ghost function Writes(reqs: seq<Req>): nat
    decreases |reqs|
  {
    if |reqs| == 0 then 0 else Writes(reqs[..|reqs| - 1]) + Bit(reqs[|reqs| - 1].write)
  }

  lemma {:induction false} WriteBacksSum(a: seq<MemReq>, b: seq<MemReq>)
    ensures WriteBacks(a + b) == WriteBacks(a) + WriteBacks(b)
  {
    if |a| == 0 {
      assert a + b == b;
    } else {
      assert (a + b)[1..] == a[1..] + b;
      WriteBacksSum(a[1..], b);
    }
  }

  lemma MissWriteBacks(p: Params, victim: Line, tag: nat, s: nat)
    ensures WriteBacks(MissRequests(p, victim, tag, s)) == Bit(NeedsWriteBack(victim))
  {
    hide LineAddr, BlockNo;
    var fetch := Fetch(LineAddr(p, tag, s));
    if NeedsWriteBack(victim) {
      WriteBacksSum([WriteBack(LineAddr(p, victim.tag, s), victim.data)], [fetch]);
    } else {
      assert MissRequests(p, victim, tag, s) == [fetch];
    }
  }

  /** The balance of one request. */
  lemma StepBalance(p: Params, w: World, req: Req)
    requires Inv(p, w) && p.OnBus(req.addr)
    ensures var (w', requests, _) := Step(p, w, req);
      WriteBacks(requests) + DirtyLines(w'.ref.sets) <= DirtyLines(w.ref.sets) + Bit(req.write)
  {
    hide BlockNo, BlockTag, BlockIndex, BlockAt, LineAddr, Decode;
    var f := Decode(p, req.addr);
    var s := f.index;
    var h := FirstHit(w.ref.sets[s], f.tag);
    if h < |w.ref.sets[s]| {
      HitBalance(p, w, req);
    } else {
      MissServed(p, w, req);
      var victim := VictimOf(w, s);
      MissWriteBacks(p, victim, f.tag, s);
      assert SetOk(p, w.ref.sets[s], w.ref.ptr[s], s, w.mem);
      var block := MemAfterEviction(p, w.mem, victim, s)[BlockNo(p, f.tag, s)];
      SetUpdate(w.ref.sets, s, w.ref.ptr[s], Refilled(f.tag, block, req, f.word));
    }
  }

  lemma HitBalance(p: Params, w: World, req: Req)
    requires Inv(p, w) && p.OnBus(req.addr)
    requires var f := Decode(p, req.addr); IsHit(w.ref.sets[f.index], f.tag)
    ensures var (w', requests, _) := Step(p, w, req);
      WriteBacks(requests) + DirtyLines(w'.ref.sets) <= DirtyLines(w.ref.sets) + Bit(req.write)
  {
    hide BlockNo, BlockTag, BlockIndex, BlockAt, LineAddr, Decode;
    var f := Decode(p, req.addr);
    var h := FirstHit(w.ref.sets[f.index], f.tag);
    BlockNoSplit(p, f.tag, f.index);
    if req.write {
      SetUpdate(w.ref.sets, f.index, h, Poke(w.ref.sets[f.index][h], f.word, req.wdata));
    }
  }

  lemma {:induction false} RunBalance(p: Params, w: World, reqs: seq<Req>)
    requires Inv(p, w) && AllOnBus(p, reqs)
    ensures var log := Run(p, w, reqs);
      WriteBacks(log.requests) + DirtyLines(log.world.ref.sets) <= DirtyLines(w.ref.sets) + Writes(reqs)
    decreases |reqs|
  {
    hide Step, DirtyLines;
    if |reqs| > 0 {
      var n := |reqs| - 1;
      RunBalance(p, w, reqs[..n]);
      var log := Run(p, w, reqs[..n]);
      StepBalance(p, log.world, reqs[n]);
      WriteBacksSum(log.requests, Step(p, log.world, reqs[n]).1);
    }
  }

  /** From reset: write-backs made plus lines still dirty never exceed the writes served. */
  lemma WriteBacksWithinWrites(p: Params, blocks: Memory, reqs: seq<Req>)
    requires FlatShape(p, blocks) && AllOnBus(p, reqs)
    ensures Inv(p, World(ResetRef(p), blocks))
    ensures var log := Run(p, World(ResetRef(p), blocks), reqs);
      WriteBacks(log.requests) + DirtyLines(log.world.ref.sets) <= Writes(reqs)
  {
    hide Run;
    ResetInv(p, blocks);
    CleanSets(ResetRef(p).sets);
    RunBalance(p, World(ResetRef(p), blocks), reqs);
  }

  /** The memory request accepted and not yet answered. */
  ghost function Unanswered(s: Sys): seq<MemReq> {
    if s.mem.pending.Some? then [s.mem.pending.value] else []
  }

  lemma AppendedWriteBack(requests: seq<MemReq>, q: MemReq)
    ensures WriteBacks(requests + [q]) == WriteBacks(requests) + WriteBacks([q])
    ensures WriteBacks([q]) == Bit(q.WriteBack?)
  {
    WriteBacksSum(requests, [q]);
  }

  /** In every FSM state the answered write-backs and the dirty lines add up to what they are
      in the reference model: a victim is cleaned by the edge that takes the answer. */
  lemma TracksBalance(p: Params, s: Sys, issued: seq<MemReq>, ref: RefLog)
    requires Tracks(p, s, issued, ref)
    ensures WriteBacks(issued) + DirtyLines(s.regs.sets)
         == WriteBacks(Unanswered(s)) + WriteBacks(ref.requests) + DirtyLines(ref.world.ref.sets)
  {
    hide BlockNo, BlockTag, BlockIndex, BlockAt, LineAddr, Decode, DirtyLines, WriteBacks;
    NoWriteBacks();
    match s.regs.fsm
    case IDLE =>
    case DIRTY_CHECK =>
    case WB =>
      if !s.regs.reqValid {
        AppendedWriteBack(ref.requests, s.mem.pending.value);
      }
    case MISS_WAIT =>
      FillBalance(p, s, issued, ref);
  }

  lemma NoWriteBacks()
    ensures WriteBacks([]) == 0
  {}

  lemma FillBalance(p: Params, s: Sys, issued: seq<MemReq>, ref: RefLog)
    requires Tracks(p, s, issued, ref) && s.regs.fsm.MISS_WAIT?
    ensures WriteBacks(issued) + DirtyLines(s.regs.sets)
         == WriteBacks(Unanswered(s)) + WriteBacks(ref.requests) + DirtyLines(ref.world.ref.sets)
  {
    hide BlockNo, BlockTag, BlockIndex, BlockAt, LineAddr, Decode, DirtyLines, WriteBacks;
    NoWriteBacks();
    var w := ref.world;
    var f := Decode(p, s.held.addr);
    var victim := VictimOf(w, f.index);
    assert SetOk(p, w.ref.sets[f.index], w.ref.ptr[f.index], f.index, w.mem);
    SetUpdate(w.ref.sets, f.index, w.ref.ptr[f.index], victim.(dirty := false));
    var all := MissRequests(p, victim, f.tag, f.index);
    var evict := all[..|all| - 1];
    MissWriteBacks(p, victim, f.tag, f.index);
    WriteBacksSum(ref.requests, evict);
    AppendedWriteBack(evict, all[|all| - 1]);
    assert all == evict + [all[|all| - 1]];
    if !s.regs.reqValid {
      AppendedWriteBack(ref.requests + evict, s.mem.pending.value);
    }
  }

  /** In every cycle of the clocked cache: answered write-backs plus lines still dirty never
      exceed the writes served. */
  lemma DCacheWriteBackBudget(p: Params, blocks: Memory, envs: seq<Env>)
    requires FlatShape(p, blocks) && LegalRun(p, blocks, envs)
    ensures var log := Exec(p, blocks, envs);
      WriteBacks(log.issued) + DirtyLines(log.sys.regs.sets)
      <= WriteBacks(Unanswered(log.sys)) + Writes(ReqsOf(log.commits))
  {
    hide Run, Exec, DirtyLines, WriteBacks, Writes, Tracks;
    RunTracksRef(p, blocks, envs);
    var log := Exec(p, blocks, envs);
    TracksBalance(p, log.sys, log.issued, RefLogOf(p, blocks, log.commits));
    WriteBacksWithinWrites(p, blocks, ReqsOf(log.commits));
  }
}
