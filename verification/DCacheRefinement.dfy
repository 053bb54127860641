/** The clocked D-cache refines the reference model, and through it a flat memory of words,
    in every run with any rule-abiding CPU and memory. */
module DCacheRefinement {
  import opened CacheLines
  import opened DCacheTypes
  import opened Replacement
  import opened RefSpec
  import opened RefRefinesFlat
  import opened DCacheSpec
  import opened DCacheSystem

  ghost function ReqsOf(commits: seq<Commit>): (reqs: seq<Req>)
    ensures |reqs| == |commits|
  {
    seq(|commits|, n requires 0 <= n < |commits| => commits[n].req)
  }

  /** The reference model run from reset over the same memory on the served requests. */
  ghost function RefLogOf(p: Params, blocks: Memory, commits: seq<Commit>): (log: RefLog)
    requires FlatShape(p, blocks) && AllOnBus(p, ReqsOf(commits))
    ensures Inv(p, log.world) && |log.rdata| == |commits|
  {
    ResetInv(p, blocks);
    Run(p, World(ResetRef(p), blocks), ReqsOf(commits))
  }

  // ---- The simulation relation -------------------------------------------------------

  /** The memory channel is carrying request q: shown and not accepted, or accepted and not
      answered. `before` lists the requests accepted earlier. */
  ghost predicate Carrying(s: Sys, issued: seq<MemReq>, before: seq<MemReq>, q: MemReq) {
    if s.regs.reqValid then
      Shown(s.regs) == q && s.mem.pending == None && !s.mem.responding && issued == before
    else
      s.mem.pending == Some(q) && issued == before + [q]
  }

  ghost predicate Quiet(s: Sys, issued: seq<MemReq>, before: seq<MemReq>) {
    !s.regs.reqValid && s.mem.pending == None && !s.mem.responding && issued == before
  }

  ghost function VictimOf(w: World, s: nat): Line
    requires s < |w.ref.sets| && s < |w.ref.ptr| && w.ref.ptr[s] < |w.ref.sets[s]|
  {
    w.ref.sets[s][w.ref.ptr[s]]
  }

  /** The arrays during a fill: as in the reference model, but a victim that has been written
      back is clean. */
  ghost function AfterWriteBack(w: World, s: nat): seq<seq<Line>>
    requires s < |w.ref.sets| && s < |w.ref.ptr| && w.ref.ptr[s] < |w.ref.sets[s]|
  {
    var victim := VictimOf(w, s);
    if victim.dirty then SetLine(w.ref.sets, s, w.ref.ptr[s], victim.(dirty := false))
    else w.ref.sets
  }

  ghost predicate Missing(p: Params, s: Sys, w: World)
    requires WorldShape(p, w)
  {
    && p.OnBus(s.held.addr)
    && var f := Decode(p, s.held.addr);
    && !IsHit(w.ref.sets[f.index], f.tag)
  }

  /** Where the hardware stands relative to the reference model between two served requests. */
  ghost predicate Tracks(p: Params, s: Sys, issued: seq<MemReq>, ref: RefLog) {
    var w := ref.world;
    && SysShape(p, s) && Inv(p, w)
    && s.regs.ptr == w.ref.ptr
    && match s.regs.fsm
       case IDLE =>
         && s.regs.sets == w.ref.sets && s.mem.blocks == w.mem
         && Quiet(s, issued, ref.requests)
       case DIRTY_CHECK =>
         && Missing(p, s, w)
         && s.regs.sets == w.ref.sets && s.mem.blocks == w.mem
         && Quiet(s, issued, ref.requests)
       case WB =>
         && Missing(p, s, w)
         && s.regs.sets == w.ref.sets && s.mem.blocks == w.mem
         && var f := Decode(p, s.held.addr);
         && var victim := VictimOf(w, f.index);
         && NeedsWriteBack(victim)
         && Carrying(s, issued, ref.requests,
                     WriteBack(LineAddr(p, victim.tag, f.index), victim.data))
       case MISS_WAIT =>
         && Missing(p, s, w)
         && var f := Decode(p, s.held.addr);
         && var victim := VictimOf(w, f.index);
         && s.regs.sets == AfterWriteBack(w, f.index)
         && s.mem.blocks == MemAfterEviction(p, w.mem, victim, f.index)
         && var all := MissRequests(p, victim, f.tag, f.index);
         && Carrying(s, issued, ref.requests + all[..|all| - 1], all[|all| - 1])
  }

  /** A read returned what the reference model returned. */
  ghost predicate SameReads(commits: seq<Commit>, rdata: seq<Word>)
    requires |rdata| == |commits|
  {
    forall n :: 0 <= n < |commits| && !commits[n].req.write ==> commits[n].rdata == rdata[n]
  }

  ghost predicate Sim(p: Params, blocks: Memory, log: Log)
    requires FlatShape(p, blocks)
  {
    && AllOnBus(p, ReqsOf(log.commits))
    && var ref := RefLogOf(p, blocks, log.commits);
    && Tracks(p, log.sys, log.issued, ref)
    && SameReads(log.commits, ref.rdata)
  }

  // ---- One edge that serves no request -----------------------------------------------

  lemma IdleTick(p: Params, log: Log, e: Env, ref: RefLog)
    requires Tracks(p, log.sys, log.issued, ref) && Legal(p, log.sys, e)
    requires log.sys.regs.fsm.IDLE? && Commits(p, log.sys, e) == []
    ensures Tracks(p, TickLog(p, log, e).sys, TickLog(p, log, e).issued, ref)
  {}

  lemma DirtyCheckTick(p: Params, log: Log, e: Env, ref: RefLog)
    requires Tracks(p, log.sys, log.issued, ref) && Legal(p, log.sys, e)
    requires log.sys.regs.fsm.DIRTY_CHECK?
    ensures Tracks(p, TickLog(p, log, e).sys, TickLog(p, log, e).issued, ref)
    ensures Commits(p, log.sys, e) == []
  {
    hide BlockNo, BlockTag, BlockIndex, BlockAt, LineAddr, Decode;
    var f := Decode(p, log.sys.held.addr);
    var victim := VictimOf(ref.world, f.index);
    var all := MissRequests(p, victim, f.tag, f.index);
    if !victim.dirty {
      assert ref.requests + all[..|all| - 1] == ref.requests;
    }
  }

  lemma WbTick(p: Params, log: Log, e: Env, ref: RefLog)
    requires Tracks(p, log.sys, log.issued, ref) && Legal(p, log.sys, e)
    requires log.sys.regs.fsm.WB?
    ensures Tracks(p, TickLog(p, log, e).sys, TickLog(p, log, e).issued, ref)
    ensures Commits(p, log.sys, e) == []
  {
    hide BlockNo, BlockTag, BlockIndex, BlockAt, LineAddr, Decode;
    var f := Decode(p, log.sys.held.addr);
    var victim := VictimOf(ref.world, f.index);
    var all := MissRequests(p, victim, f.tag, f.index);
    assert all[..|all| - 1] == [all[0]];
  }

  /** While no response is taken, a filling cache only waits for its request to be accepted. */
  lemma FillWaits(p: Params, s: Sys, e: Env)
    requires SysShape(p, s) && Legal(p, s, e)
    requires s.regs.fsm.MISS_WAIT? && !e.respValid
    ensures Tick(p, s, e).regs == s.regs.(reqValid := s.regs.reqValid && !e.memReady)
    ensures Tick(p, s, e).mem.blocks == s.mem.blocks
    ensures Commits(p, s, e) == []
  {}

  lemma FillTick(p: Params, log: Log, e: Env, ref: RefLog)
    requires Tracks(p, log.sys, log.issued, ref) && Legal(p, log.sys, e)
    requires log.sys.regs.fsm.MISS_WAIT? && Commits(p, log.sys, e) == []
    ensures Tracks(p, TickLog(p, log, e).sys, TickLog(p, log, e).issued, ref)
  {
    hide BlockNo, BlockTag, BlockIndex, BlockAt, LineAddr, Decode;
    FillWaits(p, log.sys, e);
  }

  // ---- One edge that serves a request ------------------------------------------------

  /** The reference model's log extended by one request. */
  ghost function Extend(p: Params, ref: RefLog, req: Req): (r: RefLog)
    requires Inv(p, ref.world) && p.OnBus(req.addr)
    ensures Inv(p, r.world)
  {
    var (w, requests, rdata) := Step(p, ref.world, req);
    StepKeepsInv(p, ref.world, req);
    RefLog(w, ref.requests + requests, ref.rdata + [rdata])
  }

  lemma HitTick(p: Params, log: Log, e: Env, ref: RefLog)
    requires Tracks(p, log.sys, log.issued, ref) && Legal(p, log.sys, e)
    requires log.sys.regs.fsm.IDLE? && Commits(p, log.sys, e) != []
    ensures Tracks(p, TickLog(p, log, e).sys, TickLog(p, log, e).issued, Extend(p, ref, e.req))
    ensures !e.req.write ==> Commits(p, log.sys, e)[0].rdata == Step(p, ref.world, e.req).2
  {
    hide BlockNo, BlockTag, BlockIndex, BlockAt, LineAddr, Decode;
    var f := Decode(p, e.req.addr);
    var row := ref.world.ref.sets[f.index];
    FirstHitIs(row, LastHit(row, f.tag), f.tag);
  }

  /** Taking the response to a fetch fills the line as the reference model does. */
  lemma MissDoneTick(p: Params, log: Log, e: Env, ref: RefLog)
    requires Tracks(p, log.sys, log.issued, ref) && Legal(p, log.sys, e)
    requires log.sys.regs.fsm.MISS_WAIT? && Commits(p, log.sys, e) != []
    ensures Tracks(p, TickLog(p, log, e).sys, TickLog(p, log, e).issued, Extend(p, ref, e.req))
    ensures !e.req.write ==> Commits(p, log.sys, e)[0].rdata == Step(p, ref.world, e.req).2
  {
    hide BlockNo, BlockTag, BlockIndex, BlockAt, LineAddr, Decode;
    MissDoneRegs(p, log, e, ref);
    MissDoneReads(p, log, e, ref);
    MissDoneIssued(p, log, e, ref);
    IdleTracks(p, Tick(p, log.sys, e), log.issued + Issued(log.sys, e), Extend(p, ref, e.req));
  }

  lemma IdleTracks(p: Params, s: Sys, issued: seq<MemReq>, ref: RefLog)
    requires SysShape(p, s) && Inv(p, ref.world) && s.regs.fsm.IDLE?
    requires s.regs.sets == ref.world.ref.sets && s.regs.ptr == ref.world.ref.ptr
    requires s.mem.blocks == ref.world.mem && Quiet(s, issued, ref.requests)
    ensures Tracks(p, s, issued, ref)
  {}

  lemma MissDoneIssued(p: Params, log: Log, e: Env, ref: RefLog)
    requires Tracks(p, log.sys, log.issued, ref) && Legal(p, log.sys, e)
    requires log.sys.regs.fsm.MISS_WAIT? && e.respValid
    ensures log.issued + Issued(log.sys, e) == Extend(p, ref, e.req).requests
  {
    hide BlockNo, BlockTag, BlockIndex, BlockAt, LineAddr, Decode;
    MissServed(p, ref.world, e.req);
    var f := Decode(p, e.req.addr);
    var all := MissRequests(p, VictimOf(ref.world, f.index), f.tag, f.index);
    assert ref.requests + all == ref.requests + all[..|all| - 1] + [all[|all| - 1]];
  }

  /** What the reference model does with a miss, in the terms of Tracks. */
  lemma MissServed(p: Params, w: World, req: Req)
    requires Inv(p, w) && p.OnBus(req.addr)
    requires var f := Decode(p, req.addr); !IsHit(w.ref.sets[f.index], f.tag)
    ensures var f := Decode(p, req.addr); var s := f.index; var ptr := w.ref.ptr[s];
      var mem := MemAfterEviction(p, w.mem, VictimOf(w, s), s);
      && BlockNo(p, f.tag, s) < |mem| && |mem[BlockNo(p, f.tag, s)]| == p.words
      && var block := mem[BlockNo(p, f.tag, s)];
      && var (w', requests, rdata) := Step(p, w, req);
      && w'.mem == mem
      && w'.ref.sets == SetLine(w.ref.sets, s, ptr, Refilled(f.tag, block, req, f.word))
      && w'.ref.ptr == w.ref.ptr[s := CounterNext(p.ways, ptr)]
      && requests == MissRequests(p, VictimOf(w, s), f.tag, s)
      && (!req.write ==> rdata == block[f.word])
  {
    hide BlockNo, BlockTag, BlockIndex, BlockAt, LineAddr, Decode;
    var f := Decode(p, req.addr);
    BlockNoSplit(p, f.tag, f.index);
    VictimFacts(p, w.ref.sets[f.index], w.ref.ptr[f.index], f.index, w.mem);
    EvictionShape(p, w.mem, VictimOf(w, f.index), f.index);
  }

  lemma FetchAnswer(p: Params, log: Log, e: Env, ref: RefLog)
    requires Tracks(p, log.sys, log.issued, ref) && Legal(p, log.sys, e)
    requires log.sys.regs.fsm.MISS_WAIT? && e.respValid
    ensures var f := Decode(p, e.req.addr);
      var mem := MemAfterEviction(p, ref.world.mem, VictimOf(ref.world, f.index), f.index);
      && BlockNo(p, f.tag, f.index) < |mem|
      && PinsOf(p, log.sys, e).rdata == mem[BlockNo(p, f.tag, f.index)]
  {
    hide BlockNo, BlockTag, BlockIndex, BlockAt, LineAddr, Decode;
    var f := Decode(p, e.req.addr);
    BlockNoSplit(p, f.tag, f.index);
  }

  lemma MissDoneRegs(p: Params, log: Log, e: Env, ref: RefLog)
    requires Tracks(p, log.sys, log.issued, ref) && Legal(p, log.sys, e)
    requires log.sys.regs.fsm.MISS_WAIT? && e.respValid
    ensures var s' := Tick(p, log.sys, e); var w' := Step(p, ref.world, e.req).0;
      && s'.regs.fsm.IDLE? && !s'.regs.reqValid && Issued(log.sys, e) == []
      && s'.regs.sets == w'.ref.sets && s'.regs.ptr == w'.ref.ptr
      && s'.mem.blocks == w'.mem && s'.mem.pending == None && !s'.mem.responding
  {
    hide BlockNo, BlockTag, BlockIndex, BlockAt, LineAddr, Decode;
    var f := Decode(p, e.req.addr);
    MissServed(p, ref.world, e.req);
    FetchAnswer(p, log, e, ref);
    var block := PinsOf(p, log.sys, e).rdata;
    assert FilledLine(f.tag, e.req, f.word, block) == Refilled(f.tag, block, e.req, f.word);
    FillOverwrites(ref.world, f.index, Refilled(f.tag, block, e.req, f.word));
  }

  lemma FillOverwrites(w: World, s: nat, line: Line)
    requires s < |w.ref.sets| && s < |w.ref.ptr| && w.ref.ptr[s] < |w.ref.sets[s]|
    ensures SetLine(AfterWriteBack(w, s), s, w.ref.ptr[s], line)
         == SetLine(w.ref.sets, s, w.ref.ptr[s], line)
  {
    hide BlockNo, BlockTag, BlockIndex, BlockAt, LineAddr, Decode;
    assert AfterWriteBack(w, s)[s][w.ref.ptr[s] := line] == w.ref.sets[s][w.ref.ptr[s] := line];
  }

  lemma MissDoneReads(p: Params, log: Log, e: Env, ref: RefLog)
    requires Tracks(p, log.sys, log.issued, ref) && Legal(p, log.sys, e)
    requires log.sys.regs.fsm.MISS_WAIT? && e.respValid
    ensures |Commits(p, log.sys, e)| == 1
    ensures !e.req.write ==> Commits(p, log.sys, e)[0].rdata == Step(p, ref.world, e.req).2
  {
    hide BlockNo, BlockTag, BlockIndex, BlockAt, LineAddr, Decode;
    var f := Decode(p, e.req.addr);
    MissServed(p, ref.world, e.req);
    FetchAnswer(p, log, e, ref);
    FirstHitSame(ref.world.ref.sets[f.index], log.sys.regs.sets[f.index], f.tag);
  }

  lemma QuietTick(p: Params, log: Log, e: Env, ref: RefLog)
    requires Tracks(p, log.sys, log.issued, ref) && Legal(p, log.sys, e)
    requires Commits(p, log.sys, e) == []
    ensures Tracks(p, TickLog(p, log, e).sys, TickLog(p, log, e).issued, ref)
  {
    hide BlockNo, BlockTag, BlockIndex, BlockAt, LineAddr, Decode;
    match log.sys.regs.fsm
    case IDLE => IdleTick(p, log, e, ref);
    case DIRTY_CHECK => DirtyCheckTick(p, log, e, ref);
    case WB => WbTick(p, log, e, ref);
    case MISS_WAIT => FillTick(p, log, e, ref);
  }

  lemma ServingTick(p: Params, log: Log, e: Env, ref: RefLog)
    requires Tracks(p, log.sys, log.issued, ref) && Legal(p, log.sys, e)
    requires Commits(p, log.sys, e) != []
    ensures Tracks(p, TickLog(p, log, e).sys, TickLog(p, log, e).issued, Extend(p, ref, e.req))
    ensures !e.req.write ==> Commits(p, log.sys, e)[0].rdata == Step(p, ref.world, e.req).2
  {
    hide BlockNo, BlockTag, BlockIndex, BlockAt, LineAddr, Decode;
    match log.sys.regs.fsm
    case IDLE => HitTick(p, log, e, ref);
    case DIRTY_CHECK => DirtyCheckTick(p, log, e, ref);
    case WB => WbTick(p, log, e, ref);
    case MISS_WAIT => MissDoneTick(p, log, e, ref);
  }

  lemma ExtendRefLog(p: Params, blocks: Memory, commits: seq<Commit>, c: Commit)
    requires FlatShape(p, blocks) && AllOnBus(p, ReqsOf(commits)) && p.OnBus(c.req.addr)
    ensures AllOnBus(p, ReqsOf(commits + [c]))
    ensures RefLogOf(p, blocks, commits + [c]) == Extend(p, RefLogOf(p, blocks, commits), c.req)
  {
    hide BlockNo, BlockTag, BlockIndex, BlockAt, LineAddr, Decode;
    var reqs := ReqsOf(commits + [c]);
    assert reqs == ReqsOf(commits) + [c.req];
    assert reqs[..|reqs| - 1] == ReqsOf(commits);
  }

  lemma TickKeepsSim(p: Params, blocks: Memory, log: Log, e: Env)
    requires FlatShape(p, blocks) && Sim(p, blocks, log) && Legal(p, log.sys, e)
    ensures Sim(p, blocks, TickLog(p, log, e))
  {
    hide BlockNo, BlockTag, BlockIndex, BlockAt, LineAddr, Decode;
    var ref := RefLogOf(p, blocks, log.commits);
    var commits := Commits(p, log.sys, e);
    if commits == [] {
      QuietTick(p, log, e, ref);
      assert TickLog(p, log, e).commits == log.commits;
    } else {
      ServingTick(p, log, e, ref);
      assert commits == [commits[0]] && commits[0].req == e.req;
      ExtendRefLog(p, blocks, log.commits, commits[0]);
    }
  }

  lemma LegalPrefix(p: Params, blocks: Memory, envs: seq<Env>, n: nat)
    requires FlatShape(p, blocks) && LegalRun(p, blocks, envs) && n <= |envs|
    ensures LegalRun(p, blocks, envs[..n])
  {
    hide Exec, Legal, FlatShape;
    assert EnvsOnBus(p, envs[..n]);
    forall k | 0 <= k < n
      ensures Legal(p, Exec(p, blocks, envs[..n][..k]).sys, envs[..n][k])
    {
      assert envs[..n][..k] == envs[..k];
    }
  }

  /** Every rule-abiding run stays in step with the reference model: between requests the
      arrays, the pointers and the memory are the reference model's, the memory has accepted
      the requests the reference model made, in its order, and each read returned its data. */
  lemma {:induction false} RunTracksRef(p: Params, blocks: Memory, envs: seq<Env>)
    requires FlatShape(p, blocks) && LegalRun(p, blocks, envs)
    ensures Sim(p, blocks, Exec(p, blocks, envs))
    decreases |envs|
  {
    hide BlockNo, BlockTag, BlockIndex, BlockAt, LineAddr, Decode;
    if |envs| == 0 {
      assert ReqsOf([]) == [];
      ResetInv(p, blocks);
    } else {
      var n := |envs| - 1;
      LegalPrefix(p, blocks, envs, n);
      RunTracksRef(p, blocks, envs[..n]);
      TickKeepsSim(p, blocks, Exec(p, blocks, envs[..n]), envs[n]);
    }
  }
}
