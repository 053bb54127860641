/** Runs of the clocked D-cache that two of its monitors reject, for every geometry in which
    the cache can meet them: a write-back the memory does not accept at once, and a write
    that misses on a nonzero word. */
module DCacheRuns {
  import opened Bits
  import opened CacheLines
  import opened DCacheTypes
  import opened Replacement
  import opened RefSpec
  import opened DCacheSpec
  import opened DCacheSystem
  import opened DCacheTheorems

  lemma Extended(p: Params, blocks: Memory, envs: seq<Env>, e: Env)
    requires FlatShape(p, blocks) && LegalRun(p, blocks, envs) && Legal(p, Exec(p, blocks, envs).sys, e)
    ensures EnvsOnBus(p, envs + [e]) && LegalRun(p, blocks, envs + [e])
    ensures Exec(p, blocks, envs + [e]).sys == Tick(p, Exec(p, blocks, envs).sys, e)
  {
    hide Tick, Legal, FlatShape, SysShape, Issued, Commits, Exec, BlockNo, Decode;
    var all := envs + [e];
    LegalOnBus(p, Exec(p, blocks, envs).sys, e);
    LastEdge(p, blocks, envs, e);
    forall n | 0 <= n < |all| ensures Legal(p, Exec(p, blocks, all[..n]).sys, all[n]) {
      if n < |envs| {
        assert all[..n] == envs[..n];
      } else {
        assert all[..n] == envs;
      }
    }
  }

  lemma LegalOnBus(p: Params, s: Sys, e: Env)
    requires Legal(p, s, e)
    ensures p.OnBus(e.req.addr)
  {}

  lemma LastEdge(p: Params, blocks: Memory, envs: seq<Env>, e: Env)
    requires FlatShape(p, blocks) && EnvsOnBus(p, envs) && p.OnBus(e.req.addr)
    ensures EnvsOnBus(p, envs + [e])
    ensures Exec(p, blocks, envs + [e]).sys == Tick(p, Exec(p, blocks, envs).sys, e)
  {
    hide Tick, FlatShape, SysShape, Issued, Commits, BlockNo, Decode;
    assert (envs + [e])[..|envs|] == envs;
  }

  /** The fields of a line address. */
  lemma DecodeLineAddr(p: Params, tag: nat, index: nat)
    requires p.Ok() && tag < p.tags && index < p.sets
    ensures p.OnBus(LineAddr(p, tag, index))
    ensures Decode(p, LineAddr(p, tag, index)) == Fields(tag, index, 0)
  {
    hide BlockNo, BlockTag, BlockIndex, BlockAt;
    BlockNoSplit(p, tag, index);
    var b := BlockNo(p, tag, index);
    assert p.BlockBytes() > 0 by { MulLe(1, p.words, p.wordBytes); }
    MulLe(b + 1, p.Blocks(), p.BlockBytes());
    DivModUnique(LineAddr(p, tag, index), p.BlockBytes(), b, 0);
    DivModUnique(0, p.wordBytes, 0, 0);
  }

  // ---- One miss, edge by edge --------------------------------------------------------

  /** Idle, with nothing on the memory channel. */
  ghost predicate Resting(p: Params, s: Sys) {
    && SysShape(p, s) && s.regs.fsm.IDLE?
    && !s.regs.reqValid && s.mem.pending == None && !s.mem.responding
  }

  /** The CPU's request with the memory silent, accepting, or answering. */
  function Silent(req: Req): Env {
    Env(true, req, false, false)
  }

  function Accepting(req: Req): Env {
    Env(true, req, true, false)
  }

  function Answering(req: Req): Env {
    Env(true, req, false, true)
  }

  ghost predicate Misses(p: Params, s: Sys, req: Req)
    requires SysShape(p, s) && p.OnBus(req.addr)
  {
    var f := Decode(p, req.addr);
    !IsHit(s.regs.sets[f.index], f.tag)
  }

  lemma StartEdge(p: Params, s: Sys, req: Req)
    requires Resting(p, s) && p.OnBus(req.addr) && Misses(p, s, req)
    ensures var t := Tick(p, s, Silent(req));
      && Legal(p, s, Silent(req)) && t.held == req
      && t.regs == s.regs.(fsm := DIRTY_CHECK)
      && t.mem.blocks == s.mem.blocks && t.mem.pending == None && !t.mem.responding
  {
    hide Decode, LineAddr;
  }

  lemma CheckEdge(p: Params, s: Sys, req: Req)
    requires SysShape(p, s) && p.OnBus(req.addr) && s.held == req && s.regs.fsm.DIRTY_CHECK?
    requires !s.regs.reqValid && s.mem.pending == None && !s.mem.responding
    ensures var f := Decode(p, req.addr); var t := Tick(p, s, Silent(req));
      var dirty := Victim(s.regs, f.index).dirty;
      && Legal(p, s, Silent(req)) && t.held == req
      && t.regs.fsm == (if dirty then WB else MISS_WAIT) && t.regs.reqValid && t.regs.wrEn == dirty
      && t.regs.sets == s.regs.sets && t.regs.ptr == s.regs.ptr
      && (!dirty ==> t.regs.memAddr == LineAddr(p, f.tag, f.index))
      && t.mem.blocks == s.mem.blocks && t.mem.pending == None && !t.mem.responding
  {
    hide Decode, LineAddr;
  }

  lemma AcceptEdge(p: Params, s: Sys, req: Req)
    requires SysShape(p, s) && p.OnBus(req.addr) && s.held == req && s.regs.fsm.MISS_WAIT?
    requires s.regs.reqValid && !s.regs.wrEn && s.mem.pending == None && !s.mem.responding
    ensures var t := Tick(p, s, Accepting(req));
      && Legal(p, s, Accepting(req)) && t.held == req
      && t.regs == s.regs.(reqValid := false)
      && t.mem.blocks == s.mem.blocks && t.mem.pending == Some(Fetch(s.regs.memAddr)) && !t.mem.responding
  {
    hide Decode, LineAddr;
  }

  lemma AnswerEdge(p: Params, s: Sys, req: Req)
    requires SysShape(p, s) && p.OnBus(req.addr) && s.held == req && s.regs.fsm.MISS_WAIT?
    requires !s.regs.reqValid && !s.mem.responding && Misses(p, s, req)
    requires var f := Decode(p, req.addr); s.mem.pending == Some(Fetch(LineAddr(p, f.tag, f.index)))
    ensures var f := Decode(p, req.addr); var e := Answering(req); var t := Tick(p, s, e);
      && BlockNo(p, f.tag, f.index) < |s.mem.blocks|
      && var block := s.mem.blocks[BlockNo(p, f.tag, f.index)];
      && Legal(p, s, e) && Responds(p, s, e) && |block| == p.words
      && PinsOf(p, s, e).rdata == block && ReadData(p, s, e) == block[f.word]
      && Resting(p, t) && t.mem.blocks == s.mem.blocks
      && t.regs.sets == SetLine(s.regs.sets, f.index, s.regs.ptr[f.index], FilledLine(f.tag, req, f.word, block))
      && t.regs.ptr == s.regs.ptr[f.index := CounterNext(p.ways, s.regs.ptr[f.index])]
  {
    hide Decode, LineAddr, BlockNo, BlockAt, BlockTag, BlockIndex, CounterNext;
    var f := Decode(p, req.addr);
    BlockNoSplit(p, f.tag, f.index);
  }

  /** The first three edges of a miss whose victim is clean: the fetch has been accepted. */
  lemma FetchingRun(p: Params, blocks: Memory, envs: seq<Env>, req: Req) returns (run: seq<Env>)
    requires FlatShape(p, blocks) && EnvsOnBus(p, envs) && LegalRun(p, blocks, envs) && p.OnBus(req.addr)
    requires Resting(p, Exec(p, blocks, envs).sys) && Misses(p, Exec(p, blocks, envs).sys, req)
    requires !Victim(Exec(p, blocks, envs).sys.regs, Decode(p, req.addr).index).dirty
    ensures EnvsOnBus(p, run) && LegalRun(p, blocks, run)
    ensures var s, t := Exec(p, blocks, envs).sys, Exec(p, blocks, run).sys; var f := Decode(p, req.addr);
      && t.held == req && t.regs.fsm.MISS_WAIT? && !t.regs.reqValid && !t.mem.responding
      && t.regs.sets == s.regs.sets && t.regs.ptr == s.regs.ptr && t.mem.blocks == s.mem.blocks
      && t.mem.pending == Some(Fetch(LineAddr(p, f.tag, f.index)))
  {
    hide Decode, LineAddr, Exec, LegalRun, Tick, Legal, IsHit;
    StartEdge(p, Exec(p, blocks, envs).sys, req);
    Extended(p, blocks, envs, Silent(req));
    run := envs + [Silent(req)];
    CheckEdge(p, Exec(p, blocks, run).sys, req);
    Extended(p, blocks, run, Silent(req));
    run := run + [Silent(req)];
    AcceptEdge(p, Exec(p, blocks, run).sys, req);
    Extended(p, blocks, run, Accepting(req));
    run := run + [Accepting(req)];
  }

  // ---- A response that is not held ---------------------------------------------------

  /** The response to a write that misses changes in the next cycle if the word fetched from
      its address is not zero: a rule-abiding run for every geometry, memory and such write. */
  lemma ResponseNotHeld(p: Params, blocks: Memory, req: Req) returns (run: seq<Env>)
    requires FlatShape(p, blocks) && p.OnBus(req.addr) && req.write
    requires var f := Decode(p, req.addr); var b := BlockNo(p, f.tag, f.index);
      b < |blocks| && |blocks[b]| == p.words && blocks[b][f.word] != 0
    ensures EnvsOnBus(p, run) && LegalRun(p, blocks, run)
    ensures var s := Exec(p, blocks, run).sys; var e := Answering(req);
      && Legal(p, s, e) && Responds(p, s, e)
      && ReadData(p, Tick(p, s, e), Silent(req)) != ReadData(p, s, e)
  {
    hide Decode, LineAddr, BlockNo, Exec, LegalRun, Tick, Legal, ReadData, Responds;
    AfterReset(p, blocks);
    ResetMisses(p, blocks, req);
    run := FetchingRun(p, blocks, [], req);
    var s := Exec(p, blocks, run).sys;
    AnswerEdge(p, s, req);
    ResponseHeld(p, blocks, run, Exec(p, blocks, run), Answering(req), Silent(req));
  }

  lemma AfterReset(p: Params, blocks: Memory)
    requires FlatShape(p, blocks)
    ensures EnvsOnBus(p, []) && LegalRun(p, blocks, []) && Exec(p, blocks, []).sys == ResetSys(p, blocks)
    ensures Resting(p, ResetSys(p, blocks))
  {}

  lemma ResetMisses(p: Params, blocks: Memory, req: Req)
    requires FlatShape(p, blocks) && p.OnBus(req.addr) && SysShape(p, ResetSys(p, blocks))
    ensures Misses(p, ResetSys(p, blocks), req)
    ensures !Victim(ResetRegs(p), Decode(p, req.addr).index).dirty
  {
    hide Decode;
  }

  // ---- A write-back that waits -------------------------------------------------------

  /** The k-th write of the run: to the block with tag k of set 0. */
  function WriteTo(p: Params, k: nat): Req {
    Req(true, LineAddr(p, k, 0), 1)
  }

  /** Set 0 holds the tags below k, all dirty, and is otherwise empty. */
  ghost predicate Filled(p: Params, s: Sys, k: nat) {
    && Resting(p, s) && k <= p.ways
    && s.regs.ptr[0] == (if k < p.ways then k else 0)
    && forall i :: 0 <= i < p.ways ==>
         var line := s.regs.sets[0][i];
         if i < k then line.valid && line.dirty && line.tag == i else !line.valid && !line.dirty
  }

  lemma {:induction false} FillRun(p: Params, blocks: Memory, k: nat) returns (run: seq<Env>)
    requires FlatShape(p, blocks) && k <= p.ways < p.tags
    ensures EnvsOnBus(p, run) && LegalRun(p, blocks, run) && Filled(p, Exec(p, blocks, run).sys, k)
  {
    hide Decode, LineAddr, BlockNo, Exec, LegalRun, Tick, Legal, Filled, Misses;
    if k == 0 {
      AfterReset(p, blocks);
      run := [];
      NothingFilled(p, blocks);
    } else {
      run := FillRun(p, blocks, k - 1);
      var req := WriteTo(p, k - 1);
      var s := Exec(p, blocks, run).sys;
      NextMisses(p, s, k - 1);
      FilledRests(p, s, k - 1);
      run := FetchingRun(p, blocks, run, req);
      var t := Exec(p, blocks, run).sys;
      SameMisses(p, s, t, req);
      AnswerEdge(p, t, req);
      Extended(p, blocks, run, Answering(req));
      run := run + [Answering(req)];
      FilledNext(p, s, Exec(p, blocks, run).sys, k - 1, FilledLine(k - 1, req, 0, t.mem.blocks[BlockNo(p, k - 1, 0)]));
    }
  }

  lemma NothingFilled(p: Params, blocks: Memory)
    requires FlatShape(p, blocks)
    ensures Filled(p, ResetSys(p, blocks), 0)
  {}

  lemma NextMisses(p: Params, s: Sys, k: nat)
    requires Filled(p, s, k) && k < p.tags
    ensures var req := WriteTo(p, k);
      && p.OnBus(req.addr) && Misses(p, s, req) && Decode(p, req.addr) == Fields(k, 0, 0)
      && Victim(s.regs, 0).dirty == (k == p.ways)
  {
    hide Decode, LineAddr;
    DecodeLineAddr(p, k, 0);
    var row := s.regs.sets[0];
    forall i | 0 <= i < |row| ensures !Matches(row[i], k) {}
  }

  lemma SameMisses(p: Params, s: Sys, t: Sys, req: Req)
    requires SysShape(p, s) && SysShape(p, t) && t.regs.sets == s.regs.sets
    requires p.OnBus(req.addr) && Misses(p, s, req)
    ensures Misses(p, t, req)
  {
    hide Decode;
  }

  lemma FilledNext(p: Params, s: Sys, t: Sys, k: nat, line: Line)
    requires Filled(p, s, k) && k < p.ways && Resting(p, t)
    requires line.valid && line.dirty && line.tag == k
    requires t.regs.sets == SetLine(s.regs.sets, 0, s.regs.ptr[0], line)
    requires t.regs.ptr == s.regs.ptr[0 := CounterNext(p.ways, s.regs.ptr[0])]
    ensures Filled(p, t, k + 1)
  {}

  /** A write-back that the memory does not accept at once is still shown a cycle after the
      check of its victim: a rule-abiding run for every memory and every geometry with more
      tags than ways, which is when lines are evicted at all. */
  lemma WriteBackWaits(p: Params, blocks: Memory) returns (run: seq<Env>)
    requires FlatShape(p, blocks) && p.ways < p.tags
    ensures EnvsOnBus(p, run) && LegalRun(p, blocks, run)
    ensures var s := Exec(p, blocks, run).sys; var e := Silent(WriteTo(p, p.ways));
      && Legal(p, s, e)
      && var t := Tick(p, s, e).regs;
      t.reqValid && t.wrEn && !ChecksDirtyVictim(p, s)
  {
    hide Decode, LineAddr, BlockNo, Exec, LegalRun, Tick, Legal, Filled, Misses;
    run := FillRun(p, blocks, p.ways);
    var req := WriteTo(p, p.ways);
    var s := Exec(p, blocks, run).sys;
    NextMisses(p, s, p.ways);
    FilledRests(p, s, p.ways);
    StartEdge(p, s, req);
    Extended(p, blocks, run, Silent(req));
    run := run + [Silent(req)];
    CheckEdge(p, Exec(p, blocks, run).sys, req);
    Extended(p, blocks, run, Silent(req));
    run := run + [Silent(req)];
    WaitEdge(p, Exec(p, blocks, run).sys, req);
  }

  lemma FilledRests(p: Params, s: Sys, k: nat)
    requires Filled(p, s, k)
    ensures Resting(p, s)
  {}

  lemma WaitEdge(p: Params, s: Sys, req: Req)
    requires SysShape(p, s) && p.OnBus(req.addr) && s.held == req && s.regs.fsm.WB?
    requires s.regs.reqValid && s.regs.wrEn && s.mem.pending == None && !s.mem.responding
    ensures var t := Tick(p, s, Silent(req)).regs;
      Legal(p, s, Silent(req)) && t.reqValid && t.wrEn
  {
    hide Decode, LineAddr;
  }
}
