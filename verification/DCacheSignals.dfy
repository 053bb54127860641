/** The D-cache's pins in every cycle of every rule-abiding run: when it answers the CPU, what
    is on the data pins then, and what the memory request registers hold. */
module DCacheSignals {
  import opened CacheLines
  import opened DCacheTypes
  import opened RefSpec
  import opened RefRefinesFlat
  import opened DCacheSpec
  import opened DCacheSystem
  import opened DCacheRefinement
  import opened DCacheTheorems

  // ---- Towards the CPU ---------------------------------------------------------------

  /** Some way of the set holds the tag. */
  ghost predicate Resident(p: Params, s: Sys, addr: nat)
    requires SysShape(p, s) && p.OnBus(addr)
  {
    var f := Decode(p, addr);
    exists w :: 0 <= w < p.ways && s.regs.sets[f.index][w].valid && s.regs.sets[f.index][w].tag == f.tag
  }

  lemma ResidentIsHit(p: Params, s: Sys, addr: nat)
    requires SysShape(p, s) && p.OnBus(addr)
    ensures var f := Decode(p, addr); Resident(p, s, addr) <==> IsHit(s.regs.sets[f.index], f.tag)
  {
    hide Decode;
    var f := Decode(p, addr);
    var row := s.regs.sets[f.index];
    var h := FirstHit(row, f.tag);
    assert h < |row| ==> Matches(row[h], f.tag);
    assert forall w :: 0 <= w < h ==> !Matches(row[w], f.tag);
  }

  /** When the cache answers and what it serves. Idle, it answers exactly while the request on
      the pins is resident, and serves it exactly if it is also valid; while a line is being
      filled it answers and serves in the very cycle the memory answers; otherwise neither. So
      whatever is served is answered. */
  ghost predicate AnswersAsServed(p: Params, s: Sys, e: Env)
    requires SysShape(p, s) && p.OnBus(e.req.addr)
  {
    var served := Commits(p, s, e);
    && (served == [] || served == [Commit(e.req, ReadData(p, s, e))])
    && (served != [] ==> Responds(p, s, e))
    && match s.regs.fsm
       case IDLE =>
         && (Responds(p, s, e) <==> Resident(p, s, e.req.addr))
         && (served != [] <==> e.cpuValid && Resident(p, s, e.req.addr))
       case DIRTY_CHECK => !Responds(p, s, e) && served == []
       case WB => !Responds(p, s, e) && served == []
       case MISS_WAIT => (Responds(p, s, e) <==> e.respValid) && (served != [] <==> e.respValid)
  }

  lemma ServedIsAnswered(p: Params, blocks: Memory, envs: seq<Env>, e: Env)
    requires FlatShape(p, blocks) && LegalRun(p, blocks, envs) && Legal(p, Exec(p, blocks, envs).sys, e)
    ensures AnswersAsServed(p, Exec(p, blocks, envs).sys, e)
  {
    hide Decode, Exec, Resident, ReadData;
    ResidentIsHit(p, Exec(p, blocks, envs).sys, e.req.addr);
  }

  /** An answer's data: zero for a write that hits, otherwise the word the flat memory holds at
      the address, also for a write that misses. */
  lemma AnswerData(p: Params, blocks: Memory, envs: seq<Env>, log: Log, e: Env)
    requires FlatShape(p, blocks) && LegalRun(p, blocks, envs) && log == Exec(p, blocks, envs)
    requires Legal(p, log.sys, e) && Responds(p, log.sys, e)
    ensures AllOnBus(p, ReqsOf(log.commits))
    ensures var flat := FlatRun(p, blocks, ReqsOf(log.commits)).0; ShowsWordOf(p, log.sys, e, flat)
  {
    hide Decode, Exec, Responds, View, BlockNo, FlatRun, Tracks, ReqsOf, SameReads, RefLogOf, Inv,
         ShowsWordOf;
    RunTracksRef(p, blocks, envs);
    DCacheRefinesFlat(p, blocks, envs);
    ViewData(p, log, e, RefLogOf(p, blocks, log.commits));
  }

  /** The data pins: zero for a write while idle, else this memory's word at the address. */
  ghost predicate ShowsWordOf(p: Params, s: Sys, e: Env, flat: Memory)
    requires SysShape(p, s) && p.OnBus(e.req.addr)
  {
    var f := Decode(p, e.req.addr);
    var b := BlockNo(p, f.tag, f.index);
    && b < |flat| && f.word < |flat[b]|
    && ReadData(p, s, e) == if s.regs.fsm.IDLE? && e.req.write then 0 else flat[b][f.word]
  }

  lemma ViewData(p: Params, log: Log, e: Env, ref: RefLog)
    requires SysShape(p, log.sys) && p.OnBus(e.req.addr)
    requires Tracks(p, log.sys, log.issued, ref) && Legal(p, log.sys, e) && Responds(p, log.sys, e)
    ensures ShowsWordOf(p, log.sys, e, View(p, log.sys.regs.sets, log.sys.mem.blocks))
  {
    hide Decode, BlockNo, BlockTag, BlockIndex, BlockAt, LineAddr, Tracks, Legal, ReadData, BlockView, Responds,
         Inv, FirstHit, IsHit, View;
    var f := Decode(p, e.req.addr);
    BlockNoSplit(p, f.tag, f.index);
    ViewedBlock(p, log.sys, f.tag, f.index);
    if log.sys.regs.fsm.IDLE? {
      IdleData(p, log, e, ref);
    } else {
      FillData(p, log, e, ref);
    }
  }

  /** The block seen at a tag and index: the first way's that holds it, else memory's. */
  lemma ViewedBlock(p: Params, s: Sys, tag: nat, index: nat)
    requires SysShape(p, s) && tag < p.tags && index < p.sets
    requires BlockNo(p, tag, index) < |s.mem.blocks|
    ensures var row := s.regs.sets[index]; var h := FirstHit(row, tag); var b := BlockNo(p, tag, index);
      var view := View(p, s.regs.sets, s.mem.blocks);
      |view| == |s.mem.blocks| && view[b] == if h < |row| then row[h].data else s.mem.blocks[b]
  {
    hide BlockNo, BlockTag, BlockIndex, BlockAt, LineAddr, FirstHit;
    BlockNoSplit(p, tag, index);
  }

  lemma IdleData(p: Params, log: Log, e: Env, ref: RefLog)
    requires SysShape(p, log.sys) && p.OnBus(e.req.addr)
    requires Tracks(p, log.sys, log.issued, ref) && Legal(p, log.sys, e) && Responds(p, log.sys, e)
    requires log.sys.regs.fsm.IDLE?
    ensures var f := Decode(p, e.req.addr); var row := log.sys.regs.sets[f.index]; var h := FirstHit(row, f.tag);
      && h < |row| && f.word < |row[h].data|
      && ReadData(p, log.sys, e) == if e.req.write then 0 else row[h].data[f.word]
  {
    hide Decode, BlockNo, BlockTag, BlockIndex, BlockAt, LineAddr, FirstHit, ReadData, View;
    var f := Decode(p, e.req.addr);
    assert SetOk(p, ref.world.ref.sets[f.index], ref.world.ref.ptr[f.index], f.index, ref.world.mem);
    IdleHitData(p, log.sys, e);
  }

  lemma FillData(p: Params, log: Log, e: Env, ref: RefLog)
    requires SysShape(p, log.sys) && p.OnBus(e.req.addr)
    requires Tracks(p, log.sys, log.issued, ref) && Legal(p, log.sys, e) && Responds(p, log.sys, e)
    requires !log.sys.regs.fsm.IDLE?
    ensures var f := Decode(p, e.req.addr); var row := log.sys.regs.sets[f.index]; var b := BlockNo(p, f.tag, f.index);
      && FirstHit(row, f.tag) == |row|
      && b < |log.sys.mem.blocks| && f.word < |log.sys.mem.blocks[b]|
      && ReadData(p, log.sys, e) == log.sys.mem.blocks[b][f.word]
  {
    hide Decode, BlockNo, BlockTag, BlockIndex, BlockAt, LineAddr, FirstHit, View;
    FillMisses(p, log, e, ref);
    FetchAnswer(p, log, e, ref);
  }

  // ---- Towards the memory ------------------------------------------------------------

  /** The write data is the victim's block until the answer to the write-back is taken, and
      zero at any other time. */
  ghost predicate WriteDataOk(p: Params, s: Sys)
    requires SysShape(p, s)
  {
    if s.regs.fsm.WB? then
      p.OnBus(s.held.addr) && s.regs.memWdata == Victim(s.regs, Decode(p, s.held.addr).index).data
    else s.regs.memWdata == seq(p.words, _ => 0)
  }

  /** Address and direction stay those of the last request accepted until the next one is
      shown, and are zero before the first. */
  ghost predicate AddressOk(r: Regs, issued: seq<MemReq>) {
    !r.reqValid ==>
      if |issued| == 0 then r.memAddr == 0 && !r.wrEn
      else
        var q := issued[|issued| - 1];
        r.memAddr == q.addr && r.wrEn == q.WriteBack?
  }

  ghost predicate RegistersOk(p: Params, log: Log)
    requires SysShape(p, log.sys)
  {
    WriteDataOk(p, log.sys) && AddressOk(log.sys.regs, log.issued)
  }

  lemma {:induction false} MemoryRegisters(p: Params, blocks: Memory, envs: seq<Env>)
    requires FlatShape(p, blocks) && LegalRun(p, blocks, envs)
    ensures RegistersOk(p, Exec(p, blocks, envs))
    decreases |envs|
  {
    hide Decode, LegalRun, RegistersOk, Tracks, Legal, TickLog;
    if |envs| == 0 {
      ResetRegisters(p, blocks);
    } else {
      var n := |envs| - 1;
      LegalPrefix(p, blocks, envs, n);
      LegalAt(p, blocks, envs, n);
      MemoryRegisters(p, blocks, envs[..n]);
      RunTracksRef(p, blocks, envs[..n]);
      var log := Exec(p, blocks, envs[..n]);
      RegistersNext(p, log, envs[n], RefLogOf(p, blocks, log.commits));
    }
  }

  lemma LegalAt(p: Params, blocks: Memory, envs: seq<Env>, n: nat)
    requires FlatShape(p, blocks) && LegalRun(p, blocks, envs) && n < |envs|
    ensures EnvsOnBus(p, envs[..n]) && Legal(p, Exec(p, blocks, envs[..n]).sys, envs[n])
  {
    hide Exec, Legal;
  }

  lemma ResetRegisters(p: Params, blocks: Memory)
    requires FlatShape(p, blocks)
    ensures RegistersOk(p, Log(ResetSys(p, blocks), [], []))
  {}

  lemma RegistersNext(p: Params, log: Log, e: Env, ref: RefLog)
    requires Tracks(p, log.sys, log.issued, ref) && Legal(p, log.sys, e) && RegistersOk(p, log)
    ensures RegistersOk(p, TickLog(p, log, e))
  {
    hide Tracks, Legal, WriteDataOk, AddressOk, Tick, Issued, Commits;
    WriteDataNext(p, log, e, ref);
    AddressNext(p, log, e, ref);
  }

  lemma WriteDataNext(p: Params, log: Log, e: Env, ref: RefLog)
    requires Tracks(p, log.sys, log.issued, ref) && Legal(p, log.sys, e) && WriteDataOk(p, log.sys)
    ensures WriteDataOk(p, Tick(p, log.sys, e))
  {
    hide Decode, BlockNo, BlockTag, BlockIndex, BlockAt, LineAddr, Inv, Shown, MissRequests, SetLine, NextMem;
    match log.sys.regs.fsm
    case IDLE =>
    case DIRTY_CHECK =>
    case WB =>
    case MISS_WAIT =>
  }

  lemma AddressNext(p: Params, log: Log, e: Env, ref: RefLog)
    requires Tracks(p, log.sys, log.issued, ref) && Legal(p, log.sys, e) && AddressOk(log.sys.regs, log.issued)
    ensures AddressOk(Tick(p, log.sys, e).regs, log.issued + Issued(log.sys, e))
  {
    hide Decode, BlockNo, BlockTag, BlockIndex, BlockAt, LineAddr, NextSets, NextMem, Inv, MissRequests;
    match log.sys.regs.fsm
    case IDLE =>
    case DIRTY_CHECK =>
    case WB =>
    case MISS_WAIT =>
  }
}
