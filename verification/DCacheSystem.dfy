/** The clocked D-cache between a CPU that holds its request until it is served and a memory
    that serves one request at a time, with any latency. */
module DCacheSystem {
  import opened CacheLines
  import opened DCacheTypes
  import opened RefSpec
  import opened DCacheSpec

  /** The memory: its blocks, the accepted request it has not answered, whether it is
      holding a response, and for how many cycles the present phase has lasted. */
  datatype MemSide = MemSide(
    blocks: Memory, pending: Option<MemReq>, responding: bool, waited: nat)

  /** `held` is the request on the CPU's pins at the last clock edge. */
  datatype Sys = Sys(regs: Regs, mem: MemSide, held: Req)

  /** What CPU and memory choose in one cycle. */
  datatype Env = Env(cpuValid: bool, req: Req, memReady: bool, respValid: bool)

  /** A served CPU request with the data on the read pins. */
  datatype Commit = Commit(req: Req, rdata: Word)

  /** A run so far: the state, the memory requests accepted, the CPU requests served. */
  datatype Log = Log(sys: Sys, issued: seq<MemReq>, commits: seq<Commit>)

  ghost predicate SysShape(p: Params, s: Sys) {
    && RegsShape(p, s.regs)
    && |s.mem.blocks| == p.Blocks()
    && (forall b :: 0 <= b < |s.mem.blocks| ==> |s.mem.blocks[b]| == p.words)
    && (s.mem.pending.Some? && s.mem.pending.value.WriteBack? ==> |s.mem.pending.value.data| == p.words)
  }

  /** The request the memory pins show. */
  function Shown(r: Regs): MemReq {
    if r.wrEn then WriteBack(r.memAddr, r.memWdata) else Fetch(r.memAddr)
  }

  /** The memory drives a fetched block with its response, and zeros otherwise. */
  function Answer(p: Params, m: MemSide, respValid: bool): Block
    requires p.Ok()
  {
    if respValid && m.pending.Some? && m.pending.value.Fetch?
       && BlockAt(p, m.pending.value.addr) < |m.blocks|
    then m.blocks[BlockAt(p, m.pending.value.addr)]
    else ZeroBlock(p)
  }

  function PinsOf(p: Params, s: Sys, e: Env): (i: Pins)
    requires SysShape(p, s) && p.OnBus(e.req.addr)
    ensures PinsShape(p, i)
  {
    Pins(e.cpuValid, e.req, e.memReady, e.respValid, Answer(p, s.mem, e.respValid))
  }

  /** The rules of CPU and memory. The CPU keeps its request while the cache is busy; the
      memory answers only a request accepted at an earlier edge, and keeps its answer up
      until it is taken. When it is ready, and how long it takes, is free. */
  predicate Legal(p: Params, s: Sys, e: Env) {
    && p.OnBus(e.req.addr)
    && (!s.regs.fsm.IDLE? ==> e.cpuValid && e.req == s.held)
    && (e.respValid ==> s.mem.pending.Some?)
    && (s.mem.responding ==> e.respValid)
  }

  /** The response wire and the data pins in a cycle. */
  predicate Responds(p: Params, s: Sys, e: Env)
    requires SysShape(p, s) && p.OnBus(e.req.addr)
  {
    CpuRespValid(p, s.regs, PinsOf(p, s, e))
  }

  function ReadData(p: Params, s: Sys, e: Env): Word
    requires SysShape(p, s) && p.OnBus(e.req.addr)
  {
    CacheRdata(p, s.regs, PinsOf(p, s, e))
  }

  /** Memory requests accepted at this edge. */
  function Issued(s: Sys, e: Env): seq<MemReq> {
    if s.regs.reqValid && e.memReady then [Shown(s.regs)] else []
  }

  /** CPU requests served at this edge: a hit that is accepted, or a miss that is filled. */
  function Commits(p: Params, s: Sys, e: Env): seq<Commit>
    requires SysShape(p, s) && p.OnBus(e.req.addr)
  {
    var i := PinsOf(p, s, e);
    if (CpuHandshake(s.regs, i) && HitSign(p, s.regs, i)) || MissDone(s.regs, i)
    then [Commit(e.req, ReadData(p, s, e))] else []
  }

  /** The memory after an edge. A write takes effect when its response is taken. */
  function NextMem(p: Params, s: Sys, e: Env): MemSide
    requires p.Ok()
  {
    var m := s.mem;
    var taken := e.respValid && RespReady(s.regs);
    var accepted := s.regs.reqValid && e.memReady;
    MemSide(
      if taken && m.pending.Some? then Stored(p, m.blocks, m.pending.value) else m.blocks,
      if taken then None else if accepted then Some(Shown(s.regs)) else m.pending,
      e.respValid && !taken,
      if taken || accepted then 0
      else if s.regs.reqValid || m.pending.Some? then m.waited + 1 else 0)
  }

  function Tick(p: Params, s: Sys, e: Env): (s': Sys)
    requires SysShape(p, s) && p.OnBus(e.req.addr)
    ensures SysShape(p, s')
  {
    Sys(Next(p, s.regs, PinsOf(p, s, e)), NextMem(p, s, e), e.req)
  }

  function ResetSys(p: Params, blocks: Memory): Sys {
    Sys(ResetRegs(p), MemSide(blocks, None, false, 0), Req(false, 0, 0))
  }

  ghost predicate EnvsOnBus(p: Params, envs: seq<Env>) {
    forall n :: 0 <= n < |envs| ==> p.OnBus(envs[n].req.addr)
  }

  function TickLog(p: Params, log: Log, e: Env): (log': Log)
    requires SysShape(p, log.sys) && p.OnBus(e.req.addr)
    ensures SysShape(p, log'.sys)
  {
    Log(Tick(p, log.sys, e), log.issued + Issued(log.sys, e), log.commits + Commits(p, log.sys, e))
  }

  /** The run from reset over a memory with arbitrary contents, one Env per clock edge. */
  ghost function Exec(p: Params, blocks: Memory, envs: seq<Env>): (log: Log)
    requires FlatShape(p, blocks) && EnvsOnBus(p, envs)
    ensures SysShape(p, log.sys)
    decreases |envs|
  {
    if |envs| == 0 then Log(ResetSys(p, blocks), [], [])
    else TickLog(p, Exec(p, blocks, envs[..|envs| - 1]), envs[|envs| - 1])
  }

  /** CPU and memory follow their rules at every edge. */
  ghost predicate LegalRun(p: Params, blocks: Memory, envs: seq<Env>)
    requires FlatShape(p, blocks)
  {
    && EnvsOnBus(p, envs)
    && forall n :: 0 <= n < |envs| ==> Legal(p, Exec(p, blocks, envs[..n]).sys, envs[n])
  }
}
