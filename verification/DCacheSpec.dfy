/** The clocked D-cache as a function: its wires over the registers and the input pins, and
    the registers after one clock edge. Every right-hand side reads the old registers. */
module DCacheSpec {
  import opened CacheLines
  import opened DCacheTypes
  import opened Replacement
  import opened RefSpec

  datatype Fsm = IDLE | DIRTY_CHECK | WB | MISS_WAIT

  /** The registers. `sets` holds valid, dirty, tag and data, indexed [set][way]. */
  datatype Regs = Regs(
    sets: seq<seq<Line>>, ptr: seq<nat>, fsm: Fsm,
    reqValid: bool, wrEn: bool, memAddr: nat, memWdata: Block)

  datatype Pins = Pins(cpuValid: bool, req: Req, memReady: bool, respValid: bool, rdata: Block)

  ghost predicate RegsShape(p: Params, r: Regs) {
    Shape(p, Ref(r.sets, r.ptr)) && |r.memWdata| == p.words
  }

  ghost predicate PinsShape(p: Params, i: Pins) {
    p.Ok() && p.OnBus(i.req.addr) && |i.rdata| == p.words
  }

  function ZeroBlock(p: Params): Block {
    seq(p.words, _ => 0)
  }

  function ResetRegs(p: Params): Regs {
    Regs(ResetRef(p).sets, ResetRef(p).ptr, IDLE, false, false, 0, ZeroBlock(p))
  }

  /** The priority encoder: the last way that matches, or 0. */
  function LastHit(row: seq<Line>, tag: nat): (w: nat)
    ensures |row| > 0 ==> w < |row|
    ensures forall i :: 0 <= i < |row| && Matches(row[i], tag) ==> i <= w && Matches(row[w], tag)
  {
    if |row| == 0 then 0
    else if Matches(row[|row| - 1], tag) then |row| - 1
    else LastHit(row[..|row| - 1], tag)
  }

  function Victim(r: Regs, s: nat): Line
    requires s < |r.sets| && s < |r.ptr| && r.ptr[s] < |r.sets[s]|
  {
    r.sets[s][r.ptr[s]]
  }

  // ---- Wires -------------------------------------------------------------------------

  predicate CpuHandshake(r: Regs, i: Pins) {
    i.cpuValid && r.fsm.IDLE?
  }

  predicate RespReady(r: Regs) {
    r.fsm.WB? || r.fsm.MISS_WAIT?
  }

  predicate RespHandshake(r: Regs, i: Pins) {
    i.respValid && RespReady(r)
  }

  predicate WbDone(r: Regs, i: Pins) {
    r.fsm.WB? && RespHandshake(r, i)
  }

  predicate MissDone(r: Regs, i: Pins) {
    r.fsm.MISS_WAIT? && RespHandshake(r, i)
  }

  predicate HitSign(p: Params, r: Regs, i: Pins)
    requires RegsShape(p, r) && PinsShape(p, i)
  {
    var f := Decode(p, i.req.addr);
    IsHit(r.sets[f.index], f.tag)
  }

  predicate IsDirty(p: Params, r: Regs, i: Pins)
    requires RegsShape(p, r) && PinsShape(p, i)
  {
    r.fsm.DIRTY_CHECK? && Victim(r, Decode(p, i.req.addr).index).dirty
  }

  predicate ReadReqCondition(p: Params, r: Regs, i: Pins)
    requires RegsShape(p, r) && PinsShape(p, i)
  {
    (r.fsm.DIRTY_CHECK? && !IsDirty(p, r, i)) || WbDone(r, i)
  }

  predicate CpuRespValid(p: Params, r: Regs, i: Pins)
    requires RegsShape(p, r) && PinsShape(p, i)
  {
    (r.fsm.IDLE? && HitSign(p, r, i)) || MissDone(r, i)
  }

  function CacheRdata(p: Params, r: Regs, i: Pins): Word
    requires RegsShape(p, r) && PinsShape(p, i)
  {
    var f := Decode(p, i.req.addr);
    var row := r.sets[f.index];
    if HitSign(p, r, i) then
      if i.req.write then 0 else row[LastHit(row, f.tag)].data[f.word]
    else i.rdata[f.word]
  }

  // ---- One clock edge ----------------------------------------------------------------

  function NextFsm(p: Params, r: Regs, i: Pins): Fsm
    requires RegsShape(p, r) && PinsShape(p, i)
  {
    match r.fsm
    case IDLE => if CpuHandshake(r, i) && !HitSign(p, r, i) then DIRTY_CHECK else IDLE
    case DIRTY_CHECK => if IsDirty(p, r, i) then WB else MISS_WAIT
    case WB => if WbDone(r, i) then MISS_WAIT else WB
    case MISS_WAIT => if MissDone(r, i) then IDLE else MISS_WAIT
  }

  function FilledLine(tag: nat, req: Req, k: nat, rdata: Block): Line {
    Line(true, req.write, tag,
         seq(|rdata|, n requires 0 <= n < |rdata| => if req.write && n == k then req.wdata else rdata[n]))
  }

  function NextSets(p: Params, r: Regs, i: Pins): (sets: seq<seq<Line>>)
    requires RegsShape(p, r) && PinsShape(p, i)
  {
    var Fields(tag, s, k) := Decode(p, i.req.addr);
    var row := r.sets[s];
    if CpuHandshake(r, i) && i.req.write && HitSign(p, r, i) then
      SetLine(r.sets, s, LastHit(row, tag), Poke(row[LastHit(row, tag)], k, i.req.wdata))
    else if WbDone(r, i) then
      SetLine(r.sets, s, r.ptr[s], Victim(r, s).(dirty := false))
    else if MissDone(r, i) then
      SetLine(r.sets, s, r.ptr[s], FilledLine(tag, i.req, k, i.rdata))
    else r.sets
  }

  function Next(p: Params, r: Regs, i: Pins): (r': Regs)
    requires RegsShape(p, r) && PinsShape(p, i)
    ensures RegsShape(p, r')
  {
    var Fields(tag, s, k) := Decode(p, i.req.addr);
    var victim := Victim(r, s);
    var writeReq, readReq := IsDirty(p, r, i), ReadReqCondition(p, r, i);
    Regs(
      NextSets(p, r, i),
      if MissDone(r, i) then r.ptr[s := CounterNext(p.ways, r.ptr[s])] else r.ptr,
      NextFsm(p, r, i),
      if (writeReq || readReq) && !r.reqValid then true
      else if r.reqValid && i.memReady then false
      else r.reqValid,
      if readReq then false else if writeReq then true else r.wrEn,
      if readReq then LineAddr(p, tag, s)
      else if writeReq then LineAddr(p, victim.tag, s)
      else r.memAddr,
      if RespHandshake(r, i) then ZeroBlock(p)
      else if writeReq then victim.data
      else r.memWdata)
  }
}
