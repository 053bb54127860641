/** The outstanding-read table of the AXI read adapter as a function of one clock edge: the AR
    state machine, the slots, and the two FIFOs as bounded queues. */
module ReadAdapterSpec {
  import opened Replacement
  import opened SyncFifo

  datatype Cmd = Cmd(id: nat, addr: nat, len: nat, size: nat, burst: nat)

  type Word = nat

  /** Number of slots, which is also the command FIFO's depth, and the read-data FIFO's
      depth. */
  datatype Depths = Depths(maxOsd: nat, dataDepth: nat) {
    predicate Ok() {
      maxOsd > 0 && dataDepth > 0
    }
  }

  /** Registers: the FIFO contents, whether the state is AR_SEND, the AR output registers,
      the slots with their burst lengths and error responses, and the registered read_done
      and error_resp. */
  datatype Regs = Regs(
    cmds: seq<Cmd>, data: seq<Word>, send: bool, arValid: bool, ar: Cmd,
    slotValid: seq<bool>, slotId: seq<nat>, slotLen: seq<nat>, slotErr: seq<nat>,
    readDone: bool, errorResp: nat)

  datatype Pins = Pins(
    reqValid: bool, cmd: Cmd, dataReady: bool, arReady: bool,
    rValid: bool, rId: nat, rData: Word, rLast: bool, rResp: nat)

  ghost predicate RegsShape(d: Depths, r: Regs) {
    && d.Ok()
    && |r.cmds| <= d.maxOsd && |r.data| <= d.dataDepth
    && |r.slotValid| == |r.slotId| == |r.slotLen| == |r.slotErr| == d.maxOsd
  }

  function ResetRegs(d: Depths): Regs {
    Regs([], [], false, false, Cmd(0, 0, 0, 0, 0),
         seq(d.maxOsd, _ => false), seq(d.maxOsd, _ => 0), seq(d.maxOsd, _ => 0), seq(d.maxOsd, _ => 0),
         false, 0)
  }

  /** find_by_id_comb: the first valid slot with the ID, or the number of slots. */
  function FindById(valid: seq<bool>, ids: seq<nat>, id: nat): (i: nat)
    requires |ids| == |valid|
    ensures i <= |valid|
    ensures i < |valid| ==> valid[i] && ids[i] == id
    ensures forall j :: 0 <= j < i ==> !(valid[j] && ids[j] == id)
  {
    if |valid| == 0 || (valid[0] && ids[0] == id) then 0 else 1 + FindById(valid[1..], ids[1..], id)
  }

  // ---- Wires -------------------------------------------------------------------------

  /** find_free has something to find. */
  predicate AnyFree(r: Regs) {
    FirstInvalid(r.slotValid) < |r.slotValid|
  }

  predicate ReqReady(d: Depths, r: Regs) {
    |r.cmds| < d.maxOsd && AnyFree(r)
  }

  predicate ReqHandshake(d: Depths, r: Regs, i: Pins) {
    i.reqValid && ReqReady(d, r)
  }

  /** Pops the command and allocates a slot. */
  predicate ArHandshake(r: Regs, i: Pins) {
    r.send && r.arValid && i.arReady
  }

  predicate RHandshake(d: Depths, r: Regs, i: Pins) {
    i.rValid && |r.data| < d.dataDepth
  }

  predicate ReadDoneCondition(d: Depths, r: Regs, i: Pins)
    requires |r.slotId| == |r.slotValid|
  {
    RHandshake(d, r, i) && i.rLast && FindById(r.slotValid, r.slotId, i.rId) < |r.slotValid|
  }

  // ---- One clock edge ----------------------------------------------------------------

  /** The valid bits: of a release and an allocation at the same edge the allocation is
      assigned last, over the old bits, and the release is lost. */
  function NextValid(d: Depths, r: Regs, i: Pins): (v: seq<bool>)
    requires |r.slotId| == |r.slotValid|
    ensures |v| == |r.slotValid|
  {
    if ArHandshake(r, i) then
      if AnyFree(r) then r.slotValid[FirstInvalid(r.slotValid) := true] else r.slotValid
    else if ReadDoneCondition(d, r, i) then
      r.slotValid[FindById(r.slotValid, r.slotId, i.rId) := false]
    else r.slotValid
  }

  function NextIds(r: Regs, i: Pins): (ids: seq<nat>)
    requires |r.slotId| == |r.slotValid|
    ensures |ids| == |r.slotId|
  {
    if ArHandshake(r, i) && AnyFree(r) then r.slotId[FirstInvalid(r.slotValid) := r.ar.id] else r.slotId
  }

  /** Lengths and error responses: set up by an allocation, then refreshed by a beat that
      matches, from the old values. */
  function NextLens(d: Depths, r: Regs, i: Pins): (lens: seq<nat>)
    requires RegsShape(d, r)
    ensures |lens| == |r.slotLen|
  {
    var f, m := FirstInvalid(r.slotValid), FindById(r.slotValid, r.slotId, i.rId);
    var lens := if ArHandshake(r, i) && AnyFree(r) then r.slotLen[f := r.ar.len] else r.slotLen;
    if RHandshake(d, r, i) && m < |lens| then lens[m := Decremented(r.slotLen[m])] else lens
  }

  /** One less in an 8-bit register. */
  function Decremented(len: nat): nat {
    (len + 255) % 256
  }

  function NextErrs(d: Depths, r: Regs, i: Pins): (errs: seq<nat>)
    requires RegsShape(d, r)
    ensures |errs| == |r.slotErr|
  {
    var f, m := FirstInvalid(r.slotValid), FindById(r.slotValid, r.slotId, i.rId);
    var errs := if ArHandshake(r, i) && AnyFree(r) then r.slotErr[f := 0] else r.slotErr;
    if ReadDoneCondition(d, r, i) then errs[m := i.rResp] else errs
  }

  /** error_resp takes what the matched slot held before this edge. */
  function NextErrorResp(d: Depths, r: Regs, i: Pins): nat
    requires RegsShape(d, r)
  {
    if ReadDoneCondition(d, r, i) then r.slotErr[FindById(r.slotValid, r.slotId, i.rId)] else r.errorResp
  }

  function Loads(r: Regs): bool {
    !r.send && |r.cmds| > 0 && AnyFree(r)
  }

  function Next(d: Depths, r: Regs, i: Pins): (r': Regs)
    requires RegsShape(d, r)
    ensures RegsShape(d, r')
  {
    Regs(
      QueueStep(d.maxOsd, r.cmds, ReqHandshake(d, r, i), i.cmd, ArHandshake(r, i)),
      QueueStep(d.dataDepth, r.data, RHandshake(d, r, i), i.rData, i.dataReady && |r.data| > 0),
      if r.send then !ArHandshake(r, i) else Loads(r),
      if Loads(r) then true else if ArHandshake(r, i) then false else r.arValid,
      if Loads(r) then r.cmds[0] else r.ar,
      NextValid(d, r, i),
      NextIds(r, i),
      NextLens(d, r, i),
      NextErrs(d, r, i),
      ReadDoneCondition(d, r, i),
      NextErrorResp(d, r, i))
  }
}
