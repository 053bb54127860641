/** The read adapter as a module: two FIFOs, the AR registers and the slot table, all clocked
    together. */
module ReadAdapter {
  import opened Replacement
  import opened SyncFifo
  import opened ReadAdapterSpec

  lemma MatchIs(valid: seq<bool>, ids: seq<nat>, id: nat, i: nat)
    requires |ids| == |valid| && i <= |valid| && (i < |valid| ==> valid[i] && ids[i] == id)
    requires forall j :: 0 <= j < i ==> !(valid[j] && ids[j] == id)
    ensures FindById(valid, ids, id) == i
  {
    var m := FindById(valid, ids, id);
    assert m < |valid| ==> valid[m] && ids[m] == id;
    assert i < |valid| ==> valid[i] && ids[i] == id;
  }

  class ReadAdapter {
    const d: Depths
    const cmdFifo: SyncFifo<Cmd>
    const dataFifo: SyncFifo<Word>
    const slotValid: array<bool>
    const slotId: array<nat>
    const slotLen: array<nat>
    const slotErr: array<nat>
    var send: bool
    var arValid: bool
    var ar: Cmd
    var readDone: bool
    var errorResp: nat

    ghost predicate Valid()
      reads this, cmdFifo, dataFifo
    {
      && d.Ok()
      && cmdFifo.Valid() && cmdFifo.depth == d.maxOsd
      && dataFifo.Valid() && dataFifo.depth == d.dataDepth
      && slotValid.Length == slotId.Length == slotLen.Length == slotErr.Length == d.maxOsd
      && Apart()
    }

    /** The parts share no storage. */
    ghost predicate Apart() {
      && cmdFifo as object != dataFifo
      && cmdFifo.mem as object != dataFifo.mem
      && slotId != slotLen && slotLen != slotErr && slotErr != slotId
      && slotValid as object !in {cmdFifo.mem as object, dataFifo.mem as object}
      && slotId as object !in {cmdFifo.mem as object, dataFifo.mem as object}
      && slotLen as object !in {cmdFifo.mem as object, dataFifo.mem as object}
      && slotErr as object !in {cmdFifo.mem as object, dataFifo.mem as object}
    }

    ghost function State(): (r: Regs)
      reads this, cmdFifo, dataFifo, cmdFifo.mem, dataFifo.mem, slotValid, slotId, slotLen, slotErr
      requires Valid()
      ensures RegsShape(d, r)
    {
      Regs(cmdFifo.Contents(), dataFifo.Contents(), send, arValid, ar,
           slotValid[..], slotId[..], slotLen[..], slotErr[..], readDone, errorResp)
    }

    constructor (d: Depths)
      requires d.Ok()
      ensures Valid() && State() == ResetRegs(d) && this.d == d
    {
      this.d := d;
      cmdFifo := new SyncFifo<Cmd>(d.maxOsd);
      dataFifo := new SyncFifo<Word>(d.dataDepth);
      slotValid := new bool[d.maxOsd](_ => false);
      slotId := new nat[d.maxOsd](_ => 0);
      slotLen := new nat[d.maxOsd](_ => 0);
      slotErr := new nat[d.maxOsd](_ => 0);
      send, arValid, ar, readDone, errorResp := false, false, Cmd(0, 0, 0, 0, 0), false, 0;
      new;
      assert slotValid[..] == ResetRegs(d).slotValid && slotId[..] == ResetRegs(d).slotId;
      assert slotLen[..] == ResetRegs(d).slotLen && slotErr[..] == ResetRegs(d).slotErr;
    }

    /** find_free */
    method FreeSlot() returns (i: nat)
      requires Valid()
      ensures i == FirstInvalid(slotValid[..]) <= slotValid.Length
    {
      i := 0;
      while i < slotValid.Length && slotValid[i]
        invariant i <= slotValid.Length
        invariant forall j :: 0 <= j < i ==> slotValid[j]
      {
        i := i + 1;
      }
      FirstInvalidAt(slotValid[..], i);
    }

    /** find_by_id_comb */
    method MatchSlot(id: nat) returns (i: nat)
      requires Valid()
      ensures i == FindById(slotValid[..], slotId[..], id) <= slotValid.Length
    {
      i := 0;
      while i < slotValid.Length && !(slotValid[i] && slotId[i] == id)
        invariant i <= slotValid.Length
        invariant forall j :: 0 <= j < i ==> !(slotValid[j] && slotId[j] == id)
      {
        i := i + 1;
      }
      MatchIs(slotValid[..], slotId[..], id, i);
    }

    /** The slot table at an edge. Release and allocation both assign the valid bits from
        their old value; the allocation comes last and wins. */
    method ClockSlots(release: bool, matched: nat, allocate: bool, free: nat)
      requires slotValid.Length == slotId.Length
      requires release ==> matched < slotValid.Length
      modifies slotValid, slotId
      ensures slotValid[..] == if allocate then
                                 if free < slotValid.Length then old(slotValid[..])[free := true]
                                 else old(slotValid[..])
                               else if release then old(slotValid[..])[matched := false]
                               else old(slotValid[..])
      ensures slotId[..] == if allocate && free < slotValid.Length then old(slotId[..])[free := ar.id]
                            else old(slotId[..])
    {
      if release && !allocate {
        slotValid[matched] := false;
      }
      if allocate && free < slotValid.Length {
        slotValid[free], slotId[free] := true, ar.id;
      }
    }

    /** The slots' lengths and error responses at an edge: set up by an allocation, refreshed
        by a matching beat, which never matches the slot being allocated. */
    method ClockSlotInfo(i: Pins, w: Wires)
      requires slotLen.Length == slotErr.Length && slotLen != slotErr
      requires w.done ==> w.matched < slotErr.Length
      requires w.matched < slotLen.Length ==> w.matched != w.free
      modifies slotLen, slotErr
      ensures var lens := if w.arHandshake && w.free < slotLen.Length
                          then old(slotLen[..])[w.free := ar.len] else old(slotLen[..]);
        slotLen[..] == if w.rHandshake && w.matched < |lens|
                       then lens[w.matched := Decremented(old(slotLen[..])[w.matched])] else lens
      ensures var errs := if w.arHandshake && w.free < slotErr.Length
                          then old(slotErr[..])[w.free := 0] else old(slotErr[..]);
        slotErr[..] == if w.done then errs[w.matched := i.rResp] else errs
    {
      if w.arHandshake && w.free < slotLen.Length {
        slotLen[w.free], slotErr[w.free] := ar.len, 0;
      }
      if w.rHandshake && w.matched < slotLen.Length {
        slotLen[w.matched] := Decremented(slotLen[w.matched]);
      }
      if w.done {
        slotErr[w.matched] := i.rResp;
      }
    }

    /** The FIFO outputs in a cycle. */
    method ReadFlags() returns (cmdFull: bool, cmdEmpty: bool, head: Cmd, dataFull: bool, dataEmpty: bool)
      requires Valid()
      ensures cmdFull == (|State().cmds| == d.maxOsd) && cmdEmpty == (State().cmds == [])
      ensures !cmdEmpty ==> head == State().cmds[0]
      ensures dataFull == (|State().data| == d.dataDepth) && dataEmpty == (State().data == [])
    {
      hide SyncFifo.Contents, SyncFifo.Valid, ReadAdapter.Apart, RegsShape;
      cmdFull, cmdEmpty, head := cmdFifo.Outputs();
      var full, empty, _ := dataFifo.Outputs();
      dataFull, dataEmpty := full, empty;
    }

    /** The wires of a cycle, from the FIFO flags and the searches. */
    method ReadWires(i: Pins) returns (w: Wires)
      requires Valid()
      ensures WiresOf(d, State(), i, w)
    {
      hide FirstInvalid, FindById, SyncFifo.Contents, SyncFifo.Valid, ReadAdapter.Apart, RegsShape,
           WiresOf, Decremented;
      ghost var r := State();
      var cmdFull, cmdEmpty, head, dataFull, dataEmpty := ReadFlags();
      var free := FreeSlot();
      var matched := MatchSlot(i.rId);
      var oldErr := if matched < slotErr.Length then slotErr[matched] else 0;
      var anyFree := free < slotValid.Length;
      var rHandshake := i.rValid && !dataFull;
      w := Wires(
        i.reqValid && !cmdFull && anyFree, send && arValid && i.arReady, rHandshake,
        rHandshake && i.rLast && matched < slotValid.Length, !send && !cmdEmpty && anyFree,
        i.dataReady && !dataEmpty, head, free, matched, oldErr);
      WiresAre(d, r, i, w, cmdFull, dataFull);
    }

    /** The outputs in a cycle that are not registers: whether a command and a beat are taken,
        and the oldest data. */
    method Outputs() returns (reqReady: bool, rReady: bool, dataValid: bool, data: Word)
      requires Valid()
      ensures reqReady == (|State().cmds| < d.maxOsd && exists k :: 0 <= k < slotValid.Length && !slotValid[k])
      ensures rReady == (|State().data| < d.dataDepth)
      ensures dataValid == (|State().data| > 0) && (dataValid ==> data == State().data[0])
    {
      hide SyncFifo.Contents, SyncFifo.Valid, ReadAdapter.Apart, RegsShape, FirstInvalid;
      var cmdFull, _, _ := cmdFifo.Outputs();
      var dataFull, dataEmpty, oldest := dataFifo.Outputs();
      var free := FreeSlot();
      assert free < slotValid.Length ==> !slotValid[free];
      assert forall k :: 0 <= k < free ==> slotValid[..][k];
      reqReady, rReady := !cmdFull && free < slotValid.Length, !dataFull;
      dataValid, data := !dataEmpty, oldest;
    }

    /** One rising edge of everything: every part moves on the wires of the cycle. */
    method Clock(i: Pins)
      requires Valid()
      modifies this, cmdFifo, dataFifo, cmdFifo.mem, dataFifo.mem, slotValid, slotId, slotLen, slotErr
      ensures Valid() && State() == Next(d, old(State()), i)
    {
      hide FirstInvalid, FindById, QueueStep, SyncFifo.Contents, SyncFifo.Valid, WiresOf, RegsShape, Next;
      ghost var r := State();
      var w := ReadWires(i);
      MatchedInTable(d, r, i, w);
      ClockSlots(w.done, w.matched, w.arHandshake, w.free);
      ClockSlotInfo(i, w);
      ClockFifos(i, w);
      ClockRegs(w);
      Assemble(d, r, i, w, State());
    }

    /** Both FIFOs at an edge. */
    method ClockFifos(i: Pins, w: Wires)
      requires Valid()
      modifies cmdFifo, dataFifo, cmdFifo.mem, dataFifo.mem
      ensures Valid()
      ensures cmdFifo.Contents() == QueueStep(d.maxOsd, old(cmdFifo.Contents()), w.reqHandshake, i.cmd, w.arHandshake)
      ensures dataFifo.Contents() == QueueStep(d.dataDepth, old(dataFifo.Contents()), w.rHandshake, i.rData, w.dataPop)
    {
      hide QueueStep, SyncFifo.Contents, SyncFifo.Valid;
      cmdFifo.Clock(w.reqHandshake, i.cmd, w.arHandshake);
      dataFifo.Clock(w.rHandshake, i.rData, w.dataPop);
    }

    /** The AR state, the AR registers and read_done at an edge. */
    method ClockRegs(w: Wires)
      modifies this`send, this`arValid, this`ar, this`readDone, this`errorResp
      ensures send == if old(send) then !w.arHandshake else w.loads
      ensures arValid == if w.loads then true else if w.arHandshake then false else old(arValid)
      ensures ar == if w.loads then w.head else old(ar)
      ensures readDone == w.done && errorResp == if w.done then w.oldErr else old(errorResp)
    {
      if w.loads {
        arValid, ar := true, w.head;
      } else if w.arHandshake {
        arValid := false;
      }
      send := if send then !w.arHandshake else w.loads;
      readDone := w.done;
      if w.done {
        errorResp := w.oldErr;
      }
    }
  }

  datatype Wires = Wires(
    reqHandshake: bool, arHandshake: bool, rHandshake: bool, done: bool, loads: bool,
    dataPop: bool, head: Cmd, free: nat, matched: nat, oldErr: nat)

  ghost predicate WiresOf(d: Depths, r: Regs, i: Pins, w: Wires)
    requires RegsShape(d, r)
  {
    && w.reqHandshake == ReqHandshake(d, r, i) && w.arHandshake == ArHandshake(r, i)
    && w.rHandshake == RHandshake(d, r, i) && w.done == ReadDoneCondition(d, r, i)
    && w.loads == Loads(r) && w.dataPop == (i.dataReady && |r.data| > 0)
    && (|r.cmds| > 0 ==> w.head == r.cmds[0])
    && w.free == FirstInvalid(r.slotValid) && w.matched == FindById(r.slotValid, r.slotId, i.rId)
    && (w.matched < |r.slotErr| ==> w.oldErr == r.slotErr[w.matched])
  }

  /** The wires follow from the flags and the searches. */
  lemma WiresAre(d: Depths, r: Regs, i: Pins, w: Wires, cmdFull: bool, dataFull: bool)
    requires RegsShape(d, r)
    requires cmdFull == (|r.cmds| == d.maxOsd) && dataFull == (|r.data| == d.dataDepth)
    requires w.free == FirstInvalid(r.slotValid) && w.matched == FindById(r.slotValid, r.slotId, i.rId)
    requires w.reqHandshake == (i.reqValid && !cmdFull && w.free < |r.slotValid|)
    requires w.arHandshake == (r.send && r.arValid && i.arReady)
    requires w.rHandshake == (i.rValid && !dataFull)
    requires w.done == (w.rHandshake && i.rLast && w.matched < |r.slotValid|)
    requires w.loads == (!r.send && r.cmds != [] && w.free < |r.slotValid|)
    requires w.dataPop == (i.dataReady && r.data != [])
    requires r.cmds != [] ==> w.head == r.cmds[0]
    requires w.matched < |r.slotErr| ==> w.oldErr == r.slotErr[w.matched]
    ensures WiresOf(d, r, i, w)
  {
    hide FirstInvalid, FindById;
  }

  lemma MatchedInTable(d: Depths, r: Regs, i: Pins, w: Wires)
    requires RegsShape(d, r) && WiresOf(d, r, i, w)
    ensures w.done ==> w.matched < |r.slotValid|
    ensures w.matched < |r.slotValid| ==> w.matched != w.free
  {}

  /** The parts' new values are the registers after the edge. */
  lemma Assemble(d: Depths, r: Regs, i: Pins, w: Wires, r': Regs)
    requires RegsShape(d, r) && WiresOf(d, r, i, w)
    requires w.done ==> w.matched < |r.slotValid|
    requires r'.cmds == QueueStep(d.maxOsd, r.cmds, w.reqHandshake, i.cmd, w.arHandshake)
    requires r'.data == QueueStep(d.dataDepth, r.data, w.rHandshake, i.rData, w.dataPop)
    requires r'.send == (if r.send then !w.arHandshake else w.loads)
    requires r'.arValid == (if w.loads then true else if w.arHandshake then false else r.arValid)
    requires r'.ar == (if w.loads then w.head else r.ar)
    requires r'.readDone == w.done && r'.errorResp == if w.done then w.oldErr else r.errorResp
    requires r'.slotValid == if w.arHandshake then
                               if w.free < |r.slotValid| then r.slotValid[w.free := true] else r.slotValid
                             else if w.done then r.slotValid[w.matched := false] else r.slotValid
    requires r'.slotId == if w.arHandshake && w.free < |r.slotValid| then r.slotId[w.free := r.ar.id] else r.slotId
    requires var lens := if w.arHandshake && w.free < |r.slotLen| then r.slotLen[w.free := r.ar.len] else r.slotLen;
      r'.slotLen == if w.rHandshake && w.matched < |lens|
                    then lens[w.matched := Decremented(r.slotLen[w.matched])] else lens
    requires var errs := if w.arHandshake && w.free < |r.slotErr| then r.slotErr[w.free := 0] else r.slotErr;
      r'.slotErr == if w.done then errs[w.matched := i.rResp] else errs
    ensures r' == Next(d, r, i)
  {
    hide FirstInvalid, FindById, QueueStep;
  }
}
