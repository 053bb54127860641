/** The clocked D-cache as a module with registers: `Clock` is one rising edge. All next
    values are worked out from the registers as they stood before the edge and only then
    stored, which is what the nonblocking assignments do. */
module DCache {
  import opened CacheLines
  import opened DCacheTypes
  import opened Replacement
  import opened RefSpec
  import opened DCacheSpec

  /** The value of a table indexed [way, set], read set by set. */
  ghost function Columns(lines: array2<Line>): (sets: seq<seq<Line>>)
    reads lines
    ensures |sets| == lines.Length1
    ensures forall s :: 0 <= s < |sets| ==> |sets[s]| == lines.Length0
    ensures forall s, w :: 0 <= s < lines.Length1 && 0 <= w < lines.Length0 ==> sets[s][w] == lines[w, s]
  {
    seq(lines.Length1, s requires 0 <= s < lines.Length1 reads lines =>
      seq(lines.Length0, w requires 0 <= w < lines.Length0 reads lines => lines[w, s]))
  }

  lemma NextFields(p: Params, r: Regs, i: Pins)
    requires RegsShape(p, r) && PinsShape(p, i)
    ensures var n := Next(p, r, i); var s := Decode(p, i.req.addr).index;
      && n.sets == NextSets(p, r, i) && n.fsm == NextFsm(p, r, i)
      && n.ptr == if MissDone(r, i) then r.ptr[s := CounterNext(p.ways, r.ptr[s])] else r.ptr
  {
    hide Decode, LineAddr, BlockNo, NextSets, NextFsm;
  }

  /** The registers assembled from the parts the edge computes. */
  lemma Assemble(p: Params, r: Regs, i: Pins, r': Regs, write: bool, way: nat, line: Line)
    requires RegsShape(p, r) && PinsShape(p, i)
    requires var s := Decode(p, i.req.addr).index;
      && (if write then way < p.ways && NextSets(p, r, i) == SetLine(r.sets, s, way, line)
          else NextSets(p, r, i) == r.sets)
      && r'.sets == (if write then SetLine(r.sets, s, way, line) else r.sets)
      && r'.ptr == (if MissDone(r, i) then r.ptr[s := CounterNext(p.ways, r.ptr[s])] else r.ptr)
    requires r'.fsm == NextFsm(p, r, i)
    requires var n := Next(p, r, i);
      r'.reqValid == n.reqValid && r'.wrEn == n.wrEn && r'.memAddr == n.memAddr && r'.memWdata == n.memWdata
    ensures r' == Next(p, r, i)
  {
    hide Decode, LineAddr, BlockNo, NextSets, NextFsm, Next, CounterNext, SetLine;
    NextFields(p, r, i);
  }

  class DCache {
    const p: Params
    const lines: array2<Line>
    const fifoPtr: array<nat>
    var currState: Fsm
    var memReqValid: bool
    var memWrEn: bool
    var memAddr: nat
    var memWdata: Block

    ghost predicate Valid()
      reads this, lines, fifoPtr
    {
      && lines.Length0 == p.ways && lines.Length1 == fifoPtr.Length == p.sets
      && RegsShape(p, State())
    }

    ghost function State(): Regs
      reads this, lines, fifoPtr
    {
      Regs(Columns(lines), fifoPtr[..], currState, memReqValid, memWrEn, memAddr, memWdata)
    }

    constructor (p: Params)
      requires p.Ok()
      ensures Valid() && State() == ResetRegs(p) && this.p == p
      ensures fresh(lines) && fresh(fifoPtr)
    {
      this.p := p;
      var line := Line(false, false, 0, seq(p.words, _ => 0));
      lines := new Line[p.ways, p.sets]((w, s) => line);
      fifoPtr := new nat[p.sets](_ => 0);
      currState, memReqValid, memWrEn, memAddr := IDLE, false, false, 0;
      memWdata := ZeroBlock(p);
      new;
      assert forall s :: 0 <= s < p.sets ==> Columns(lines)[s] == ResetRegs(p).sets[s];
    }

    /** Hit signal and priority encoder: the loop overwrites hit_way, so the last matching way
        wins. */
    method HitLogic(index: nat, tag: nat) returns (hitSign: bool, hitWay: nat)
      requires Valid() && index < p.sets
      ensures hitSign == IsHit(State().sets[index], tag)
      ensures hitWay == LastHit(State().sets[index], tag) < p.ways
      ensures hitSign <==> exists j :: 0 <= j < p.ways && lines[j, index].valid && lines[j, index].tag == tag
      ensures if hitSign then lines[hitWay, index].valid && lines[hitWay, index].tag == tag else hitWay == 0
      ensures forall j :: hitWay < j < p.ways ==> !(lines[j, index].valid && lines[j, index].tag == tag)
    {
      ghost var row := State().sets[index];
      assert forall j :: 0 <= j < p.ways ==> row[j] == lines[j, index];
      hide Columns, LineShape, RegsShape;
      hitSign, hitWay := false, 0;
      for i := 0 to p.ways
        invariant hitSign <==> exists j :: 0 <= j < i && Matches(row[j], tag)
        invariant hitWay == LastHit(row[..i], tag)
        invariant if hitSign then hitWay < i && Matches(row[hitWay], tag) else hitWay == 0
      {
        assert row[..i + 1][..i] == row[..i];
        if Matches(lines[i, index], tag) {
          assert Matches(row[i], tag);
          hitSign, hitWay := true, i;
        }
      }
      assert row[..p.ways] == row;
      ghost var h := FirstHit(row, tag);
      assert h < |row| ==> Matches(row[h], tag);
    }

    /** The words of a filled line: the response's, with a write's word put in. */
    method FillWords(req: Req, k: nat, rdata: Block) returns (words: Block)
      requires p.Ok() && |rdata| == p.words
      ensures words == FilledLine(0, req, k, rdata).data
      ensures |words| == p.words
      ensures forall n :: 0 <= n < p.words ==> words[n] == if req.write && n == k then req.wdata else rdata[n]
    {
      words := ZeroBlock(p);
      for i := 0 to p.words
        invariant |words| == p.words
        invariant forall n :: 0 <= n < i ==> words[n] == if req.write && n == k then req.wdata else rdata[n]
      {
        words := words[i := if req.write && i == k then req.wdata else rdata[i]];
      }
      assert words == FilledLine(0, req, k, rdata).data;
    }

    /** The block the write-back register takes from the victim, word by word. */
    method VictimWords(index: nat, way: nat) returns (words: Block)
      requires Valid() && index < p.sets && way < p.ways
      ensures words == lines[way, index].data
    {
      words := ZeroBlock(p);
      assert LineShape(p, State().sets[index][way]);
      for i := 0 to p.words
        invariant |words| == p.words
        invariant forall n :: 0 <= n < i ==> words[n] == lines[way, index].data[n]
      {
        words := words[i := lines[way, index].data[i]];
      }
      assert words == lines[way, index].data;
    }

    /** The memory registers' block: request flag, direction, address and data. */
    method NextMemRegs(i: Pins) returns (valid: bool, wrEn: bool, addr: nat, wdata: Block)
      requires Valid() && PinsShape(p, i)
      ensures var r := Next(p, State(), i);
        valid == r.reqValid && wrEn == r.wrEn && addr == r.memAddr && wdata == r.memWdata
    {
      hide Decode, LineAddr, BlockNo;
      var Fields(tag, index, k) := Decode(p, i.req.addr);
      var way := fifoPtr[index];
      ghost var regs := State();
      assert Victim(regs, index) == lines[way, index];
      var dirty := currState.DIRTY_CHECK? && lines[way, index].dirty;
      var respHandshake := i.respValid && (currState.WB? || currState.MISS_WAIT?);
      var readReq := (currState.DIRTY_CHECK? && !dirty) || (currState.WB? && respHandshake);
      valid, wrEn, addr, wdata := memReqValid, memWrEn, memAddr, memWdata;
      if (dirty || readReq) && !memReqValid {
        valid := true;
      } else if memReqValid && i.memReady {
        valid := false;
      }
      if dirty {
        wrEn, addr := true, LineAddr(p, lines[way, index].tag, index);
        wdata := VictimWords(index, way);
      }
      if readReq {
        wrEn, addr := false, LineAddr(p, tag, index);
      }
      if respHandshake {
        wdata := ZeroBlock(p);
      }
    }

    /** The line the edge writes, if any: a write hit, a cleaned victim, or a fill. */
    method NextLine(i: Pins) returns (write: bool, way: nat, line: Line)
      requires Valid() && PinsShape(p, i)
      ensures var s := Decode(p, i.req.addr).index;
        if write then way < p.ways && NextSets(p, State(), i) == SetLine(State().sets, s, way, line)
        else NextSets(p, State(), i) == State().sets
    {
      hide Decode, LineAddr, BlockNo;
      var Fields(tag, index, k) := Decode(p, i.req.addr);
      var hitSign, hitWay := HitLogic(index, tag);
      way := fifoPtr[index];
      write, line := false, lines[way, index];
      ghost var row := State().sets[index];
      assert row[way] == lines[way, index] && row[hitWay] == lines[hitWay, index];
      assert LineShape(p, row[hitWay]);
      var respHandshake := i.respValid && (currState.WB? || currState.MISS_WAIT?);
      if i.cpuValid && currState.IDLE? && i.req.write && hitSign {
        write, way := true, hitWay;
        line := lines[hitWay, index].(dirty := true, data := lines[hitWay, index].data[k := i.req.wdata]);
      } else if currState.WB? && respHandshake {
        write, line := true, line.(dirty := false);
      } else if currState.MISS_WAIT? && respHandshake {
        var words := FillWords(i.req, k, i.rdata);
        write, line := true, Line(true, i.req.write, tag, words);
      }
    }

    /** The next-state logic. */
    method NextState(i: Pins) returns (next: Fsm)
      requires Valid() && PinsShape(p, i)
      ensures next == NextFsm(p, State(), i)
    {
      hide Decode;
      var Fields(tag, index, k) := Decode(p, i.req.addr);
      var hitSign, _ := HitLogic(index, tag);
      assert Victim(State(), index) == lines[fifoPtr[index], index];
      next := currState;
      match currState
      case IDLE =>
        if i.cpuValid && !hitSign { next := DIRTY_CHECK; }
      case DIRTY_CHECK =>
        next := if lines[fifoPtr[index], index].dirty then WB else MISS_WAIT;
      case WB =>
        if i.respValid { next := MISS_WAIT; }
      case MISS_WAIT =>
        if i.respValid { next := IDLE; }
    }

    /** One rising edge. */
    method Clock(i: Pins)
      requires Valid() && PinsShape(p, i)
      modifies this, lines, fifoPtr
      ensures Valid() && State() == Next(p, old(State()), i)
    {
      hide Decode, LineAddr, BlockNo, NextSets, NextFsm, Columns, Next, CounterNext, SetLine, RegsShape;
      ghost var r0 := State();
      var index := Decode(p, i.req.addr).index;
      var valid, wrEn, addr, wdata := NextMemRegs(i);
      var write, way, line := NextLine(i);
      var next := NextState(i);
      StoreArrays(index, write, way, line, currState.MISS_WAIT? && i.respValid);
      currState := next;
      memReqValid, memWrEn, memAddr, memWdata := valid, wrEn, addr, wdata;
      Assemble(p, r0, i, State(), write, way, line);
    }

    /** The array writes of an edge: at most one line, and the set's counter after a fill. */
    method StoreArrays(index: nat, write: bool, way: nat, line: Line, missDone: bool)
      requires lines.Length0 == p.ways && lines.Length1 == fifoPtr.Length == p.sets && index < p.sets
      requires (write ==> way < p.ways) && p.ways > 0
      modifies lines, fifoPtr
      ensures Columns(lines) == if write then SetLine(old(Columns(lines)), index, way, line) else old(Columns(lines))
      ensures fifoPtr[..] == if missDone
                             then old(fifoPtr[..])[index := CounterNext(p.ways, old(fifoPtr[index]))]
                             else old(fifoPtr[..])
    {
      hide Columns, CounterNext;
      if write {
        StoreLine(index, way, line);
      }
      if missDone {
        StepCounter(index);
      }
    }

    method StoreLine(index: nat, way: nat, line: Line)
      requires lines.Length0 == p.ways && lines.Length1 == p.sets && index < p.sets && way < p.ways
      modifies lines
      ensures Columns(lines) == SetLine(old(Columns(lines)), index, way, line)
    {
      ghost var before := Columns(lines);
      lines[way, index] := line;
      assert Columns(lines)[index] == before[index][way := line];
      assert forall s :: 0 <= s < p.sets && s != index ==> Columns(lines)[s] == before[s];
      assert Columns(lines) == SetLine(before, index, way, line);
    }

    /** fifo_counter of one set, enabled. */
    method StepCounter(index: nat)
      requires index < fifoPtr.Length && p.ways > 0
      modifies fifoPtr
      ensures fifoPtr[..] == old(fifoPtr[..])[index := CounterNext(p.ways, old(fifoPtr[index]))]
      ensures fifoPtr[index] == if old(fifoPtr[index]) == p.ways - 1 then 0 else old(fifoPtr[index]) + 1
    {
      if fifoPtr[index] == p.ways - 1 {
        fifoPtr[index] := 0;
      } else {
        fifoPtr[index] := fifoPtr[index] + 1;
      }
    }

    /** The outputs in a cycle that are not registers: towards the CPU, and whether the cache
        takes a memory response. */
    method Outputs(i: Pins) returns (reqReady: bool, respValid: bool, rdata: Word, memRespReady: bool)
      requires Valid() && PinsShape(p, i)
      ensures reqReady == currState.IDLE?
      ensures memRespReady == (currState.WB? || currState.MISS_WAIT?) == RespReady(State())
      ensures respValid == CpuRespValid(p, State(), i)
      ensures rdata == CacheRdata(p, State(), i)
      ensures var f := Decode(p, i.req.addr);
        var hit := exists j :: 0 <= j < p.ways && lines[j, f.index].valid && lines[j, f.index].tag == f.tag;
        && respValid == ((currState.IDLE? && hit) || (currState.MISS_WAIT? && i.respValid))
        && (!hit ==> rdata == i.rdata[f.word])
        && (hit && i.req.write ==> rdata == 0)
    {
      hide Decode;
      var Fields(tag, index, k) := Decode(p, i.req.addr);
      var hitSign, hitWay := HitLogic(index, tag);
      assert LineShape(p, State().sets[index][hitWay]);
      reqReady := currState.IDLE?;
      memRespReady := currState.WB? || currState.MISS_WAIT?;
      respValid := (currState.IDLE? && hitSign) || (currState.MISS_WAIT? && i.respValid);
      rdata := if !hitSign then i.rdata[k] else if i.req.write then 0 else lines[hitWay, index].data[k];
    }
  }
}
