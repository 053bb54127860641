/** What the read adapter keeps over every run with a slave that ends only bursts that are
    outstanding. */
module ReadAdapterProofs {
  import opened Bits
  import opened Replacement
  import opened SyncFifo
  import opened ReadAdapterSpec

  /** A run so far: the registers, the IDs of reads issued and not completed, and counts.
      `lost` counts the edges where a release met an allocation; `doneCycles` the cycles in
      which read_done was high. */
  datatype Log = Log(
    regs: Regs, outstanding: multiset<nat>, lost: nat,
    accepted: seq<Cmd>, issued: seq<Cmd>, completed: nat, doneCycles: nat,
    beats: seq<Word>, delivered: seq<Word>)

  ghost function ResetLog(d: Depths): Log {
    Log(ResetRegs(d), multiset{}, 0, [], [], 0, 0, [], [])
  }

  /** The last beat of a burst is taken from the slave. */
  ghost predicate LastTaken(d: Depths, r: Regs, i: Pins) {
    RHandshake(d, r, i) && i.rLast
  }

  /** The slave ends a burst only if one with that ID is outstanding. */
  ghost predicate Legal(d: Depths, log: Log, i: Pins) {
    LastTaken(d, log.regs, i) ==> log.outstanding[i.rId] > 0
  }

  ghost function Tick(d: Depths, log: Log, i: Pins): Log
    requires RegsShape(d, log.regs)
  {
    var r := log.regs;
    var issue, last := ArHandshake(r, i), LastTaken(d, r, i);
    Log(
      Next(d, r, i),
      log.outstanding + (if issue then multiset{r.ar.id} else multiset{})
                      - (if last then multiset{i.rId} else multiset{}),
      log.lost + Bit(issue && ReadDoneCondition(d, r, i)),
      log.accepted + (if ReqHandshake(d, r, i) then [i.cmd] else []),
      log.issued + (if issue then [r.ar] else []),
      log.completed + Bit(last),
      log.doneCycles + Bit(r.readDone),
      log.beats + (if RHandshake(d, r, i) then [i.rData] else []),
      log.delivered + (if i.dataReady && |r.data| > 0 then [r.data[0]] else []))
  }

  ghost function Exec(d: Depths, ins: seq<Pins>): (log: Log)
    requires d.Ok()
    ensures RegsShape(d, log.regs)
    decreases |ins|
  {
    if |ins| == 0 then ResetLog(d) else Tick(d, Exec(d, ins[..|ins| - 1]), ins[|ins| - 1])
  }

  ghost predicate LegalRun(d: Depths, ins: seq<Pins>)
    requires d.Ok()
  {
    forall n :: 0 <= n < |ins| ==> Legal(d, Exec(d, ins[..n]), ins[n])
  }

  // ---- Slots -------------------------------------------------------------------------

  ghost function Occupied(valid: seq<bool>): nat {
    if |valid| == 0 then 0 else Bit(valid[0]) + Occupied(valid[1..])
  }

  /** The IDs of the valid slots. */
  ghost function SlotIds(valid: seq<bool>, ids: seq<nat>): multiset<nat>
    requires |ids| == |valid|
  {
    if |valid| == 0 then multiset{}
    else (if valid[0] then multiset{ids[0]} else multiset{}) + SlotIds(valid[1..], ids[1..])
  }

  lemma {:induction false} SlotCount(valid: seq<bool>, ids: seq<nat>)
    requires |ids| == |valid|
    ensures |SlotIds(valid, ids)| == Occupied(valid) <= |valid|
  {
    if |valid| > 0 {
      SlotCount(valid[1..], ids[1..]);
    }
  }

  lemma {:induction false} TakeSlot(valid: seq<bool>, ids: seq<nat>, k: nat, id: nat)
    requires |ids| == |valid| && k < |valid| && !valid[k]
    ensures Occupied(valid[k := true]) == Occupied(valid) + 1
    ensures SlotIds(valid[k := true], ids[k := id]) == SlotIds(valid, ids) + multiset{id}
  {
    var v, n := valid[k := true], ids[k := id];
    if k > 0 {
      assert v[1..] == valid[1..][k - 1 := true] && n[1..] == ids[1..][k - 1 := id];
      TakeSlot(valid[1..], ids[1..], k - 1, id);
    } else {
      assert v[1..] == valid[1..] && n[1..] == ids[1..];
    }
  }

  lemma {:induction false} FreeSlot(valid: seq<bool>, ids: seq<nat>, k: nat)
    requires |ids| == |valid| && k < |valid| && valid[k]
    ensures Occupied(valid[k := false]) + 1 == Occupied(valid)
    ensures SlotIds(valid, ids) == SlotIds(valid[k := false], ids) + multiset{ids[k]}
  {
    var v := valid[k := false];
    if k > 0 {
      assert v[1..] == valid[1..][k - 1 := false];
      FreeSlot(valid[1..], ids[1..], k - 1);
    } else {
      assert v[1..] == valid[1..];
    }
  }

  /** An ID held by a valid slot is found. */
  lemma {:induction false} IdFound(valid: seq<bool>, ids: seq<nat>, id: nat)
    requires |ids| == |valid| && SlotIds(valid, ids)[id] > 0
    ensures FindById(valid, ids, id) < |valid|
  {
    if !(valid[0] && ids[0] == id) {
      IdFound(valid[1..], ids[1..], id);
    }
  }

  lemma {:induction false} FullTable(valid: seq<bool>)
    ensures FirstInvalid(valid) == |valid| <==> Occupied(valid) == |valid|
    ensures Occupied(valid) <= |valid|
  {
    if |valid| > 0 {
      FullTable(valid[1..]);
    }
  }

  // ---- Invariant ---------------------------------------------------------------------

  /** Slot accounting: every outstanding read has a slot of its own with its ID, and the
      slots beyond those are exactly the lost releases. */
  ghost predicate SlotsOk(log: Log)
    requires |log.regs.slotId| == |log.regs.slotValid|
  {
    Accounted(log.regs.slotValid, log.regs.slotId, log.outstanding, log.lost)
  }

  ghost predicate Accounted(valid: seq<bool>, ids: seq<nat>, out: multiset<nat>, lost: nat)
    requires |ids| == |valid|
  {
    Occupied(valid) == |out| + lost && out <= SlotIds(valid, ids)
  }

  /** The AR channel: in AR_SEND the head of the command queue is on the pins and a slot is
      free for it; otherwise ARVALID is low. */
  ghost predicate ArOk(r: Regs) {
    if r.send then r.arValid && |r.cmds| > 0 && r.ar == r.cmds[0] && AnyFree(r) else !r.arValid
  }

  /** Commands, completions and beats: none lost, none repeated, in order. */
  ghost predicate FlowOk(log: Log) {
    && log.accepted == log.issued + log.regs.cmds
    && log.completed == log.doneCycles + Bit(log.regs.readDone)
    && log.beats == log.delivered + log.regs.data
  }

  ghost predicate Inv(d: Depths, log: Log) {
    RegsShape(d, log.regs) && SlotsOk(log) && ArOk(log.regs) && FlowOk(log)
  }

  /** A burst's last beat, taken while its ID is outstanding, matches a slot. */
  lemma LastMatches(d: Depths, log: Log, i: Pins)
    requires Inv(d, log) && Legal(d, log, i)
    ensures ReadDoneCondition(d, log.regs, i) <==> LastTaken(d, log.regs, i)
  {
    if LastTaken(d, log.regs, i) {
      IdFound(log.regs.slotValid, log.regs.slotId, i.rId);
    }
  }

  lemma IssueAccounted(valid: seq<bool>, ids: seq<nat>, out: multiset<nat>, lost: nat, f: nat, id: nat)
    requires |ids| == |valid| && Accounted(valid, ids, out, lost) && f < |valid| && !valid[f]
    ensures Accounted(valid[f := true], ids[f := id], out + multiset{id}, lost)
  {
    TakeSlot(valid, ids, f, id);
  }

  lemma LastAccounted(valid: seq<bool>, ids: seq<nat>, out: multiset<nat>, lost: nat, m: nat)
    requires |ids| == |valid| && Accounted(valid, ids, out, lost) && m < |valid| && valid[m] && out[ids[m]] > 0
    ensures Accounted(valid[m := false], ids, out - multiset{ids[m]}, lost)
  {
    FreeSlot(valid, ids, m);
  }

  lemma BothAccounted(valid: seq<bool>, ids: seq<nat>, out: multiset<nat>, lost: nat, f: nat, id: nat, rid: nat)
    requires |ids| == |valid| && Accounted(valid, ids, out, lost) && f < |valid| && !valid[f] && out[rid] > 0
    ensures Accounted(valid[f := true], ids[f := id], out + multiset{id} - multiset{rid}, lost + 1)
  {
    TakeSlot(valid, ids, f, id);
  }

  lemma TickSlots(d: Depths, log: Log, i: Pins)
    requires Inv(d, log) && Legal(d, log, i)
    ensures SlotsOk(Tick(d, log, i))
  {
    hide QueueStep, SlotIds, Occupied, Accounted, Tick, Next, FlowOk, FirstInvalid, FindById;
    var r := log.regs;
    LastMatches(d, log, i);
    var issue, last := ArHandshake(r, i), LastTaken(d, r, i);
    var f, m := FirstInvalid(r.slotValid), FindById(r.slotValid, r.slotId, i.rId);
    if issue && last {
      BothAccounted(r.slotValid, r.slotId, log.outstanding, log.lost, f, r.ar.id, i.rId);
    } else if issue {
      IssueAccounted(r.slotValid, r.slotId, log.outstanding, log.lost, f, r.ar.id);
      assert log.outstanding + multiset{r.ar.id} - multiset{} == log.outstanding + multiset{r.ar.id};
    } else if last {
      LastAccounted(r.slotValid, r.slotId, log.outstanding, log.lost, m);
      assert log.outstanding + multiset{} == log.outstanding;
    } else {
      assert log.outstanding + multiset{} - multiset{} == log.outstanding;
    }
    SlotFields(d, log, i);
  }

  /** The slot part of an edge. */
  lemma SlotFields(d: Depths, log: Log, i: Pins)
    requires RegsShape(d, log.regs)
    ensures var t := Tick(d, log, i); var r := log.regs;
      && t.regs.slotValid == NextValid(d, r, i) && t.regs.slotId == NextIds(r, i)
      && t.outstanding == log.outstanding + (if ArHandshake(r, i) then multiset{r.ar.id} else multiset{})
                          - (if LastTaken(d, r, i) then multiset{i.rId} else multiset{})
      && t.lost == log.lost + Bit(ArHandshake(r, i) && ReadDoneCondition(d, r, i))
  {
    hide QueueStep, NextValid, NextIds;
  }

  lemma TickAr(d: Depths, log: Log, i: Pins)
    requires Inv(d, log)
    ensures ArOk(Next(d, log.regs, i))
  {
    var r, r' := log.regs, Next(d, log.regs, i);
    if r'.send {
      FreeStays(r, r'.slotValid, d, i);
    }
  }

  /** Between allocations slots are only freed. */
  lemma FreeStays(r: Regs, v: seq<bool>, d: Depths, i: Pins)
    requires |r.slotId| == |r.slotValid| && AnyFree(r) && !ArHandshake(r, i) && v == NextValid(d, r, i)
    ensures FirstInvalid(v) < |v|
  {
    var f := FirstInvalid(r.slotValid);
    assert !v[f];
  }

  /** A queue between what was taken in and what was given out. */
  lemma QueueFlow<T>(depth: nat, taken: seq<T>, given: seq<T>, q: seq<T>, wr: bool, x: T, rd: bool)
    requires taken == given + q
    ensures taken + (if wr && |q| < depth then [x] else [])
         == given + (if rd && |q| > 0 then [q[0]] else []) + QueueStep(depth, q, wr, x, rd)
  {
    if rd && |q| > 0 {
      assert q == [q[0]] + q[1..];
    }
  }

  /** The FIFO and completion parts of an edge. */
  lemma FlowFields(d: Depths, log: Log, i: Pins)
    requires RegsShape(d, log.regs)
    ensures var t := Tick(d, log, i); var r := log.regs;
      && t.regs.cmds == QueueStep(d.maxOsd, r.cmds, ReqHandshake(d, r, i), i.cmd, ArHandshake(r, i))
      && t.regs.data == QueueStep(d.dataDepth, r.data, RHandshake(d, r, i), i.rData, i.dataReady && |r.data| > 0)
      && t.regs.readDone == ReadDoneCondition(d, r, i)
      && t.accepted == log.accepted + (if ReqHandshake(d, r, i) then [i.cmd] else [])
      && t.issued == log.issued + (if ArHandshake(r, i) then [r.ar] else [])
      && t.beats == log.beats + (if RHandshake(d, r, i) then [i.rData] else [])
      && t.delivered == log.delivered + (if i.dataReady && |r.data| > 0 then [r.data[0]] else [])
      && t.completed == log.completed + Bit(LastTaken(d, r, i))
      && t.doneCycles == log.doneCycles + Bit(r.readDone)
  {
    hide QueueStep, NextValid, NextIds, ReadDoneCondition;
  }

  lemma TickFlow(d: Depths, log: Log, i: Pins)
    requires Inv(d, log) && Legal(d, log, i)
    ensures FlowOk(Tick(d, log, i))
  {
    hide FindById, FirstInvalid, Tick, QueueStep, SlotsOk, ReadDoneCondition;
    LastMatches(d, log, i);
    FlowFields(d, log, i);
    var r := log.regs;
    QueueFlow(d.maxOsd, log.accepted, log.issued, r.cmds, ReqHandshake(d, r, i), i.cmd, ArHandshake(r, i));
    QueueFlow(d.dataDepth, log.beats, log.delivered, r.data, RHandshake(d, r, i), i.rData, i.dataReady && |r.data| > 0);
  }

  lemma TickKeepsInv(d: Depths, log: Log, i: Pins)
    requires Inv(d, log) && Legal(d, log, i)
    ensures Inv(d, Tick(d, log, i))
  {
    hide SlotsOk, FlowOk, ArOk;
    TickSlots(d, log, i);
    TickAr(d, log, i);
    TickFlow(d, log, i);
  }

  lemma {:induction false} EmptyTable(valid: seq<bool>, ids: seq<nat>)
    requires |ids| == |valid| && forall k :: 0 <= k < |valid| ==> !valid[k]
    ensures Occupied(valid) == 0
  {
    if |valid| > 0 {
      EmptyTable(valid[1..], ids[1..]);
    }
  }

  lemma ResetInv(d: Depths)
    requires d.Ok()
    ensures Inv(d, ResetLog(d))
  {
    EmptyTable(ResetRegs(d).slotValid, ResetRegs(d).slotId);
  }

  lemma LegalPrefix(d: Depths, ins: seq<Pins>, n: nat)
    requires d.Ok() && LegalRun(d, ins) && n <= |ins|
    ensures LegalRun(d, ins[..n])
  {
    hide Tick, Legal;
    forall k | 0 <= k < n ensures Legal(d, Exec(d, ins[..n][..k]), ins[..n][k]) {
      assert ins[..n][..k] == ins[..k];
    }
  }

  lemma {:induction false} RunKeepsInv(d: Depths, ins: seq<Pins>)
    requires d.Ok() && LegalRun(d, ins)
    ensures Inv(d, Exec(d, ins))
    decreases |ins|
  {
    hide Tick, Legal, Inv;
    if |ins| == 0 {
      ResetInv(d);
    } else {
      var n := |ins| - 1;
      LegalPrefix(d, ins, n);
      RunKeepsInv(d, ins[..n]);
      TickKeepsInv(d, Exec(d, ins[..n]), ins[n]);
    }
  }

  // ---- What follows for every run ----------------------------------------------------

  /** Occupied slots are the outstanding reads plus the lost releases; the outstanding IDs
      are among the slots' IDs, each as often; so no more than MAX_OSD are outstanding. */
  lemma SlotAccounting(d: Depths, ins: seq<Pins>)
    requires d.Ok() && LegalRun(d, ins)
    ensures var log := Exec(d, ins);
      && Occupied(log.regs.slotValid) == |log.outstanding| + log.lost
      && log.outstanding <= SlotIds(log.regs.slotValid, log.regs.slotId)
      && |log.outstanding| + log.lost <= d.maxOsd
  {
    hide Tick, Exec;
    RunKeepsInv(d, ins);
    SlotCount(Exec(d, ins).regs.slotValid, Exec(d, ins).regs.slotId);
  }

  /** The table tells exactly the outstanding reads iff no release has been lost. */
  lemma TableExactIff(d: Depths, ins: seq<Pins>)
    requires d.Ok() && LegalRun(d, ins)
    ensures var log := Exec(d, ins);
      SlotIds(log.regs.slotValid, log.regs.slotId) == log.outstanding <==> log.lost == 0
  {
    hide Tick, Exec;
    SlotAccounting(d, ins);
    var log := Exec(d, ins);
    var ids := SlotIds(log.regs.slotValid, log.regs.slotId);
    SlotCount(log.regs.slotValid, log.regs.slotId);
    assert ids == log.outstanding + (ids - log.outstanding);
    assert |ids| == |log.outstanding| + |ids - log.outstanding|;
  }

  /** Every last beat taken matches a slot, and read_done is high in as many cycles as bursts
      were completed, one cycle after each. */
  lemma CompletionsReported(d: Depths, ins: seq<Pins>, i: Pins)
    requires d.Ok() && LegalRun(d, ins) && Legal(d, Exec(d, ins), i)
    ensures var log := Exec(d, ins); var next := Tick(d, log, i);
      && (LastTaken(d, log.regs, i) ==> FindById(log.regs.slotValid, log.regs.slotId, i.rId) < d.maxOsd)
      && next.regs.readDone == LastTaken(d, log.regs, i)
      && next.doneCycles == log.completed
  {
    hide Exec;
    RunKeepsInv(d, ins);
    LastMatches(d, Exec(d, ins), i);
  }

  /** Accepted commands are the issued ones followed by the queued ones, in order; while a
      command is offered on AR a slot is free, and it stays offered unchanged until taken. */
  lemma CommandsInOrder(d: Depths, ins: seq<Pins>, i: Pins)
    requires d.Ok() && LegalRun(d, ins) && Legal(d, Exec(d, ins), i)
    ensures var log := Exec(d, ins); var next := Tick(d, log, i);
      && log.accepted == log.issued + log.regs.cmds
      && log.beats == log.delivered + log.regs.data
      && (log.regs.arValid <==> log.regs.send)
      && (log.regs.arValid ==> |log.regs.cmds| > 0 && log.regs.ar == log.regs.cmds[0] && AnyFree(log.regs))
      && (log.regs.arValid && !i.arReady ==> next.regs.arValid && next.regs.ar == log.regs.ar)
  {
    hide Exec, SlotsOk;
    RunKeepsInv(d, ins);
  }
}
