/** How much the read adapter can lose and what it keeps: releases that meet an allocation
    cost slots, but never the last one, so queued commands still reach the bus. */
module ReadAdapterProgress {
  import opened Bits
  import opened Replacement
  import opened SyncFifo
  import opened ReadAdapterSpec
  import opened ReadAdapterProofs

  // ---- One edge at a time ------------------------------------------------------------

  /** The run after n edges of `more`. */
  ghost function At(d: Depths, ins: seq<Pins>, more: seq<Pins>, n: nat): (log: Log)
    requires d.Ok() && n <= |more|
    ensures RegsShape(d, log.regs)
  {
    Exec(d, ins + more[..n])
  }

  lemma InvAt(d: Depths, ins: seq<Pins>, more: seq<Pins>, n: nat)
    requires d.Ok() && LegalRun(d, ins + more) && n <= |more|
    ensures Inv(d, At(d, ins, more, n))
  {
    hide Tick, Legal, Inv;
    var all := ins + more;
    assert all[..|ins| + n] == ins + more[..n];
    LegalPrefix(d, all, |ins| + n);
    RunKeepsInv(d, all[..|ins| + n]);
  }

  lemma Edge(d: Depths, ins: seq<Pins>, more: seq<Pins>, n: nat)
    requires d.Ok() && LegalRun(d, ins + more) && n < |more|
    ensures var log := At(d, ins, more, n);
      && Inv(d, log) && Legal(d, log, more[n])
      && At(d, ins, more, n + 1) == Tick(d, log, more[n])
  {
    hide Tick, Legal, Inv;
    InvAt(d, ins, more, n);
    var all := ins + more;
    var k := |ins| + n;
    assert all[..k] == ins + more[..n] && all[..k + 1] == ins + more[..n + 1];
    assert all[..k + 1][..k] == all[..k];
  }

  /** Between two edges that take an address, the queue only grows at its end. */
  lemma QueueWaits(d: Depths, log: Log, i: Pins)
    requires RegsShape(d, log.regs) && !ArHandshake(log.regs, i) && |log.regs.cmds| > 0
    ensures var t := Tick(d, log, i);
      t.issued == log.issued && |t.regs.cmds| > 0 && t.regs.cmds[0] == log.regs.cmds[0]
  {
    hide NextValid, NextIds, ReadDoneCondition;
  }

  // ---- The pins ----------------------------------------------------------------------

  /** When each channel moves, in terms of the pins and what the adapter holds: a command is
      accepted if the queue has room and a slot is free; the oldest one is then put on the bus
      as soon as the bus is free, and leaves it when ARVALID meets ARREADY; a beat is taken
      while the data queue has room; data leaves when there is some. The last beat of a burst
      ends it, and only that changes error_resp. */
  lemma Handshakes(d: Depths, ins: seq<Pins>, i: Pins)
    requires d.Ok() && LegalRun(d, ins)
    ensures var log := Exec(d, ins); var next := Tick(d, log, i); var r := log.regs;
      var room := |r.data| < d.dataDepth;
      var ends := i.rValid && room && i.rLast;
      && next.accepted == log.accepted
           + (if i.reqValid && |r.cmds| < d.maxOsd && |log.outstanding| + log.lost < d.maxOsd then [i.cmd] else [])
      && next.issued == log.issued + (if r.arValid && i.arReady then [r.ar] else [])
      && next.beats == log.beats + (if i.rValid && room then [i.rData] else [])
      && next.delivered == log.delivered + (if i.dataReady && |r.data| > 0 then [r.data[0]] else [])
      && next.outstanding == log.outstanding + (if r.arValid && i.arReady then multiset{r.ar.id} else multiset{})
                             - (if ends then multiset{i.rId} else multiset{})
      && next.completed == log.completed + Bit(ends)
      && (!ends ==> next.regs.errorResp == r.errorResp)
      && var loads := !r.arValid && |r.cmds| > 0 && |log.outstanding| + log.lost < d.maxOsd;
      && next.regs.arValid == (if r.arValid then !i.arReady else loads)
      && next.regs.ar == (if loads then r.cmds[0] else r.ar)
  {
    hide Exec, Next, FirstInvalid, FindById, SlotsOk, FlowOk;
    RunKeepsInv(d, ins);
    FreeSlotIff(d, ins);
    ArFields(d, Exec(d, ins), i);
    FlowFields(d, Exec(d, ins), i);
    SlotFields(d, Exec(d, ins), i);
    ErrFields(d, Exec(d, ins), i);
  }

  /** The length a slot was last allocated with, and the beats that have matched it since. */
  ghost function SlotHistory(d: Depths, ins: seq<Pins>, k: nat): (h: (nat, nat))
    requires d.Ok() && k < d.maxOsd
    decreases |ins|
  {
    if |ins| == 0 then (0, 0)
    else
      var n := |ins| - 1;
      var r, i := Exec(d, ins[..n]).regs, ins[n];
      var (len, beats) := SlotHistory(d, ins[..n], k);
      if r.send && r.arValid && i.arReady && FirstInvalid(r.slotValid) == k then (r.ar.len, 0)
      else if i.rValid && |r.data| < d.dataDepth && FindById(r.slotValid, r.slotId, i.rId) == k
      then (len, beats + 1)
      else (len, beats)
  }

  /** A slot's length counts down from its burst's ARLEN with every beat that matches it, in 8
      bits. */
  lemma {:induction false} SlotLengths(d: Depths, ins: seq<Pins>, k: nat)
    requires d.Ok() && k < d.maxOsd
    ensures var (len, beats) := SlotHistory(d, ins, k);
      Exec(d, ins).regs.slotLen[k] % 256 == (len - beats) % 256
    decreases |ins|
  {
    hide Tick;
    if |ins| > 0 {
      var n := |ins| - 1;
      SlotLengths(d, ins[..n], k);
      LengthNext(d, Exec(d, ins[..n]), ins[n], k);
      var (len, beats) := SlotHistory(d, ins[..n], k);
      OneLess(Exec(d, ins[..n]).regs.slotLen[k], len - beats);
    }
  }

  lemma LengthNext(d: Depths, log: Log, i: Pins, k: nat)
    requires RegsShape(d, log.regs) && k < d.maxOsd
    ensures var r := log.regs; var lens := Tick(d, log, i).regs.slotLen;
      && |lens| == d.maxOsd
      && lens[k] == if r.send && r.arValid && i.arReady && FirstInvalid(r.slotValid) == k then r.ar.len
                    else if i.rValid && |r.data| < d.dataDepth && FindById(r.slotValid, r.slotId, i.rId) == k
                    then (r.slotLen[k] + 255) % 256
                    else r.slotLen[k]
  {
    hide QueueStep, NextValid, NextIds, NextErrs, NextErrorResp, FirstInvalid, FindById;
  }

  lemma OneLess(a: nat, b: int)
    requires a % 256 == b % 256
    ensures (a + 255) % 256 % 256 == (b - 1) % 256
  {
    var m, q, c := a % 256, a / 256, b / 256;
    assert a == 256 * q + m && b == 256 * c + m;
    if m == 0 {
      assert a + 255 == 256 * q + 255 && b - 1 == 256 * (c - 1) + 255;
    } else {
      assert a + 255 == 256 * (q + 1) + (m - 1) && b - 1 == 256 * c + (m - 1);
    }
  }

  // ---- Losses ------------------------------------------------------------------------

  /** A slot is free exactly while outstanding reads and lost releases leave one. */
  lemma FreeSlotIff(d: Depths, ins: seq<Pins>)
    requires d.Ok() && LegalRun(d, ins)
    ensures var log := Exec(d, ins); AnyFree(log.regs) <==> |log.outstanding| + log.lost < d.maxOsd
  {
    hide Exec, FirstInvalid;
    SlotAccounting(d, ins);
    FullTable(Exec(d, ins).regs.slotValid);
  }

  /** A lost release leaves a read outstanding, so the losses never use up all slots; with
      nothing outstanding a slot is free. */
  lemma {:induction false} LossLeavesASlot(d: Depths, ins: seq<Pins>)
    requires d.Ok() && LegalRun(d, ins)
    ensures var log := Exec(d, ins);
      log.lost < d.maxOsd && (|log.outstanding| == 0 ==> AnyFree(log.regs))
    decreases |ins|
  {
    hide Tick, Legal, Inv, AnyFree;
    if |ins| > 0 {
      var n := |ins| - 1;
      LegalPrefix(d, ins, n);
      LossLeavesASlot(d, ins[..n]);
      SlotAccounting(d, ins);
      LossNeedsARead(d, Exec(d, ins[..n]), ins[n]);
    }
    FreeSlotIff(d, ins);
  }

  lemma LossNeedsARead(d: Depths, log: Log, i: Pins)
    requires RegsShape(d, log.regs) && Legal(d, log, i)
    ensures var t := Tick(d, log, i); t.lost > log.lost ==> |t.outstanding| > 0
  {
    hide Next;
    if ArHandshake(log.regs, i) && LastTaken(d, log.regs, i) {
      var t := Tick(d, log, i);
      assert t.outstanding == log.outstanding + multiset{log.regs.ar.id} - multiset{i.rId};
      assert |t.outstanding| == |log.outstanding|;
      assert i.rId in log.outstanding;
    }
  }

  // ---- Progress ----------------------------------------------------------------------

  /** While a read is outstanding, a burst ends within c edges. */
  ghost predicate Completing(d: Depths, ins: seq<Pins>, more: seq<Pins>, c: nat)
    requires d.Ok()
  {
    forall n :: 0 <= n && n + c <= |more| && |At(d, ins, more, n).outstanding| > 0 ==>
      exists j :: n <= j < n + c && LastTaken(d, At(d, ins, more, j).regs, more[j])
  }

  /** An address on the bus is taken within a edges. */
  ghost predicate Accepting(d: Depths, ins: seq<Pins>, more: seq<Pins>, a: nat)
    requires d.Ok()
  {
    forall n :: 0 <= n && n + a <= |more| && At(d, ins, more, n).regs.arValid ==>
      exists j :: n <= j < n + a && more[j].arReady
  }

  /** The oldest queued command is still waiting after n edges. */
  ghost predicate Waiting(before: Log, log: Log) {
    && |before.regs.cmds| > 0 && |log.regs.cmds| > 0
    && log.issued == before.issued && log.regs.cmds[0] == before.regs.cmds[0]
  }

  /** A full table takes no address, so the burst that ends next does free its slot. */
  lemma {:induction false} FreeBy(d: Depths, ins: seq<Pins>, more: seq<Pins>, n: nat, j: nat)
    returns (k: nat)
    requires d.Ok() && LegalRun(d, ins + more) && n <= j < |more|
    requires LastTaken(d, At(d, ins, more, j).regs, more[j])
    requires |At(d, ins, more, n).regs.cmds| > 0
    ensures n <= k <= j + 1 && AnyFree(At(d, ins, more, k).regs)
    ensures Waiting(At(d, ins, more, n), At(d, ins, more, k))
    decreases j - n
  {
    hide At, Tick, Next, AnyFree, LastTaken, SlotsOk, FlowOk, Legal, LegalRun;
    var log := At(d, ins, more, n);
    if AnyFree(log.regs) {
      return n;
    }
    Edge(d, ins, more, n);
    QueueWaits(d, log, more[n]);
    if n == j {
      CompletionFrees(d, log, more[n]);
      return n + 1;
    }
    k := FreeBy(d, ins, more, n + 1, j);
  }

  lemma CompletionFrees(d: Depths, log: Log, i: Pins)
    requires Inv(d, log) && Legal(d, log, i) && LastTaken(d, log.regs, i) && !AnyFree(log.regs)
    ensures AnyFree(Tick(d, log, i).regs)
  {
    hide SlotsOk, FlowOk, QueueStep;
    LastMatches(d, log, i);
    var m := FindById(log.regs.slotValid, log.regs.slotId, i.rId);
    assert !Tick(d, log, i).regs.slotValid[m];
  }

  /** The head command, once on the bus, stays until it is taken. */
  lemma {:induction false} IssuedBy(d: Depths, ins: seq<Pins>, more: seq<Pins>, n: nat, j: nat)
    returns (m: nat)
    requires d.Ok() && LegalRun(d, ins + more) && n <= j < |more| && more[j].arReady
    requires At(d, ins, more, n).regs.send
    ensures n < m <= j + 1
    ensures |At(d, ins, more, n).regs.cmds| > 0
    ensures At(d, ins, more, m).issued == At(d, ins, more, n).issued + [At(d, ins, more, n).regs.cmds[0]]
    decreases j - n
  {
    hide At, Tick, Next, AnyFree, SlotsOk, FlowOk, Legal, LegalRun;
    var log := At(d, ins, more, n);
    Edge(d, ins, more, n);
    ArFields(d, log, more[n]);
    if more[n].arReady {
      return n + 1;
    }
    QueueWaits(d, log, more[n]);
    m := IssuedBy(d, ins, more, n + 1, j);
  }

  lemma ArFields(d: Depths, log: Log, i: Pins)
    requires RegsShape(d, log.regs)
    ensures var t := Tick(d, log, i); var r := log.regs;
      && t.regs.send == (if r.send then !ArHandshake(r, i) else Loads(r))
      && t.regs.arValid == (if Loads(r) then true else if ArHandshake(r, i) then false else r.arValid)
      && t.regs.ar == (if Loads(r) then r.cmds[0] else r.ar)
      && t.issued == log.issued + if ArHandshake(r, i) then [r.ar] else []
  {
    hide QueueStep, NextValid, NextIds, ReadDoneCondition;
  }

  /** The oldest queued command is on the bus within c + 1 edges. */
  lemma OnBusBy(d: Depths, ins: seq<Pins>, more: seq<Pins>, c: nat) returns (k: nat)
    requires d.Ok() && LegalRun(d, ins + more) && |At(d, ins, more, 0).regs.cmds| > 0
    requires Completing(d, ins, more, c) && |more| >= c + 1
    ensures k <= c + 1 && At(d, ins, more, k).regs.send
    ensures Waiting(At(d, ins, more, 0), At(d, ins, more, k))
  {
    hide Exec, At, Tick, Next, AnyFree, SlotsOk, FlowOk, Legal, LegalRun, LastTaken;
    var log := At(d, ins, more, 0);
    k := 0;
    if !AnyFree(log.regs) {
      AlwaysARead(d, ins, more);
      var j :| 0 <= j < c && LastTaken(d, At(d, ins, more, j).regs, more[j]);
      k := FreeBy(d, ins, more, 0, j);
    }
    var now := At(d, ins, more, k);
    Edge(d, ins, more, k);
    if !now.regs.send {
      ArFields(d, now, more[k]);
      QueueWaits(d, now, more[k]);
      k := k + 1;
    }
  }

  /** A full table has a read outstanding. */
  lemma AlwaysARead(d: Depths, ins: seq<Pins>, more: seq<Pins>)
    requires d.Ok() && LegalRun(d, ins + more) && !AnyFree(At(d, ins, more, 0).regs)
    ensures |At(d, ins, more, 0).outstanding| > 0
  {
    hide Exec, Legal, AnyFree;
    assert ins + more[..0] == ins;
    assert (ins + more)[..|ins|] == ins;
    LegalPrefix(d, ins + more, |ins|);
    LossLeavesASlot(d, ins);
  }

  /** The oldest queued command is issued within c + a + 1 edges: the table frees a slot
      within c, one edge puts the command on the bus, and within a it is taken. */
  lemma HeadIssued(d: Depths, ins: seq<Pins>, more: seq<Pins>, c: nat, a: nat)
    returns (m: nat)
    requires d.Ok() && LegalRun(d, ins + more) && |Exec(d, ins).regs.cmds| > 0
    requires Completing(d, ins, more, c) && Accepting(d, ins, more, a) && |more| >= c + a + 1
    ensures 0 < m <= c + a + 1
    ensures At(d, ins, more, m).issued == Exec(d, ins).issued + [Exec(d, ins).regs.cmds[0]]
  {
    hide Exec, Tick, SlotsOk, FlowOk, Legal, LegalRun, Completing;
    assert ins + more[..0] == ins;
    var k := OnBusBy(d, ins, more, c);
    InvAt(d, ins, more, k);
    var j :| k <= j < k + a && more[j].arReady;
    m := IssuedBy(d, ins, more, k, j);
  }

  /** The first n queued commands are issued within n times that. */
  lemma {:induction false} QueuedAreIssued(d: Depths, ins: seq<Pins>, more: seq<Pins>, c: nat, a: nat, n: nat)
    returns (m: nat)
    requires d.Ok() && LegalRun(d, ins + more) && n <= |Exec(d, ins).regs.cmds|
    requires Completing(d, ins, more, c) && Accepting(d, ins, more, a) && |more| >= n * (c + a + 1)
    ensures m <= n * (c + a + 1) && m <= |more|
    ensures At(d, ins, more, m).issued == Exec(d, ins).issued + Exec(d, ins).regs.cmds[..n]
    decreases n
  {
    hide Exec, Tick, SlotsOk, FlowOk, Legal, LegalRun, Completing, Accepting;
    assert ins + more[..0] == ins;
    m := 0;
    if n > 0 {
      Rounds(n, c + a + 1);
      var first := HeadIssued(d, ins, more, c, a);
      var ins', more' := ins + more[..first], more[first..];
      Later(d, ins, more, c, a, first);
      AfterHead(d, ins, more, first);
      var rest := QueuedAreIssued(d, ins', more', c, a, n - 1);
      m := first + rest;
      assert ins' + more'[..rest] == ins + more[..m];
      var q := Exec(d, ins).regs.cmds;
      assert [q[0]] + Exec(d, ins').regs.cmds[..n - 1] == q[..n];
    }
  }

  lemma Rounds(n: nat, b: nat)
    requires n > 0
    ensures n * b == b + (n - 1) * b && (n - 1) * b >= 0
  {}

  /** Later stretches of a run keep what its environment promises. */
  lemma Later(d: Depths, ins: seq<Pins>, more: seq<Pins>, c: nat, a: nat, k: nat)
    requires d.Ok() && LegalRun(d, ins + more) && k <= |more|
    requires Completing(d, ins, more, c) && Accepting(d, ins, more, a)
    ensures var ins', more' := ins + more[..k], more[k..];
      LegalRun(d, ins' + more') && Completing(d, ins', more', c) && Accepting(d, ins', more', a)
  {
    hide Exec, Legal, LegalRun, LastTaken;
    var ins', more' := ins + more[..k], more[k..];
    assert ins' + more' == ins + more;
    forall n | 0 <= n <= |more'| ensures At(d, ins', more', n) == At(d, ins, more, k + n) {
      assert ins' + more'[..n] == ins + more[..k + n];
    }
    forall n | 0 <= n && n + c <= |more'| && |At(d, ins', more', n).outstanding| > 0
      ensures exists j :: n <= j < n + c && LastTaken(d, At(d, ins', more', j).regs, more'[j])
    {
      var j :| k + n <= j < k + n + c && LastTaken(d, At(d, ins, more, j).regs, more[j]);
      assert LastTaken(d, At(d, ins', more', j - k).regs, more'[j - k]);
    }
    forall n | 0 <= n && n + a <= |more'| && At(d, ins', more', n).regs.arValid
      ensures exists j :: n <= j < n + a && more'[j].arReady
    {
      var j :| k + n <= j < k + n + a && more[j].arReady;
      assert more'[j - k].arReady;
    }
  }

  /** The queue once its head is issued: the rest of it, and what was accepted since. */
  lemma AfterHead(d: Depths, ins: seq<Pins>, more: seq<Pins>, m: nat)
    requires d.Ok() && LegalRun(d, ins + more) && m <= |more| && |Exec(d, ins).regs.cmds| > 0
    requires At(d, ins, more, m).issued == Exec(d, ins).issued + [Exec(d, ins).regs.cmds[0]]
    ensures Exec(d, ins).regs.cmds[1..] <= At(d, ins, more, m).regs.cmds
  {
    hide Exec, Tick, SlotsOk, ArOk, Legal, LegalRun;
    assert ins + more[..0] == ins;
    InvAt(d, ins, more, 0);
    InvAt(d, ins, more, m);
    AcceptedGrows(d, ins, more, m);
    var before, after := Exec(d, ins), At(d, ins, more, m);
    assert before.accepted == after.issued + before.regs.cmds[1..];
    TailPrefix(after.issued, before.regs.cmds[1..], after.regs.cmds);
  }

  lemma TailPrefix<T>(a: seq<T>, x: seq<T>, y: seq<T>)
    requires a + x <= a + y
    ensures x <= y
  {
    assert (a + x)[|a|..] == x && (a + y)[|a|..] == y;
  }

  lemma StartsAt(d: Depths, ins: seq<Pins>, more: seq<Pins>)
    requires d.Ok()
    ensures At(d, ins, more, 0) == Exec(d, ins)
  {
    hide Exec;
    assert ins + more[..0] == ins;
  }

  lemma {:induction false} AcceptedGrows(d: Depths, ins: seq<Pins>, more: seq<Pins>, m: nat)
    requires d.Ok() && LegalRun(d, ins + more) && m <= |more|
    ensures Exec(d, ins).accepted <= At(d, ins, more, m).accepted
  {
    hide Exec, At, Next, Legal, LegalRun, Inv, ReadDoneCondition;
    StartsAt(d, ins, more);
    if m > 0 {
      AcceptedGrows(d, ins, more, m - 1);
      Edge(d, ins, more, m - 1);
      var log := At(d, ins, more, m - 1);
      assert log.accepted <= Tick(d, log, more[m - 1]).accepted;
    }
  }

  // ---- Runs that lose releases -------------------------------------------------------

  /** The inputs that take one read with ID 0 to the bus; `last` ends a burst, with this
      response, at the edge that takes its address. */
  function OneRead(last: bool, resp: nat): seq<Pins> {
    var quiet := Pins(false, Cmd(0, 0, 0, 0, 0), true, false, false, 0, 0, false, 0);
    [quiet.(reqValid := true), quiet, quiet.(arReady := true, rValid := last, rLast := last, rResp := resp)]
  }

  /** One read, then k reads each put on the bus as the one before it ends. */
  function LossRun(k: nat, resp: nat): seq<Pins> {
    if k == 0 then OneRead(false, resp) else LossRun(k - 1, resp) + OneRead(true, resp)
  }

  /** One read is outstanding and k releases are lost, the response of a burst whose release
      was lost still in slot 0. */
  ghost predicate HasLost(d: Depths, log: Log, k: nat, resp: nat)
    requires RegsShape(d, log.regs)
  {
    var r := log.regs;
    && r.cmds == [] && !r.send && !r.arValid && |r.data| <= 1
    && OnlyZeros(r.slotId) && FirstTaken(r.slotValid, k + 1)
    && log.outstanding == multiset{0} && log.lost == k
    && (k > 0 ==> r.slotErr[0] == resp)
  }

  ghost predicate OnlyZeros(ids: seq<nat>) {
    forall i :: 0 <= i < |ids| ==> ids[i] == 0
  }

  ghost predicate FirstTaken(valid: seq<bool>, n: nat) {
    forall i :: 0 <= i < |valid| ==> (valid[i] <==> i < n)
  }

  /** Between two reads, with n slots taken. */
  ghost predicate Resting(d: Depths, r: Regs, n: nat) {
    && RegsShape(d, r) && n < d.maxOsd
    && r.cmds == [] && !r.send && !r.arValid && |r.data| <= 1
    && OnlyZeros(r.slotId) && FirstTaken(r.slotValid, n)
  }

  /** The same once the command has been accepted, or once it is on the bus. */
  ghost predicate Busy(d: Depths, r: Regs, n: nat, send: bool) {
    && RegsShape(d, r) && n < d.maxOsd
    && r.cmds == [Cmd(0, 0, 0, 0, 0)] && r.send == send && r.arValid == send && r.data == []
    && (send ==> r.ar == r.cmds[0])
    && OnlyZeros(r.slotId) && FirstTaken(r.slotValid, n)
  }

  lemma AcceptEdge(d: Depths, log: Log, last: bool, resp: nat, n: nat)
    requires Resting(d, log.regs, n)
    ensures var i := OneRead(last, resp)[0]; var t := Tick(d, log, i);
      && !LastTaken(d, log.regs, i) && Busy(d, t.regs, n, false)
      && t.outstanding == log.outstanding && t.lost == log.lost
  {
    hide FirstInvalid, FindById;
    FirstInvalidAt(log.regs.slotValid, n);
    assert log.outstanding + multiset{} - multiset{} == log.outstanding;
  }

  lemma LoadEdge(d: Depths, log: Log, last: bool, resp: nat, n: nat)
    requires Busy(d, log.regs, n, false)
    ensures var i := OneRead(last, resp)[1]; var t := Tick(d, log, i);
      && !LastTaken(d, log.regs, i) && Busy(d, t.regs, n, true)
      && t.outstanding == log.outstanding && t.lost == log.lost
  {
    hide FirstInvalid, FindById;
    FirstInvalidAt(log.regs.slotValid, n);
    assert log.outstanding + multiset{} - multiset{} == log.outstanding;
  }

  lemma TakeEdge(d: Depths, log: Log, last: bool, resp: nat, n: nat)
    requires Busy(d, log.regs, n, true)
    requires if last then n > 0 && log.outstanding == multiset{0} else log.outstanding == multiset{}
    ensures var i := OneRead(last, resp)[2]; var t := Tick(d, log, i); var r := t.regs;
      && Legal(d, log, i)
      && r.cmds == [] && !r.send && !r.arValid && |r.data| <= 1
      && OnlyZeros(r.slotId) && FirstTaken(r.slotValid, n + 1)
      && t.lost == log.lost + Bit(last) && t.outstanding == multiset{0}
      && (last ==> r.slotErr[0] == resp)
  {
    hide FirstInvalid, FindById, Tick, Next, SlotsOk, Accounted;
    var i := OneRead(last, resp)[2];
    TakeSlots(d, log, i, last, n);
    TakeErr(d, log, i, last, n);
    ArFields(d, log, i);
    FlowFields(d, log, i);
  }

  lemma TakeSlots(d: Depths, log: Log, i: Pins, last: bool, n: nat)
    requires Busy(d, log.regs, n, true) && i.arReady && i.rValid == i.rLast == last && i.rId == 0
    requires if last then n > 0 && log.outstanding == multiset{0} else log.outstanding == multiset{}
    ensures var t := Tick(d, log, i);
      && Legal(d, log, i)
      && OnlyZeros(t.regs.slotId) && FirstTaken(t.regs.slotValid, n + 1)
      && t.lost == log.lost + Bit(last) && t.outstanding == multiset{0}
  {
    hide FirstInvalid, FindById, Tick, Next, SlotsOk, Accounted, NextValid, NextIds;
    TakenIs(d, log.regs, i, last, n);
    SlotFields(d, log, i);
    if last {
      assert multiset{0} + multiset{0} - multiset{0} == multiset{0};
    } else {
      assert multiset{} + multiset{0} - multiset{} == multiset{0};
    }
  }

  /** What the edge that takes an address does, with or without the end of a burst. */
  lemma TakenIs(d: Depths, r: Regs, i: Pins, last: bool, n: nat)
    requires Busy(d, r, n, true) && i.arReady && i.rValid == i.rLast == last && i.rId == 0 && (last ==> n > 0)
    ensures ArHandshake(r, i) && r.ar.id == 0 && LastTaken(d, r, i) == last && ReadDoneCondition(d, r, i) == last
    ensures OnlyZeros(NextIds(r, i)) && FirstTaken(NextValid(d, r, i), n + 1)
  {
    hide FirstInvalid, FindById;
    FirstInvalidAt(r.slotValid, n);
    if last {
      FoundAtZero(r.slotValid, r.slotId);
    }
  }

  lemma TakeErr(d: Depths, log: Log, i: Pins, last: bool, n: nat)
    requires Busy(d, log.regs, n, true) && i.arReady && i.rValid == i.rLast == last && i.rId == 0 && (last ==> n > 0)
    ensures last ==> Tick(d, log, i).regs.slotErr[0] == i.rResp
  {
    hide FirstInvalid, FindById, Tick, Next;
    TakenIs(d, log.regs, i, last, n);
    ErrFields(d, log, i);
    if last {
      FoundAtZero(log.regs.slotValid, log.regs.slotId);
    }
  }

  /** The error part of an edge. */
  lemma ErrFields(d: Depths, log: Log, i: Pins)
    requires RegsShape(d, log.regs)
    ensures var t := Tick(d, log, i);
      && |t.regs.slotErr| == |log.regs.slotErr|
      && t.regs.slotErr == NextErrs(d, log.regs, i) && t.regs.errorResp == NextErrorResp(d, log.regs, i)
  {
    hide QueueStep, NextValid, NextIds, NextLens, NextErrs, NextErrorResp;
  }

  lemma FoundAtZero(valid: seq<bool>, ids: seq<nat>)
    requires |ids| == |valid| > 0 && valid[0] && ids[0] == 0
    ensures FindById(valid, ids, 0) == 0
  {}

  /** Any number of releases below MAX_OSD can be lost, for every MAX_OSD: after this
      rule-abiding run, k + 1 slots stay occupied for the one read that is outstanding. */
  lemma {:induction false} ReleasesCanBeLost(d: Depths, k: nat, resp: nat)
    requires d.Ok() && k < d.maxOsd
    ensures LegalRun(d, LossRun(k, resp)) && HasLost(d, Exec(d, LossRun(k, resp)), k, resp)
  {
    hide Exec, LegalRun, Tick, HasLost;
    if k == 0 {
      EmptyRun(d);
      LossRound(d, [], false, resp, 0);
      assert [] + OneRead(false, resp) == LossRun(0, resp);
    } else {
      ReleasesCanBeLost(d, k - 1, resp);
      LossRound(d, LossRun(k - 1, resp), true, resp, k);
    }
  }

  lemma EmptyRun(d: Depths)
    requires d.Ok()
    ensures LegalRun(d, []) && Exec(d, []) == ResetLog(d)
  {}

  lemma LossRound(d: Depths, ins: seq<Pins>, last: bool, resp: nat, n: nat)
    requires d.Ok() && LegalRun(d, ins) && n < d.maxOsd
    requires if last then n > 0 && HasLost(d, Exec(d, ins), n - 1, resp) else n == 0 && Exec(d, ins) == ResetLog(d)
    ensures LegalRun(d, ins + OneRead(last, resp)) && HasLost(d, Exec(d, ins + OneRead(last, resp)), n, resp)
  {
    hide Exec, LegalRun, Tick, LastTaken, Next;
    var pins := OneRead(last, resp);
    var log := Exec(d, ins);
    AcceptEdge(d, log, last, resp, n);
    Extended(d, ins, pins[0]);
    LoadEdge(d, Exec(d, ins + [pins[0]]), last, resp, n);
    Extended(d, ins + [pins[0]], pins[1]);
    TakeEdge(d, Exec(d, ins + [pins[0]] + [pins[1]]), last, resp, n);
    Extended(d, ins + [pins[0]] + [pins[1]], pins[2]);
    assert ins + pins == ins + [pins[0]] + [pins[1]] + [pins[2]];
  }

  lemma Extended(d: Depths, ins: seq<Pins>, i: Pins)
    requires d.Ok() && LegalRun(d, ins) && Legal(d, Exec(d, ins), i)
    ensures LegalRun(d, ins + [i]) && Exec(d, ins + [i]) == Tick(d, Exec(d, ins), i)
  {
    hide Tick, Legal;
    var all := ins + [i];
    assert all[..|ins|] == ins;
    forall n | 0 <= n < |all| ensures Legal(d, Exec(d, all[..n]), all[n]) {
      assert n < |ins| ==> all[..n] == ins[..n];
    }
  }

  // ---- Error responses ---------------------------------------------------------------

  /** Occupied slots hold no error, and none has been reported. */
  ghost predicate ErrorFree(r: Regs)
    requires |r.slotErr| == |r.slotValid|
  {
    r.errorResp == 0 && forall k :: 0 <= k < |r.slotValid| && r.slotValid[k] ==> r.slotErr[k] == 0
  }

  lemma ErrorFreeNext(d: Depths, log: Log, i: Pins)
    requires Inv(d, log) && Legal(d, log, i) && ErrorFree(log.regs)
    ensures var t := Tick(d, log, i); t.regs.errorResp == 0 && (t.lost == log.lost ==> ErrorFree(t.regs))
  {
    hide FirstInvalid, FindById, Tick, Next, SlotsOk, FlowOk;
    LastMatches(d, log, i);
    SlotFields(d, log, i);
    ErrFields(d, log, i);
  }

  /** Until a release is lost error_resp stays 0, whatever responses the slave gives: the edge
      that ends a burst writes its response into a slot and reads the slot's value from
      before, and the same edge releases the slot. */
  lemma {:induction false} ErrorsUnreported(d: Depths, ins: seq<Pins>)
    requires d.Ok() && LegalRun(d, ins)
    ensures var log := Exec(d, ins); log.lost == 0 ==> ErrorFree(log.regs)
    decreases |ins|
  {
    hide Tick, Legal, Inv, ErrorFree;
    if |ins| == 0 {
      NoErrors(d);
    } else {
      var n := |ins| - 1;
      LegalPrefix(d, ins, n);
      ErrorsUnreported(d, ins[..n]);
      RunKeepsInv(d, ins[..n]);
      LostGrows(d, Exec(d, ins[..n]), ins[n]);
      if Exec(d, ins[..n]).lost == 0 {
        ErrorFreeNext(d, Exec(d, ins[..n]), ins[n]);
      }
    }
  }

  lemma NoErrors(d: Depths)
    requires d.Ok()
    ensures ErrorFree(ResetRegs(d))
  {}

  lemma LostGrows(d: Depths, log: Log, i: Pins)
    requires RegsShape(d, log.regs)
    ensures Tick(d, log, i).lost >= log.lost
  {
    hide Next;
  }

  /** While no release has been lost, the error_resp that comes with read_done is the burst's
      own response exactly if that response is 0. */
  lemma ErrorReportedIff(d: Depths, ins: seq<Pins>, i: Pins)
    requires d.Ok() && LegalRun(d, ins) && Legal(d, Exec(d, ins), i) && Exec(d, ins).lost == 0
    requires LastTaken(d, Exec(d, ins).regs, i)
    ensures var r := Tick(d, Exec(d, ins), i).regs; r.readDone && (r.errorResp == i.rResp <==> i.rResp == 0)
  {
    hide Exec, ErrorFree, FindById, FirstInvalid, NextErrs;
    RunKeepsInv(d, ins);
    ErrorsUnreported(d, ins);
    LastMatches(d, Exec(d, ins), i);
    ErrorFreeNext(d, Exec(d, ins), i);
  }

  /** After a loss an error is reported for the wrong burst: at the end of this rule-abiding
      run a burst with response 0 is reported with the response of the one before it. */
  lemma ErrorMisreported(d: Depths, resp: nat)
    requires d.Ok() && 1 < d.maxOsd <= d.dataDepth
    ensures var ins := LossRun(1, resp); var i := EndBurst();
      && LegalRun(d, ins) && Legal(d, Exec(d, ins), i) && LastTaken(d, Exec(d, ins).regs, i)
      && var r := Tick(d, Exec(d, ins), i).regs;
      i.rResp == 0 && r.readDone && r.errorResp == resp
  {
    hide Exec, LegalRun, FindById, FirstInvalid;
    ReleasesCanBeLost(d, 1, resp);
    var r := Exec(d, LossRun(1, resp)).regs;
    FoundAtZero(r.slotValid, r.slotId);
  }

  /** The last beat of a burst with ID 0 and no error. */
  function EndBurst(): Pins {
    Pins(false, Cmd(0, 0, 0, 0, 0), true, false, true, 0, 0, true, 0)
  }
}
