/** What the simulation gives for every rule-abiding run of the clocked D-cache. */
module DCacheTheorems {
  import opened CacheLines
  import opened DCacheTypes
  import opened Replacement
  import opened RefSpec
  import opened RefRefinesFlat
  import opened DCacheSpec
  import opened DCacheSystem
  import opened DCacheRefinement

  // ---- Flat memory -------------------------------------------------------------------

  /** Writing the victim back moves its data from the cache to memory; no block changes for
      the CPU. */
  lemma WriteBackKeepsView(p: Params, w: World, s: nat)
    requires Inv(p, w) && s < p.sets
    ensures var mem := MemAfterEviction(p, w.mem, VictimOf(w, s), s);
      View(p, AfterWriteBack(w, s), mem) == View(p, w.ref.sets, w.mem)
  {
    hide BlockNo, BlockTag, BlockIndex, BlockAt, LineAddr, Decode;
    var sets, mem := AfterWriteBack(w, s), MemAfterEviction(p, w.mem, VictimOf(w, s), s);
    forall b | 0 <= b < |w.mem|
      ensures BlockView(p, sets, mem, b) == BlockView(p, w.ref.sets, w.mem, b)
    {
      var row := w.ref.sets[BlockIndex(p, b)];
      BlockNoJoin(p, b);
      FirstHitSame(row, sets[BlockIndex(p, b)], BlockTag(p, b));
      EvictionView(p, w, s, w.ref.ptr[s], b);
      BlockNoSplit(p, VictimOf(w, s).tag, s);
      if !IsHit(row, BlockTag(p, b)) && BlockIndex(p, b) == s {
        assert !Matches(VictimOf(w, s), BlockTag(p, b));
      }
    }
  }

  lemma TracksView(p: Params, s: Sys, issued: seq<MemReq>, ref: RefLog)
    requires Tracks(p, s, issued, ref)
    ensures View(p, s.regs.sets, s.mem.blocks) == View(p, ref.world.ref.sets, ref.world.mem)
  {
    hide BlockNo, BlockTag, BlockIndex, BlockAt, LineAddr, Decode;
    if s.regs.fsm.MISS_WAIT? {
      WriteBackKeepsView(p, ref.world, Decode(p, s.held.addr).index);
    }
  }

  /** At every cycle of every run the cache over its memory is one flat memory of words to
      which exactly the served requests have been applied: each served read returned the word
      it holds, each served write changed that word, and no other cycle changed anything. */
  lemma DCacheRefinesFlat(p: Params, blocks: Memory, envs: seq<Env>)
    requires FlatShape(p, blocks) && LegalRun(p, blocks, envs)
    ensures var log := Exec(p, blocks, envs);
      && AllOnBus(p, ReqsOf(log.commits))
      && var (flat, rdata) := FlatRun(p, blocks, ReqsOf(log.commits));
      && View(p, log.sys.regs.sets, log.sys.mem.blocks) == flat
      && SameReads(log.commits, rdata)
  {
    hide BlockNo, BlockTag, BlockIndex, BlockAt, LineAddr, Decode;
    RunTracksRef(p, blocks, envs);
    var log := Exec(p, blocks, envs);
    var ref := RefLogOf(p, blocks, log.commits);
    ResetInv(p, blocks);
    RunRefinesFlat(p, World(ResetRef(p), blocks), ReqsOf(log.commits));
    TracksView(p, log.sys, log.issued, ref);
  }

  lemma TracksRequests(p: Params, s: Sys, issued: seq<MemReq>, ref: RefLog)
    requires Tracks(p, s, issued, ref)
    ensures ref.requests <= issued
    ensures s.regs.fsm.IDLE? ==>
      Ref(s.regs.sets, s.regs.ptr) == ref.world.ref && s.mem.blocks == ref.world.mem && issued == ref.requests
    ensures !s.regs.fsm.IDLE? ==> p.OnBus(s.held.addr) && issued <= Extend(p, ref, s.held).requests
  {
    hide BlockNo, BlockTag, BlockIndex, BlockAt, LineAddr, Decode;
    if !s.regs.fsm.IDLE? {
      BusyRequests(p, s, issued, ref);
      MissServed(p, ref.world, s.held);
    }
  }

  lemma BusyRequests(p: Params, s: Sys, issued: seq<MemReq>, ref: RefLog)
    requires Tracks(p, s, issued, ref) && !s.regs.fsm.IDLE?
    ensures var f := Decode(p, s.held.addr);
      ref.requests <= issued
      <= ref.requests + MissRequests(p, VictimOf(ref.world, f.index), f.tag, f.index)
  {
    hide BlockNo, BlockTag, BlockIndex, BlockAt, LineAddr, Decode;
    var f := Decode(p, s.held.addr);
    var all := MissRequests(p, VictimOf(ref.world, f.index), f.tag, f.index);
    assert all == all[..|all| - 1] + [all[|all| - 1]];
  }

  /** Whenever the cache is idle it holds the arrays the reference model holds after the
      served requests, and memory has accepted exactly the reference model's requests: the
      write-back with the victim's address and data, then the fetch, miss by miss. During a
      miss it has accepted the first of them. */
  lemma DCacheRefinesRef(p: Params, blocks: Memory, envs: seq<Env>)
    requires FlatShape(p, blocks) && LegalRun(p, blocks, envs)
    ensures var log := Exec(p, blocks, envs);
      && AllOnBus(p, ReqsOf(log.commits))
      && var ref := RefLogOf(p, blocks, log.commits);
      && SameReads(log.commits, ref.rdata)
      && (if log.sys.regs.fsm.IDLE? then
            && Ref(log.sys.regs.sets, log.sys.regs.ptr) == ref.world.ref
            && log.sys.mem.blocks == ref.world.mem
            && log.issued == ref.requests
          else
            && p.OnBus(log.sys.held.addr)
            && ref.requests <= log.issued <= Extend(p, ref, log.sys.held).requests)
  {
    hide BlockNo, BlockTag, BlockIndex, BlockAt, LineAddr, Decode;
    RunTracksRef(p, blocks, envs);
    var log := Exec(p, blocks, envs);
    TracksRequests(p, log.sys, log.issued, RefLogOf(p, blocks, log.commits));
  }

  /** In the middle of a miss arrays and memory are the reference model's from before it, until
      the answer to the write-back is taken; then the victim is clean and in memory, and
      nothing else has changed. */
  ghost predicate BusyArrays(p: Params, s: Sys, w: World)
    requires Inv(p, w) && p.OnBus(s.held.addr)
  {
    var f := Decode(p, s.held.addr);
    var row, v := w.ref.sets[f.index], w.ref.ptr[f.index];
    && s.regs.ptr == w.ref.ptr
    && if s.regs.fsm.MISS_WAIT? && row[v].dirty then
         var b := row[v].tag * p.sets + f.index;
         && s.regs.sets == w.ref.sets[f.index := row[v := row[v].(dirty := false)]]
         && b < |w.mem| && s.mem.blocks == w.mem[b := row[v].data]
       else s.regs.sets == w.ref.sets && s.mem.blocks == w.mem
  }

  lemma ArraysDuringMiss(p: Params, blocks: Memory, envs: seq<Env>)
    requires FlatShape(p, blocks) && LegalRun(p, blocks, envs)
    ensures var log := Exec(p, blocks, envs);
      && AllOnBus(p, ReqsOf(log.commits))
      && (!log.sys.regs.fsm.IDLE? ==>
            && p.OnBus(log.sys.held.addr)
            && BusyArrays(p, log.sys, RefLogOf(p, blocks, log.commits).world))
  {
    hide Decode, Exec, Tracks, BusyArrays, ReqsOf, SameReads, RefLogOf;
    RunTracksRef(p, blocks, envs);
    var log := Exec(p, blocks, envs);
    if !log.sys.regs.fsm.IDLE? {
      TracksBusy(p, log.sys, log.issued, RefLogOf(p, blocks, log.commits));
    }
  }

  lemma TracksBusy(p: Params, s: Sys, issued: seq<MemReq>, ref: RefLog)
    requires Tracks(p, s, issued, ref) && !s.regs.fsm.IDLE?
    ensures p.OnBus(s.held.addr) && BusyArrays(p, s, ref.world)
  {
    hide BlockTag, BlockIndex, BlockAt, LineAddr, Decode;
    var w := ref.world;
    var f := Decode(p, s.held.addr);
    var v := w.ref.ptr[f.index];
    assert SetOk(p, w.ref.sets[f.index], v, f.index, w.mem);
    BlockNoSplit(p, w.ref.sets[f.index][v].tag, f.index);
  }

  // ---- Every cycle -------------------------------------------------------------------

  /** In any reachable cycle: tags are unique in a set, dirty implies valid, and a clean
      valid line equals memory, also in the middle of a miss. */
  ghost predicate ArraysOk(p: Params, s: Sys)
    requires SysShape(p, s)
  {
    forall n :: 0 <= n < p.sets ==>
      var row := s.regs.sets[n];
      && UniqueTags(row)
      && (forall i :: 0 <= i < p.ways && row[i].dirty ==> row[i].valid)
      && (forall i :: 0 <= i < p.ways && row[i].valid && !row[i].dirty ==>
            InMemory(p, row[i], n, s.mem.blocks))
  }

  /** The one request on the memory channel, if any: in WB the victim's block with its data,
      in MISS_WAIT the block the CPU asked for. */
  ghost predicate ChannelOk(p: Params, s: Sys)
    requires SysShape(p, s)
  {
    && (s.mem.responding ==> s.mem.pending.Some?)
    && (s.regs.reqValid ==> s.mem.pending.None?)
    && ((s.regs.reqValid || s.mem.pending.Some?) <==> (s.regs.fsm.WB? || s.regs.fsm.MISS_WAIT?))
    && (s.regs.reqValid || s.mem.pending.Some? ==>
          var q := if s.regs.reqValid then Shown(s.regs) else s.mem.pending.value;
          && p.OnBus(s.held.addr)
          && var f := Decode(p, s.held.addr);
          && var victim := Victim(s.regs, f.index);
          && (s.regs.fsm.WB? ==>
                victim.dirty && q == WriteBack(LineAddr(p, victim.tag, f.index), victim.data))
          && (s.regs.fsm.MISS_WAIT? ==> q == Fetch(LineAddr(p, f.tag, f.index))))
  }

  /** Clean lines of a set still equal memory once the victim of set s is written back. */
  lemma CleanAfterEviction(p: Params, w: World, s: nat, n: nat, i: nat)
    requires Inv(p, w) && s < p.sets && n < p.sets && i < p.ways
    requires var line := AfterWriteBack(w, s)[n][i]; line.valid && !line.dirty
    ensures InMemory(p, w.ref.sets[n][i], n, MemAfterEviction(p, w.mem, VictimOf(w, s), s))
  {
    hide BlockNo, BlockTag, BlockIndex, BlockAt, LineAddr, Decode;
    var line := w.ref.sets[n][i];
    BlockNoSplit(p, line.tag, n);
    BlockNoSplit(p, VictimOf(w, s).tag, s);
    EvictionView(p, w, s, w.ref.ptr[s], BlockNo(p, line.tag, n));
  }

  lemma ArraysDuringFill(p: Params, s: Sys, issued: seq<MemReq>, ref: RefLog)
    requires Tracks(p, s, issued, ref) && s.regs.fsm.MISS_WAIT?
    ensures ArraysOk(p, s)
  {
    hide BlockNo, BlockTag, BlockIndex, BlockAt, LineAddr, Decode;
    var w, v := ref.world, Decode(p, s.held.addr).index;
    forall n | 0 <= n < p.sets
      ensures UniqueTags(s.regs.sets[n])
      ensures forall i :: 0 <= i < p.ways && s.regs.sets[n][i].valid && !s.regs.sets[n][i].dirty ==>
            InMemory(p, s.regs.sets[n][i], n, s.mem.blocks)
    {
      assert SetOk(p, w.ref.sets[n], w.ref.ptr[n], n, w.mem);
      forall i | 0 <= i < p.ways && s.regs.sets[n][i].valid && !s.regs.sets[n][i].dirty
        ensures InMemory(p, s.regs.sets[n][i], n, s.mem.blocks)
      {
        CleanAfterEviction(p, w, v, n, i);
      }
    }
  }

  lemma ReachableStates(p: Params, blocks: Memory, envs: seq<Env>)
    requires FlatShape(p, blocks) && LegalRun(p, blocks, envs)
    ensures ArraysOk(p, Exec(p, blocks, envs).sys)
    ensures ChannelOk(p, Exec(p, blocks, envs).sys)
  {
    RunTracksRef(p, blocks, envs);
    var log := Exec(p, blocks, envs);
    TracksOk(p, log.sys, log.issued, RefLogOf(p, blocks, log.commits));
  }

  lemma TracksOk(p: Params, s: Sys, issued: seq<MemReq>, ref: RefLog)
    requires Tracks(p, s, issued, ref)
    ensures ArraysOk(p, s) && ChannelOk(p, s)
  {
    TracksChannel(p, s, issued, ref);
    if s.regs.fsm.MISS_WAIT? {
      ArraysDuringFill(p, s, issued, ref);
    } else {
      ArraysAtRest(p, s, ref.world);
    }
  }

  lemma ArraysAtRest(p: Params, s: Sys, w: World)
    requires SysShape(p, s) && Inv(p, w) && s.regs.sets == w.ref.sets && s.mem.blocks == w.mem
    ensures ArraysOk(p, s)
  {
    forall n | 0 <= n < p.sets ensures SetOk(p, w.ref.sets[n], w.ref.ptr[n], n, w.mem) {}
  }

  lemma TracksChannel(p: Params, s: Sys, issued: seq<MemReq>, ref: RefLog)
    requires Tracks(p, s, issued, ref)
    ensures ChannelOk(p, s)
  {
    hide BlockNo, BlockTag, BlockIndex, BlockAt, LineAddr, Decode;
  }

  /** A memory request stays on the pins, unchanged, until it is accepted. */
  lemma RequestHeld(p: Params, blocks: Memory, envs: seq<Env>, e: Env)
    requires FlatShape(p, blocks) && LegalRun(p, blocks, envs)
    requires Legal(p, Exec(p, blocks, envs).sys, e)
    requires Exec(p, blocks, envs).sys.regs.reqValid && !e.memReady
    ensures var s := Exec(p, blocks, envs).sys; var r := Tick(p, s, e).regs;
      r.reqValid && Shown(r) == Shown(s.regs)
  {
    hide BlockNo, BlockTag, BlockIndex, BlockAt, LineAddr, Decode;
    ReachableStates(p, blocks, envs);
  }

  /** A valid dirty victim is being checked. */
  ghost predicate ChecksDirtyVictim(p: Params, s: Sys)
    requires SysShape(p, s)
  {
    && s.regs.fsm.DIRTY_CHECK? && p.OnBus(s.held.addr)
    && NeedsWriteBack(Victim(s.regs, Decode(p, s.held.addr).index))
  }

  /** A write request on the memory pins comes from the check of a valid dirty victim in the
      cycle before exactly when it was not already on the pins in that cycle: the monitor that
      asks for the check in the previous cycle holds until the memory makes a request wait. */
  lemma WriteBackFollowsCheckIff(p: Params, blocks: Memory, envs: seq<Env>, log: Log, e: Env)
    requires FlatShape(p, blocks) && LegalRun(p, blocks, envs) && log == Exec(p, blocks, envs)
    requires Legal(p, log.sys, e)
    ensures var t := Tick(p, log.sys, e).regs;
      t.reqValid && t.wrEn ==> (ChecksDirtyVictim(p, log.sys) <==> !log.sys.regs.reqValid)
  {
    hide BlockNo, BlockTag, BlockIndex, BlockAt, LineAddr, Decode, Tick, Tracks;
    RunTracksRef(p, blocks, envs);
    WriteShownAfter(p, log.sys, log.issued, RefLogOf(p, blocks, log.commits), e);
  }

  lemma WriteShownAfter(p: Params, s: Sys, issued: seq<MemReq>, ref: RefLog, e: Env)
    requires Tracks(p, s, issued, ref) && Legal(p, s, e)
    ensures var t := Tick(p, s, e).regs;
      t.reqValid && t.wrEn ==> (ChecksDirtyVictim(p, s) <==> !s.regs.reqValid)
  {
    hide BlockNo, BlockTag, BlockIndex, BlockAt, LineAddr, Decode;
    match s.regs.fsm
    case IDLE =>
    case DIRTY_CHECK =>
      var n := Decode(p, s.held.addr).index;
      assert SetOk(p, ref.world.ref.sets[n], ref.world.ref.ptr[n], n, ref.world.mem);
    case WB =>
    case MISS_WAIT =>
  }

  // ---- Requests accepted and served --------------------------------------------------

  /** The CPU requests whose handshake has happened. */
  ghost function Accepted(p: Params, blocks: Memory, envs: seq<Env>): seq<Req>
    requires FlatShape(p, blocks) && EnvsOnBus(p, envs)
    decreases |envs|
  {
    if |envs| == 0 then []
    else
      var n := |envs| - 1;
      var s := Exec(p, blocks, envs[..n]).sys;
      Accepted(p, blocks, envs[..n]) + Taken(s, envs[n])
  }

  ghost function Busy(s: Sys): seq<Req> {
    if s.regs.fsm.IDLE? then [] else [s.held]
  }

  ghost function Taken(s: Sys, e: Env): seq<Req> {
    if e.cpuValid && s.regs.fsm.IDLE? then [e.req] else []
  }

  lemma TickServes(p: Params, s: Sys, e: Env)
    requires SysShape(p, s) && Legal(p, s, e)
    ensures Busy(s) + Taken(s, e) == ReqsOf(Commits(p, s, e)) + Busy(Tick(p, s, e))
  {}

  /** Every accepted request is served once, in order; only the one being served may be
      outstanding. */
  lemma {:induction false} AcceptedAreServed(p: Params, blocks: Memory, envs: seq<Env>)
    requires FlatShape(p, blocks) && LegalRun(p, blocks, envs)
    ensures AllServed(Exec(p, blocks, envs), Accepted(p, blocks, envs))
    decreases |envs|
  {
    hide Tick, TickLog, Legal, AllServed, Taken, Busy, FlatShape, Exec, Accepted, SysShape;
    if |envs| > 0 {
      var n := |envs| - 1;
      LegalPrefix(p, blocks, envs, n);
      AcceptedAreServed(p, blocks, envs[..n]);
      ServedNext(p, Exec(p, blocks, envs[..n]), envs[n], Accepted(p, blocks, envs[..n]));
      LastStep(p, blocks, envs);
    } else {
      LastStep(p, blocks, envs);
      NoneServed(p, blocks);
    }
  }

  /** A run and its accepted requests, one edge on. */
  lemma LastStep(p: Params, blocks: Memory, envs: seq<Env>)
    requires FlatShape(p, blocks) && EnvsOnBus(p, envs)
    ensures var n := |envs| - 1;
      if n < 0 then Exec(p, blocks, envs) == Log(ResetSys(p, blocks), [], []) && Accepted(p, blocks, envs) == []
      else
        && Exec(p, blocks, envs) == TickLog(p, Exec(p, blocks, envs[..n]), envs[n])
        && Accepted(p, blocks, envs)
           == Accepted(p, blocks, envs[..n]) + Taken(Exec(p, blocks, envs[..n]).sys, envs[n])
  {
    hide Tick, TickLog, Taken, FlatShape, SysShape;
  }

  lemma NoneServed(p: Params, blocks: Memory)
    ensures AllServed(Log(ResetSys(p, blocks), [], []), [])
  {}

  ghost predicate AllServed(log: Log, accepted: seq<Req>) {
    accepted == ReqsOf(log.commits) + Busy(log.sys)
  }

  lemma ServedNext(p: Params, log: Log, e: Env, accepted: seq<Req>)
    requires SysShape(p, log.sys) && Legal(p, log.sys, e)
    requires AllServed(log, accepted)
    ensures AllServed(TickLog(p, log, e), accepted + Taken(log.sys, e))
  {
    hide BlockNo, BlockTag, BlockIndex, BlockAt, LineAddr, Decode;
    var served := Commits(p, log.sys, e);
    TickServes(p, log.sys, e);
    assert ReqsOf(log.commits + served) == ReqsOf(log.commits) + ReqsOf(served);
    Regroup(ReqsOf(log.commits), Busy(log.sys), Taken(log.sys, e),
            ReqsOf(served), Busy(Tick(p, log.sys, e)));
  }

  lemma Regroup(a: seq<Req>, b: seq<Req>, c: seq<Req>, d: seq<Req>, e: seq<Req>)
    requires b + c == d + e
    ensures (a + b) + c == (a + d) + e
  {
    hide BlockNo, BlockTag, BlockIndex, BlockAt, LineAddr, Decode;
    assert (a + b) + c == a + (b + c);
  }

  // ---- The response ------------------------------------------------------------------

  /** In the cycle after a response the cache responds again exactly if the request then on
      the pins is resident. To the same request it always does, and the data pins keep their
      value exactly unless the request was a write and the word fetched for it not zero. */
  lemma ResponseHeld(p: Params, blocks: Memory, envs: seq<Env>, log: Log, e: Env, e': Env)
    requires FlatShape(p, blocks) && LegalRun(p, blocks, envs) && log == Exec(p, blocks, envs)
    requires Legal(p, log.sys, e) && Responds(p, log.sys, e) && p.OnBus(e'.req.addr)
    ensures var s' := Tick(p, log.sys, e); var f' := Decode(p, e'.req.addr);
      Responds(p, s', e') <==> IsHit(s'.regs.sets[f'.index], f'.tag)
    ensures e'.req == e.req ==> SameResponse(p, log.sys, e, e')
  {
    hide BlockNo, BlockTag, BlockIndex, BlockAt, LineAddr, Decode, Exec, LegalRun, Tracks, Legal,
         Commits, SameResponse, RefLogOf;
    RunTracksRef(p, blocks, envs);
    IdleAfterResponse(p, log.sys, e);
    if e'.req == e.req {
      var ref := RefLogOf(p, blocks, log.commits);
      if Commits(p, log.sys, e) == [] {
        RefusedAgain(p, log, e, e', ref);
      } else {
        ResponseHeldAt(p, log, e, e', ref);
      }
    }
  }

  /** The cycle after a response answers the same request again, and the data pins keep their
      value exactly unless a nonzero word was fetched for a write. */
  ghost predicate SameResponse(p: Params, s: Sys, e: Env, e': Env)
    requires SysShape(p, s) && p.OnBus(e.req.addr) && p.OnBus(e'.req.addr)
  {
    var s' := Tick(p, s, e);
    var fetched := PinsOf(p, s, e).rdata[Decode(p, e.req.addr).word];
    && Responds(p, s', e')
    && (ReadData(p, s', e') == ReadData(p, s, e) <==> !(e.req.write && s.regs.fsm.MISS_WAIT? && fetched != 0))
  }

  lemma IdleAfterResponse(p: Params, s: Sys, e: Env)
    requires SysShape(p, s) && Legal(p, s, e) && Responds(p, s, e)
    ensures Tick(p, s, e).regs.fsm.IDLE?
    ensures Commits(p, s, e) == [] ==> s.regs.fsm.IDLE? && Tick(p, s, e).regs.sets == s.regs.sets
  {}

  /** A resident request that is not valid yet is answered, and answered again. */
  lemma RefusedAgain(p: Params, log: Log, e: Env, e': Env, ref: RefLog)
    requires Tracks(p, log.sys, log.issued, ref) && Legal(p, log.sys, e)
    requires Responds(p, log.sys, e) && Commits(p, log.sys, e) == []
    requires p.OnBus(e'.req.addr) && e'.req == e.req
    ensures SameResponse(p, log.sys, e, e')
  {
    hide BlockNo, BlockTag, BlockIndex, BlockAt, LineAddr, Decode;
    IdleAfterResponse(p, log.sys, e);
    var s := Decode(p, e.req.addr).index;
    assert SetOk(p, ref.world.ref.sets[s], ref.world.ref.ptr[s], s, ref.world.mem);
    IdleHitData(p, log.sys, e);
    IdleHitData(p, Tick(p, log.sys, e), e');
  }

  lemma ResponseHeldAt(p: Params, log: Log, e: Env, e': Env, ref: RefLog)
    requires Tracks(p, log.sys, log.issued, ref)
    requires Legal(p, log.sys, e) && Commits(p, log.sys, e) != []
    requires p.OnBus(e'.req.addr) && e'.req == e.req
    ensures SameResponse(p, log.sys, e, e')
  {
    hide BlockNo, BlockTag, BlockIndex, BlockAt, LineAddr, Decode;
    ServingTick(p, log, e, ref);
    var w := Extend(p, ref, e.req).world;
    ServedIsHit(p, ref.world, e.req, w);
    DataPins(p, log, e, ref);
    assert SetOk(p, w.ref.sets[Decode(p, e.req.addr).index], w.ref.ptr[Decode(p, e.req.addr).index],
                 Decode(p, e.req.addr).index, w.mem);
    IdleHitData(p, Tick(p, log.sys, e), e');
  }

  /** The data pins in a cycle that serves a request: zero for a write that hits, the fetched
      word when a miss is filled. */
  lemma DataPins(p: Params, log: Log, e: Env, ref: RefLog)
    requires Tracks(p, log.sys, log.issued, ref) && Legal(p, log.sys, e)
    requires Commits(p, log.sys, e) != []
    ensures log.sys.regs.fsm.IDLE? && e.req.write ==> ReadData(p, log.sys, e) == 0
    ensures log.sys.regs.fsm.MISS_WAIT? ==>
      ReadData(p, log.sys, e) == PinsOf(p, log.sys, e).rdata[Decode(p, e.req.addr).word]
    ensures Tick(p, log.sys, e).regs.fsm.IDLE?
    ensures log.sys.regs.fsm.IDLE? || log.sys.regs.fsm.MISS_WAIT?
  {
    hide BlockNo, BlockTag, BlockIndex, BlockAt, LineAddr, Decode;
    if log.sys.regs.fsm.MISS_WAIT? {
      FillMisses(p, log, e, ref);
    }
  }

  /** While a miss is being filled the request does not hit, also once the victim is clean. */
  lemma FillMisses(p: Params, log: Log, e: Env, ref: RefLog)
    requires Tracks(p, log.sys, log.issued, ref) && Legal(p, log.sys, e) && log.sys.regs.fsm.MISS_WAIT?
    ensures !HitSign(p, log.sys.regs, PinsOf(p, log.sys, e))
  {
    hide BlockNo, BlockTag, BlockIndex, BlockAt, LineAddr, Decode;
    var f := Decode(p, e.req.addr);
    FirstHitSame(ref.world.ref.sets[f.index], log.sys.regs.sets[f.index], f.tag);
  }

  lemma IdleHitData(p: Params, s: Sys, e: Env)
    requires SysShape(p, s) && p.OnBus(e.req.addr) && s.regs.fsm.IDLE?
    requires var f := Decode(p, e.req.addr); var row := s.regs.sets[f.index];
      UniqueTags(row) && IsHit(row, f.tag)
    ensures Responds(p, s, e)
    ensures var f := Decode(p, e.req.addr); var row := s.regs.sets[f.index];
      ReadData(p, s, e)
      == if e.req.write then 0 else row[FirstHit(row, f.tag)].data[f.word]
  {
    hide BlockNo, BlockTag, BlockIndex, BlockAt, LineAddr, Decode;
    var f := Decode(p, e.req.addr);
    var row := s.regs.sets[f.index];
    assert Matches(row[FirstHit(row, f.tag)], f.tag);
    FirstHitIs(row, LastHit(row, f.tag), f.tag);
  }

  /** A request just served hits, and a read finds the word it returned. */
  lemma ServedIsHit(p: Params, w: World, req: Req, w': World)
    requires Inv(p, w) && p.OnBus(req.addr)
    requires w' == Step(p, w, req).0 && WorldShape(p, w')
    ensures Finds(p, w', req, Step(p, w, req).2)
  {
    hide BlockNo, BlockTag, BlockIndex, BlockAt, LineAddr, Decode;
    var f := Decode(p, req.addr);
    var s := f.index;
    var row := w.ref.sets[s];
    BlockNoSplit(p, f.tag, s);
    if IsHit(row, f.tag) {
      FirstHitSame(row, w'.ref.sets[s], f.tag);
    } else {
      MissServed(p, w, req);
      var block := MemAfterEviction(p, w.mem, VictimOf(w, s), s)[BlockNo(p, f.tag, s)];
      ReplacedRow(row, w.ref.ptr[s], Refilled(f.tag, block, req, f.word), f.tag);
    }
  }

  /** The request hits, and a read of it yields rdata. */
  ghost predicate Finds(p: Params, w: World, req: Req, rdata: Word)
    requires WorldShape(p, w) && p.OnBus(req.addr)
  {
    var f := Decode(p, req.addr);
    var row := w.ref.sets[f.index];
    && IsHit(row, f.tag)
    && (!req.write ==> row[FirstHit(row, f.tag)].data[f.word] == rdata)
  }
}
