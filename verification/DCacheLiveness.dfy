/** A miss is always served, within a number of cycles given by the memory's bounds. */
module DCacheLiveness {
  import opened CacheLines
  import opened DCacheTypes
  import opened RefSpec
  import opened RefRefinesFlat
  import opened DCacheSpec
  import opened DCacheSystem
  import opened DCacheRefinement

  /** The memory accepts a request in the cycle after `accept` cycles of waiting at the
      latest, and answers in the cycle after `respond` cycles at the latest. */
  datatype Bounds = Bounds(accept: nat, respond: nat) {
    function PerRequest(): nat {
      (accept + 1) + (respond + 1)
    }
  }

  ghost predicate Timely(s: Sys, e: Env, k: Bounds) {
    && (s.regs.reqValid && s.mem.waited >= k.accept ==> e.memReady)
    && (s.mem.pending.Some? && s.mem.waited >= k.respond ==> e.respValid)
  }

  ghost predicate TimelyRun(p: Params, blocks: Memory, envs: seq<Env>, k: Bounds)
    requires FlatShape(p, blocks)
  {
    && LegalRun(p, blocks, envs)
    && forall n :: 0 <= n < |envs| ==> Timely(Exec(p, blocks, envs[..n]).sys, envs[n], k)
  }

  /** Cycles left for the request on the memory channel. */
  ghost function Remaining(s: Sys, k: Bounds): int {
    if s.regs.reqValid then k.accept - s.mem.waited + 1 + (k.respond + 1)
    else k.respond - s.mem.waited + 1
  }

  /** Cycles left until the request being served is answered. */
  ghost function Rank(p: Params, s: Sys, k: Bounds): int
    requires SysShape(p, s) && p.OnBus(s.held.addr)
  {
    match s.regs.fsm
    case IDLE => 0
    case DIRTY_CHECK =>
      1 + k.PerRequest()
      + if Victim(s.regs, Decode(p, s.held.addr).index).dirty then k.PerRequest() else 0
    case WB => Remaining(s, k) + k.PerRequest()
    case MISS_WAIT => Remaining(s, k)
  }

  /** The waiting counter never passes the bound of its phase. */
  ghost predicate InTime(s: Sys, k: Bounds) {
    && (s.regs.reqValid ==> s.mem.waited <= k.accept)
    && (s.mem.pending.Some? ==> s.mem.waited <= k.respond)
    && (!s.regs.reqValid && s.mem.pending.None? ==> s.mem.waited == 0)
  }

  lemma TickInTime(p: Params, log: Log, e: Env, ref: RefLog, k: Bounds)
    requires Tracks(p, log.sys, log.issued, ref) && Legal(p, log.sys, e)
    requires InTime(log.sys, k) && Timely(log.sys, e, k)
    ensures InTime(TickLog(p, log, e).sys, k)
  {}

  lemma {:induction false} RunInTime(p: Params, blocks: Memory, envs: seq<Env>, k: Bounds)
    requires FlatShape(p, blocks) && TimelyRun(p, blocks, envs, k)
    ensures InTime(Exec(p, blocks, envs).sys, k)
    decreases |envs|
  {
    hide Tick, TickLog, Tracks, Timely, Legal;
    if |envs| > 0 {
      var n := |envs| - 1;
      TimelyPrefix(p, blocks, envs, n, k);
      RunInTime(p, blocks, envs[..n], k);
      RunTracksRef(p, blocks, envs[..n]);
      var log := Exec(p, blocks, envs[..n]);
      TickInTime(p, log, envs[n], RefLogOf(p, blocks, log.commits), k);
    }
  }

  lemma TimelyPrefix(p: Params, blocks: Memory, envs: seq<Env>, n: nat, k: Bounds)
    requires FlatShape(p, blocks) && TimelyRun(p, blocks, envs, k) && n <= |envs|
    ensures TimelyRun(p, blocks, envs[..n], k)
  {
    hide Tick, TickLog;
    LegalPrefix(p, blocks, envs, n);
    forall i | 0 <= i < n
      ensures Timely(Exec(p, blocks, envs[..n][..i]).sys, envs[..n][i], k)
    {
      assert envs[..n][..i] == envs[..i];
    }
  }

  /** Every cycle of a miss brings its end closer; the cycle that serves it makes the cache
      idle. */
  lemma RankDrops(p: Params, log: Log, e: Env, ref: RefLog, k: Bounds)
    requires Tracks(p, log.sys, log.issued, ref) && Legal(p, log.sys, e)
    requires InTime(log.sys, k) && Timely(log.sys, e, k) && !log.sys.regs.fsm.IDLE?
    ensures RankDropped(p, log.sys, Tick(p, log.sys, e), Commits(p, log.sys, e), k)
  {
    match log.sys.regs.fsm
    case DIRTY_CHECK => RankDropsChecking(p, log, e, ref, k);
    case WB => RankDropsWritingBack(p, log, e, ref, k);
    case MISS_WAIT => RankDropsFilling(p, log, e, ref, k);
  }

  ghost predicate RankDropped(p: Params, s: Sys, s': Sys, served: seq<Commit>, k: Bounds)
    requires SysShape(p, s) && SysShape(p, s') && p.OnBus(s.held.addr)
  {
    && s'.held == s.held
    && 0 <= Rank(p, s', k) < Rank(p, s, k)
    && ReqsOf(served) == if s'.regs.fsm.IDLE? then [s.held] else []
  }

  lemma RankDropsChecking(p: Params, log: Log, e: Env, ref: RefLog, k: Bounds)
    requires Tracks(p, log.sys, log.issued, ref) && Legal(p, log.sys, e)
    requires log.sys.regs.fsm.DIRTY_CHECK? && InTime(log.sys, k)
    ensures RankDropped(p, log.sys, Tick(p, log.sys, e), Commits(p, log.sys, e), k)
  {}

  lemma RankDropsWritingBack(p: Params, log: Log, e: Env, ref: RefLog, k: Bounds)
    requires Tracks(p, log.sys, log.issued, ref) && Legal(p, log.sys, e)
    requires log.sys.regs.fsm.WB? && InTime(log.sys, k) && Timely(log.sys, e, k)
    ensures RankDropped(p, log.sys, Tick(p, log.sys, e), Commits(p, log.sys, e), k)
  {}

  lemma RankDropsFilling(p: Params, log: Log, e: Env, ref: RefLog, k: Bounds)
    requires Tracks(p, log.sys, log.issued, ref) && Legal(p, log.sys, e)
    requires log.sys.regs.fsm.MISS_WAIT? && InTime(log.sys, k) && Timely(log.sys, e, k)
    ensures RankDropped(p, log.sys, Tick(p, log.sys, e), Commits(p, log.sys, e), k)
  {
    hide BlockNo, BlockTag, BlockIndex, BlockAt, LineAddr, Decode;
    if e.respValid {
      MissDoneRegs(p, log, e, ref);
      MissDoneReads(p, log, e, ref);
    } else {
      FillWaits(p, log.sys, e);
    }
  }

  /** From an accepted miss, the request is served within 2 * accept + 2 * respond + 5 cycles. */
  lemma RankBound(p: Params, log: Log, ref: RefLog, k: Bounds)
    requires Tracks(p, log.sys, log.issued, ref) && InTime(log.sys, k) && !log.sys.regs.fsm.IDLE?
    ensures 0 < Rank(p, log.sys, k) <= 2 * k.accept + 2 * k.respond + 5
  {}

  /** A busy cache becomes idle in at most Rank cycles, having served exactly the request it
      was busy with, whatever else the CPU and a timely memory do. */
  lemma {:induction false} MissCompletes(p: Params, blocks: Memory, envs: seq<Env>, more: seq<Env>, k: Bounds)
    returns (m: nat)
    requires FlatShape(p, blocks) && TimelyRun(p, blocks, envs + more, k)
    requires EnvsOnBus(p, envs) && !Exec(p, blocks, envs).sys.regs.fsm.IDLE?
    requires |more| >= 2 * k.accept + 2 * k.respond + 5
    ensures 0 < m <= 2 * k.accept + 2 * k.respond + 5
    ensures EnvsOnBus(p, envs + more[..m])
    ensures Completed(Exec(p, blocks, envs), Exec(p, blocks, envs + more[..m]))
  {
    assert (envs + more)[..|envs|] == envs;
    TimelyPrefix(p, blocks, envs + more, |envs|, k);
    RunTracksRef(p, blocks, envs);
    RunInTime(p, blocks, envs, k);
    var log := Exec(p, blocks, envs);
    RankBound(p, log, RefLogOf(p, blocks, log.commits), k);
    m := CompletesWithin(p, blocks, envs, more, k, 2 * k.accept + 2 * k.respond + 5);
  }

  ghost predicate Completed(before: Log, after: Log) {
    && after.sys.regs.fsm.IDLE?
    && ReqsOf(after.commits) == ReqsOf(before.commits) + [before.sys.held]
  }

  lemma {:induction false} CompletesWithin(p: Params, blocks: Memory, envs: seq<Env>, more: seq<Env>,
                                           k: Bounds, bound: nat)
    returns (m: nat)
    requires FlatShape(p, blocks) && TimelyRun(p, blocks, envs + more, k)
    requires EnvsOnBus(p, envs) && !Exec(p, blocks, envs).sys.regs.fsm.IDLE?
    requires |more| >= bound && p.OnBus(Exec(p, blocks, envs).sys.held.addr)
    requires Rank(p, Exec(p, blocks, envs).sys, k) <= bound
    ensures 0 < m <= bound
    ensures EnvsOnBus(p, envs + more[..m])
    ensures Completed(Exec(p, blocks, envs), Exec(p, blocks, envs + more[..m]))
    decreases bound
  {
    hide Tick, TickLog, Rank, Legal, Timely, SysShape, ReqsOf;
    var log := StepFacts(p, blocks, envs, more, k);
    var next := envs + [more[0]];
    var log' := Exec(p, blocks, next);
    if log'.sys.regs.fsm.IDLE? {
      m := 1;
      assert envs + more[..1] == next;
    } else {
      assert next + more[1..] == envs + more;
      var m' := CompletesWithin(p, blocks, next, more[1..], k, bound - 1);
      m := m' + 1;
      assert next + more[1..][..m'] == envs + more[..m];
    }
  }

  /** The next cycle of a busy cache, in terms of the run. */
  lemma StepFacts(p: Params, blocks: Memory, envs: seq<Env>, more: seq<Env>, k: Bounds)
    returns (log: Log)
    requires FlatShape(p, blocks) && TimelyRun(p, blocks, envs + more, k)
    requires EnvsOnBus(p, envs) && !Exec(p, blocks, envs).sys.regs.fsm.IDLE?
    requires p.OnBus(Exec(p, blocks, envs).sys.held.addr)
    ensures log == Exec(p, blocks, envs)
    ensures 0 < Rank(p, log.sys, k)
    ensures |more| > 0 ==>
      var next := envs + [more[0]];
      && EnvsOnBus(p, next)
      && var log' := Exec(p, blocks, next);
      && log'.sys.held == log.sys.held
      && Rank(p, log'.sys, k) < Rank(p, log.sys, k)
      && ReqsOf(log'.commits)
         == ReqsOf(log.commits) + if log'.sys.regs.fsm.IDLE? then [log.sys.held] else []
  {
    hide Tick, Rank, Tracks, Legal, Timely, InTime, Commits, Issued, ReqsOf, RefLogOf, SysShape,
         Decode, BlockNo, LineAddr;
    var all := envs + more;
    assert all[..|envs|] == envs;
    TimelyPrefix(p, blocks, all, |envs|, k);
    RunTracksRef(p, blocks, envs);
    RunInTime(p, blocks, envs, k);
    log := Exec(p, blocks, envs);
    var ref := RefLogOf(p, blocks, log.commits);
    RankBound(p, log, ref, k);
    if |more| > 0 {
      var e := more[0];
      assert all[|envs|] == e;
      assert Timely(log.sys, e, k) && Legal(p, log.sys, e);
      RankDrops(p, log, e, ref, k);
      var next := envs + [e];
      assert next[..|envs|] == envs;
      ReqsOfSum(log.commits, Commits(p, log.sys, e));
    }
  }

  lemma ReqsOfSum(a: seq<Commit>, b: seq<Commit>)
    ensures ReqsOf(a + b) == ReqsOf(a) + ReqsOf(b)
  {}
}
