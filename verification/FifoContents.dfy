/** Which lines the caches hold: for every sequence of accesses the reference model and the
    clocked D-cache keep the same tags in the same ways as FIFO replacement, which is what the
    TLM cache keeps. */
module FifoContents {
  import opened CacheLines
  import opened DCacheTypes
  import opened Replacement
  import opened RefSpec
  import opened RefRefinesFlat
  import opened DCacheSpec
  import opened DCacheSystem
  import opened DCacheRefinement

  /** The tags accessed in one set, in order. */
  ghost function AccessedTags(p: Params, reqs: seq<Req>, s: nat): seq<nat>
    requires p.Ok() && AllOnBus(p, reqs)
    decreases |reqs|
  {
    if |reqs| == 0 then []
    else
      var f := Decode(p, reqs[|reqs| - 1].addr);
      AccessedTags(p, reqs[..|reqs| - 1], s) + if f.index == s then [f.tag] else []
  }

  /** A set's tags and pointer are those FIFO replacement gives after the accesses. */
  ghost predicate Follows(ways: nat, row: seq<Line>, ptr: nat, tags: seq<nat>)
    requires ways > 0
  {
    Tags(row) == AfterAccesses(ways, tags).ways && ptr == |Missed(ways, tags)| % ways
  }

  ghost predicate AllFollow(p: Params, r: Ref, reqs: seq<Req>)
    requires p.Ok() && AllOnBus(p, reqs)
  {
    && |r.sets| == |r.ptr| == p.sets
    && forall s :: 0 <= s < p.sets ==> Follows(p.ways, r.sets[s], r.ptr[s], AccessedTags(p, reqs, s))
  }

  /** On a set that follows FIFO the pointer policy picks the way FIFO does. */
  lemma VictimFollows(ways: nat, row: seq<Line>, ptr: nat, tags: seq<nat>)
    requires ways > 0 && |row| == ways && Follows(ways, row, ptr, tags)
    ensures RefAlloc(LineValid(row), ptr) == |Missed(ways, tags)| % ways
  {
    hide Missed, AfterAccesses, Window;
    FifoResidency(ways, tags);
    var k := |Missed(ways, tags)|;
    var valid := LineValid(row);
    forall i | 0 <= i < ways ensures valid[i] <==> i < k {
      assert valid[i] <==> Tags(row)[i].Holds?;
    }
    FirstInvalidPrefix(valid, k);
    if k < ways {
      ModSmall(k, ways);
    }
  }

  lemma HitFollows(ways: nat, row: seq<Line>, ptr: nat, tags: seq<nat>, tag: nat, row': seq<Line>)
    requires ways > 0 && |row| == ways && Follows(ways, row, ptr, tags)
    requires IsHit(row, tag) && Tags(row') == Tags(row)
    ensures Follows(ways, row', ptr, tags + [tag])
  {
    FirstHitResident(row, tag);
    assert (tags + [tag])[..|tags|] == tags;
  }

  lemma MissFollows(ways: nat, row: seq<Line>, ptr: nat, tags: seq<nat>, tag: nat, row': seq<Line>)
    requires ways > 0 && |row| == ways && Follows(ways, row, ptr, tags) && !IsHit(row, tag)
    requires var w := RefAlloc(LineValid(row), ptr); w < ways && Tags(row') == Tags(row)[w := Holds(tag)]
    ensures Follows(ways, row', CounterNext(ways, ptr), tags + [tag])
  {
    hide Window, TlmAlloc, FirstInvalid;
    FirstHitResident(row, tag);
    VictimFollows(ways, row, ptr, tags);
    FifoResidency(ways, tags);
    MissFillsSlot(AfterAccesses(ways, tags), Missed(ways, tags), tag);
    assert (tags + [tag])[..|tags|] == tags;
    PointersAgree(ways, ptr);
    ModNext(|Missed(ways, tags)|, ways);
  }

  lemma StepFollows(p: Params, w: World, reqs: seq<Req>, req: Req)
    requires Inv(p, w) && AllOnBus(p, reqs) && p.OnBus(req.addr) && AllFollow(p, w.ref, reqs)
    ensures AllOnBus(p, reqs + [req]) && AllFollow(p, Step(p, w, req).0.ref, reqs + [req])
  {
    hide Decode, Follows, Tags, RefAdvance, CounterNext, RefAlloc, Step, SetOk, IsHit, AccessedTags;
    var f := Decode(p, req.addr);
    var row, ptr := w.ref.sets[f.index], w.ref.ptr[f.index];
    var tags := AccessedTags(p, reqs, f.index);
    var after := Step(p, w, req).0.ref;
    if IsHit(row, f.tag) {
      HitRow(p, w, req);
      HitFollows(p.ways, row, ptr, tags, f.tag, after.sets[f.index]);
    } else {
      MissedRow(p, w, req);
      PointersAgree(p.ways, ptr);
      MissFollows(p.ways, row, ptr, tags, f.tag, after.sets[f.index]);
    }
    OneSetFollows(p, w.ref, reqs, req, after);
  }

  /** Only the accessed set's history grows. */
  lemma OneSetFollows(p: Params, r: Ref, reqs: seq<Req>, req: Req, after: Ref)
    requires p.Ok() && AllOnBus(p, reqs) && p.OnBus(req.addr) && AllFollow(p, r, reqs)
    requires |after.sets| == |after.ptr| == p.sets
    requires var f := Decode(p, req.addr);
      Follows(p.ways, after.sets[f.index], after.ptr[f.index], AccessedTags(p, reqs, f.index) + [f.tag])
    requires forall s :: 0 <= s < p.sets && s != Decode(p, req.addr).index ==>
      after.sets[s] == r.sets[s] && after.ptr[s] == r.ptr[s]
    ensures AllOnBus(p, reqs + [req]) && AllFollow(p, after, reqs + [req])
  {
    hide Decode, Follows;
    assert (reqs + [req])[..|reqs|] == reqs;
    forall s | 0 <= s < p.sets
      ensures Follows(p.ways, after.sets[s], after.ptr[s], AccessedTags(p, reqs + [req], s))
    {
      assert AccessedTags(p, reqs, s) + [] == AccessedTags(p, reqs, s);
    }
  }

  /** The set of a hit afterwards. */
  lemma HitRow(p: Params, w: World, req: Req)
    requires Inv(p, w) && p.OnBus(req.addr)
    requires var f := Decode(p, req.addr); IsHit(w.ref.sets[f.index], f.tag)
    ensures var f := Decode(p, req.addr); var row := w.ref.sets[f.index]; var after := Step(p, w, req).0.ref;
      && |after.sets| == |after.ptr| == p.sets && |row| == p.ways && w.ref.ptr[f.index] < p.ways
      && Tags(after.sets[f.index]) == Tags(row) && after.ptr == w.ref.ptr
      && forall s :: 0 <= s < p.sets && s != f.index ==> after.sets[s] == w.ref.sets[s]
  {
    hide Decode, LineAddr, BlockNo, BlockAt, BlockTag, BlockIndex, Tags;
    var f := Decode(p, req.addr);
    var row := w.ref.sets[f.index];
    BlockNoSplit(p, f.tag, f.index);
    if req.write {
      var h := FirstHit(row, f.tag);
      SameTags(row, h, Poke(row[h], f.word, req.wdata));
    }
  }

  lemma SameTags(row: seq<Line>, w: nat, line: Line)
    requires w < |row| && line.valid == row[w].valid && line.tag == row[w].tag
    ensures Tags(row[w := line]) == Tags(row)
  {}

  /** The set of a miss afterwards. */
  lemma MissedRow(p: Params, w: World, req: Req)
    requires Inv(p, w) && p.OnBus(req.addr)
    requires var f := Decode(p, req.addr); !IsHit(w.ref.sets[f.index], f.tag)
    ensures var f := Decode(p, req.addr); var row, ptr := w.ref.sets[f.index], w.ref.ptr[f.index];
      var v := RefAlloc(LineValid(row), ptr); var after := Step(p, w, req).0.ref;
      && v < p.ways && |after.sets| == |after.ptr| == p.sets && |row| == p.ways && ptr < p.ways
      && Tags(after.sets[f.index]) == Tags(row)[v := Holds(f.tag)]
      && after.ptr == w.ref.ptr[f.index := RefAdvance(p.ways, ptr)]
      && forall s :: 0 <= s < p.sets && s != f.index ==> after.sets[s] == w.ref.sets[s]
  {
    hide Decode, LineAddr, BlockNo, BlockAt, BlockTag, BlockIndex, RefAdvance;
    var f := Decode(p, req.addr);
    BlockNoSplit(p, f.tag, f.index);
    VictimInRange(p, w.ref, f.index);
  }

  lemma ResetFollows(p: Params)
    requires p.Ok()
    ensures AllFollow(p, ResetRef(p), [])
  {
    ModSmall(0, p.ways);
    forall s | 0 <= s < p.sets ensures Tags(ResetRef(p).sets[s]) == EmptySet(p.ways).ways {}
  }

  /** The reference model holds in every set what FIFO replacement holds. */
  lemma {:induction false} RefFollowsFifo(p: Params, blocks: Memory, reqs: seq<Req>)
    requires FlatShape(p, blocks) && AllOnBus(p, reqs)
    ensures Inv(p, World(ResetRef(p), blocks))
    ensures AllFollow(p, Run(p, World(ResetRef(p), blocks), reqs).world.ref, reqs)
    decreases |reqs|
  {
    hide Decode, LineAddr, BlockNo, BlockAt, BlockTag, BlockIndex, Step, AllFollow;
    ResetInv(p, blocks);
    if |reqs| == 0 {
      ResetFollows(p);
      assert reqs == [];
    } else {
      var n := |reqs| - 1;
      RefFollowsFifo(p, blocks, reqs[..n]);
      StepFollows(p, Run(p, World(ResetRef(p), blocks), reqs[..n]).world, reqs[..n], reqs[n]);
      assert reqs[..n] + [reqs[n]] == reqs;
    }
  }

  /** So does the clocked D-cache in every cycle, for the requests served so far: also during a
      miss, when only a dirty bit may differ. */
  lemma DCacheFollowsFifo(p: Params, blocks: Memory, envs: seq<Env>)
    requires FlatShape(p, blocks) && LegalRun(p, blocks, envs)
    ensures var log := Exec(p, blocks, envs);
      AllOnBus(p, ReqsOf(log.commits)) && AllFollow(p, Ref(log.sys.regs.sets, log.sys.regs.ptr), ReqsOf(log.commits))
  {
    hide Decode, LineAddr, BlockNo, BlockAt, BlockTag, BlockIndex, Exec, Follows;
    RunTracksRef(p, blocks, envs);
    var log := Exec(p, blocks, envs);
    RefFollowsFifo(p, blocks, ReqsOf(log.commits));
    var ref := RefLogOf(p, blocks, log.commits);
    forall s | 0 <= s < p.sets ensures Tags(log.sys.regs.sets[s]) == Tags(ref.world.ref.sets[s]) {
      TracksTags(p, log.sys, log.issued, ref, s);
    }
    forall s | 0 <= s < p.sets
      ensures Follows(p.ways, log.sys.regs.sets[s], log.sys.regs.ptr[s], AccessedTags(p, ReqsOf(log.commits), s))
    {
      FollowsSame(p.ways, ref.world.ref.sets[s], log.sys.regs.sets[s], log.sys.regs.ptr[s],
                  AccessedTags(p, ReqsOf(log.commits), s));
    }
  }

  lemma FollowsSame(ways: nat, row: seq<Line>, row': seq<Line>, ptr: nat, tags: seq<nat>)
    requires ways > 0 && Follows(ways, row, ptr, tags) && Tags(row') == Tags(row)
    ensures Follows(ways, row', ptr, tags)
  {}

  lemma TracksTags(p: Params, s: Sys, issued: seq<MemReq>, ref: RefLog, n: nat)
    requires Tracks(p, s, issued, ref) && n < p.sets
    ensures s.regs.ptr == ref.world.ref.ptr && |s.regs.sets| == p.sets
    ensures Tags(s.regs.sets[n]) == Tags(ref.world.ref.sets[n])
  {
    hide Decode, LineAddr, BlockNo, BlockAt, BlockTag, BlockIndex;
  }

  /** A set of any cache that follows FIFO on the same accesses, as the TLM cache's sets do,
      holds the same tags in the same ways as the D-cache, in every cycle; its queue lists the
      ways of the last misses and the D-cache's pointer is at the oldest of them. */
  lemma CachesAgree<T>(p: Params, blocks: Memory, envs: seq<Env>, s: nat, row: seq<CacheLine<T>>, queue: seq<nat>)
    requires FlatShape(p, blocks) && LegalRun(p, blocks, envs) && s < p.sets
    requires AllOnBus(p, ReqsOf(Exec(p, blocks, envs).commits))
    requires TagSet(Tags(row), queue)
          == AfterAccesses(p.ways, AccessedTags(p, ReqsOf(Exec(p, blocks, envs).commits), s))
    ensures var regs := Exec(p, blocks, envs).sys.regs;
      && |regs.sets| == |regs.ptr| == p.sets
      && Tags(row) == Tags(regs.sets[s])
      && (|queue| == p.ways ==> queue[0] == regs.ptr[s])
  {
    hide Decode, Exec, AccessedTags;
    DCacheFollowsFifo(p, blocks, envs);
    var tags := AccessedTags(p, ReqsOf(Exec(p, blocks, envs).commits), s);
    assert Follows(p.ways, Exec(p, blocks, envs).sys.regs.sets[s], Exec(p, blocks, envs).sys.regs.ptr[s], tags);
    FifoResidency(p.ways, tags);
    WindowNext(p.ways, |Missed(p.ways, tags)|);
  }
}
