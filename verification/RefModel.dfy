/** The reference model as the class it is in the test environment: its arrays, pointers and
    counters are changed in place. Each task is held against RefSpec. */
module RefModel {
  import opened CacheLines
  import opened DCacheTypes
  import opened Replacement
  import opened RefSpec
  import opened RefRefinesFlat

  /** The value of a table indexed [set, way]. */
  ghost function Rows(cache: array2<Line>): (sets: seq<seq<Line>>)
    reads cache
    ensures |sets| == cache.Length0
    ensures forall s :: 0 <= s < |sets| ==> |sets[s]| == cache.Length1
    ensures forall s, w :: 0 <= s < cache.Length0 && 0 <= w < cache.Length1 ==> sets[s][w] == cache[s, w]
  {
    seq(cache.Length0, s requires 0 <= s < cache.Length0 reads cache =>
      seq(cache.Length1, w requires 0 <= w < cache.Length1 reads cache => cache[s, w]))
  }

  /** Two of the first n ways hold the tag. */
  ghost predicate Duplicated(row: seq<Line>, tag: nat, n: nat)
    requires n <= |row|
  {
    exists i, j :: 0 <= i < j < n && Matches(row[i], tag) && Matches(row[j], tag)
  }

  class DCacheModel {
    const p: Params
    const cache: array2<Line>
    const fifoPtr: array<nat>
    var hitCount: nat
    var missCount: nat
    var writebackCount: nat

    ghost predicate Valid()
      reads this, cache, fifoPtr
    {
      && cache.Length0 == fifoPtr.Length == p.sets && cache.Length1 == p.ways
      && Shape(p, State())
    }

    ghost function State(): Ref
      reads cache, fifoPtr
    {
      Ref(Rows(cache), fifoPtr[..])
    }

    constructor (p: Params)
      requires p.Ok()
      ensures Valid() && State() == ResetRef(p) && this.p == p
      ensures fresh(cache) && fresh(fifoPtr)
      ensures hitCount == missCount == writebackCount == 0
    {
      this.p := p;
      var line := Line(false, false, 0, seq(p.words, _ => 0));
      cache := new Line[p.sets, p.ways]((s, w) => line);
      fifoPtr := new nat[p.sets](_ => 0);
      hitCount, missCount, writebackCount := 0, 0, 0;
      new;
      assert forall s :: 0 <= s < p.sets ==> Rows(cache)[s] == ResetRef(p).sets[s];
    }

    /** Everything back to the state after reset. */
    method ResetCache()
      requires Valid()
      modifies cache, fifoPtr
      ensures Valid() && State() == ResetRef(p)
      ensures forall s :: 0 <= s < p.sets ==> fifoPtr[s] == 0
      ensures forall s, w :: 0 <= s < p.sets && 0 <= w < p.ways ==>
        var line := cache[s, w];
        !line.valid && !line.dirty && line.tag == 0 && forall k :: 0 <= k < p.words ==> line.data[k] == 0
    {
      var line := Line(false, false, 0, seq(p.words, _ => 0));
      for s := 0 to p.sets
        invariant forall i, j :: 0 <= i < s && 0 <= j < p.ways ==> cache[i, j] == line
        invariant forall i :: 0 <= i < s ==> fifoPtr[i] == 0
      {
        for w := 0 to p.ways
          invariant forall i, j :: 0 <= i < s && 0 <= j < p.ways ==> cache[i, j] == line
          invariant forall i :: 0 <= i < s ==> fifoPtr[i] == 0
          invariant forall j :: 0 <= j < w ==> cache[s, j] == line
          invariant w > 0 ==> fifoPtr[s] == 0
        {
          cache[s, w] := line;
          fifoPtr[s] := 0;
        }
      }
      assert forall s :: 0 <= s < p.sets ==> Rows(cache)[s] == ResetRef(p).sets[s];
    }

    /** Looks a tag up in all ways: the first way that holds it and whether there is one.
        The model stops with a fatal error when a second way holds it. */
    method CheckHit(tag: nat, index: nat) returns (wayHit: nat, hitSign: bool, fatal: bool)
      requires Valid() && index < p.sets
      ensures hitSign == IsHit(State().sets[index], tag)
      ensures hitSign ==> wayHit == FirstHit(State().sets[index], tag)
      ensures hitSign <==> exists j :: 0 <= j < p.ways && cache[index, j].valid && cache[index, j].tag == tag
      ensures if hitSign then wayHit < p.ways && cache[index, wayHit].valid && cache[index, wayHit].tag == tag
              else wayHit == 0
      ensures fatal <==> Duplicated(State().sets[index], tag, p.ways)
    {
      ghost var row := State().sets[index];
      wayHit, hitSign, fatal := 0, false, false;
      for i := 0 to p.ways
        invariant if hitSign then wayHit < i && Matches(row[wayHit], tag) else wayHit == 0
        invariant forall j :: 0 <= j < (if hitSign then wayHit else i) ==> !Matches(row[j], tag)
        invariant fatal <==> Duplicated(row, tag, i)
      {
        if Matches(cache[index, i], tag) {
          if hitSign {
            fatal := true;
            assert Matches(row[wayHit], tag) && Matches(row[i], tag);
          } else {
            wayHit, hitSign := i, true;
          }
        }
      }
      FirstHitAt(row, if hitSign then wayHit else p.ways, tag);
      assert forall j :: 0 <= j < p.ways ==> row[j] == cache[index, j];
    }

    /** The way a miss will fill: the first invalid one, else the one under the pointer. */
    method SelectAllocWay(index: nat) returns (way: nat)
      requires Valid() && index < p.sets
      ensures way == VictimWay(State(), index) < p.ways
      ensures forall j :: 0 <= j < p.ways && !cache[index, j].valid ==> !cache[index, way].valid && way <= j
      ensures cache[index, way].valid ==> way == fifoPtr[index]
    {
      ghost var row := State().sets[index];
      VictimInRange(p, State(), index);
      for i := 0 to p.ways
        invariant forall j :: 0 <= j < i ==> row[j].valid
      {
        if !cache[index, i].valid {
          FirstInvalidAt(LineValid(row), i);
          return i;
        }
      }
      FirstInvalidAt(LineValid(row), p.ways);
      way := fifoPtr[index];
    }

    method UpdateFifoPtr(index: nat)
      requires Valid() && index < p.sets
      modifies fifoPtr
      ensures Valid()
      ensures State() == old(State()).(ptr := old(State()).ptr[index := RefAdvance(p.ways, old(State()).ptr[index])])
      ensures fifoPtr[index] == if old(fifoPtr[index]) + 1 == p.ways then 0 else old(fifoPtr[index]) + 1
    {
      PointersAgree(p.ways, fifoPtr[index]);
      fifoPtr[index] := RefAdvance(p.ways, fifoPtr[index]);
      assert Rows(cache) == old(Rows(cache));
    }

    /** Replaces one line of the table. */
    method PutLine(index: nat, way: nat, line: Line)
      requires Valid() && index < p.sets && way < p.ways && LineShape(p, line)
      modifies cache
      ensures Valid()
      ensures State() == old(State()).(sets := SetLine(old(State()).sets, index, way, line))
    {
      cache[index, way] := line;
      assert Rows(cache)[index] == old(Rows(cache))[index][way := line];
      assert forall s :: 0 <= s < p.sets && s != index ==> Rows(cache)[s] == old(Rows(cache))[s];
      assert Rows(cache) == SetLine(old(Rows(cache)), index, way, line);
      assert fifoPtr[..] == old(fifoPtr[..]);
    }

    /** The fetched block, copied word by word into the line. */
    method FetchLine(index: nat, way: nat, tag: nat, block: Block)
      requires Valid() && index < p.sets && way < p.ways && tag < p.tags && |block| == p.words
      modifies cache
      ensures Valid()
      ensures State() == old(State()).(sets := SetLine(old(State()).sets, index, way, Line(true, false, tag, block)))
    {
      var words := cache[index, way].data;
      for i := 0 to p.words
        invariant |words| == p.words
        invariant forall k :: 0 <= k < i ==> words[k] == block[k]
      {
        words := words[i := block[i]];
      }
      assert words == block;
      PutLine(index, way, Line(true, false, tag, words));
    }

    method WriteWordToCache(index: nat, way: nat, k: nat, data: Word)
      requires Valid() && index < p.sets && way < p.ways && k < p.words
      modifies cache
      ensures Valid()
      ensures State() == old(State()).(sets := SetLine(old(State()).sets, index, way,
                                       Poke(old(State()).sets[index][way], k, data)))
    {
      var line := cache[index, way];
      PutLine(index, way, Poke(line, k, data));
    }

    /** One CPU request. `block` is the memory's answer to the fetch, if there is one; the
        requests are those posted to the memory port. Hits and misses are counted, and each
        write-back. */
    method ProcessCpuRequest(req: Req, block: Block) returns (requests: seq<MemReq>, rdata: Word)
      requires Valid() && p.OnBus(req.addr) && |block| == p.words
      modifies this, cache, fifoPtr
      ensures Valid()
      ensures Served(State(), requests, rdata) == Serve(p, old(State()), req, block)
      ensures Outcome(p, old(State()), State(), req, block, requests, rdata)
      ensures hitCount + missCount == old(hitCount) + old(missCount) + 1
      ensures missCount == old(missCount) + if requests == [] then 0 else 1
      ensures writebackCount == old(writebackCount) + if |requests| == 2 then 1 else 0
    {
      hide Decode, LineAddr, BlockNo, RefAdvance, Outcome;
      ServeOutcome(p, State(), req, block);
      var Fields(tag, index, k) := Decode(p, req.addr);
      var way, hit, _ := CheckHit(tag, index);
      requests, rdata := [], 0;
      if hit {
        hitCount := hitCount + 1;
        if req.write {
          WriteWordToCache(index, way, k, req.wdata);
        } else {
          rdata := cache[index, way].data[k];
        }
      } else {
        missCount := missCount + 1;
        requests, rdata := ProcessMiss(tag, index, k, req, block);
      }
    }

    /** The miss branch: write-back, fetch, fill, the request itself, the pointer. */
    method ProcessMiss(tag: nat, index: nat, k: nat, req: Req, block: Block)
      returns (requests: seq<MemReq>, rdata: Word)
      requires Valid() && index < p.sets && tag < p.tags && k < p.words && |block| == p.words
      modifies this`writebackCount, cache, fifoPtr
      ensures Valid() && VictimWay(old(State()), index) < p.ways
      ensures State() == MissState(p, old(State()), tag, index, Refilled(tag, block, req, k))
      ensures requests == MissRequests(p, old(State()).sets[index][VictimWay(old(State()), index)], tag, index)
      ensures rdata == if req.write then 0 else block[k]
      ensures writebackCount == old(writebackCount) + |requests| - 1
    {
      hide LineAddr, BlockNo, RefAdvance, RefAlloc, Rows;
      var way := SelectAllocWay(index);
      var victim := cache[index, way];
      requests, rdata := [], 0;
      if victim.valid && victim.dirty {
        requests := [WriteBack(LineAddr(p, victim.tag, index), victim.data)];
        writebackCount := writebackCount + 1;
        PutLine(index, way, victim.(dirty := false));
        SetLineTwice(old(State()).sets, index, way, victim.(dirty := false), Line(true, false, tag, block));
      }
      requests := requests + [Fetch(LineAddr(p, tag, index))];
      FetchLine(index, way, tag, block);
      if req.write {
        SetLineTwice(old(State()).sets, index, way, Line(true, false, tag, block), Refilled(tag, block, req, k));
        WriteWordToCache(index, way, k, req.wdata);
      } else {
        rdata := cache[index, way].data[k];
      }
      UpdateFifoPtr(index);
    }
  }

  ghost function MissState(p: Params, r: Ref, tag: nat, s: nat, line: Line): Ref
    requires Shape(p, r) && s < p.sets && VictimWay(r, s) < p.ways
  {
    Ref(SetLine(r.sets, s, VictimWay(r, s), line), r.ptr[s := RefAdvance(p.ways, r.ptr[s])])
  }
}
