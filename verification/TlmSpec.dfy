/** The TLM cache on values: what its lines and queues must keep, the bytes a CPU sees through
    them, and why fills, evictions and writes act on those bytes as on a flat memory. */
module TlmSpec {
  import opened Bits
  import opened CacheLines
  import opened Geometry
  import opened FlatBytes
  import opened Replacement

  type Line = CacheLine<Byte>

  lemma HitIsResident(row: seq<Line>, queue: seq<nat>, tag: nat)
    ensures FirstHit(row, tag) < |row| <==> Resident(TagSet(Tags(row), queue), tag)
  {
    FirstHitResident(row, tag);
  }

  // ---- Invariant ---------------------------------------------------------------------

  /** Tags whose line addresses fit 32 bits, which is what the miss handlers can fetch. */
  function TagLimit(g: CacheParams): nat
    requires g.Ok()
  {
    Pow2(32 - (g.setBits + g.lineBits))
  }

  ghost predicate LineOk(g: CacheParams, line: Line, s: nat, m: Flat)
    requires g.Ok() && Total(m)
  {
    && |line.data| == g.LineSize()
    && (line.dirty ==> line.valid)
    && (line.valid ==> line.tag < TagLimit(g))
    && (line.valid && !line.dirty ==> line.data == ReadBytes(m, LineBase(g, line.tag, s), g.LineSize()))
  }

  /** A set's lines: one way per tag, clean lines equal to memory; and its queue: only ways
      of the set, every valid way among them. */
  ghost predicate SetOk(g: CacheParams, row: seq<Line>, queue: seq<nat>, s: nat, m: Flat)
    requires g.Ok() && Total(m)
  {
    && |row| == g.ways
    && (forall i :: 0 <= i < |row| ==> LineOk(g, row[i], s, m))
    && UniqueTags(row)
    && (forall j :: 0 <= j < |queue| ==> queue[j] < g.ways)
    && (forall i :: 0 <= i < |row| && row[i].valid ==> i in queue)
  }

  ghost predicate CacheOk(g: CacheParams, sets: seq<seq<Line>>, queues: seq<seq<nat>>, m: Flat)
    requires g.Ok() && Total(m)
  {
    && |sets| == |queues| == g.NumSets()
    && forall s :: 0 <= s < g.NumSets() ==> SetOk(g, sets[s], queues[s], s, m)
  }

  // ---- View --------------------------------------------------------------------------

  ghost function CacheByte(g: CacheParams, sets: seq<seq<Line>>, m: Flat, a: nat): Byte
    requires g.Ok() && Total(m) && |sets| == g.NumSets()
  {
    var row := sets[g.Index(a)];
    var h := FirstHit(row, g.Tag(a));
    if h < |row| && g.Offset(a) < |row[h].data| then row[h].data[g.Offset(a)] else m[a]
  }

  /** The bytes a CPU sees: the cached copy where there is one, else memory. */
  ghost function CacheView(g: CacheParams, sets: seq<seq<Line>>, m: Flat): (v: Flat)
    requires g.Ok() && Total(m) && |sets| == g.NumSets()
    ensures Total(v)
  {
    imap a: nat | true :: CacheByte(g, sets, m, a)
  }

  /** Without dirty lines the memory alone is what the CPU sees. */
  lemma CleanCacheIsMemory(g: CacheParams, sets: seq<seq<Line>>, queues: seq<seq<nat>>, m: Flat)
    requires g.Ok() && Total(m) && CacheOk(g, sets, queues, m)
    requires forall s, w :: 0 <= s < g.NumSets() && 0 <= w < g.ways ==> !sets[s][w].dirty
    ensures CacheView(g, sets, m) == m
  {
    hide CacheParams.LineSize, CacheParams.NumSets, CacheParams.Tag, CacheParams.Index,
         CacheParams.Offset, LineBase;
    forall a: nat ensures CacheByte(g, sets, m, a) == m[a] {
      SplitJoin(g, a);
      var row := sets[g.Index(a)];
      var h := FirstHit(row, g.Tag(a));
      if h < |row| {
        assert LineOk(g, row[h], g.Index(a), m);
        ReadAt(m, LineBase(g, g.Tag(a), g.Index(a)), g.LineSize(), g.Offset(a));
      }
    }
  }

  lemma ReadAt(m: Flat, addr: nat, len: nat, i: nat)
    requires Total(m) && i < len
    ensures ReadBytes(m, addr, len)[i] == m[addr + i]
  {}

  lemma MissedTag(row: seq<Line>, w: nat, tag: nat)
    requires FirstHit(row, tag) == |row| && w < |row| && row[w].valid
    ensures row[w].tag != tag
  {
    assert !Matches(row[w], tag);
  }

  // ---- Writing a victim back ---------------------------------------------------------

  ghost function WrittenBack(g: CacheParams, m: Flat, line: Line, s: nat): (r: Flat)
    requires Total(m)
    ensures Total(r)
  {
    WriteBytes(m, LineBase(g, line.tag, s), line.data)
  }

  /** A line of another tag or set keeps its copy in memory. */
  lemma OtherLineUntouched(g: CacheParams, m: Flat, line: Line, s: nat, tag: nat, s': nat)
    requires g.Ok() && Total(m) && s < g.NumSets() && s' < g.NumSets()
    requires |line.data| == g.LineSize() && (line.tag, s) != (tag, s')
    ensures ReadBytes(WrittenBack(g, m, line, s), LineBase(g, tag, s'), g.LineSize())
         == ReadBytes(m, LineBase(g, tag, s'), g.LineSize())
  {
    hide CacheParams.LineSize, CacheParams.NumSets, LineBase;
    var base, base' := LineBase(g, line.tag, s), LineBase(g, tag, s');
    var m' := WrittenBack(g, m, line, s);
    forall j | 0 <= j < g.LineSize()
      ensures ReadBytes(m', base', g.LineSize())[j] == ReadBytes(m, base', g.LineSize())[j]
    {
      if base <= base' + j < base + g.LineSize() {
        LinesDisjoint(g, line.tag, s, tag, s', base' + j - base, j);
      }
    }
  }

  lemma OwnLineWritten(g: CacheParams, m: Flat, line: Line, s: nat)
    requires Total(m) && |line.data| == g.LineSize()
    ensures ReadBytes(WrittenBack(g, m, line, s), LineBase(g, line.tag, s), g.LineSize()) == line.data
  {
    hide CacheParams.LineSize, CacheParams.NumSets, LineBase;
  }

  lemma WriteBackKeepsSet(g: CacheParams, row: seq<Line>, queue: seq<nat>, n: nat, m: Flat,
                          line: Line, s: nat)
    requires g.Ok() && Total(m) && n < g.NumSets() && s < g.NumSets()
    requires SetOk(g, row, queue, n, m) && |line.data| == g.LineSize()
    requires forall i :: 0 <= i < |row| && row[i].valid && !row[i].dirty ==> (line.tag, s) != (row[i].tag, n)
    ensures SetOk(g, row, queue, n, WrittenBack(g, m, line, s))
  {
    hide CacheParams.LineSize, CacheParams.NumSets, LineBase, ReadBytes, WriteBytes, WrittenBack, Pow2;
    forall i | 0 <= i < |row| ensures LineOk(g, row[i], n, WrittenBack(g, m, line, s)) {
      if row[i].valid && !row[i].dirty {
        OtherLineUntouched(g, m, line, s, row[i].tag, n);
      }
    }
  }

  /** Writing a dirty line back keeps everything in order and changes no byte for the CPU. */
  lemma WriteBackKeeps(g: CacheParams, sets: seq<seq<Line>>, queues: seq<seq<nat>>, m: Flat, s: nat, w: nat)
    requires g.Ok() && Total(m) && CacheOk(g, sets, queues, m)
    requires s < g.NumSets() && w < g.ways && sets[s][w].dirty
    ensures var line := sets[s][w]; var m' := WrittenBack(g, m, line, s);
      var sets' := SetLine(sets, s, w, line.(dirty := false));
      && CacheOk(g, sets', queues, m')
      && CacheView(g, sets', m') == CacheView(g, sets, m)
  {
    hide CacheParams.LineSize, CacheParams.NumSets, LineBase, ReadBytes, WriteBytes, WrittenBack, Pow2, CacheView;
    var line := sets[s][w];
    var m' := WrittenBack(g, m, line, s);
    var sets' := SetLine(sets, s, w, line.(dirty := false));
    assert SetOk(g, sets[s], queues[s], s, m) && LineOk(g, line, s, m);
    forall n | 0 <= n < g.NumSets() ensures SetOk(g, sets'[n], queues[n], n, m') {
      assert SetOk(g, sets[n], queues[n], n, m);
      if n != s {
        WriteBackKeepsSet(g, sets[n], queues[n], n, m, line, s);
      } else {
        forall i | 0 <= i < g.ways ensures LineOk(g, sets'[s][i], s, m') {
          assert LineOk(g, sets[s][i], s, m);
          if i == w {
            OwnLineWritten(g, m, line, s);
          } else if sets[s][i].valid && !sets[s][i].dirty {
            OtherLineUntouched(g, m, line, s, sets[s][i].tag, s);
          }
        }
      }
    }
    WriteBackView(g, sets, queues, m, s, w);
  }

  lemma WriteBackView(g: CacheParams, sets: seq<seq<Line>>, queues: seq<seq<nat>>, m: Flat, s: nat, w: nat)
    requires g.Ok() && Total(m) && CacheOk(g, sets, queues, m)
    requires s < g.NumSets() && w < g.ways && sets[s][w].dirty
    ensures var line := sets[s][w];
      CacheView(g, SetLine(sets, s, w, line.(dirty := false)), WrittenBack(g, m, line, s))
      == CacheView(g, sets, m)
  {
    hide CacheParams.LineSize, CacheParams.NumSets, LineBase, Pow2, CacheParams.Tag,
         CacheParams.Index, CacheParams.Offset, ReadBytes;
    var line := sets[s][w];
    var m' := WrittenBack(g, m, line, s);
    var sets' := SetLine(sets, s, w, line.(dirty := false));
    assert SetOk(g, sets[s], queues[s], s, m) && LineOk(g, line, s, m);
    forall a: nat ensures CacheByte(g, sets', m', a) == CacheByte(g, sets, m, a) {
      var n, tag := g.Index(a), g.Tag(a);
      assert SetOk(g, sets[n], queues[n], n, m);
      FirstHitSame(sets[n], sets'[n], tag);
      var h := FirstHit(sets[n], tag);
      if h == |sets[n]| {
        var base := LineBase(g, line.tag, s);
        if n == s {
          MissedTag(sets[s], w, tag);
        }
        if base <= a < base + g.LineSize() {
          LineFields(g, line.tag, s, a - base);
        }
      } else {
        assert LineOk(g, sets[n][h], n, m);
      }
    }
  }

  // ---- Writing everything back -------------------------------------------------------

  ghost predicate Shaped(g: CacheParams, sets: seq<seq<Line>>)
    requires g.Ok()
  {
    |sets| == g.NumSets() && forall s :: 0 <= s < |sets| ==> |sets[s]| == g.ways
  }

  ghost predicate InCache(g: CacheParams, places: seq<(nat, nat)>)
    requires g.Ok()
  {
    forall n :: 0 <= n < |places| ==> places[n].0 < g.NumSets() && places[n].1 < g.ways
  }

  /** The lines and the memory once the dirty lines among these (set, way) places have been
      written back one after the other. */
  ghost function AfterWriteBacks(g: CacheParams, sets: seq<seq<Line>>, m: Flat, places: seq<(nat, nat)>)
    : (r: (seq<seq<Line>>, Flat))
    requires g.Ok() && Total(m) && Shaped(g, sets) && InCache(g, places)
    ensures Shaped(g, r.0) && Total(r.1)
    decreases |places|
  {
    hide CacheParams.NumSets;
    if |places| == 0 then (sets, m)
    else
      var (before, memory) := AfterWriteBacks(g, sets, m, places[..|places| - 1]);
      var (s, w) := places[|places| - 1];
      var line := before[s][w];
      if line.dirty then (SetLine(before, s, w, line.(dirty := false)), WrittenBack(g, memory, line, s))
      else (before, memory)
  }

  /** Written-back lines are clean, no other line becomes dirty, and the CPU sees no change. */
  lemma {:induction false} WriteBacksKeep(g: CacheParams, sets: seq<seq<Line>>, queues: seq<seq<nat>>, m: Flat,
                                          places: seq<(nat, nat)>)
    requires g.Ok() && Total(m) && CacheOk(g, sets, queues, m) && Shaped(g, sets) && InCache(g, places)
    ensures var (sets', m') := AfterWriteBacks(g, sets, m, places);
      && CacheOk(g, sets', queues, m') && CacheView(g, sets', m') == CacheView(g, sets, m)
      && forall s, w :: 0 <= s < g.NumSets() && 0 <= w < g.ways && sets'[s][w].dirty ==>
           (s, w) !in places && sets[s][w].dirty
    decreases |places|
  {
    hide CacheParams.NumSets, CacheParams.LineSize, CacheView, CacheOk, WrittenBack;
    if |places| > 0 {
      var last := |places| - 1;
      WriteBacksKeep(g, sets, queues, m, places[..last]);
      var (before, memory) := AfterWriteBacks(g, sets, m, places[..last]);
      var (s, w) := places[last];
      if before[s][w].dirty {
        WriteBackKeeps(g, before, queues, memory, s, w);
      }
      assert places == places[..last] + [(s, w)];
    }
  }

  /** Writing back every way of every set, in any order, leaves in memory alone exactly the
      bytes the CPU saw before. */
  lemma FlushLeavesView(g: CacheParams, sets: seq<seq<Line>>, queues: seq<seq<nat>>, m: Flat,
                        places: seq<(nat, nat)>)
    requires g.Ok() && Total(m) && CacheOk(g, sets, queues, m) && Shaped(g, sets) && InCache(g, places)
    requires forall s: nat, w: nat :: s < g.NumSets() && w < g.ways ==> (s, w) in places
    ensures AfterWriteBacks(g, sets, m, places).1 == CacheView(g, sets, m)
  {
    hide CacheParams.NumSets, CacheParams.LineSize, CacheView, CacheOk, WrittenBack, AfterWriteBacks;
    WriteBacksKeep(g, sets, queues, m, places);
    var (sets', m') := AfterWriteBacks(g, sets, m, places);
    CleanCacheIsMemory(g, sets', queues, m');
  }

  // ---- What one request does ---------------------------------------------------------

  /** Lines, queues, memory, and the number of lines written back so far. */
  datatype CacheState = CacheState(sets: seq<seq<Line>>, queues: seq<seq<nat>>, memory: Flat, writeBacks: nat)

  /** Some of a line's bytes overwritten. */
  function Patched(old': seq<Byte>, off: nat, data: seq<Byte>): (r: seq<Byte>)
    requires off + |data| <= |old'|
    ensures |r| == |old'|
    ensures forall i :: 0 <= i < |r| ==> r[i] == if off <= i < off + |data| then data[i - off] else old'[i]
  {
    old'[..off] + data + old'[off + |data|..]
  }

  /** A hit leaves queues and memory alone and writes nothing back; a write changes its bytes
      in the first line that holds the tag and makes that line dirty, and nothing else. */
  ghost predicate HitEffect(g: CacheParams, b: CacheState, a: CacheState, cmd: Command, addr: nat, data: seq<Byte>)
    requires g.Ok() && |b.sets| == g.NumSets()
  {
    var s, off := g.Index(addr), g.Offset(addr);
    && a.queues == b.queues && a.memory == b.memory && a.writeBacks == b.writeBacks
    && exists w :: 0 <= w < |b.sets[s]| && FirstHolder(b.sets[s], g.Tag(addr), w) &&
         var line := b.sets[s][w];
         if cmd.Write? then
           && off + |data| <= |line.data|
           && a.sets == b.sets[s := b.sets[s][w := Line(true, true, line.tag, Patched(line.data, off, data))]]
         else a.sets == b.sets
  }

  ghost predicate FirstHolder(row: seq<Line>, tag: nat, w: nat) {
    && w < |row| && row[w].valid && row[w].tag == tag
    && forall j :: 0 <= j < w ==> !(row[j].valid && row[j].tag == tag)
  }

  /** A miss picks the first empty way and queues it, or takes the head of the queue and queues
      it again. That way's line is written to its place in memory if dirty, and only then; no
      other byte of memory and no other line changes. If the request is served the way holds
      the fetched block, with a write's bytes in it and dirty exactly after a write; else it
      keeps its line, now clean. */
  ghost predicate MissEffect(g: CacheParams, b: CacheState, a: CacheState, cmd: Command, addr: nat,
                             data: seq<Byte>, ok: bool)
    requires g.Ok() && |b.sets| == |b.queues| == g.NumSets()
  {
    var s, off := g.Index(addr), g.Offset(addr);
    var row, queue := b.sets[s], b.queues[s];
    && (forall j :: 0 <= j < |row| ==> !(row[j].valid && row[j].tag == g.Tag(addr)))
    && exists w :: 0 <= w < |row| && Allocates(row, queue, w)
         && Total(b.memory) && Total(a.memory)
         && a.queues == b.queues[s := (if row[w].valid then queue[1..] else queue) + [w]]
         && a.memory == (if row[w].dirty then WriteBytes(b.memory, LineBase(g, row[w].tag, s), row[w].data)
                         else b.memory)
         && a.writeBacks == b.writeBacks + Bit(row[w].dirty)
         && a.sets == b.sets[s := row[w := if ok then NewLine(g, a.memory, cmd, addr, data)
                                           else row[w].(dirty := false)]]
  }

  ghost predicate Allocates(row: seq<Line>, queue: seq<nat>, w: nat) {
    && w < |row|
    && if row[w].valid then (forall j :: 0 <= j < |row| ==> row[j].valid) && |queue| > 0 && w == queue[0]
       else forall j :: 0 <= j < w ==> row[j].valid
  }

  ghost function NewLine(g: CacheParams, m: Flat, cmd: Command, addr: nat, data: seq<Byte>): Line
    requires g.Ok() && Total(m)
  {
    var block := ReadBytes(m, g.FetchAddr(HandlerTag(g, addr), g.Index(addr)), g.LineSize());
    Line(true, cmd.Write?, HandlerTag(g, addr),
         if cmd.Write? && g.Offset(addr) + |data| <= |block| then Patched(block, g.Offset(addr), data) else block)
  }

  /** One request: refused if longer than a line, else a hit or a miss. */
  ghost predicate Effect(g: CacheParams, b: CacheState, a: CacheState, cmd: Command, addr: nat,
                         data: seq<Byte>, ok: bool)
    requires g.Ok() && |b.sets| == |b.queues| == g.NumSets()
  {
    var row := b.sets[g.Index(addr)];
    if |data| > g.LineSize() then a == b
    else if exists w :: 0 <= w < |row| && row[w].valid && row[w].tag == g.Tag(addr)
    then HitEffect(g, b, a, cmd, addr, data)
    else MissEffect(g, b, a, cmd, addr, data, ok)
  }

  /** Memory is written only when a write-back is counted. */
  lemma MemoryNeedsWriteBack(g: CacheParams, b: CacheState, a: CacheState, cmd: Command, addr: nat,
                             data: seq<Byte>, ok: bool)
    requires g.Ok() && |b.sets| == |b.queues| == g.NumSets() && Effect(g, b, a, cmd, addr, data, ok)
    ensures b.writeBacks <= a.writeBacks <= b.writeBacks + 1
    ensures a.writeBacks == b.writeBacks ==> a.memory == b.memory
  {
    hide WriteBytes, NewLine, CacheParams.NumSets, CacheParams.Index, CacheParams.Tag, CacheParams.LineSize,
         CacheParams.Offset, LineBase;
  }

  /** A served write leaves a dirty line in its set, and the dirty bits of other sets alone. */
  lemma ServedWriteIsDirty(g: CacheParams, b: CacheState, a: CacheState, addr: nat, data: seq<Byte>)
    requires g.Ok() && |b.sets| == |b.queues| == g.NumSets() && |data| <= g.LineSize()
    requires g.Tag(addr) < Pow2(32) && Effect(g, b, a, Write, addr, data, true)
    ensures |a.sets| == |b.sets|
    ensures var row := a.sets[g.Index(addr)];
      exists w :: 0 <= w < |row| && row[w].valid && row[w].dirty && row[w].tag == g.Tag(addr)
    ensures forall n :: 0 <= n < |a.sets| && n != g.Index(addr) ==> a.sets[n] == b.sets[n]
  {
    hide WriteBytes, ReadBytes, CacheParams.NumSets, CacheParams.Index, CacheParams.Tag, CacheParams.LineSize,
         CacheParams.Offset, CacheParams.FetchAddr, LineBase, Pow2;
    DivModUnique(g.Tag(addr), Pow2(32), 0, g.Tag(addr));
    var s := g.Index(addr);
    var row := b.sets[s];
    if exists w :: 0 <= w < |row| && row[w].valid && row[w].tag == g.Tag(addr) {
      var w :| 0 <= w < |row| && FirstHolder(row, g.Tag(addr), w)
               && a.sets == b.sets[s := row[w := a.sets[s][w]]] && a.sets[s][w].dirty
               && a.sets[s][w].valid && a.sets[s][w].tag == row[w].tag;
    } else {
      var w :| 0 <= w < |row| && Allocates(row, b.queues[s], w)
               && a.sets == b.sets[s := row[w := NewLine(g, a.memory, Write, addr, data)]];
      assert a.sets[s][w] == NewLine(g, a.memory, Write, addr, data);
    }
  }

  // ---- Filling a way -----------------------------------------------------------------

  ghost function FetchedLine(g: CacheParams, m: Flat, tag: nat, s: nat): Line
    requires Total(m)
  {
    Line(true, false, tag, ReadBytes(m, LineBase(g, tag, s), g.LineSize()))
  }

  /** The line a miss handler leaves: tagged with the tag as an unsigned int, holding the block
      at the address computed from that. */
  ghost function HandlerLine(g: CacheParams, m: Flat, tag: nat, s: nat): Line
    requires Total(m)
  {
    Line(true, false, tag, ReadBytes(m, g.FetchAddr(tag, s), g.LineSize()))
  }

  /** The tag as the unsigned int the miss handlers take, and where they then find the byte at
      an address. */
  function HandlerTag(g: CacheParams, addr: nat): nat {
    g.Tag(addr) % Pow2(32)
  }

  function HandlerAddr(g: CacheParams, addr: nat): nat
    requires g.Ok()
  {
    g.FetchAddr(HandlerTag(g, addr), g.Index(addr)) + g.Offset(addr)
  }

  /** The byte is found in its own place exactly for addresses below 2^32. */
  lemma HandlerAddrIff(g: CacheParams, addr: nat)
    requires g.Ok() && addr < Pow2(64)
    ensures HandlerAddr(g, addr) == addr <==> addr < Pow2(32)
  {
    hide CacheParams.Tag, CacheParams.Index, CacheParams.Offset, CacheParams.VictimAddr, Pow2;
    assert g.Tag(addr) % Pow2(32) % Pow2(32) == g.Tag(addr) % Pow2(32) by { ModMod(g.Tag(addr), 32, 32); }
    FetchesOwnLineIff(g, addr);
  }

  ghost predicate MissReadsRight(g: CacheParams, addr: nat, len: nat)
    requires g.Ok()
  {
    forall m: Flat :: Total(m) ==> ReadBytes(m, HandlerAddr(g, addr), len) == ReadBytes(m, addr, len)
  }

  /** A read that misses copies the bytes of its own address, whatever the memory holds,
      exactly for addresses below 2^32. */
  lemma MissReadsRightIff(g: CacheParams, addr: nat, len: nat)
    requires g.Ok() && addr < Pow2(64) && len > 0
    ensures MissReadsRight(g, addr, len) <==> addr < Pow2(32)
  {
    hide HandlerAddr, Pow2;
    HandlerAddrIff(g, addr);
    if HandlerAddr(g, addr) != addr {
      var m := WriteBytes(Zeroed(), addr, [1]);
      assert ReadBytes(m, HandlerAddr(g, addr), len)[0] == 0 && ReadBytes(m, addr, len)[0] == 1;
    }
  }

  /** Filling a clean way of the queue with a line that missed changes no byte for the CPU. */
  lemma FillKeeps(g: CacheParams, sets: seq<seq<Line>>, queues: seq<seq<nat>>, m: Flat, s: nat, w: nat, tag: nat)
    requires g.Ok() && Total(m) && CacheOk(g, sets, queues, m)
    requires s < g.NumSets() && w < g.ways && !sets[s][w].dirty && w in queues[s]
    requires FirstHit(sets[s], tag) == |sets[s]| && tag < TagLimit(g)
    ensures var sets' := SetLine(sets, s, w, FetchedLine(g, m, tag, s));
      && CacheOk(g, sets', queues, m)
      && CacheView(g, sets', m) == CacheView(g, sets, m)
  {
    hide CacheParams.LineSize, CacheParams.NumSets, LineBase, ReadBytes, Pow2, CacheView;
    var sets' := SetLine(sets, s, w, FetchedLine(g, m, tag, s));
    assert SetOk(g, sets[s], queues[s], s, m);
    forall n | 0 <= n < g.NumSets() ensures SetOk(g, sets'[n], queues[n], n, m) {
      assert SetOk(g, sets[n], queues[n], n, m);
    }
    FillView(g, sets, queues, m, s, w, tag);
  }

  lemma FillView(g: CacheParams, sets: seq<seq<Line>>, queues: seq<seq<nat>>, m: Flat, s: nat, w: nat, tag: nat)
    requires g.Ok() && Total(m) && CacheOk(g, sets, queues, m)
    requires s < g.NumSets() && w < g.ways && !sets[s][w].dirty
    requires FirstHit(sets[s], tag) == |sets[s]|
    ensures CacheView(g, SetLine(sets, s, w, FetchedLine(g, m, tag, s)), m) == CacheView(g, sets, m)
  {
    hide CacheParams.LineSize, CacheParams.NumSets, LineBase, Pow2, CacheParams.Tag,
         CacheParams.Index, CacheParams.Offset, ReadBytes;
    var line := FetchedLine(g, m, tag, s);
    var sets' := SetLine(sets, s, w, line);
    forall a: nat ensures CacheByte(g, sets', m, a) == CacheByte(g, sets, m, a) {
      var n, t := g.Index(a), g.Tag(a);
      assert SetOk(g, sets[n], queues[n], n, m);
      if n == s {
        FillByte(g, sets, queues, m, s, w, tag, a);
      }
    }
  }

  lemma FillByte(g: CacheParams, sets: seq<seq<Line>>, queues: seq<seq<nat>>, m: Flat, s: nat, w: nat,
                 tag: nat, a: nat)
    requires g.Ok() && Total(m) && CacheOk(g, sets, queues, m)
    requires s < g.NumSets() && w < g.ways && !sets[s][w].dirty && g.Index(a) == s
    requires FirstHit(sets[s], tag) == |sets[s]|
    ensures CacheByte(g, SetLine(sets, s, w, FetchedLine(g, m, tag, s)), m, a) == CacheByte(g, sets, m, a)
  {
    hide CacheParams.LineSize, CacheParams.NumSets, LineBase, Pow2, CacheParams.Tag,
         CacheParams.Index, CacheParams.Offset, ReadBytes;
    var row, t := sets[s], g.Tag(a);
    assert SetOk(g, row, queues[s], s, m) && LineOk(g, row[w], s, m);
    var row' := row[w := FetchedLine(g, m, tag, s)];
    SplitJoin(g, a);
    ReadAt(m, LineBase(g, t, s), g.LineSize(), g.Offset(a));
    if t == tag {
      assert Matches(row'[w], t);
      assert FirstHit(row', t) == w;
    } else if Matches(row[w], t) {
      FirstHitIs(row, w, t);
      assert FirstHit(row', t) == |row'|;
    } else {
      FirstHitSame(row, row', t);
    }
  }

  // ---- Serving a request from a resident line ----------------------------------------

  /** A line with some of its bytes overwritten. */
  function Overwritten(line: Line, off: nat, data: seq<Byte>): (r: Line)
    requires off + |data| <= |line.data|
    ensures |r.data| == |line.data|
  {
    line.(dirty := true, data := line.data[..off] + data + line.data[off + |data|..])
  }

  lemma OverwrittenAt(line: Line, off: nat, data: seq<Byte>, i: nat)
    requires off + |data| <= |line.data| && i < |line.data|
    ensures Overwritten(line, off, data).data[i]
         == if off <= i < off + |data| then data[i - off] else line.data[i]
  {}

  /** Bytes of a transfer that stays in its line: same tag and index, consecutive offsets. */
  lemma WithinLine(g: CacheParams, addr: nat, a: nat)
    requires g.Ok() && addr <= a && g.Offset(addr) + (a - addr) < g.LineSize()
    ensures g.Tag(a) == g.Tag(addr) && g.Index(a) == g.Index(addr)
    ensures g.Offset(a) == g.Offset(addr) + (a - addr)
  {
    hide CacheParams.LineSize, CacheParams.NumSets, LineBase, CacheParams.Tag, CacheParams.Index,
         CacheParams.Offset;
    SplitJoin(g, addr);
    LineFields(g, g.Tag(addr), g.Index(addr), g.Offset(addr) + (a - addr));
  }

  /** A byte of the line that is not part of the transfer has another offset. */
  lemma OutsideTransfer(g: CacheParams, addr: nat, len: nat, a: nat)
    requires g.Ok() && g.Tag(a) == g.Tag(addr) && g.Index(a) == g.Index(addr)
    requires g.Offset(addr) + len <= g.LineSize()
    ensures addr <= a < addr + len <==> g.Offset(addr) <= g.Offset(a) < g.Offset(addr) + len
    ensures a - addr == g.Offset(a) - g.Offset(addr)
  {
    hide CacheParams.LineSize, CacheParams.NumSets, LineBase, CacheParams.Tag, CacheParams.Index,
         CacheParams.Offset;
    SplitJoin(g, addr);
    SplitJoin(g, a);
  }

  /** Writing into the resident line is writing to the flat memory. */
  lemma HitWrites(g: CacheParams, sets: seq<seq<Line>>, queues: seq<seq<nat>>, m: Flat, addr: nat, data: seq<Byte>)
    requires g.Ok() && Total(m) && CacheOk(g, sets, queues, m)
    requires g.Offset(addr) + |data| <= g.LineSize()
    requires var row := sets[g.Index(addr)]; FirstHit(row, g.Tag(addr)) < |row|
    ensures var s := g.Index(addr); var h := FirstHit(sets[s], g.Tag(addr));
      && |sets[s][h].data| == g.LineSize()
      && var sets' := SetLine(sets, s, h, Overwritten(sets[s][h], g.Offset(addr), data));
      && CacheOk(g, sets', queues, m)
      && CacheView(g, sets', m) == WriteBytes(CacheView(g, sets, m), addr, data)
  {
    hide CacheParams.LineSize, CacheParams.NumSets, LineBase, ReadBytes, Pow2, CacheView, WriteBytes,
         CacheParams.Tag, CacheParams.Index, CacheParams.Offset;
    var s := g.Index(addr);
    var h := FirstHit(sets[s], g.Tag(addr));
    assert SetOk(g, sets[s], queues[s], s, m) && LineOk(g, sets[s][h], s, m);
    var sets' := SetLine(sets, s, h, Overwritten(sets[s][h], g.Offset(addr), data));
    forall n | 0 <= n < g.NumSets() ensures SetOk(g, sets'[n], queues[n], n, m) {
      assert SetOk(g, sets[n], queues[n], n, m);
    }
    HitWritesView(g, sets, queues, m, addr, data);
  }

  lemma HitWritesView(g: CacheParams, sets: seq<seq<Line>>, queues: seq<seq<nat>>, m: Flat, addr: nat, data: seq<Byte>)
    requires g.Ok() && Total(m) && CacheOk(g, sets, queues, m)
    requires g.Offset(addr) + |data| <= g.LineSize()
    requires var row := sets[g.Index(addr)]; FirstHit(row, g.Tag(addr)) < |row|
    requires var s := g.Index(addr); |sets[s][FirstHit(sets[s], g.Tag(addr))].data| == g.LineSize()
    ensures var s := g.Index(addr); var h := FirstHit(sets[s], g.Tag(addr));
      CacheView(g, SetLine(sets, s, h, Overwritten(sets[s][h], g.Offset(addr), data)), m)
      == WriteBytes(CacheView(g, sets, m), addr, data)
  {
    hide CacheParams.LineSize, CacheParams.NumSets, LineBase, ReadBytes, Pow2,
         CacheParams.Tag, CacheParams.Index, CacheParams.Offset, Overwritten;
    var s := g.Index(addr);
    var h := FirstHit(sets[s], g.Tag(addr));
    var line := sets[s][h];
    var sets' := SetLine(sets, s, h, Overwritten(line, g.Offset(addr), data));
    forall a: nat
      ensures CacheByte(g, sets', m, a)
           == if addr <= a < addr + |data| then data[a - addr] else CacheByte(g, sets, m, a)
    {
      if addr <= a < addr + |data| {
        WithinLine(g, addr, a);
      }
      PokeByte(g, sets, queues, m, addr, data, a);
    }
  }

  lemma PokeByte(g: CacheParams, sets: seq<seq<Line>>, queues: seq<seq<nat>>, m: Flat, addr: nat,
                 data: seq<Byte>, a: nat)
    requires g.Ok() && Total(m) && CacheOk(g, sets, queues, m)
    requires g.Offset(addr) + |data| <= g.LineSize()
    requires var row := sets[g.Index(addr)]; FirstHit(row, g.Tag(addr)) < |row|
    requires var s := g.Index(addr); |sets[s][FirstHit(sets[s], g.Tag(addr))].data| == g.LineSize()
    requires addr <= a < addr + |data| ==> g.Tag(a) == g.Tag(addr) && g.Index(a) == g.Index(addr)
    ensures var s := g.Index(addr); var h := FirstHit(sets[s], g.Tag(addr));
      CacheByte(g, SetLine(sets, s, h, Overwritten(sets[s][h], g.Offset(addr), data)), m, a)
      == if addr <= a < addr + |data| then data[a - addr] else CacheByte(g, sets, m, a)
  {
    hide CacheParams.LineSize, CacheParams.NumSets, LineBase, ReadBytes, Pow2,
         CacheParams.Tag, CacheParams.Index, CacheParams.Offset, Overwritten;
    var s := g.Index(addr);
    var h := FirstHit(sets[s], g.Tag(addr));
    var line := sets[s][h];
    var line' := Overwritten(line, g.Offset(addr), data);
    if g.Index(a) == s {
      var row' := sets[s][h := line'];
      assert line'.valid == line.valid && line'.tag == line.tag by { OverwrittenFlags(line, g.Offset(addr), data); }
      FirstHitSame(sets[s], row', g.Tag(a));
      if g.Tag(a) == g.Tag(addr) {
        OutsideTransfer(g, addr, |data|, a);
        OverwrittenAt(line, g.Offset(addr), data, g.Offset(a));
      }
    }
  }

  lemma OverwrittenFlags(line: Line, off: nat, data: seq<Byte>)
    requires off + |data| <= |line.data|
    ensures var r := Overwritten(line, off, data); r.valid == line.valid && r.tag == line.tag && r.dirty
  {}

  /** Reading the resident line is reading the flat memory. */
  lemma HitReads(g: CacheParams, sets: seq<seq<Line>>, queues: seq<seq<nat>>, m: Flat, addr: nat, len: nat)
    requires g.Ok() && Total(m) && CacheOk(g, sets, queues, m)
    requires g.Offset(addr) + len <= g.LineSize()
    requires var row := sets[g.Index(addr)]; FirstHit(row, g.Tag(addr)) < |row|
    ensures var s := g.Index(addr); var line := sets[s][FirstHit(sets[s], g.Tag(addr))];
      && |line.data| == g.LineSize()
      && line.data[g.Offset(addr)..g.Offset(addr) + len] == ReadBytes(CacheView(g, sets, m), addr, len)
  {
    hide CacheParams.LineSize, CacheParams.NumSets, LineBase, Pow2,
         CacheParams.Tag, CacheParams.Index, CacheParams.Offset, ReadBytes;
    var s := g.Index(addr);
    var h := FirstHit(sets[s], g.Tag(addr));
    assert SetOk(g, sets[s], queues[s], s, m) && LineOk(g, sets[s][h], s, m);
    var line, off := sets[s][h], g.Offset(addr);
    var view := CacheView(g, sets, m);
    forall i | 0 <= i < len
      ensures line.data[off..off + len][i] == ReadBytes(view, addr, len)[i]
    {
      ReadAt(view, addr, len, i);
      WithinLine(g, addr, addr + i);
    }
  }
}
