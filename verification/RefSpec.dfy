/** The reference model as a function: what one CPU request does to the arrays, which memory
    requests it makes and which data it returns. With a memory behind it, it refines a flat
    memory of words. */
module RefSpec {
  import opened CacheLines
  import opened DCacheTypes
  import opened Replacement

  type Memory = seq<Block>

  datatype Ref = Ref(sets: seq<seq<Line>>, ptr: seq<nat>)

  datatype Served = Served(ref: Ref, requests: seq<MemReq>, rdata: Word)

  // ---- One request -------------------------------------------------------------------

  predicate IsHit(row: seq<Line>, tag: nat) {
    FirstHit(row, tag) < |row|
  }

  function LineValid(row: seq<Line>): (v: seq<bool>)
    ensures |v| == |row| && forall i :: 0 <= i < |v| ==> v[i] == row[i].valid
  {
    seq(|row|, i requires 0 <= i < |row| => row[i].valid)
  }

  ghost predicate LineShape(p: Params, line: Line) {
    |line.data| == p.words && line.tag < p.tags
  }

  ghost predicate Shape(p: Params, r: Ref) {
    && p.Ok()
    && |r.sets| == p.sets && |r.ptr| == p.sets
    && (forall s :: 0 <= s < p.sets ==> |r.sets[s]| == p.ways)
    && (forall s, w :: 0 <= s < p.sets && 0 <= w < p.ways ==> LineShape(p, r.sets[s][w]))
    && (forall s :: 0 <= s < p.sets ==> r.ptr[s] < p.ways)
  }

  /** A write to one word of a line. */
  function Poke(line: Line, k: nat, v: Word): Line
    requires k < |line.data|
  {
    line.(dirty := true, data := line.data[k := v])
  }

  /** The line a miss leaves behind. */
  function Refilled(tag: nat, block: Block, req: Req, k: nat): Line
    requires k < |block|
  {
    var line := Line(true, false, tag, block);
    if req.write then Poke(line, k, req.wdata) else line
  }

  function VictimWay(r: Ref, s: nat): nat
    requires s < |r.sets| && s < |r.ptr|
  {
    RefAlloc(LineValid(r.sets[s]), r.ptr[s])
  }

  lemma VictimInRange(p: Params, r: Ref, s: nat)
    requires Shape(p, r) && s < p.sets
    ensures VictimWay(r, s) < p.ways
  {}

  predicate NeedsWriteBack(line: Line) {
    line.valid && line.dirty
  }

  /** The memory requests of a miss: the victim if it is dirty, then the block. */
  function MissRequests(p: Params, victim: Line, tag: nat, s: nat): seq<MemReq> {
    (if NeedsWriteBack(victim) then [WriteBack(LineAddr(p, victim.tag, s), victim.data)] else [])
    + [Fetch(LineAddr(p, tag, s))]
  }

  /** One CPU request; `fetched` is the block the memory answers a fetch with. */
  function Serve(p: Params, r: Ref, req: Req, fetched: Block): Served
    requires Shape(p, r) && p.OnBus(req.addr) && |fetched| == p.words
  {
    var Fields(tag, s, k) := Decode(p, req.addr);
    var row := r.sets[s];
    var h := FirstHit(row, tag);
    if h < |row| then
      if req.write then Served(r.(sets := SetLine(r.sets, s, h, Poke(row[h], k, req.wdata))), [], 0)
      else Served(r, [], row[h].data[k])
    else
      VictimInRange(p, r, s);
      var w := VictimWay(r, s);
      var line := Refilled(tag, fetched, req, k);
      Served(Ref(SetLine(r.sets, s, w, line), r.ptr[s := RefAdvance(p.ways, r.ptr[s])]),
             MissRequests(p, row[w], tag, s),
             if req.write then 0 else line.data[k])
  }

  /** What a hit does: no memory request, no pointer step; a read takes the word from the
      first way that holds the tag and leaves the arrays alone, a write changes that word and
      the line's dirty bit, nothing else. */
  ghost predicate HitOutcome(p: Params, r: Ref, r': Ref, req: Req, requests: seq<MemReq>, rdata: Word)
    requires Shape(p, r) && p.OnBus(req.addr)
  {
    var f := Decode(p, req.addr);
    var row := r.sets[f.index];
    && requests == [] && r'.ptr == r.ptr
    && exists h :: 0 <= h < p.ways && FirstHolder(row, f.tag, h) &&
         if req.write then
           && rdata == 0
           && r'.sets == r.sets[f.index := row[h := Line(true, true, f.tag, row[h].data[f.word := req.wdata])]]
         else rdata == row[h].data[f.word] && r'.sets == r.sets
  }

  ghost predicate FirstHolder(row: seq<Line>, tag: nat, h: nat) {
    && h < |row| && row[h].valid && row[h].tag == tag
    && forall j :: 0 <= j < h ==> !(row[j].valid && row[j].tag == tag)
  }

  /** What a miss does: the line in the first empty way, or under the pointer if there is none,
      is written back if dirty and replaced by the fetched block, with a write's word in it,
      dirty exactly after a write; the pointer steps around. */
  ghost predicate MissOutcome(p: Params, r: Ref, r': Ref, req: Req, fetched: Block, requests: seq<MemReq>,
                              rdata: Word)
    requires Shape(p, r) && p.OnBus(req.addr) && |fetched| == p.words
  {
    var f := Decode(p, req.addr);
    var row, ptr := r.sets[f.index], r.ptr[f.index];
    && (forall j :: 0 <= j < p.ways ==> !(row[j].valid && row[j].tag == f.tag))
    && rdata == (if req.write then 0 else fetched[f.word])
    && r'.ptr == r.ptr[f.index := if ptr + 1 == p.ways then 0 else ptr + 1]
    && exists w :: 0 <= w < p.ways && FirstEmptyOr(row, ptr, w) &&
         var data: Block := if req.write then fetched[f.word := req.wdata] else fetched;
         && r'.sets == r.sets[f.index := row[w := Line(true, req.write, f.tag, data)]]
         && requests == (if row[w].valid && row[w].dirty
                         then [WriteBack(LineAddr(p, row[w].tag, f.index), row[w].data)]
                         else [])
                        + [Fetch(LineAddr(p, f.tag, f.index))]
  }

  ghost predicate FirstEmptyOr(row: seq<Line>, ptr: nat, w: nat) {
    && w < |row|
    && (row[w].valid ==> w == ptr && forall j :: 0 <= j < |row| ==> row[j].valid)
    && (!row[w].valid ==> forall j :: 0 <= j < w ==> row[j].valid)
  }

  /** One request is a hit or a miss in these terms, according to residence alone. */
  ghost predicate Outcome(p: Params, r: Ref, r': Ref, req: Req, fetched: Block, requests: seq<MemReq>, rdata: Word)
    requires Shape(p, r) && p.OnBus(req.addr) && |fetched| == p.words
  {
    var f := Decode(p, req.addr);
    if exists j :: 0 <= j < p.ways && r.sets[f.index][j].valid && r.sets[f.index][j].tag == f.tag
    then HitOutcome(p, r, r', req, requests, rdata)
    else MissOutcome(p, r, r', req, fetched, requests, rdata)
  }

  lemma ServeOutcome(p: Params, r: Ref, req: Req, fetched: Block)
    requires Shape(p, r) && p.OnBus(req.addr) && |fetched| == p.words
    ensures var served := Serve(p, r, req, fetched);
      Outcome(p, r, served.ref, req, fetched, served.requests, served.rdata)
  {
    hide Decode, LineAddr, BlockNo, RefAdvance, Outcome, HitOutcome, MissOutcome;
    var f := Decode(p, req.addr);
    var row := r.sets[f.index];
    if IsHit(row, f.tag) {
      HitOutcomeOf(p, r, req, fetched);
    } else {
      MissOutcomeOf(p, r, req, fetched);
    }
    OutcomeOf(p, r, req, fetched);
  }

  lemma OutcomeOf(p: Params, r: Ref, req: Req, fetched: Block)
    requires Shape(p, r) && p.OnBus(req.addr) && |fetched| == p.words
    requires var served := Serve(p, r, req, fetched); var f := Decode(p, req.addr);
      if IsHit(r.sets[f.index], f.tag)
      then HitOutcome(p, r, served.ref, req, served.requests, served.rdata)
      else MissOutcome(p, r, served.ref, req, fetched, served.requests, served.rdata)
    ensures var served := Serve(p, r, req, fetched);
      Outcome(p, r, served.ref, req, fetched, served.requests, served.rdata)
  {
    hide Decode, LineAddr, BlockNo, Serve, HitOutcome, MissOutcome;
    var f := Decode(p, req.addr);
    var row := r.sets[f.index];
    var h := FirstHit(row, f.tag);
    assert h < |row| ==> Matches(row[h], f.tag);
    assert forall j :: 0 <= j < p.ways && h == |row| ==> !Matches(row[j], f.tag);
  }

  lemma HitOutcomeOf(p: Params, r: Ref, req: Req, fetched: Block)
    requires Shape(p, r) && p.OnBus(req.addr) && |fetched| == p.words
    requires var f := Decode(p, req.addr); IsHit(r.sets[f.index], f.tag)
    ensures var served := Serve(p, r, req, fetched);
      HitOutcome(p, r, served.ref, req, served.requests, served.rdata)
  {
    hide Decode, LineAddr, BlockNo, RefAdvance;
    var f := Decode(p, req.addr);
    var row := r.sets[f.index];
    var h := FirstHit(row, f.tag);
    assert Matches(row[h], f.tag) && forall j :: 0 <= j < h ==> !Matches(row[j], f.tag);
    assert FirstHolder(row, f.tag, h);
  }

  lemma MissOutcomeOf(p: Params, r: Ref, req: Req, fetched: Block)
    requires Shape(p, r) && p.OnBus(req.addr) && |fetched| == p.words
    requires var f := Decode(p, req.addr); !IsHit(r.sets[f.index], f.tag)
    ensures var served := Serve(p, r, req, fetched);
      MissOutcome(p, r, served.ref, req, fetched, served.requests, served.rdata)
  {
    hide Decode, LineAddr, BlockNo;
    var f := Decode(p, req.addr);
    var row := r.sets[f.index];
    assert forall j :: 0 <= j < p.ways ==> !Matches(row[j], f.tag);
    VictimInRange(p, r, f.index);
    PointersAgree(p.ways, r.ptr[f.index]);
    assert FirstEmptyOr(row, r.ptr[f.index], VictimWay(r, f.index));
  }

  /** The memory has no say in a hit. */
  lemma HitIgnoresMemory(p: Params, r: Ref, req: Req, a: Block, b: Block)
    requires Shape(p, r) && p.OnBus(req.addr) && |a| == p.words && |b| == p.words
    requires var f := Decode(p, req.addr); IsHit(r.sets[f.index], f.tag)
    ensures Serve(p, r, req, a) == Serve(p, r, req, b)
  {
    hide Decode, LineAddr, BlockNo, RefAdvance;
  }

  function ResetRef(p: Params): Ref {
    var line := Line(false, false, 0, seq(p.words, _ => 0));
    Ref(seq(p.sets, _ => seq(p.ways, _ => line)), seq(p.sets, _ => 0))
  }

  // ---- With a memory behind it -------------------------------------------------------

  datatype World = World(ref: Ref, mem: Memory)

  function Stored(p: Params, mem: Memory, q: MemReq): (m: Memory)
    requires p.Ok()
    ensures |m| == |mem|
  {
    match q
    case WriteBack(addr, data) =>
      var b := BlockAt(p, addr);
      if b < |mem| then mem[b := data] else mem
    case Fetch(_) => mem
  }

  ghost predicate WorldShape(p: Params, w: World) {
    && Shape(p, w.ref)
    && |w.mem| == p.Blocks()
    && forall b :: 0 <= b < |w.mem| ==> |w.mem[b]| == p.words
  }

  /** The memory once the victim of a miss in set s has been written back. */
  function MemAfterEviction(p: Params, mem: Memory, victim: Line, s: nat): (m: Memory)
    requires p.Ok()
    ensures |m| == |mem|
  {
    if NeedsWriteBack(victim) then
      Stored(p, mem, WriteBack(LineAddr(p, victim.tag, s), victim.data))
    else mem
  }

  lemma EvictionShape(p: Params, mem: Memory, victim: Line, s: nat)
    requires p.Ok() && |victim.data| == p.words
    requires forall b :: 0 <= b < |mem| ==> |mem[b]| == p.words
    ensures var m := MemAfterEviction(p, mem, victim, s);
      forall b :: 0 <= b < |m| ==> |m[b]| == p.words
  {}

  /** One request served against the memory. */
  function Step(p: Params, w: World, req: Req): (r: (World, seq<MemReq>, Word))
    requires WorldShape(p, w) && p.OnBus(req.addr)
    ensures |r.0.mem| == |w.mem|
  {
    var Fields(tag, s, k) := Decode(p, req.addr);
    BlockNoSplit(p, tag, s);
    if IsHit(w.ref.sets[s], tag) then
      var served := Serve(p, w.ref, req, w.mem[BlockNo(p, tag, s)]);
      (World(served.ref, w.mem), served.requests, served.rdata)
    else
      VictimInRange(p, w.ref, s);
      var victim := w.ref.sets[s][VictimWay(w.ref, s)];
      var mem := MemAfterEviction(p, w.mem, victim, s);
      EvictionShape(p, w.mem, victim, s);
      var served := Serve(p, w.ref, req, mem[BlockNo(p, tag, s)]);
      (World(served.ref, mem), served.requests, served.rdata)
  }

  // ---- Invariant ---------------------------------------------------------------------

  ghost predicate InMemory(p: Params, line: Line, s: nat, mem: Memory) {
    var b := BlockNo(p, line.tag, s);
    b < |mem| && mem[b] == line.data
  }

  ghost predicate SetOk(p: Params, row: seq<Line>, ptr: nat, s: nat, mem: Memory) {
    && (forall i, j :: 0 <= i < j < |row| && row[i].valid && row[j].valid ==> row[i].tag != row[j].tag)
    && (forall i :: 0 <= i < |row| && row[i].dirty ==> row[i].valid)
    && (forall i :: 0 <= i < |row| && row[i].valid && !row[i].dirty ==> InMemory(p, row[i], s, mem))
    && ((forall i :: 0 <= i < |row| ==> row[i].valid)
        || (forall i :: 0 <= i < |row| ==> (row[i].valid <==> i < ptr)))
  }

  /** What every reachable state of the model keeps: no two valid ways of a set share a tag,
      dirty implies valid, clean lines equal memory, and the pointer is at the first empty
      way until the set is full. */
  ghost predicate Inv(p: Params, w: World) {
    && WorldShape(p, w)
    && forall s :: 0 <= s < p.sets ==> SetOk(p, w.ref.sets[s], w.ref.ptr[s], s, w.mem)
  }

  // ---- Flat memory -------------------------------------------------------------------

  /** The block a CPU sees: the cached copy if there is one, else memory. */
  ghost function BlockView(p: Params, sets: seq<seq<Line>>, mem: Memory, b: nat): Block
    requires p.Ok() && |sets| == p.sets && b < |mem|
  {
    var row := sets[BlockIndex(p, b)];
    var h := FirstHit(row, BlockTag(p, b));
    if h < |row| then row[h].data else mem[b]
  }

  ghost function View(p: Params, sets: seq<seq<Line>>, mem: Memory): (v: Memory)
    requires p.Ok() && |sets| == p.sets
  {
    seq(|mem|, b requires 0 <= b < |mem| => BlockView(p, sets, mem, b))
  }

  ghost predicate FlatShape(p: Params, flat: Memory) {
    && p.Ok() && |flat| == p.Blocks()
    && forall b :: 0 <= b < |flat| ==> |flat[b]| == p.words
  }

  /** The reference memory: one word read or written, nothing else. */
  ghost function FlatStep(p: Params, flat: Memory, req: Req): (r: (Memory, Word))
    requires FlatShape(p, flat) && p.OnBus(req.addr)
    ensures FlatShape(p, r.0)
  {
    var f := Decode(p, req.addr);
    BlockNoSplit(p, f.tag, f.index);
    var b := BlockNo(p, f.tag, f.index);
    if req.write then
      var block: Block := flat[b][f.word := req.wdata];
      (flat[b := block], 0)
    else (flat, flat[b][f.word])
  }
}
