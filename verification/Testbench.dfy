/** The TLM testbench: it predicts every read of a list of word transfers from a map of the
    words written, runs the list on the cache and counts agreements. Over the real cache and
    memory no list of transfers can make it report a failure. */
module Testbench {
  import opened Bits
  import opened Geometry
  import opened FlatBytes
  import opened PagedMemory
  import opened TlmSpec
  import opened TlmCache

  /** A transfer of one 32-bit word, its bytes in memory order. */
  datatype TestTransaction = TestTransaction(addr: nat, isWrite: bool, data: seq<Byte>) {
    predicate Ok() {
      addr % 4 == 0 && addr + 4 <= REACHABLE && |data| == 4
    }
  }

  ghost predicate AllOk(tests: seq<TestTransaction>) {
    forall n :: 0 <= n < |tests| ==> tests[n].Ok()
  }

  /** The flat memory after the transfers, and the words its reads return. */
  ghost function FlatAfter(m: Flat, tests: seq<TestTransaction>): (r: Flat)
    requires Total(m)
    ensures Total(r)
    decreases |tests|
  {
    if |tests| == 0 then m
    else
      var before, last := FlatAfter(m, tests[..|tests| - 1]), tests[|tests| - 1];
      if last.isWrite then WriteBytes(before, last.addr, last.data) else before
  }

  ghost function FlatReads(m: Flat, tests: seq<TestTransaction>): (r: seq<seq<Byte>>)
    requires Total(m)
    decreases |tests|
  {
    if |tests| == 0 then []
    else
      var before, last := tests[..|tests| - 1], tests[|tests| - 1];
      FlatReads(m, before)
      + if last.isWrite then [] else [ReadBytes(FlatAfter(m, before), last.addr, 4)]
  }

  lemma FlatStep(m: Flat, tests: seq<TestTransaction>, n: nat)
    requires Total(m) && n < |tests|
    ensures FlatAfter(m, tests[..n + 1])
         == if tests[n].isWrite then WriteBytes(FlatAfter(m, tests[..n]), tests[n].addr, tests[n].data)
            else FlatAfter(m, tests[..n])
    ensures FlatReads(m, tests[..n + 1])
         == FlatReads(m, tests[..n])
            + if tests[n].isWrite then [] else [ReadBytes(FlatAfter(m, tests[..n]), tests[n].addr, 4)]
  {
    assert tests[..n + 1][..n] == tests[..n];
  }

  /** The map predicts a flat memory when every aligned word is in the map or still zero. */
  ghost predicate Predicts(words: map<nat, seq<Byte>>, m: Flat)
    requires Total(m)
  {
    forall a: nat :: a % 4 == 0 ==> ReadBytes(m, a, 4) == Word(words, a)
  }

  function Word(words: map<nat, seq<Byte>>, a: nat): seq<Byte> {
    if a in words then words[a] else [0, 0, 0, 0]
  }

  lemma WordAt(m: Flat, addr: nat, data: seq<Byte>, a: nat)
    requires Total(m) && addr % 4 == 0 && a % 4 == 0 && |data| == 4
    ensures ReadBytes(WriteBytes(m, addr, data), a, 4) == if a == addr then data else ReadBytes(m, a, 4)
  {
    assert a < addr ==> a + 4 <= addr;
    assert addr < a ==> addr + 4 <= a;
  }

  lemma WriteKeepsPrediction(words: map<nat, seq<Byte>>, m: Flat, addr: nat, data: seq<Byte>)
    requires Total(m) && Predicts(words, m) && addr % 4 == 0 && |data| == 4
    ensures Predicts(words[addr := data], WriteBytes(m, addr, data))
  {
    hide ReadBytes, WriteBytes;
    forall a: nat | a % 4 == 0
      ensures ReadBytes(WriteBytes(m, addr, data), a, 4) == Word(words[addr := data], a)
    {
      WordAt(m, addr, data, a);
    }
  }

  lemma ZeroIsPredicted()
    ensures Predicts(map[], Zeroed())
  {}

  /** The expected read values, from a map of the words written so far. */
  method ExpectedValues(tests: seq<TestTransaction>) returns (expected: seq<seq<Byte>>)
    requires AllOk(tests)
    ensures expected == FlatReads(Zeroed(), tests)
  {
    hide FlatAfter, FlatReads, ReadBytes, WriteBytes, Zeroed;
    var words: map<nat, seq<Byte>> := map[];
    expected := [];
    ZeroIsPredicted();
    NoTests(Zeroed());
    assert tests[..0] == [];
    for n := 0 to |tests|
      invariant Predicts(words, FlatAfter(Zeroed(), tests[..n]))
      invariant expected == FlatReads(Zeroed(), tests[..n])
    {
      FlatStep(Zeroed(), tests, n);
      var t := tests[n];
      if t.isWrite {
        WriteKeepsPrediction(words, FlatAfter(Zeroed(), tests[..n]), t.addr, t.data);
        words := words[t.addr := t.data];
      } else {
        if t.addr !in words {
          words := words[t.addr := [0, 0, 0, 0]];
        }
        expected := expected + [words[t.addr]];
      }
    }
    assert tests[..|tests|] == tests;
  }

  lemma NoTests(m: Flat)
    requires Total(m)
    ensures FlatAfter(m, []) == m && FlatReads(m, []) == []
  {}

  /** An aligned word lies in one line. */
  lemma WordInLine(g: CacheParams, addr: nat)
    requires g.Ok() && g.lineBits >= 2 && addr % 4 == 0
    ensures 4 <= g.LineSize() && g.Offset(addr) + 4 <= g.LineSize()
  {
    hide CacheParams.Offset, CacheParams.Tag, CacheParams.Index;
    var q := Pow2(g.lineBits - 2);
    Pow2Add(2, g.lineBits - 2);
    assert g.LineSize() == 4 * q;
    FieldsAre(g, addr);
    DivDiv(addr, 4, q);
  }

  ghost function Reads(tests: seq<TestTransaction>): nat {
    |FlatReads(Zeroed(), tests)|
  }

  /** One word read through the cache. */
  method ReadFrom(cache: CacheTlm, addr: nat) returns (data: seq<Byte>)
    requires cache.Valid() && cache.FollowsFifo()
    requires cache.g.lineBits >= 2 && addr % 4 == 0 && addr + 4 <= REACHABLE
    modifies cache, cache.mem, cache.mem.Buffers()
    ensures cache.Valid() && cache.FollowsFifo()
    ensures fresh(cache.mem.Buffers() - old(cache.mem.Buffers()))
    ensures cache.View() == old(cache.View())
    ensures data == ReadBytes(cache.View(), addr, 4)
  {
    hide ReadBytes, WriteBytes, CacheTlm.View, CacheTlm.FollowsFifo, CacheOk, SparseMemory.Valid,
         SparseMemory.View, SparseMemory.Buffers, CacheParams.LineSize, CacheParams.Offset;
    WordInLine(cache.g, addr);
    var _, _, out := cache.HandleRequest(Read, addr, [0, 0, 0, 0], true, Incomplete);
    data := out;
  }

  /** One word written through the cache. */
  method WriteTo(cache: CacheTlm, addr: nat, data: seq<Byte>)
    requires cache.Valid() && cache.FollowsFifo()
    requires cache.g.lineBits >= 2 && addr % 4 == 0 && addr + 4 <= REACHABLE && |data| == 4
    modifies cache, cache.mem, cache.mem.Buffers()
    ensures cache.Valid() && cache.FollowsFifo()
    ensures fresh(cache.mem.Buffers() - old(cache.mem.Buffers()))
    ensures cache.View() == WriteBytes(old(cache.View()), addr, data)
  {
    hide ReadBytes, WriteBytes, CacheTlm.View, CacheTlm.FollowsFifo, CacheOk, SparseMemory.Valid,
         SparseMemory.View, SparseMemory.Buffers, CacheParams.LineSize, CacheParams.Offset;
    WordInLine(cache.g, addr);
    var _, _, _ := cache.HandleRequest(Write, addr, data, true, Incomplete);
  }

  /** Every read of every list of aligned transfers passes. */
  method RunTests(g: CacheParams, pageBits: nat, tests: seq<TestTransaction>)
    returns (pass: nat, fail: int)
    requires g.Ok() && g.lineBits >= 2 && pageBits < 64 && AllOk(tests)
    ensures fail == 0 && pass == Reads(tests)
  {
    hide FlatAfter, FlatReads, ReadBytes, WriteBytes, Zeroed, CacheTlm.Valid, CacheTlm.View,
         CacheTlm.FollowsFifo, SparseMemory.View, SparseMemory.Valid;
    var expected := ExpectedValues(tests);
    var memory := new SparseMemory(pageBits);
    var cache := new CacheTlm(g, memory);
    pass, fail := 0, 0;
    NoTests(Zeroed());
    assert tests[..0] == [];
    for n := 0 to |tests|
      invariant cache.g == g && fresh(cache) && fresh(cache.mem) && fresh(cache.mem.Buffers())
      invariant cache.Valid() && cache.FollowsFifo()
      invariant cache.View() == FlatAfter(Zeroed(), tests[..n])
      invariant fail == 0 && pass == |FlatReads(Zeroed(), tests[..n])|
    {
      var t := tests[n];
      ghost var buffers := cache.mem.Buffers();
      FlatStep(Zeroed(), tests, n);
      ReadsPrefix(tests, n + 1);
      if t.isWrite {
        WriteTo(cache, t.addr, t.data);
      } else {
        var actual := ReadFrom(cache, t.addr);
        if actual == expected[pass] {
          pass := pass + 1;
        } else {
          fail := fail + 1;
        }
      }
      assert cache.mem.Buffers() <= buffers + (cache.mem.Buffers() - buffers);
    }
    assert tests[..|tests|] == tests;
  }

  // ---- Any sequence of transfers -----------------------------------------------------

  /** A transfer of bytes of one line, or one too long to be served; `data` is the buffer,
      whose length counts, `memOk` the memory's answer to a fetch it may need. */
  datatype Transfer = Transfer(cmd: Command, addr: nat, data: seq<Byte>, memOk: bool, initial: Status) {
    predicate InLine(g: CacheParams) {
      addr < REACHABLE && (|data| <= g.LineSize() ==> g.Offset(addr) + |data| <= g.LineSize())
    }

    /** The answer it may get: refused if too long or unknown; served if the fetch is. */
    predicate Answers(g: CacheParams, a: Answer) {
      if |data| > g.LineSize() then !a.ok && a.status == BurstError
      else if cmd.Ignore? then !a.ok && a.status == initial
      else (memOk ==> a.ok) && a.status == if a.ok then Ok else GenericError
    }

    predicate ServedWrite(a: Answer) {
      cmd.Write? && a.ok
    }
  }

  /** What a transfer came back with. */
  datatype Answer = Answer(ok: bool, status: Status, out: seq<Byte>)

  /** One transfer on the flat memory, and what its buffer holds afterwards. */
  ghost function FlatServe(m: Flat, t: Transfer, ok: bool): (r: (Flat, seq<Byte>))
    requires Total(m)
    ensures Total(r.0)
  {
    (if ok && t.cmd.Write? then WriteBytes(m, t.addr, t.data) else m,
     if ok && t.cmd.Read? then ReadBytes(m, t.addr, |t.data|) else t.data)
  }

  /** The flat memory after the transfers that were served. */
  ghost function FlatMemory(m: Flat, ts: seq<Transfer>, answers: seq<Answer>): (r: Flat)
    requires Total(m) && |answers| == |ts|
    ensures Total(r)
    decreases |ts|
  {
    if |ts| == 0 then m
    else
      var n := |ts| - 1;
      FlatServe(FlatMemory(m, ts[..n], answers[..n]), ts[n], answers[n].ok).0
  }

  /** Answer n is one the transfer may get, with the flat memory's bytes. */
  ghost predicate FlatAnswer(g: CacheParams, m: Flat, ts: seq<Transfer>, answers: seq<Answer>, n: nat)
    requires Total(m) && |answers| == |ts| && n < |ts|
  {
    && ts[n].Answers(g, answers[n])
    && answers[n].out == FlatServe(FlatMemory(m, ts[..n], answers[..n]), ts[n], answers[n].ok).1
  }

  ghost predicate FlatAnswers(g: CacheParams, m: Flat, ts: seq<Transfer>, answers: seq<Answer>)
    requires Total(m) && |answers| == |ts|
  {
    forall n :: 0 <= n < |ts| ==> FlatAnswer(g, m, ts, answers, n)
  }

  ghost function ServedWrites(ts: seq<Transfer>, answers: seq<Answer>): nat
    requires |answers| == |ts|
    decreases |ts|
  {
    if |ts| == 0 then 0
    else
      var n := |ts| - 1;
      ServedWrites(ts[..n], answers[..n]) + Bit(ts[n].ServedWrite(answers[n]))
  }

  /** The tags of the served transfers of one set, in order. */
  ghost function ServedTags(g: CacheParams, ts: seq<Transfer>, answers: seq<Answer>, s: nat): seq<nat>
    requires g.Ok() && |answers| == |ts|
    decreases |ts|
  {
    if |ts| == 0 then []
    else
      var n := |ts| - 1;
      ServedTags(g, ts[..n], answers[..n], s)
      + if answers[n].ok && g.Index(ts[n].addr) == s then [g.Tag(ts[n].addr)] else []
  }

  /** The cache's record of accesses is that of the served transfers. */
  ghost predicate Records(g: CacheParams, ts: seq<Transfer>, answers: seq<Answer>, accesses: seq<seq<nat>>)
    requires g.Ok() && |answers| == |ts|
  {
    |accesses| == g.NumSets() && forall s :: 0 <= s < |accesses| ==> accesses[s] == ServedTags(g, ts, answers, s)
  }

  lemma RecordsNext(g: CacheParams, ts: seq<Transfer>, n: nat, answers: seq<Answer>, a: Answer,
                    before: seq<seq<nat>>, after: seq<seq<nat>>)
    requires g.Ok() && n < |ts| && |answers| == n && Records(g, ts[..n], answers, before)
    requires var s := g.Index(ts[n].addr);
      after == if a.ok then before[s := before[s] + [g.Tag(ts[n].addr)]] else before
    ensures Records(g, ts[..n + 1], answers + [a], after)
  {
    hide CacheParams.NumSets, CacheParams.Index, CacheParams.Tag;
    assert ts[..n + 1][..n] == ts[..n] && (answers + [a])[..n] == answers;
    forall s | 0 <= s < |after| ensures after[s] == ServedTags(g, ts[..n + 1], answers + [a], s) {
      assert ServedTags(g, ts[..n], answers, s) + [] == ServedTags(g, ts[..n], answers, s);
    }
  }

  lemma MemoryNext(m: Flat, ts: seq<Transfer>, n: nat, answers: seq<Answer>, a: Answer)
    requires Total(m) && n < |ts| && |answers| == n
    ensures FlatMemory(m, ts[..n + 1], answers + [a])
         == FlatServe(FlatMemory(m, ts[..n], answers), ts[n], a.ok).0
    ensures ServedWrites(ts[..n + 1], answers + [a]) == ServedWrites(ts[..n], answers) + Bit(ts[n].ServedWrite(a))
  {
    hide FlatServe;
    assert ts[..n + 1][..n] == ts[..n] && (answers + [a])[..n] == answers;
  }

  lemma AnswersNext(g: CacheParams, m: Flat, ts: seq<Transfer>, n: nat, answers: seq<Answer>, a: Answer)
    requires Total(m) && n < |ts| && |answers| == n && FlatAnswers(g, m, ts[..n], answers)
    requires ts[n].Answers(g, a) && a.out == FlatServe(FlatMemory(m, ts[..n], answers), ts[n], a.ok).1
    ensures FlatAnswers(g, m, ts[..n + 1], answers + [a])
  {
    hide FlatServe, FlatMemory, FlatAnswer, Transfer.Answers;
    var ts', answers' := ts[..n + 1], answers + [a];
    forall k | 0 <= k < n + 1 ensures FlatAnswer(g, m, ts', answers', k) {
      if k < n {
        SameAnswer(g, m, ts[..n], answers, ts', answers', k);
      } else {
        assert ts'[..n] == ts[..n] && answers'[..n] == answers;
        LastAnswer(g, m, ts', answers');
      }
    }
  }

  lemma LastAnswer(g: CacheParams, m: Flat, ts: seq<Transfer>, answers: seq<Answer>)
    requires Total(m) && |answers| == |ts| > 0
    requires var n := |ts| - 1;
      && ts[n].Answers(g, answers[n])
      && answers[n].out == FlatServe(FlatMemory(m, ts[..n], answers[..n]), ts[n], answers[n].ok).1
    ensures FlatAnswer(g, m, ts, answers, |ts| - 1)
  {
    hide FlatServe, FlatMemory, Transfer.Answers;
  }

  lemma SameAnswer(g: CacheParams, m: Flat, ts: seq<Transfer>, answers: seq<Answer>,
                   ts': seq<Transfer>, answers': seq<Answer>, k: nat)
    requires Total(m) && |answers| == |ts| && |answers'| == |ts'| && k < |ts| && ts <= ts' && answers <= answers'
    requires FlatAnswer(g, m, ts, answers, k)
    ensures FlatAnswer(g, m, ts', answers', k)
  {
    hide FlatServe, FlatMemory, Transfer.Answers;
    assert ts'[..k] == ts[..k] && answers'[..k] == answers[..k];
  }

  /** Every sequence of transfers: reads and writes whose fetches succeed are served, each
      answer is the flat, zero-initialised memory's, refused transfers leave it alone, and
      the write-backs made plus the lines still dirty never exceed the writes served. Without
      faults no more lines are written back than misses pushed out of full sets, and as long
      as none is written back memory stays as it was. */
  method ServeAll(g: CacheParams, pageBits: nat, ts: seq<Transfer>)
    returns (cache: CacheTlm, answers: seq<Answer>)
    requires g.Ok() && pageBits < 64 && forall n :: 0 <= n < |ts| ==> ts[n].InLine(g)
    ensures cache.Valid() && cache.FollowsFifo()
    ensures |answers| == |ts| && FlatAnswers(g, Zeroed(), ts, answers)
    ensures cache.View() == FlatMemory(Zeroed(), ts, answers)
    ensures cache.Balance() <= ServedWrites(ts, answers)
    ensures Records(g, ts, answers, cache.accesses)
    ensures (forall n :: 0 <= n < |ts| ==> ts[n].memOk && !ts[n].cmd.Ignore?) ==>
      cache.faultFree && cache.writeBacks <= Evictions(g.ways, cache.accesses)
    ensures cache.mem.Valid() && (cache.writeBacks == 0 ==> cache.mem.View() == Zeroed())
  {
    hide FlatServe, FlatAnswers, FlatMemory, ServedWrites, Zeroed, CacheTlm.Valid, CacheTlm.View, Records,
         CacheTlm.FollowsFifo, CacheTlm.Balance, SparseMemory.View, SparseMemory.Valid, Evictions;
    var memory := new SparseMemory(pageBits);
    cache := new CacheTlm(g, memory);
    answers := [];
    assert ts[..0] == [];
    NoTransfers(g, Zeroed());
    NoRecords(g);
    for n := 0 to |ts|
      invariant cache.g == g && fresh(cache) && fresh(cache.mem) && fresh(cache.mem.Buffers())
      invariant cache.Valid() && cache.FollowsFifo()
      invariant |answers| == n && FlatAnswers(g, Zeroed(), ts[..n], answers)
      invariant cache.View() == FlatMemory(Zeroed(), ts[..n], answers)
      invariant cache.Balance() <= ServedWrites(ts[..n], answers)
      invariant (forall k :: 0 <= k < n ==> ts[k].memOk && !ts[k].cmd.Ignore?) ==> cache.faultFree
      invariant Records(g, ts[..n], answers, cache.accesses)
      invariant cache.mem.Valid() && (cache.writeBacks == 0 ==> cache.mem.View() == Zeroed())
    {
      ghost var buffers, before := cache.mem.Buffers(), cache.accesses;
      RecordsSets(g, ts[..n], answers, before);
      var a := ServeOne(cache, ts[n]);
      RecordsNext(g, ts, n, answers, a, before, cache.accesses);
      MemoryNext(Zeroed(), ts, n, answers, a);
      AnswersNext(g, Zeroed(), ts, n, answers, a);
      answers := answers + [a];
      assert cache.mem.Buffers() <= buffers + (cache.mem.Buffers() - buffers);
    }
    assert ts[..|ts|] == ts;
    EvictionBound(cache);
  }

  lemma RecordsSets(g: CacheParams, ts: seq<Transfer>, answers: seq<Answer>, accesses: seq<seq<nat>>)
    requires g.Ok() && |answers| == |ts| && Records(g, ts, answers, accesses)
    ensures |accesses| == g.NumSets()
  {}

  lemma EvictionBound(cache: CacheTlm)
    requires cache.FollowsFifo()
    ensures |cache.accesses| == |cache.sets|
    ensures cache.faultFree ==> cache.g.ways > 0 && cache.writeBacks <= Evictions(cache.g.ways, cache.accesses)
  {}

  lemma NoRecords(g: CacheParams)
    requires g.Ok()
    ensures Records(g, [], [], EmptyQueues(g))
  {}

  lemma NoTransfers(g: CacheParams, m: Flat)
    requires Total(m)
    ensures FlatAnswers(g, m, [], []) && FlatMemory(m, [], []) == m && ServedWrites([], []) == 0
  {}

  method ServeOne(cache: CacheTlm, t: Transfer) returns (a: Answer)
    requires cache.Valid() && cache.FollowsFifo() && t.InLine(cache.g)
    modifies cache, cache.mem, cache.mem.Buffers()
    ensures cache.Valid() && cache.FollowsFifo()
    ensures fresh(cache.mem.Buffers() - old(cache.mem.Buffers()))
    ensures t.Answers(cache.g, a) && (cache.View(), a.out) == FlatServe(old(cache.View()), t, a.ok)
    ensures cache.Balance() <= old(cache.Balance()) + Bit(t.ServedWrite(a))
    ensures old(cache.faultFree) && t.memOk && !t.cmd.Ignore? ==> cache.faultFree
    ensures old(|cache.accesses|) == cache.g.NumSets()
    ensures var s := cache.g.Index(t.addr);
      cache.accesses == if a.ok then old(cache.accesses)[s := old(cache.accesses)[s] + [cache.g.Tag(t.addr)]]
                        else old(cache.accesses)
    ensures old(cache.writeBacks) <= cache.writeBacks
    ensures cache.mem.Valid()
    ensures cache.writeBacks == old(cache.writeBacks) ==> cache.mem.View() == old(cache.mem.View())
  {
    hide ReadBytes, WriteBytes, CacheTlm.View, CacheTlm.FollowsFifo, CacheOk, SparseMemory.Valid,
         SparseMemory.View, SparseMemory.Buffers, CacheParams.LineSize, CacheParams.Offset,
         CacheTlm.Balance, CacheTlm.Now, Effect, CacheParams.NumSets, CacheParams.Index, CacheParams.Tag;
    ghost var before := cache.Now();
    EvictionBound(cache);
    CacheShape(cache.g, cache.sets, cache.queues, cache.mem.View());
    var ok, status, out := cache.HandleRequest(t.cmd, t.addr, t.data, t.memOk, t.initial);
    MemoryNeedsWriteBack(cache.g, before, cache.Now(), t.cmd, t.addr, t.data, ok);
    a := Answer(ok, status, out);
  }

  lemma {:induction false} ReadsPrefix(tests: seq<TestTransaction>, n: nat)
    requires n <= |tests|
    ensures FlatReads(Zeroed(), tests[..n]) <= FlatReads(Zeroed(), tests)
    decreases |tests| - n
  {
    if n < |tests| {
      FlatStep(Zeroed(), tests, n);
      ReadsPrefix(tests, n + 1);
    } else {
      assert tests[..n] == tests;
    }
  }
}
