/** The replacement policies of the three caches: the queue with a search for an empty way
    (TLM), the pointer with the same search (reference model) and the bare wrapping counter
    (hardware). They pick the same ways, and they make every set a window onto the lines it
    missed last. */
module Replacement {
  import opened Bits

  /** The first way whose valid bit is clear, or the number of ways. */
  function FirstInvalid(valid: seq<bool>): (i: nat)
    ensures i <= |valid|
    ensures i < |valid| ==> !valid[i]
    ensures forall j :: 0 <= j < i ==> valid[j]
  {
    if |valid| == 0 || !valid[0] then 0 else 1 + FirstInvalid(valid[1..])
  }

  lemma FirstInvalidAt(valid: seq<bool>, i: nat)
    requires i <= |valid| && (i < |valid| ==> !valid[i])
    requires forall j :: 0 <= j < i ==> valid[j]
    ensures FirstInvalid(valid) == i
  {
    var f := FirstInvalid(valid);
    assert f < |valid| ==> !valid[f];
    assert i < |valid| ==> !valid[i];
  }

  predicate Full(valid: seq<bool>) {
    FirstInvalid(valid) == |valid|
  }

  /** TLM: fill an empty way and queue it, or take the head of the queue and queue it again. */
  function TlmAlloc(valid: seq<bool>, queue: seq<nat>): (r: (nat, seq<nat>))
    requires Full(valid) ==> |queue| > 0
  {
    if Full(valid) then (queue[0], queue[1..] + [queue[0]])
    else (FirstInvalid(valid), queue + [FirstInvalid(valid)])
  }

  /** Reference model: fill an empty way, else the way under the pointer. */
  function RefAlloc(valid: seq<bool>, ptr: nat): nat {
    if Full(valid) then ptr else FirstInvalid(valid)
  }

  /** Reference model: the pointer is a register of $clog2(ways) bits. */
  function RefAdvance(ways: nat, ptr: nat): nat {
    var next := (ptr + 1) % Pow2(Clog2(ways));
    if next >= ways then 0 else next
  }

  /** Hardware counter, stepped when a line is filled. */
  function CounterNext(ways: nat, ptr: nat): nat
    requires ways > 0
  {
    if ptr == ways - 1 then 0 else ptr + 1
  }

  /** The register width never shows: both pointers count modulo the number of ways. */
  lemma PointersAgree(ways: nat, ptr: nat)
    requires ptr < ways
    ensures RefAdvance(ways, ptr) == CounterNext(ways, ptr) == (ptr + 1) % ways
  {
    var span := Pow2(Clog2(ways));
    if ptr + 1 < span {
      DivModUnique(ptr + 1, span, 0, ptr + 1);
    } else {
      DivModUnique(ptr + 1, span, 1, 0);
    }
    if ptr + 1 < ways {
      DivModUnique(ptr + 1, ways, 0, ptr + 1);
    } else {
      DivModUnique(ptr + 1, ways, 1, 0);
    }
  }

  // ---- Misses alone: the three policies run side by side -----------------------------

  /** What each policy holds about one set: which ways it has filled, and its order. */
  datatype Policies = Policies(
    tlmValid: seq<bool>, queue: seq<nat>, refValid: seq<bool>, refPtr: nat, counter: nat)
  {
    ghost predicate CanAlloc(ways: nat) {
      && ways > 0
      && |tlmValid| == ways && |refValid| == ways
      && (Full(tlmValid) ==> |queue| > 0)
      && (forall j :: 0 <= j < |queue| ==> queue[j] < ways)
      && refPtr < ways && counter < ways
    }

    ghost function TlmWay(ways: nat): nat
      requires CanAlloc(ways)
    {
      TlmAlloc(tlmValid, queue).0
    }

    ghost function RefWay(ways: nat): nat {
      RefAlloc(refValid, refPtr)
    }

    /** One miss, each policy filling the way it picks itself. */
    ghost function Miss(ways: nat): (r: Policies)
      requires CanAlloc(ways)
      ensures r.CanAlloc(ways)
    {
      PointersAgree(ways, refPtr);
      PointersAgree(ways, counter);
      Policies(tlmValid[TlmWay(ways) := true], TlmAlloc(tlmValid, queue).1,
               refValid[RefWay(ways) := true], RefAdvance(ways, refPtr),
               CounterNext(ways, counter))
    }
  }

  ghost function AfterMisses(ways: nat, k: nat): (r: Policies)
    requires ways > 0
    ensures r.CanAlloc(ways)
  {
    if k == 0 then
      var empty := seq(ways, _ => false);
      Policies(empty, [], empty, 0, 0)
    else AfterMisses(ways, k - 1).Miss(ways)
  }

  ghost function Filled(ways: nat, k: nat): nat {
    if k < ways then k else ways
  }

  /** The ways of the last min(k, ways) misses, oldest first. */
  ghost function Window(ways: nat, k: nat): seq<nat>
    requires ways > 0
  {
    var m := Filled(ways, k);
    seq(m, j requires 0 <= j < m => (k - m + j) % ways)
  }

  lemma ModNext(k: nat, ways: nat)
    requires ways > 0
    ensures (k + 1) % ways == if k % ways == ways - 1 then 0 else k % ways + 1
  {
    DivMod(k, ways);
    var q, r := k / ways, k % ways;
    if r + 1 < ways {
      DivModUnique(k + 1, ways, q, r + 1);
    } else {
      assert q * ways + ways == (q + 1) * ways;
      DivModUnique(k + 1, ways, q + 1, 0);
    }
  }

  lemma ModPeriod(k: nat, ways: nat)
    requires ways > 0
    ensures (k + ways) % ways == k % ways
  {
    DivMod(k, ways);
    var q, r := k / ways, k % ways;
    assert q * ways + ways == (q + 1) * ways;
    DivModUnique(k + ways, ways, q + 1, r);
  }

  lemma ModSmall(k: nat, ways: nat)
    requires k < ways
    ensures k % ways == k
  {
    DivModUnique(k, ways, 0, k);
  }

  /** Two numbers less than `ways` apart have different remainders. */
  lemma ModDistinct(i: nat, k: nat, ways: nat)
    requires i < k < i + ways
    ensures i % ways != k % ways
  {
    if i % ways == k % ways {
      DivMod(i, ways);
      DivMod(k, ways);
      var a, b := i / ways, k / ways;
      if b <= a {
        MulLe(b, a, ways);
      } else {
        MulLe(a + 1, b, ways);
      }
      assert false;
    }
  }

  lemma WindowNext(ways: nat, k: nat)
    requires ways > 0
    ensures k < ways ==> Window(ways, k + 1) == Window(ways, k) + [k % ways]
    ensures k >= ways ==>
      && |Window(ways, k)| == ways && Window(ways, k)[0] == k % ways
      && Window(ways, k + 1) == Window(ways, k)[1..] + [k % ways]
  {
    if k >= ways {
      ModPeriod(k - ways, ways);
    }
  }

  lemma FirstInvalidPrefix(valid: seq<bool>, k: nat)
    requires forall i :: 0 <= i < |valid| ==> (valid[i] <==> i < k)
    ensures FirstInvalid(valid) == Filled(|valid|, k)
  {
    assert k < |valid| ==> !valid[k];
  }

  /** All three policies put miss number k into way k mod ways, for every k. The valid ways
      are always the first min(k, ways), the queue lists the ways of the last misses oldest
      first, and pointer and counter are k mod ways. */
  lemma {:induction false} PoliciesAgree(ways: nat, k: nat)
    requires ways > 0
    ensures var s := AfterMisses(ways, k);
      && s.TlmWay(ways) == s.RefWay(ways) == s.counter == k % ways
      && s.tlmValid == s.refValid
      && (forall i :: 0 <= i < ways ==> (s.tlmValid[i] <==> i < k))
      && s.queue == Window(ways, k)
      && s.refPtr == k % ways
  {
    hide Policies.Miss, TlmAlloc, FirstInvalid, CounterNext, RefAdvance;
    if k > 0 {
      PoliciesAgree(ways, k - 1);
      PoliciesAgreeNext(ways, AfterMisses(ways, k - 1), k - 1);
    }
    ModSmall(0, ways);
    AllocAt(ways, AfterMisses(ways, k), k);
  }

  /** The state of the three policies after k misses, in closed form. */
  ghost predicate InStep(ways: nat, s: Policies, k: nat)
    requires ways > 0
  {
    && s.CanAlloc(ways)
    && s.tlmValid == s.refValid
    && (forall i :: 0 <= i < ways ==> (s.tlmValid[i] <==> i < k))
    && s.queue == Window(ways, k)
    && s.refPtr == s.counter == k % ways
  }

  lemma AllocAt(ways: nat, s: Policies, k: nat)
    requires ways > 0 && InStep(ways, s, k)
    ensures s.TlmWay(ways) == s.RefWay(ways) == k % ways
    ensures TlmAlloc(s.tlmValid, s.queue).1 == Window(ways, k + 1)
  {
    FirstInvalidPrefix(s.tlmValid, k);
    WindowNext(ways, k);
    if k < ways {
      ModSmall(k, ways);
    }
  }

  lemma PoliciesAgreeNext(ways: nat, s: Policies, k: nat)
    requires ways > 0 && InStep(ways, s, k)
    ensures InStep(ways, s.Miss(ways), k + 1)
  {
    AllocAt(ways, s, k);
    ModNext(k, ways);
    PointersAgree(ways, k % ways);
    if k < ways {
      ModSmall(k, ways);
    }
  }

  // ---- Hits and misses: which lines a set holds --------------------------------------

  /** The tags in the ways of a set (None: the way is empty) and its queue. */
  datatype TagSet = TagSet(ways: seq<Tagged>, queue: seq<nat>)

  datatype Tagged = Empty | Holds(tag: nat)

  predicate Resident(s: TagSet, tag: nat) {
    Holds(tag) in s.ways
  }

  function ValidBits(ways: seq<Tagged>): (v: seq<bool>)
    ensures |v| == |ways| && forall i :: 0 <= i < |v| ==> v[i] == ways[i].Holds?
  {
    seq(|ways|, i requires 0 <= i < |ways| => ways[i].Holds?)
  }

  predicate Usable(s: TagSet) {
    && |s.ways| > 0
    && (Full(ValidBits(s.ways)) ==> |s.queue| > 0)
    && forall j :: 0 <= j < |s.queue| ==> s.queue[j] < |s.ways|
  }

  /** A hit leaves a set alone; a miss puts the line into the way the TLM policy picks. */
  function Access(s: TagSet, tag: nat): (r: TagSet)
    requires Usable(s)
    ensures Usable(r) && |r.ways| == |s.ways| && Resident(r, tag)
  {
    if Resident(s, tag) then s
    else
      var (way, queue) := TlmAlloc(ValidBits(s.ways), s.queue);
      var r := TagSet(s.ways[way := Holds(tag)], queue);
      assert r.ways[way] == Holds(tag);
      r
  }

  ghost function EmptySet(ways: nat): TagSet {
    TagSet(seq(ways, _ => Empty), [])
  }

  ghost function AfterAccesses(ways: nat, tags: seq<nat>): (s: TagSet)
    requires ways > 0
    ensures Usable(s) && |s.ways| == ways
    decreases |tags|
  {
    if |tags| == 0 then EmptySet(ways)
    else Access(AfterAccesses(ways, tags[..|tags| - 1]), tags[|tags| - 1])
  }

  /** The accesses that missed, oldest first. */
  ghost function Missed(ways: nat, tags: seq<nat>): seq<nat>
    requires ways > 0
    decreases |tags|
  {
    if |tags| == 0 then []
    else
      var before, tag := tags[..|tags| - 1], tags[|tags| - 1];
      Missed(ways, before) +
      if Resident(AfterAccesses(ways, before), tag) then [] else [tag]
  }

  /** The set holds exactly the window of the last misses: miss number i sits in way
      i mod ways, nothing else is resident, the queue lists those ways oldest first, and
      a tag is missed again only after `ways` other misses. */
  ghost predicate HoldsWindow(s: TagSet, missed: seq<nat>) {
    var ways, k := |s.ways|, |missed|;
    && ways > 0
    && (forall w :: 0 <= w < ways ==> (s.ways[w].Holds? <==> w < k))
    && (forall i :: 0 <= i < k < i + ways + 1 ==> s.ways[i % ways] == Holds(missed[i]))
    && (forall i, j :: 0 <= i < j < k && j <= i + ways ==> missed[i] != missed[j])
    && s.queue == Window(ways, k)
  }

  lemma {:induction false} FifoResidency(ways: nat, tags: seq<nat>)
    requires ways > 0
    ensures HoldsWindow(AfterAccesses(ways, tags), Missed(ways, tags))
    decreases |tags|
  {
    if |tags| > 0 {
      var before, tag := tags[..|tags| - 1], tags[|tags| - 1];
      FifoResidency(ways, before);
      var s := AfterAccesses(ways, before);
      if !Resident(s, tag) {
        MissKeepsWindow(s, Missed(ways, before), tag);
      }
    }
  }

  /** Where a miss puts its line, and what it does to the queue. */
  lemma MissFillsSlot(s: TagSet, missed: seq<nat>, tag: nat)
    requires Usable(s) && HoldsWindow(s, missed) && !Resident(s, tag)
    ensures Access(s, tag).ways == s.ways[|missed| % |s.ways| := Holds(tag)]
    ensures Access(s, tag).queue == Window(|s.ways|, |missed| + 1)
  {
    var ways, k := |s.ways|, |missed|;
    FirstInvalidPrefix(ValidBits(s.ways), k);
    WindowNext(ways, k);
    if k < ways {
      ModSmall(k, ways);
    }
  }

  lemma MissKeepsWindow(s: TagSet, missed: seq<nat>, tag: nat)
    requires Usable(s) && HoldsWindow(s, missed) && !Resident(s, tag)
    ensures HoldsWindow(Access(s, tag), missed + [tag])
    ensures Access(s, tag).ways == s.ways[|missed| % |s.ways| := Holds(tag)]
  {
    hide Access, Window, TlmAlloc, FirstInvalid, ValidBits;
    var ways, k := |s.ways|, |missed|;
    MissFillsSlot(s, missed, tag);
    if k < ways {
      ModSmall(k, ways);
    }
    var after := missed + [tag];
    forall i | 0 <= i < k && k + 1 < i + ways + 1
      ensures Access(s, tag).ways[i % ways] == Holds(after[i])
    {
      ModDistinct(i, k, ways);
    }
    forall i | 0 <= i < k <= i + ways
      ensures missed[i] != tag
    {
      assert s.ways[i % ways] == Holds(missed[i]);
    }
  }

  /** Every occupied way is the slot of one of the last misses. */
  lemma SlotInWindow(w: nat, ways: nat, k: nat) returns (i: nat)
    requires w < ways && w < k
    ensures i < k <= i + ways && i % ways == w
  {
    var q := (k - 1 - w) / ways;
    DivMod(k - 1 - w, ways);
    i := q * ways + w;
    DivModUnique(i, ways, q, w);
  }

  /** Exactly the tags of the last min(k, ways) misses are resident. */
  lemma ResidentIffRecentMiss(ways: nat, tags: seq<nat>, tag: nat)
    requires ways > 0
    ensures var missed := Missed(ways, tags);
      Resident(AfterAccesses(ways, tags), tag)
      <==> tag in missed[|missed| - Filled(ways, |missed|)..]
  {
    FifoResidency(ways, tags);
    var s, missed := AfterAccesses(ways, tags), Missed(ways, tags);
    var k := |missed|;
    var recent := missed[k - Filled(ways, k)..];
    if Resident(s, tag) {
      var w :| 0 <= w < ways && s.ways[w] == Holds(tag);
      var i := SlotInWindow(w, ways, k);
      assert recent[i - (k - Filled(ways, k))] == missed[i] == tag;
    }
    if tag in recent {
      var j :| 0 <= j < |recent| && recent[j] == tag;
      var i := k - Filled(ways, k) + j;
      assert s.ways[i % ways] == Holds(missed[i]);
    }
  }

  lemma {:induction false} MissedPrefix(ways: nat, tags: seq<nat>, more: seq<nat>)
    requires ways > 0
    ensures Missed(ways, tags) <= Missed(ways, tags + more)
    decreases |more|
  {
    if |more| == 0 {
      assert tags + more == tags;
    } else {
      var m := |more| - 1;
      assert (tags + more)[..|tags + more| - 1] == tags + more[..m];
      MissedPrefix(ways, tags, more[..m]);
    }
  }

  lemma MissedOneMore(ways: nat, before: seq<nat>, tag: nat)
    requires ways > 0 && !Resident(AfterAccesses(ways, before), tag)
    ensures Missed(ways, before + [tag]) == Missed(ways, before) + [tag]
  {
    assert (before + [tag])[..|before|] == before;
  }

  /** A line filled by a miss survives ways - 1 further misses of its set, and the next
      miss evicts it. */
  lemma FilledLineSurvives(ways: nat, before: seq<nat>, tag: nat, after: seq<nat>)
    requires ways > 0 && !Resident(AfterAccesses(ways, before), tag)
    ensures var all := before + [tag] + after;
      var further := |Missed(ways, all)| - |Missed(ways, before + [tag])|;
      && 0 <= further
      && (further < ways ==> Resident(AfterAccesses(ways, all), tag))
      && (further == ways ==> !Resident(AfterAccesses(ways, all), tag))
  {
    hide AfterAccesses, Missed, Resident, Window;
    var filled := before + [tag];
    var i := |Missed(ways, before)|;
    MissedOneMore(ways, before, tag);
    MissedPrefix(ways, filled, after);
    var all := filled + after;
    var missed := Missed(ways, all);
    assert missed[i] == tag && |Missed(ways, filled)| == i + 1;
    FifoResidency(ways, all);
    ResidentIffRecentMiss(ways, all, tag);
    var k := |missed|;
    var from := k - Filled(ways, k);
    if k <= i + ways {
      assert missed[from..][i - from] == missed[i];
    } else if k == i + 1 + ways {
      forall j | 0 <= j < ways ensures missed[from..][j] != tag {
        assert missed[i] != missed[from + j];
      }
    }
  }

  /** How many lines the misses have pushed out of a set. */
  ghost function Evicted(ways: nat, tags: seq<nat>): nat
    requires ways > 0
  {
    var k := |Missed(ways, tags)|;
    if k > ways then k - ways else 0
  }

  /** A line is pushed out exactly by a miss in a full set. */
  lemma EvictedNext(ways: nat, tags: seq<nat>, tag: nat)
    requires ways > 0
    ensures var s := AfterAccesses(ways, tags);
      Evicted(ways, tags + [tag]) == Evicted(ways, tags) + Bit(Full(ValidBits(s.ways)) && !Resident(s, tag))
  {
    hide Window, Resident, AfterAccesses;
    var s := AfterAccesses(ways, tags);
    FifoResidency(ways, tags);
    FirstInvalidPrefix(ValidBits(s.ways), |Missed(ways, tags)|);
    assert (tags + [tag])[..|tags|] == tags;
  }
}
