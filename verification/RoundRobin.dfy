/** The round-robin arbiter: it searches the requests cyclically from the place after the last
    grant. Nobody who keeps requesting waits for more than N arbitrations. N is arbitrary. */
module RoundRobin {
  import opened Bits

  /** The index looked at in step i of the search. */
  function Candidate(n: nat, last: nat, i: nat): nat
    requires n > 0
  {
    (last + 1 + i) % n
  }

  /** How many places a search starting after `last` passes before it reaches j. */
  function Distance(n: nat, last: nat, j: nat): int {
    if j > last then j - last - 1 else j + n - last - 1
  }

  lemma CandidateAt(n: nat, last: nat, i: nat)
    requires last < n && i < n
    ensures Candidate(n, last, i) < n && Distance(n, last, Candidate(n, last, i)) == i
  {
    if last + 1 + i < n {
      DivModUnique(last + 1 + i, n, 0, last + 1 + i);
    } else {
      DivModUnique(last + 1 + i, n, 1, last + 1 + i - n);
    }
  }

  lemma CandidateOf(n: nat, last: nat, j: nat)
    requires last < n && j < n
    ensures 0 <= Distance(n, last, j) < n && Candidate(n, last, Distance(n, last, j)) == j
  {
    CandidateAt(n, last, Distance(n, last, j));
  }

  /** The requester the search meets first. */
  ghost predicate IsWinner(request: seq<bool>, last: nat, w: nat) {
    && w < |request| && request[w]
    && forall j :: 0 <= j < |request| && request[j] ==> Distance(|request|, last, w) <= Distance(|request|, last, j)
  }

  /** Going up from last + 1, and around from the end to 0, nobody requests before w. */
  ghost predicate FirstUpwards(request: seq<bool>, last: nat, w: nat) {
    forall j :: 0 <= j < |request| && request[j] ==>
      if last < w then j <= last || w <= j else w <= j <= last
  }

  /** The winner is the first requester upwards: request (last + 1 + d) % N for some d below
      N, and those at (last + 1 + k) % N for k below d are not raised. */
  lemma WinnerIsFirst(request: seq<bool>, last: nat, w: nat) returns (d: nat)
    requires last < |request| && IsWinner(request, last, w)
    ensures FirstUpwards(request, last, w)
    ensures d < |request| && w == (last + 1 + d) % |request|
  {
    CandidateOf(|request|, last, w);
    d := Distance(|request|, last, w);
  }

  lemma PassedOver(request: seq<bool>, last: nat, w: nat, d: nat, k: nat)
    requires last < |request| && IsWinner(request, last, w)
    requires k < d < |request| && w == (last + 1 + d) % |request|
    ensures !request[(last + 1 + k) % |request|]
  {
    CandidateAt(|request|, last, d);
    CandidateAt(|request|, last, k);
  }

  predicate AnyRequest(request: seq<bool>) {
    exists j :: 0 <= j < |request| && request[j]
  }

  /** The search from step i on. */
  function Search(request: seq<bool>, last: nat, i: nat): (w: nat)
    requires last < |request| && i <= |request|
    decreases |request| - i
  {
    if i == |request| then last
    else if request[SearchIndex(|request|, last, i)] then SearchIndex(|request|, last, i)
    else Search(request, last, i + 1)
  }

  function SearchIndex(n: nat, last: nat, i: nat): (c: nat)
    requires last < n && i < n
    ensures c < n
  {
    CandidateAt(n, last, i);
    Candidate(n, last, i)
  }

  lemma {:induction false} SearchFindsWinner(request: seq<bool>, last: nat, i: nat)
    requires last < |request| && i <= |request| && AnyRequest(request)
    requires forall j :: 0 <= j < |request| && request[j] ==> i <= Distance(|request|, last, j)
    ensures IsWinner(request, last, Search(request, last, i))
    decreases |request| - i
  {
    hide Candidate;
    var n := |request|;
    var j0 :| 0 <= j0 < n && request[j0];
    CandidateOf(n, last, j0);
    var c := SearchIndex(n, last, i);
    CandidateAt(n, last, i);
    if !request[c] {
      forall j | 0 <= j < n && request[j] ensures i + 1 <= Distance(n, last, j) {
        CandidateOf(n, last, j);
      }
      SearchFindsWinner(request, last, i + 1);
    }
  }

  lemma DistanceBounds(n: nat, last: nat, j: nat)
    requires last < n && j < n
    ensures 0 <= Distance(n, last, j) < n
  {}

  // ---- Runs --------------------------------------------------------------------------

  datatype Input = Input(enable: bool, request: seq<bool>)

  predicate Arbitrates(e: Input) {
    e.enable && AnyRequest(e.request)
  }

  /** last_grant after an edge; grant takes the same value when an arbitration happens. */
  function NextLast(last: nat, e: Input): (r: nat)
    requires last < |e.request|
    ensures r < |e.request|
  {
    if Arbitrates(e) then
      SearchInRange(e.request, last, 0);
      Search(e.request, last, 0)
    else last
  }

  lemma {:induction false} SearchInRange(request: seq<bool>, last: nat, i: nat)
    requires last < |request| && i <= |request|
    ensures Search(request, last, i) < |request|
    decreases |request| - i
  {
    if i < |request| {
      SearchInRange(request, last, i + 1);
    }
  }

  lemma NextIsWinner(last: nat, e: Input)
    requires last < |e.request| && Arbitrates(e)
    ensures IsWinner(e.request, last, NextLast(last, e))
  {
    forall j | 0 <= j < |e.request| ensures 0 <= Distance(|e.request|, last, j) {
      DistanceBounds(|e.request|, last, j);
    }
    SearchFindsWinner(e.request, last, 0);
  }

  ghost predicate Width(n: nat, es: seq<Input>) {
    n > 0 && forall k :: 0 <= k < |es| ==> |es[k].request| == n
  }

  /** The indices granted along a run, in order. */
  ghost function Grants(n: nat, last: nat, es: seq<Input>): seq<nat>
    requires Width(n, es) && last < n
    decreases |es|
  {
    if |es| == 0 then []
    else
      (if Arbitrates(es[0]) then [NextLast(last, es[0])] else [])
      + Grants(n, NextLast(last, es[0]), es[1..])
  }

  /** Granting another requester brings a waiting one closer. */
  lemma GrantComesCloser(last: nat, e: Input, j: nat)
    requires last < |e.request| && e.enable && j < |e.request| && e.request[j]
    ensures Arbitrates(e)
    ensures var w := NextLast(last, e);
      w == j || Distance(|e.request|, w, j) < Distance(|e.request|, last, j)
  {
    NextIsWinner(last, e);
  }

  /** Enabled arbitrations along a run. */
  ghost function Enabled(es: seq<Input>): nat {
    if |es| == 0 then 0 else (if es[0].enable then 1 else 0) + Enabled(es[1..])
  }

  /** An index that requests throughout is granted within as many enabled arbitrations as it
      is places away, at most N. */
  lemma {:induction false} BoundedWaiting(n: nat, last: nat, es: seq<Input>, j: nat)
    requires Width(n, es) && last < n && j < n
    requires forall k :: 0 <= k < |es| ==> es[k].request[j]
    requires Enabled(es) > Distance(n, last, j)
    ensures Distance(n, last, j) < n
    ensures j in Grants(n, last, es)
    decreases |es|
  {
    hide Search, IsWinner;
    DistanceBounds(n, last, j);
    if es[0].enable {
      GrantComesCloser(last, es[0], j);
      var w := NextLast(last, es[0]);
      if w != j {
        BoundedWaiting(n, w, es[1..], j);
      }
    } else {
      BoundedWaiting(n, last, es[1..], j);
    }
  }

  /** So N enabled arbitrations always suffice. */
  lemma GrantedWithinN(n: nat, last: nat, es: seq<Input>, j: nat)
    requires Width(n, es) && last < n && j < n
    requires forall k :: 0 <= k < |es| ==> es[k].request[j]
    requires Enabled(es) >= n
    ensures j in Grants(n, last, es)
  {
    DistanceBounds(n, last, j);
    BoundedWaiting(n, last, es, j);
  }

  /** While an index waits, every grant goes to someone nearer to it than the one before, so
      nobody is granted twice past it. */
  lemma {:induction false} NoOneOvertakesTwice(n: nat, last: nat, es: seq<Input>, j: nat)
    requires Width(n, es) && last < n && j < n
    requires forall k :: 0 <= k < |es| ==> es[k].request[j]
    requires j !in Grants(n, last, es)
    ensures var g := Grants(n, last, es);
      && (forall k :: 0 <= k < |g| ==> Distance(n, g[k], j) < Distance(n, last, j))
      && (forall k, l :: 0 <= k < l < |g| ==> g[k] != g[l])
    decreases |es|
  {
    hide Search, IsWinner;
    if |es| > 0 {
      var next := NextLast(last, es[0]);
      if es[0].enable {
        GrantComesCloser(last, es[0], j);
        assert Grants(n, last, es)[0] == next;
      }
      assert forall x :: x in Grants(n, next, es[1..]) ==> x in Grants(n, last, es);
      NoOneOvertakesTwice(n, next, es[1..], j);
    }
  }

  class RoundRobinArb {
    const n: nat
    var grant: nat
    var lastGrant: nat

    ghost predicate Valid()
      reads this
    {
      lastGrant < n && grant < n
    }

    constructor (n: nat)
      requires n > 0
      ensures Valid() && this.n == n && grant == lastGrant == 0
    {
      this.n := n;
      grant, lastGrant := 0, 0;
    }

    /** One clock edge: on an enabled arbitration the first requester met going up from the
        place after the last grant, around the end, is granted; otherwise nothing changes. */
    method Clock(enable: bool, request: seq<bool>)
      requires Valid() && |request| == n
      modifies this
      ensures Valid() && lastGrant == NextLast(old(lastGrant), Input(enable, request))
      ensures if enable && AnyRequest(request)
              then grant == lastGrant && IsWinner(request, old(lastGrant), grant)
              else grant == old(grant) && lastGrant == old(lastGrant)
      ensures enable && AnyRequest(request) ==> request[grant] && FirstUpwards(request, old(lastGrant), grant)
    {
      hide Search, Candidate;
      ghost var last := lastGrant;
      if enable && AnyRequest(request) {
        ghost var w := NextLast(last, Input(enable, request));
        NextIsWinner(last, Input(enable, request));
        CandidateOf(n, last, w);
        ghost var _ := WinnerIsFirst(request, last, w);
        var i := 0;
        while i < n
          invariant 0 <= i <= Distance(n, last, w) && lastGrant == last
        {
          CandidateAt(n, last, i);
          var c := Candidate(n, lastGrant, i);
          if request[c] {
            grant, lastGrant := c, c;
            break;
          }
          i := i + 1;
        }
      }
    }
  }
}
