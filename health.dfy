/**
 * One health-check pass (load_balancer.py:34-42 and 61-69): every configured
 * backend is probed in order, and only the backends whose probe answered
 * HTTP 200 are kept.
 */
module Health {
  import opened Http

  /** A backend is identified by its base URL. */
  type Backend = string

  /**
   * What `session.get(f"{server}/health", timeout=2)` produced: an HTTP
   * status, or one of the two exceptions the source catches.
   */
  datatype ProbeOutcome = Status(code: int) | Timeout | ConnError

  /** `response.status == 200`; any other status and both exceptions fail. */
  predicate Passes(o: ProbeOutcome)
  {
    o.Status? && o.code == 200
  }

  /**
   * The healthy list a pass builds when `outcomes[i]` is the answer to the
   * probe of `servers[i]`.
   */
  function Survivors(servers: seq<Backend>, outcomes: seq<ProbeOutcome>): (r: seq<Backend>)
    requires |outcomes| == |servers|
    ensures |r| <= |servers|
    ensures forall b :: b in r ==> b in servers
    ensures (forall i :: 0 <= i < |servers| ==> Passes(outcomes[i])) ==> r == servers
  {
    if servers == [] then []
    else
      var n := |servers| - 1;
      var kept := Survivors(servers[..n], outcomes[..n]);
      if Passes(outcomes[n]) then kept + [servers[n]] else kept
  }

  /**
   * The positions whose probe passed, in increasing order: an independent
   * description of which backends a pass keeps.
   */
  function PassingPositions(outcomes: seq<ProbeOutcome>): (idx: seq<nat>)
    ensures forall j :: 0 <= j < |idx| ==> idx[j] < |outcomes|
    ensures forall j, l :: 0 <= j < l < |idx| ==> idx[j] < idx[l]
    ensures forall i :: 0 <= i < |outcomes| ==> (i in idx <==> Passes(outcomes[i]))
  {
    if outcomes == [] then []
    else
      var n := |outcomes| - 1;
      var before := PassingPositions(outcomes[..n]);
      if Passes(outcomes[n]) then before + [n] else before
  }

  /**
   * A pass keeps exactly the servers at the passing positions, in configured
   * order: element `j` of the healthy list is the `j`-th server whose probe
   * answered 200.
   */
  lemma {:induction false} SurvivorsArePassingServers(servers: seq<Backend>, outcomes: seq<ProbeOutcome>)
    requires |outcomes| == |servers|
    ensures |Survivors(servers, outcomes)| == |PassingPositions(outcomes)|
    ensures forall j :: 0 <= j < |PassingPositions(outcomes)| ==>
              Survivors(servers, outcomes)[j] == servers[PassingPositions(outcomes)[j]]
  {
    if servers != [] {
      var n := |servers| - 1;
      SurvivorsArePassingServers(servers[..n], outcomes[..n]);
    }
  }

  /** A backend is in the healthy list iff one of its probes in the pass answered 200. */
  lemma {:induction false} SurvivorsMembership(servers: seq<Backend>, outcomes: seq<ProbeOutcome>, b: Backend)
    requires |outcomes| == |servers|
    ensures b in Survivors(servers, outcomes) <==>
            exists i :: 0 <= i < |servers| && servers[i] == b && Passes(outcomes[i])
  {
    SurvivorsArePassingServers(servers, outcomes);
    var s, idx := Survivors(servers, outcomes), PassingPositions(outcomes);
    if b in s {
      var j :| 0 <= j < |s| && s[j] == b;
      assert idx[j] in idx;
    }
    if i :| 0 <= i < |servers| && servers[i] == b && Passes(outcomes[i]) {
      var j :| 0 <= j < |idx| && idx[j] == i;
      assert s[j] == b;
    }
  }

  // ---------------------------------------------------------------------
  // Order-preserving subsequences
  // ---------------------------------------------------------------------

  /** `a` is obtained from `b` by deleting elements, without reordering. */
  predicate IsSubsequence<T(==)>(a: seq<T>, b: seq<T>)
    decreases |b|
  {
    if a == [] then true
    else if b == [] then false
    else if a[|a| - 1] == b[|b| - 1] then IsSubsequence(a[..|a| - 1], b[..|b| - 1])
    else IsSubsequence(a, b[..|b| - 1])
  }

  lemma {:induction false} SubsequenceDropLast<T>(a: seq<T>, b: seq<T>)
    requires a != [] && IsSubsequence(a, b)
    ensures IsSubsequence(a[..|a| - 1], b)
    decreases |b|, 0
  {
    var n := |b| - 1;
    if a[|a| - 1] == b[n] {
      SubsequenceExtend(a[..|a| - 1], b[..n], b[n]);
      assert b[..n] + [b[n]] == b;
    } else {
      SubsequenceDropLast(a, b[..n]);
      SubsequenceExtend(a[..|a| - 1], b[..n], b[n]);
      assert b[..n] + [b[n]] == b;
    }
  }

  lemma {:induction false} SubsequenceExtend<T>(a: seq<T>, b: seq<T>, x: T)
    requires IsSubsequence(a, b)
    ensures IsSubsequence(a, b + [x])
    decreases |b|, 1
  {
    assert (b + [x])[..|b|] == b;
    if a != [] && a[|a| - 1] == x {
      SubsequenceDropLast(a, b);
    }
  }

  /** Every element of a subsequence is an element of the whole. */
  lemma {:induction false} SubsequenceMembers<T>(a: seq<T>, b: seq<T>)
    requires IsSubsequence(a, b)
    ensures forall x :: x in a ==> x in b
  {
    if a != [] {
      var n := |b| - 1;
      if a[|a| - 1] == b[n] {
        SubsequenceMembers(a[..|a| - 1], b[..n]);
        assert a == a[..|a| - 1] + [a[|a| - 1]];
      } else {
        SubsequenceMembers(a, b[..n]);
      }
    }
  }

  /**
   * The healthy list of a pass is an order-preserving subsequence of the
   * configured list, so a subset of it, and empty when nothing is configured.
   */
  lemma {:induction false} SurvivorsSubsequence(servers: seq<Backend>, outcomes: seq<ProbeOutcome>)
    requires |outcomes| == |servers|
    ensures IsSubsequence(Survivors(servers, outcomes), servers)
    ensures forall b :: b in Survivors(servers, outcomes) ==> b in servers
  {
    if servers != [] {
      var n := |servers| - 1;
      var kept := Survivors(servers[..n], outcomes[..n]);
      SurvivorsSubsequence(servers[..n], outcomes[..n]);
      assert servers[..n] + [servers[n]] == servers;
      if Passes(outcomes[n]) {
        assert (kept + [servers[n]])[..|kept|] == kept;
      } else {
        SubsequenceExtend(kept, servers[..n], servers[n]);
      }
    }
    SubsequenceMembers(Survivors(servers, outcomes), servers);
  }

  /** No backend is configured twice. */
  predicate Distinct<T(==)>(s: seq<T>)
  {
    forall i, j :: 0 <= i < j < |s| ==> s[i] != s[j]
  }

  /** The set of elements of a list: Python's `set(...)`. */
  function Members<T>(s: seq<T>): set<T>
  {
    set x | x in s
  }

  /**
   * Over a configured list without repetitions, two subsequences with the
   * same members are the same list: comparing healthy lists as sets loses
   * nothing.
   */
  lemma {:induction false} SameMembersSameSubsequence<T>(a: seq<T>, b: seq<T>, c: seq<T>)
    requires Distinct(c) && IsSubsequence(a, c) && IsSubsequence(b, c)
    requires Members(a) == Members(b)
    ensures a == b
    decreases |c|
  {
    if c != [] {
      var n := |c| - 1;
      var x, rest := c[n], c[..n];
      PeelLast(a, c);
      PeelLast(b, c);
      assert x in a <==> x in Members(a);
      assert x in b <==> x in Members(b);
      if x in a {
        SameMembersSameSubsequence(a[..|a| - 1], b[..|b| - 1], rest);
        assert a == a[..|a| - 1] + [x] && b == b[..|b| - 1] + [x];
      } else {
        SameMembersSameSubsequence(a, b, rest);
      }
    }
  }

  /**
   * Removing the last configured element from a subsequence of a list
   * without repeats: if it is there, it is the subsequence's last element.
   */
  lemma PeelLast<T>(a: seq<T>, c: seq<T>)
    requires c != [] && Distinct(c) && IsSubsequence(a, c)
    ensures Distinct(c[..|c| - 1])
    ensures c[|c| - 1] in a ==>
              a[|a| - 1] == c[|c| - 1] && IsSubsequence(a[..|a| - 1], c[..|c| - 1]) &&
              Members(a[..|a| - 1]) == Members(a) - {c[|c| - 1]}
    ensures c[|c| - 1] !in a ==> IsSubsequence(a, c[..|c| - 1])
  {
    var n := |c| - 1;
    assert c[n] !in c[..n] by {
      forall i | 0 <= i < n ensures c[..n][i] != c[n] {
        assert c[..n][i] == c[i];
      }
    }
    if c[n] in a {
      LastIsTop(a, c);
      var a' := a[..|a| - 1];
      SubsequenceMembers(a', c[..n]);
      assert a == a' + [c[n]];
      assert Members(a') == Members(a) - {c[n]};
    } else if a != [] {
      assert a[|a| - 1] in a;
    }
  }

  /** When the last configured element is in a subsequence, it ends it. */
  lemma LastIsTop<T>(a: seq<T>, c: seq<T>)
    requires c != [] && Distinct(c) && IsSubsequence(a, c) && c[|c| - 1] in a
    ensures a[|a| - 1] == c[|c| - 1] && IsSubsequence(a[..|a| - 1], c[..|c| - 1])
  {
    var n := |c| - 1;
    assert c[n] !in c[..n] by {
      forall i | 0 <= i < n ensures c[..n][i] != c[n] {
        assert c[..n][i] == c[i];
      }
    }
    if a[|a| - 1] != c[n] {
      SubsequenceMembers(a, c[..n]);
    }
  }

  /**
   * The probe pass itself: walk the configured list in order, probe
   * `ProbeUrl(server)` and append the server when the answer is 200. Returns
   * the healthy list and the URLs probed, one per configured server.
   */
  method ProbePass(servers: seq<Backend>, outcomes: seq<ProbeOutcome>)
    returns (healthy: seq<Backend>, probed: seq<string>)
    requires |outcomes| == |servers|
    ensures healthy == Survivors(servers, outcomes)
    ensures |probed| == |servers|
    ensures forall i :: 0 <= i < |servers| ==> probed[i] == ProbeUrl(servers[i])
  {
    healthy, probed := [], [];
    var i := 0;
    while i < |servers|
      invariant 0 <= i <= |servers|
      invariant healthy == Survivors(servers[..i], outcomes[..i])
      invariant |probed| == i
      invariant forall j :: 0 <= j < i ==> probed[j] == ProbeUrl(servers[j])
    {
      probed := probed + [ProbeUrl(servers[i])];
      assert servers[..i + 1][..i] == servers[..i];
      assert outcomes[..i + 1][..i] == outcomes[..i];
      if Passes(outcomes[i]) {
        healthy := healthy + [servers[i]];
      }
      i := i + 1;
    }
    assert servers[..i] == servers && outcomes[..i] == outcomes;
  }
}
