/**
 * The load balancer's shared state (load_balancer.py:15-24) and the steps
 * that change it: the startup probe pass, one cycle of the background health
 * check, and the selection made by each proxied request.
 *
 * Under asyncio the statements between two `await`s run without
 * interruption. The install of a new healthy list (lines 44-48) and the
 * empty check plus `next` of a request (lines 91-94) contain no `await`, so
 * the whole system is an interleaving of the atomic methods below.
 */
module LoadBalancer {
  import opened Wrappers
  import opened Http
  import opened Health
  import opened RoundRobin
  import opened Proxy

  class Balancer {
    /** `BACKEND_SERVERS`: fixed at startup. */
    const configured: seq<Backend>
    /** `healthy_servers`. */
    var healthy: seq<Backend>
    /** How many items the current `server_iterator` has handed out. */
    var cursor: nat

    /** The healthy list is always an order-preserving subsequence of the configured one. */
    ghost predicate Valid()
      reads this
    {
      IsSubsequence(healthy, configured)
    }

    /**
     * Module load plus `lifespan` (load_balancer.py:23-24, 61-72): the empty
     * list is extended with the result of one probe pass, and a fresh cycle
     * starts over it.
     */
    constructor Start(servers: seq<Backend>, outcomes: seq<ProbeOutcome>)
      requires |outcomes| == |servers|
      ensures Valid()
      ensures configured == servers
      ensures healthy == Survivors(servers, outcomes) && cursor == 0
    {
      configured := servers;
      var initially, _ := ProbePass(servers, outcomes);
      healthy := [] + initially;
      cursor := 0;
      SurvivorsSubsequence(servers, outcomes);
      assert [] + initially == initially;
    }

    /**
     * Lines 44-48: a candidate list replaces the healthy list, and restarts
     * the cycle, only when its members differ as a set; otherwise nothing
     * changes. Either way the members afterwards are the candidate's.
     */
    method Install(candidate: seq<Backend>)
      requires Valid() && IsSubsequence(candidate, configured)
      modifies this
      ensures Valid()
      ensures Members(healthy) == Members(candidate)
      ensures Members(candidate) == old(Members(healthy)) ==>
                healthy == old(healthy) && cursor == old(cursor)
      ensures Members(candidate) != old(Members(healthy)) ==>
                healthy == candidate && cursor == 0
    {
      if Members(candidate) != Members(healthy) {
        healthy := [];
        healthy := healthy + candidate;
        cursor := 0;
        assert healthy == candidate;
      }
    }

    /**
     * One cycle of `health_check_task` (load_balancer.py:33-48): probe every
     * configured backend, then install the result. A backend is healthy
     * afterwards iff its latest probe answered 200; with no backend
     * configured twice, the healthy list is then exactly the pass's result,
     * and whenever the members change it is the pass's result and the cycle
     * restarts.
     */
    method HealthCheckCycle(outcomes: seq<ProbeOutcome>)
      requires Valid() && |outcomes| == |configured|
      modifies this
      ensures Valid()
      ensures Members(healthy) == Members(Survivors(configured, outcomes))
      ensures forall b :: b in healthy <==>
                exists i :: 0 <= i < |configured| && configured[i] == b && Passes(outcomes[i])
      ensures Distinct(configured) ==> healthy == Survivors(configured, outcomes)
      ensures configured == [] ==> healthy == []
      ensures Members(healthy) == old(Members(healthy)) ==>
                healthy == old(healthy) && cursor == old(cursor)
      ensures Members(healthy) != old(Members(healthy)) ==>
                healthy == Survivors(configured, outcomes) && cursor == 0
    {
      var current, _ := ProbePass(configured, outcomes);
      SurvivorsSubsequence(configured, outcomes);
      Install(current);
      forall b ensures b in healthy <==>
          exists i :: 0 <= i < |configured| && configured[i] == b && Passes(outcomes[i])
      {
        assert b in healthy <==> b in Members(healthy);
        assert b in current <==> b in Members(current);
        SurvivorsMembership(configured, outcomes, b);
      }
      if Distinct(configured) {
        SameMembersSameSubsequence(healthy, current, configured);
      }
    }

    /**
     * The empty check and `next(server_iterator)` of `proxy`
     * (load_balancer.py:91-94): nothing when no backend is healthy, otherwise
     * the item at the cursor, which then advances.
     */
    method Select() returns (picked: Option<Backend>)
      requires Valid()
      modifies this`cursor
      ensures Valid()
      ensures picked == Pick(healthy, old(cursor))
      ensures picked.Some? ==> picked.value in healthy && picked.value in configured
      ensures cursor == if healthy == [] then old(cursor) else old(cursor) + 1
    {
      if healthy == [] {
        picked := None;
      } else {
        picked := Some(healthy[cursor % |healthy|]);
        cursor := cursor + 1;
        SubsequenceMembers(healthy, configured);
      }
    }

    /**
     * One request through `proxy` (load_balancer.py:85-129): select, then
     * forward. With no healthy backend the client gets 503 and no upstream
     * request exists; otherwise the one request sent goes to a healthy
     * backend.
     */
    method HandleRequest(req: Inbound, upstream: UpstreamRequest -> Upstream)
      returns (picked: Option<Backend>, x: Exchange)
      requires Valid()
      modifies this`cursor
      ensures Valid()
      ensures picked == Pick(healthy, old(cursor))
      ensures x == Forward(picked, req, upstream)
      ensures healthy == [] ==> x.reply == Unavailable && x.sent.None? && cursor == old(cursor)
      ensures picked.Some? ==> picked.value in healthy && x.sent == Some(BuildUpstream(picked.value, req))
      ensures cursor == if healthy == [] then old(cursor) else old(cursor) + 1
    {
      picked := Select();
      x := Forward(picked, req, upstream);
    }
  }
}
