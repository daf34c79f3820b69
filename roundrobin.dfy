/**
 * Round-robin selection (load_balancer.py:24, 48, 72, 94).
 *
 * `itertools.cycle(healthy_servers)` is rebuilt every time the healthy list
 * is rebuilt, and the list is never changed while a cycle over it is in use,
 * so the iterator is exactly a counter of the items it has handed out: the
 * next item is `ring[cursor % |ring|]`.
 */
module RoundRobin {
  import opened Wrappers

  /**
   * What `next(...)` on a cycle over `ring` gives after `cursor` items have
   * been handed out; `None` when the ring is empty (the 503 path).
   */
  function Pick<T>(ring: seq<T>, cursor: nat): (r: Option<T>)
    ensures r.None? <==> ring == []
    ensures r.Some? ==> r.value in ring
  {
    if ring == [] then None else Some(ring[cursor % |ring|])
  }

  /** The items that `n` consecutive selections hand out, starting at `cursor`. */
  function Run<T>(ring: seq<T>, cursor: nat, n: nat): (r: seq<T>)
    requires ring != []
    ensures |r| == n
    ensures forall x :: x in r ==> x in ring
    decreases n
  {
    if n == 0 then [] else [Pick(ring, cursor).value] + Run(ring, cursor + 1, n - 1)
  }

  /** Selection `j` of a run hands out the item `j` places after the cursor, cyclically. */
  lemma {:induction false} RunAt<T>(ring: seq<T>, cursor: nat, n: nat, j: nat)
    requires ring != [] && j < n
    ensures Run(ring, cursor, n)[j] == ring[(cursor + j) % |ring|]
    decreases n
  {
    if j > 0 {
      RunAt(ring, cursor + 1, n - 1, j - 1);
    }
  }

  /** Adding less than one turn to a position is a shift that wraps at most once. */
  lemma ShiftMod(c: nat, j: nat, k: nat)
    requires 0 < k && j < k
    ensures (c + j) % k == if c % k + j < k then c % k + j else c % k + j - k
  {
    var q, m := c / k, c % k;
    assert c == q * k + m;
    assert c + j == (c + j) / k * k + (c + j) % k;
    if m + j < k {
      assert c + j == q * k + (m + j);
      RemainderUnique((c + j) / k, q, k, (c + j) % k, m + j);
    } else {
      assert c + j == (q + 1) * k + (m + j - k);
      RemainderUnique((c + j) / k, q + 1, k, (c + j) % k, m + j - k);
    }
  }

  /** Two ways of writing a number as whole turns plus a remainder agree on the remainder. */
  lemma RemainderUnique(a: int, b: int, k: int, r: int, s: int)
    requires k > 0 && 0 <= r < k && 0 <= s < k && a * k + r == b * k + s
    ensures r == s
  {
    if a > b {
      assert (a - b) * k == a * k - b * k;
      MulAtLeast(a - b, k);
    } else if b > a {
      assert (b - a) * k == b * k - a * k;
      MulAtLeast(b - a, k);
    }
  }

  lemma MulAtLeast(x: int, k: int)
    requires x >= 1 && k > 0
    ensures x * k >= k
  {
  }

  /**
   * One full turn from any cursor hands out the ring rotated to start at the
   * cursor: every position exactly once, in list order.
   */
  lemma FullTurnIsRotation<T>(ring: seq<T>, cursor: nat)
    requires ring != []
    ensures Run(ring, cursor, |ring|) ==
            ring[cursor % |ring|..] + ring[..cursor % |ring|]
  {
    var k, m := |ring|, cursor % |ring|;
    var run, rot := Run(ring, cursor, k), ring[m..] + ring[..m];
    forall j | 0 <= j < k ensures run[j] == rot[j] {
      RunAt(ring, cursor, k, j);
      ShiftMod(cursor, j, k);
    }
  }

  /**
   * Starting from a fresh cycle, selection `i` hands out `ring[i mod k]`, and
   * the first `k` selections are the ring itself.
   */
  lemma FreshCycle<T>(ring: seq<T>, n: nat)
    requires ring != []
    ensures forall i :: 0 <= i < n ==> Run(ring, 0, n)[i] == ring[i % |ring|]
    ensures Run(ring, 0, |ring|) == ring
  {
    forall i | 0 <= i < n ensures Run(ring, 0, n)[i] == ring[i % |ring|] {
      RunAt(ring, 0, n, i);
    }
    FullTurnIsRotation(ring, 0);
  }

  /** Any `k` consecutive selections hand out each position of the ring exactly once. */
  lemma FullTurnIsPermutation<T>(ring: seq<T>, cursor: nat)
    requires ring != []
    ensures multiset(Run(ring, cursor, |ring|)) == multiset(ring)
  {
    var m := cursor % |ring|;
    FullTurnIsRotation(ring, cursor);
    assert ring == ring[..m] + ring[m..];
  }
}
