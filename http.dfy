/**
 * Header and URL handling of the proxy (load_balancer.py).
 *
 * Headers arrive as a sequence of (name, value) pairs, duplicates allowed.
 * The source turns them into a Python dict with a comprehension, so a name
 * that occurs twice keeps the position of its first occurrence and the value
 * of its last one. That dict is modelled as an association list with
 * distinct names (`Put`, `DictOf`).
 */
module Http {
  import opened Wrappers

  type Header = (string, string)
  type Headers = seq<Header>

  // ---------------------------------------------------------------------
  // ASCII case folding (`str.lower()` on header names)
  // ---------------------------------------------------------------------

  predicate IsUpper(c: char) { 'A' <= c <= 'Z' }

  function LowerChar(c: char): char
  {
    if IsUpper(c) then (c as int - 'A' as int + 'a' as int) as char else c
  }

  /** The name with every ASCII capital replaced by its small letter. */
  function Lower(s: string): (r: string)
    ensures |r| == |s|
    ensures forall i :: 0 <= i < |r| ==> !IsUpper(r[i])
    ensures forall i :: 0 <= i < |r| ==> r[i] == LowerChar(s[i])
  {
    seq(|s|, i requires 0 <= i < |s| => LowerChar(s[i]))
  }

  // ---------------------------------------------------------------------
  // Python dicts built from header pairs
  // ---------------------------------------------------------------------

  /** The names that occur in a header list. */
  function Names(h: Headers): set<string>
  {
    set p | p in h :: p.0
  }

  /** No name occurs twice: the shape of a Python dict. */
  predicate DistinctNames(h: Headers)
  {
    forall i, j :: 0 <= i < j < |h| ==> h[i].0 != h[j].0
  }

  /** `d[k]` on a dict: the value stored under `k`, if any. */
  function Lookup(d: Headers, k: string): Option<string>
  {
    if d == [] then None
    else if d[0].0 == k then Some(d[0].1)
    else Lookup(d[1..], k)
  }

  /** The value of the last pair in `h` named `k`, if any. */
  function LastValue(h: Headers, k: string): Option<string>
  {
    if h == [] then None
    else if h[|h| - 1].0 == k then Some(h[|h| - 1].1)
    else LastValue(h[..|h| - 1], k)
  }

  /**
   * `r` is the dict `d` after `d[k] = v`: names stay distinct, `k` maps to
   * `v`, every other name keeps its value, an existing name keeps its
   * position, and a new name goes at the end.
   */
  ghost predicate IsPut(d: Headers, k: string, v: string, r: Headers)
  {
    && DistinctNames(r)
    && Names(r) == Names(d) + {k}
    && Lookup(r, k) == Some(v)
    && (forall k' :: k' != k ==> Lookup(r, k') == Lookup(d, k'))
    && (k !in Names(d) ==> r == d + [(k, v)])
    && (k in Names(d) ==> |r| == |d| && forall i :: 0 <= i < |d| ==> r[i] == (if d[i].0 == k then (k, v) else d[i]))
  }

  /**
   * `d[k] = v` on a dict: an existing entry for `k` keeps its place and takes
   * the new value; a new name is appended at the end.
   */
  function Put(d: Headers, k: string, v: string): (r: Headers)
    requires DistinctNames(d)
    ensures IsPut(d, k, v, r)
  {
    if d == [] then
      NamesConcat([], [(k, v)]);
      [(k, v)]
    else if d[0].0 == k then
      PutReplace(d, k, v);
      [(k, v)] + d[1..]
    else
      var rest := Put(d[1..], k, v);
      PutSkip(d, k, v, rest);
      [d[0]] + rest
  }

  lemma PutReplace(d: Headers, k: string, v: string)
    requires d != [] && DistinctNames(d) && d[0].0 == k
    ensures IsPut(d, k, v, [(k, v)] + d[1..])
  {
    var r := [(k, v)] + d[1..];
    NamesConcat([d[0]], d[1..]);
    NamesConcat([(k, v)], d[1..]);
    assert [d[0]] + d[1..] == d;
    DistinctHead(d);
    ConsDistinct((k, v), d[1..]);
    forall k' | k' != k ensures Lookup(r, k') == Lookup(d, k') {
      LookupCons((k, v), d[1..], k');
      LookupCons(d[0], d[1..], k');
    }
    LookupCons((k, v), d[1..], k);
  }

  lemma PutSkip(d: Headers, k: string, v: string, rest: Headers)
    requires d != [] && DistinctNames(d) && d[0].0 != k
    requires IsPut(d[1..], k, v, rest)
    ensures IsPut(d, k, v, [d[0]] + rest)
  {
    PutSkipShape(d, k, v, rest);
    PutSkipLookup(d, k, v, rest);
    PutSkipPlace(d, k, v, rest);
  }

  lemma PutSkipPlace(d: Headers, k: string, v: string, rest: Headers)
    requires d != [] && d[0].0 != k
    requires k in Names(d[1..]) ==>
               (|rest| == |d| - 1 &&
                forall i :: 0 <= i < |d| - 1 ==> rest[i] == (if d[1..][i].0 == k then (k, v) else d[1..][i]))
    ensures k in Names(d) ==>
              (|[d[0]] + rest| == |d| &&
               forall i :: 0 <= i < |d| ==> ([d[0]] + rest)[i] == (if d[i].0 == k then (k, v) else d[i]))
  {
    if k in Names(d) {
      var p :| p in d && p.0 == k;
      var j :| 0 <= j < |d| && d[j] == p;
      assert d[1..][j - 1] == p;
      forall i | 0 <= i < |d| ensures ([d[0]] + rest)[i] == (if d[i].0 == k then (k, v) else d[i]) {
        if i > 0 {
          assert d[1..][i - 1] == d[i];
        }
      }
    }
  }

  lemma PutSkipShape(d: Headers, k: string, v: string, rest: Headers)
    requires d != [] && DistinctNames(d) && d[0].0 != k
    requires IsPut(d[1..], k, v, rest)
    ensures DistinctNames([d[0]] + rest)
    ensures Names([d[0]] + rest) == Names(d) + {k}
    ensures k !in Names(d) ==> [d[0]] + rest == d + [(k, v)]
  {
    NamesConcat([d[0]], d[1..]);
    NamesConcat([d[0]], rest);
    assert [d[0]] + d[1..] == d;
    DistinctHead(d);
    ConsDistinct(d[0], rest);
    if k !in Names(d) {
      assert [d[0]] + (d[1..] + [(k, v)]) == d + [(k, v)];
    }
  }

  lemma PutSkipLookup(d: Headers, k: string, v: string, rest: Headers)
    requires d != [] && d[0].0 != k
    requires Lookup(rest, k) == Some(v)
    requires forall k' :: k' != k ==> Lookup(rest, k') == Lookup(d[1..], k')
    ensures Lookup([d[0]] + rest, k) == Some(v)
    ensures forall k' :: k' != k ==> Lookup([d[0]] + rest, k') == Lookup(d, k')
  {
    forall k' | k' != k ensures Lookup([d[0]] + rest, k') == Lookup(d, k') {
      LookupCons(d[0], rest, k');
    }
    LookupCons(d[0], rest, k);
  }

  lemma LookupCons(x: Header, d: Headers, k: string)
    ensures Lookup([x] + d, k) == if x.0 == k then Some(x.1) else Lookup(d, k)
  {
    assert ([x] + d)[1..] == d;
  }

  lemma NamesConcat(a: Headers, b: Headers)
    ensures Names(a + b) == Names(a) + Names(b)
  {
    forall n | n in Names(a + b) ensures n in Names(a) + Names(b) {
      var p :| p in a + b && p.0 == n;
    }
    forall n | n in Names(a) + Names(b) ensures n in Names(a + b) {
      if n in Names(a) {
        var p :| p in a && p.0 == n;
        assert p in a + b;
      } else {
        var p :| p in b && p.0 == n;
        assert p in a + b;
      }
    }
  }

  /** The first name of a dict occurs nowhere else in it. */
  lemma DistinctHead(d: Headers)
    requires d != [] && DistinctNames(d)
    ensures DistinctNames(d[1..]) && d[0].0 !in Names(d[1..])
  {
    forall p | p in d[1..] ensures p.0 != d[0].0 {
      var i :| 0 <= i < |d[1..]| && d[1..][i] == p;
      assert d[i + 1] == p;
    }
  }

  lemma ConsDistinct(x: Header, d: Headers)
    requires DistinctNames(d) && x.0 !in Names(d)
    ensures DistinctNames([x] + d)
  {
    forall j | 0 <= j < |d| ensures d[j].0 != x.0 {
      assert d[j] in d;
    }
  }

  /**
   * The dict `{k: v for k, v in h}`: the pairs of `h` inserted from first to
   * last.
   */
  function DictOf(h: Headers): (r: Headers)
    ensures DistinctNames(r)
    ensures Names(r) == Names(h)
    ensures forall k :: Lookup(r, k) == LastValue(h, k)
  {
    if h == [] then []
    else
      var init := h[..|h| - 1];
      assert h == init + [h[|h| - 1]];
      assert Names(h) == Names(init) + {h[|h| - 1].0};
      Put(DictOf(init), h[|h| - 1].0, h[|h| - 1].1)
  }

  /** A header list whose names are already distinct becomes a dict unchanged. */
  lemma {:induction false} DictOfDistinct(h: Headers)
    requires DistinctNames(h)
    ensures DictOf(h) == h
  {
    if h != [] {
      var init, last := h[..|h| - 1], h[|h| - 1];
      DistinctLast(h);
      DictOfDistinct(init);
      assert DictOf(h) == Put(init, last.0, last.1);
      assert h == init + [(last.0, last.1)];
    }
  }

  /** The last name of a dict occurs nowhere before it. */
  lemma DistinctLast(d: Headers)
    requires d != [] && DistinctNames(d)
    ensures DistinctNames(d[..|d| - 1]) && d[|d| - 1].0 !in Names(d[..|d| - 1])
  {
    var init := d[..|d| - 1];
    forall p | p in init ensures p.0 != d[|d| - 1].0 {
      var i :| 0 <= i < |init| && init[i] == p;
      assert d[i] == p;
    }
  }

  // ---------------------------------------------------------------------
  // Header filters
  // ---------------------------------------------------------------------

  /** The pairs of `h` whose name `drop` does not reject, in their order. */
  function Without(h: Headers, drop: string -> bool): (r: Headers)
    ensures forall p :: p in r <==> p in h && !drop(p.0)
  {
    if h == [] then []
    else
      var init := h[..|h| - 1];
      var last := h[|h| - 1];
      assert h == init + [last];
      if drop(last.0) then Without(init, drop)
      else Without(init, drop) + [last]
  }

  lemma {:induction false} WithoutLastValue(h: Headers, drop: string -> bool, k: string)
    ensures LastValue(Without(h, drop), k) == if drop(k) then None else LastValue(h, k)
  {
    if h != [] {
      var init := h[..|h| - 1];
      var last := h[|h| - 1];
      WithoutLastValue(init, drop, k);
      if !drop(last.0) {
        var w := Without(init, drop) + [last];
        assert w[..|w| - 1] == Without(init, drop);
      }
    }
  }

  lemma {:induction false} WithoutKeepsDistinct(h: Headers, drop: string -> bool)
    requires DistinctNames(h)
    ensures DistinctNames(Without(h, drop))
  {
    if h != [] {
      var init := h[..|h| - 1];
      var last := h[|h| - 1];
      assert DistinctNames(init);
      WithoutKeepsDistinct(init, drop);
      if !drop(last.0) {
        var w := Without(init, drop);
        forall i | 0 <= i < |w| ensures w[i].0 != last.0 {
          assert w[i] in w;
          var j :| 0 <= j < |init| && init[j] == w[i];
          assert h[j] == w[i];
        }
      }
    }
  }

  /**
   * The dict `{k: v for k, v in h if not drop(k)}`: a rejected name is
   * absent, every other name keeps the value of its last pair, no name occurs
   * twice, and a list that had no repeated name loses only the rejected pairs.
   */
  function DictWithout(h: Headers, drop: string -> bool): (r: Headers)
    ensures DistinctNames(r)
    ensures forall k :: Lookup(r, k) == if drop(k) then None else LastValue(h, k)
    ensures forall p :: p in r ==> !drop(p.0)
    ensures DistinctNames(h) ==> r == Without(h, drop)
  {
    DictOfWithout(h, drop);
    DictOf(Without(h, drop))
  }

  lemma DictOfWithout(h: Headers, drop: string -> bool)
    ensures forall k :: Lookup(DictOf(Without(h, drop)), k) ==
                        (if drop(k) then None else LastValue(h, k))
    ensures forall p :: p in DictOf(Without(h, drop)) ==> !drop(p.0)
    ensures DistinctNames(h) ==> DictOf(Without(h, drop)) == Without(h, drop)
  {
    var kept := Without(h, drop);
    forall k ensures Lookup(DictOf(kept), k) == if drop(k) then None else LastValue(h, k) {
      WithoutLastValue(h, drop, k);
    }
    forall p | p in DictOf(kept) ensures !drop(p.0) {
      assert p.0 in Names(DictOf(kept));
      var q :| q in kept && q.0 == p.0;
    }
    if DistinctNames(h) {
      WithoutKeepsDistinct(h, drop);
      DictOfDistinct(kept);
    }
  }

  /** The client's `Host` header, in any letter case. */
  predicate IsHost(name: string)
  {
    Lower(name) == "host"
  }

  /** The hop-by-hop headers `Transfer-Encoding` and `Connection`, in any letter case. */
  predicate IsHopByHop(name: string)
  {
    Lower(name) == "transfer-encoding" || Lower(name) == "connection"
  }

  /**
   * `backend_headers` (load_balancer.py:102): every inbound header except
   * `Host` reaches the backend with its last value; `Host` never does.
   */
  function ForwardHeaders(h: Headers): (r: Headers)
    ensures DistinctNames(r)
    ensures forall k :: Lookup(r, k) == if IsHost(k) then None else LastValue(h, k)
    ensures forall p :: p in r ==> !IsHost(p.0)
    ensures DistinctNames(h) ==> r == Without(h, IsHost)
  {
    DictWithout(h, IsHost)
  }

  /**
   * `response_headers` (load_balancer.py:117-120): every upstream header except
   * the hop-by-hop ones reaches the client with its last value.
   */
  function RelayHeaders(h: Headers): (r: Headers)
    ensures DistinctNames(r)
    ensures forall k :: Lookup(r, k) == if IsHopByHop(k) then None else LastValue(h, k)
    ensures forall p :: p in r ==> !IsHopByHop(p.0)
    ensures DistinctNames(h) ==> r == Without(h, IsHopByHop)
  {
    DictWithout(h, IsHopByHop)
  }

  // ---------------------------------------------------------------------
  // URLs
  // ---------------------------------------------------------------------

  /** `f"{target_server}/{path}"`: the backend base, one slash, then the path. */
  function UpstreamUrl(target: string, path: string): (url: string)
    ensures |url| == |target| + 1 + |path|
    ensures url[..|target|] == target && url[|target|] == '/' && url[|target| + 1..] == path
  {
    target + "/" + path
  }

  /** `f"{server}/health"`: the liveness endpoint of a backend. */
  function ProbeUrl(server: string): (url: string)
    ensures |url| == |server| + 7
    ensures url[..|server|] == server && url[|server|..] == "/health"
  {
    server + "/health"
  }

  /** A backend's URLs determine the forwarded path: distinct paths never collide. */
  lemma UpstreamUrlInjective(target: string, p1: string, p2: string)
    requires UpstreamUrl(target, p1) == UpstreamUrl(target, p2)
    ensures p1 == p2
  {
    assert p1 == UpstreamUrl(target, p1)[|target| + 1..];
  }
}
