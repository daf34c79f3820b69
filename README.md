# Synapse load balancer — a Dafny model

Synapse is a reverse proxy that spreads HTTP requests over a fixed list of
backend inference servers (`BACKEND_SERVERS`). A background task probes every
backend's `/health` endpoint. Only backends that answered 200 stay in the
healthy list. Each request goes to the next healthy backend in round-robin
order. It gets a 503 when no backend is healthy, a 502 when the backend
cannot be reached, and otherwise the backend's response with hop-by-hop
headers removed.

This project models that decision logic from `load_balancer.py` and proves
its properties:

- `Wrappers` (`wrappers.dfy`): the `Option` type.
- `Http` (`http.dfy`): ASCII lower-casing, Python dicts built from header pairs
  (`Put`, `DictOf`), the request and response header filters, and the upstream
  and probe URLs.
- `Health` (`health.dfy`): probe outcomes, the probe pass as a loop
  (`ProbePass`) proved against the function `Survivors`, and lemmas that
  characterise which backends a pass keeps and in what order.
- `RoundRobin` (`roundrobin.dfy`): the `itertools.cycle` iterator as a counter
  (`Pick`, `Run`), with the rotation and fairness lemmas.
- `Proxy` (`proxy.dfy`): the inbound request, the upstream request, the
  upstream outcome and the client reply as datatypes. It also holds the
  request builder, the 503/502/relay mapping and the whole per-request
  pipeline after selection.
- `LoadBalancer` (`load_balancer.dfy`): the class `Balancer`. It holds the
  configured list, `healthy_servers` and the cycle's cursor, with the startup
  pass, one health-check cycle, the install step, selection and request
  handling as methods.

Under asyncio, code between two `await`s runs without interruption. The
install (load_balancer.py:44-48) and the empty check plus `next`
(load_balancer.py:91-94) contain no `await`. So the running system is an
interleaving of the `Balancer` methods, each one atomic.

The cycle iterator is modelled as a counter `cursor`: the next item is
`healthy[cursor % |healthy|]`. The source builds a new cycle every time it
rebuilds the list (lines 48 and 72). It never changes the list while the
current cycle is in use. So the counter is exact.

Three details of the code shape the model:

- The code keeps no per-backend health record (no state, no timestamp), only
  the list of healthy backends. The model keeps the same list.
- The code installs a new list only when its set of members differs
  (load_balancer.py:44). A reordered list with the same members keeps the old
  list and cursor. `Health.SameMembersSameSubsequence` shows that this cannot
  happen when no backend is configured twice.
- The code removes the inbound `Host` header (load_balancer.py:102) and does
  not replace it.

## Model

| member | source | states |
|---|---|---|
| `Health.ProbePass` | load_balancer.py:34-42 | the loop over the configured backends returns exactly `Survivors(servers, outcomes)`, and it probes `ProbeUrl(servers[i])` for every backend in order, one probe each |
| `Health.Survivors` | load_balancer.py:34-40 | the healthy list of a pass is no longer than the configured list, holds only configured backends, and is the whole configured list when every probe answers 200 |
| `Health.PassingPositions` | load_balancer.py:36-40 | the positions whose probe answered 200, strictly increasing and in range; a position is listed iff its outcome is `Status(200)`, so timeouts, connection errors and other statuses are never listed |
| `Health.SurvivorsArePassingServers` | load_balancer.py:36-40 | element `j` of a pass's healthy list is the server at the `j`-th passing position, so the list holds exactly the servers that answered 200, in configured order |
| `Health.SurvivorsMembership` | load_balancer.py:36-42 | a backend is in a pass's healthy list iff one of its probes in that pass answered 200 |
| `Health.SurvivorsSubsequence` | load_balancer.py:36-40 | a pass's healthy list is an order-preserving subsequence of the configured list, so a subset of it |
| `Health.SubsequenceMembers` | load_balancer.py:46-47 | every member of a subsequence of the configured list, such as the healthy list, is a configured backend |
| `Health.SameMembersSameSubsequence` | load_balancer.py:44 | over a configured list with no repeats, two healthy lists with the same members are the same list, so the set comparison misses no change |
| `LoadBalancer.Balancer.Start` | load_balancer.py:61-72 | startup installs the first pass unconditionally: the healthy list is that pass's result, the cycle is at its start, and the list is a subsequence of the configured one |
| `LoadBalancer.Balancer.Install` | load_balancer.py:44-48 | with the same members, the list and cursor are untouched; with different members, the list becomes the candidate and the cursor resets to 0; either way the members are the candidate's |
| `LoadBalancer.Balancer.HealthCheckCycle` | load_balancer.py:33-48 | after one cycle, a backend is healthy iff its latest probe answered 200, with no hysteresis; the list stays a subsequence of the configured list; it is exactly the pass's result when no backend is configured twice, and empty when nothing is configured; with the same members the list and cursor are untouched, and with different members the list is exactly the pass's result and the cursor is 0 |
| `LoadBalancer.Balancer.Select` | load_balancer.py:91-94 | nothing is selected and the cursor is unchanged when the healthy list is empty; otherwise the selected backend is `Pick(healthy, cursor)`, is healthy and configured, and the cursor advances by one |
| `LoadBalancer.Balancer.HandleRequest` | load_balancer.py:85-129 | an empty healthy list gives a 503 with no upstream request and no cursor move; otherwise exactly one request, built by `BuildUpstream`, goes to the healthy backend `Pick(healthy, cursor)`, its outcome decides the reply, and the cursor advances by one |
| `RoundRobin.Pick` | load_balancer.py:91-94 | a selection exists iff the ring is non-empty, and the selected item is a member of the ring |
| `RoundRobin.Run` | load_balancer.py:94 | `n` successive selections from a stable non-empty list give `n` items, each a member of the list |
| `RoundRobin.RunAt` | load_balancer.py:94 | in a stable list of size k, selection `j` after cursor `c` returns `ring[(c + j) mod k]` |
| `RoundRobin.FreshCycle` | load_balancer.py:48 | after the cycle restarts, selection `i` returns `ring[i mod k]`, and the first k selections are the list itself, first element first |
| `RoundRobin.FullTurnIsRotation` | load_balancer.py:94 | any k consecutive selections return the list rotated to start at the cursor: every position once, in list order |
| `RoundRobin.FullTurnIsPermutation` | load_balancer.py:94 | any k consecutive selections are a permutation of the healthy list, so each member is served exactly as often as it appears |
| `Http.Put` | load_balancer.py:102 | dict assignment keeps names distinct, stores the new value under its name, leaves every other name's value alone, keeps an existing name in its position, and appends a new name at the end |
| `Http.DictOf` | load_balancer.py:102 | a dict built from pairs has distinct names, the same names as the pairs, and each name maps to the value of its last pair |
| `Http.DictOfDistinct` | load_balancer.py:117-120 | pairs whose names are already distinct become a dict unchanged, in the same order |
| `Http.WithoutLastValue` | load_balancer.py:117-120 | after the filter, a dropped name has no value, and every other name keeps the value of its last pair |
| `Http.ForwardHeaders` | load_balancer.py:102 | the forwarded headers never contain `Host` in any letter case; every other inbound name keeps its last value; without repeated names, the headers are exactly the inbound pairs minus `Host` |
| `Http.RelayHeaders` | load_balancer.py:117-120 | relayed headers never contain `Transfer-Encoding` or `Connection` in any letter case; every other upstream name keeps its last value; without repeated names, exactly those two are removed |
| `Http.UpstreamUrl` | load_balancer.py:97 | the upstream URL is the backend base, one `/`, then the path |
| `Http.UpstreamUrlInjective` | load_balancer.py:97 | for one backend, different paths give different upstream URLs |
| `Http.ProbeUrl` | load_balancer.py:38 | the probe URL is the backend base followed by `/health` |
| `Proxy.BuildUpstream` | load_balancer.py:97-110 | the upstream request keeps the verb, query and body, targets `base/path`, and forwards every header except `Host` with its last value |
| `Proxy.Relayed` | load_balancer.py:113-129 | a complete response is relayed with its status and body unchanged and hop-by-hop headers removed; a transport error or timeout gives 502 and never a relay |
| `Proxy.Forward` | load_balancer.py:91-129 | no selection gives 503 and nothing is sent; a selection sends exactly `BuildUpstream(target, req)`, and the reply is `Relayed` of the backend's outcome; the balancer's own 503 (`Unavailable`) happens iff nothing was selected, while a backend's own 503 is relayed as a response |
| `Proxy.HopByHopStripped` | load_balancer.py:116-127 | a 201 response with `X-Test: 1` and `Transfer-Encoding: chunked` reaches the client as a 201 with the same body and only `X-Test: 1` |

## Left out

- main.py, the inference server behind the balancer, is not part of this model.
  It calls torch and transformers and reads the environment.
- Network I/O is not modelled. Each probe result is an input value
  (`ProbeOutcome`), and so is the upstream result (`Upstream`, given as a
  function of the request sent). aiohttp sessions and their cleanup are not
  modelled.
- Timing is not modelled: `asyncio.sleep`, the 10 s interval, the 2 s probe
  timeout, the 120 s proxy timeout and the endless loop. One loop iteration
  is one `HealthCheckCycle`. A timeout is just the `Timeout`/`TimedOut`
  outcome.
- `asyncio.create_task`, the FastAPI lifespan and routing, and `print` logging
  are not modelled. Startup is the constructor `Start`. The system is modelled
  as an interleaving of atomic steps.
- The diagnostic text of the 503 and 502 replies is not modelled, only the
  status.
- Exceptions other than `aiohttp.ClientError` and `asyncio.TimeoutError` are not
  modelled. The source does not catch them.
- Http.Lower: folds ASCII letters only, where Python's `str.lower` is Unicode.
  Header names are ASCII tokens, and no non-ASCII character lower-cases into
  `host`, `transfer-encoding` or `connection`.
- Header validation, Starlette's own handling of the reply headers
  (lower-casing names, adding `content-length`), and aiohttp's own request
  headers (its `Host` comes from the URL) are library behaviour. The model
  stops at the dicts the source builds.
- Query parameters go to the model's upstream request unchanged. How aiohttp
  encodes them is not modelled.
- Health.ProbePass: the probe answers are given as a list aligned with the
  configured list, so a backend configured twice may get two different
  answers, as it can in the source.
