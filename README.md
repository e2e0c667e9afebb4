# TCP load balancer core in Dafny

This project models the sequential logic of a C++ TCP load balancer. It has three parts:

- **URLs** (`url.dfy`, module `Urls`). A backend URL is split by one regular expression that must match the whole string. A missing protocol becomes `http`. A missing port becomes the protocol's well-known port, and a protocol outside the table is an error. The matcher is a deterministic left-to-right parser. It makes the same choices a backtracking matcher makes: the optional scheme group is tried first and every quantifier is greedy. It is proved sound (its result renders back to the input and every group stays in its character class). It is proved complete (it succeeds whenever the pattern has any parse). It is proved to return the parse the pattern's priorities select. Parsing a well-formed `Url` written out in full gives the `Url` back, provided its port has five digits or its path does not begin with a digit. Otherwise the greedy port group takes that digit: port `80` with path `8x` is read back as port `808`.
- **Backends and round-robin selection** (`selectors.dfy`, module `Selectors`).
  - A backend is an IP endpoint or a URL.
  - The round-robin selector is a class with the backend list as a `seq` and a `nat` counter.
    - `Configure` appends one backend per endpoint entry in a loop.
    - `SelectBackend` advances the counter modulo the list length.
    - `ExcludeBackend` removes every equal backend in place and fails once the list is empty.
  - Any full round of selections returns the list rotated, each backend once. The rotation order pinned by the round-robin tests, including the order after each exclusion, is proved.
  - `DetectSelector` maps the configured algorithm name to a selector or an error.
  - The bookkeeping records of the other selectors and the least-connections heap order are included.
- **Consistent-hashing router** (`router.dfy`, module `Pumba`).
  - A class holds the physical nodes as a map from ids to nodes; an id stands for the C++ list iterator.
  - The ring is an ordered map from hash to id.
  - `InsertNode` writes one ring entry per replica hash and overwrites on collision.
  - `EraseNode` looks up the node's own hash and removes the element that key points to, with all of that element's entries.
  - Selection takes the first key at or after the client's hash and wraps round to the smallest key.
  - Every ring entry always points to a live node.
  - A new node only takes clients away from others, and removing a node leaves the other clients where they were.
  - The two collision effects are shown as concrete runs:
    - erasing a node can remove a different node;
    - the list can keep a node while the ring is empty.

`wrappers.dfy` holds the `Option`, `Result` and `Outcome` types. The hash traits (`GetHash`, `Replicate`) are constructor parameters of the router. Boost address parsing is a parameter of `Configure`. The string form of a backend and `std::hash` are parameters of the backend hash.

## Model

| member | source | states |
|---|---|---|
| Urls.MatchUrl | src/lb/url.hpp:11-12 | the whole-string match succeeds exactly on non-empty, whitespace-free strings not starting with `/` or `:`; the result renders back to the input, every group is in its class (word scheme, non-empty host without `/`, `:` or space, 2-5 digit port, path without `?`/`#`), choices are greedy, and the scheme group is taken exactly when the scheme test passes |
| Urls.SpanUnique | src/lb/url.hpp:11 | a greedy run of a character class stops at the first character outside the class and nowhere else |
| Urls.MatchComplete | src/lb/url.hpp:11-12 | any way the pattern can match the whole string makes the matcher succeed |
| Urls.SchemeTriedFirst | src/lb/url.hpp:11 | when some parse takes the optional scheme group, the matcher takes the same scheme |
| Urls.GreedyParseIsTheMatch | src/lb/url.hpp:11-12 | the matcher returns exactly the parse that is greedy and takes the scheme whenever it can, so its result is determined by the pattern's priorities |
| Urls.DefaultProtocolPort | src/lb/url.cpp:7-21 | http gives 80, https 443, ftp 21, ssh 22; any other protocol is an error naming it |
| Urls.IsUrl | src/lb/url.cpp:23-27 | true exactly on the strings the pattern matches |
| Urls.IsUrlIffSomeParse | src/lb/url.cpp:23-27 | a string is a URL iff the pattern has some parse of it |
| Urls.UrlOf | src/lb/url.cpp:37-42 | the fields read from a match satisfy the field classes; failure happens only with a scheme outside the table and no port |
| Urls.ParseUrl | src/lb/url.cpp:29-43 | a string that does not match fails with an invalid-URL error and only then; a built Url has protocol, host, 2-5 digit port, path, query and fragment in their classes; an unknown-protocol error needs a missing port |
| Urls.ParseUrlFields | src/lb/url.cpp:37-42 | protocol is the scheme or `http`; host is group 3; an explicit port is kept verbatim, otherwise the protocol's default; path keeps its leading `/`; query and fragment drop their delimiters; absent groups give empty strings |
| Urls.NoSchemeIsHttp | src/lb/url.cpp:37-39 | a URL without a scheme always parses, as `http`, with port 80 when none is given |
| Urls.EmptyQueryGroupLooksAbsent | src/lb/url.cpp:40-42 | a match whose query group is empty and the same match without a query group give the same Url |
| Urls.EmptyQueryLooksAbsent | src/lb/url.cpp:40-42 | for example, `h/p?` and `h/p` give the same Url (without a `/` or `:` before it, a `?` is part of the host instead) |
| Urls.SameUrl | src/lb/url.cpp:75-79 | comparing the six fields pairwise is equality of Urls |
| Urls.ParseFormat | src/lb/url.cpp:29-43 | writing a well-formed Url out in full and parsing it gives the same Url back, unless a port of fewer than five digits is followed by a digit that the port group would absorb |
| Urls.FormatIsGreedy | src/lb/url.hpp:11 | the groups a Url is written with are the ones the greedy matcher picks out of its text, under the same proviso about the port |
| Urls.UrlExampleHostOnly | tests/test_backends.cpp:12-18 | `https://www.example.com` gives host `www.example.com`, port 443 and empty path, query and fragment |
| Selectors.IsUrl | src/lb/tcp/selectors.cpp:20-23 | true iff the backend holds a URL, and iff it does not hold an endpoint |
| Selectors.IsIpEndpoint | src/lb/tcp/selectors.cpp:25-28 | true iff the backend holds an endpoint |
| Selectors.BackendEquals | src/lb/tcp/selectors.cpp:40-51 | URL backends are equal iff their URLs are, endpoint backends iff their endpoints are; a URL never equals an endpoint |
| Selectors.BackendFromAddress | src/lb/tcp/selectors.cpp:8-12 | an address that parses gives an endpoint backend with that address and a port congruent to the argument modulo 2^16 (equal when in range); an unparsable address is an error |
| Selectors.BackendFromUrl | src/lb/tcp/selectors.cpp:14-18 | a URL backend holding the parsed Url, or the parser's error |
| Selectors.BackendHash | src/lb/tcp/selectors.hpp:45-50 | a backend hashes to the string hash of its text form, and so depends on nothing else |
| Selectors.SameTextSameHash | src/lb/tcp/selectors.hpp:45-50 | backends with the same text hash alike |
| Selectors.Ordinal | src/lb/tcp/selectors.hpp:54-61 | six enumerators numbered from 0, with ROUND_ROBIN the one numbered 0 |
| Selectors.OrdinalInjective | src/lb/tcp/selectors.hpp:54-61 | distinct selector kinds have distinct values |
| Selectors.RoundRobinSelector.constructor | src/lb/tcp/selectors.hpp:88-91 | a new selector has counter 0 and no backends |
| Selectors.RoundRobinSelector.Type | src/lb/tcp/selectors.cpp:148-151 | the round-robin kind, value 0 |
| Selectors.EntryBackend | src/lb/tcp/selectors.cpp:110-122 | an entry with `url` gives a URL backend; otherwise a missing `ip`, then a missing `port`, is an error; an entry with both gives the endpoint backend of that address and port, or the address error |
| Selectors.Build | src/lb/tcp/selectors.cpp:109-123 | the run appends at most one backend per entry, and one for every entry when no entry fails |
| Selectors.BuildMeaning | src/lb/tcp/selectors.cpp:109-123 | the i-th appended backend is the one the i-th entry describes, and the reported error is the one the first failing entry gives |
| Selectors.BuildStep | src/lb/tcp/selectors.cpp:109-123 | one more entry after a run without errors either appends its backend or stops the run with its error |
| Selectors.BuildAfterError | src/lb/tcp/selectors.cpp:109-123 | entries after a failing one change nothing |
| Selectors.RoundRobinSelector.Configure | src/lb/tcp/selectors.cpp:99-128 | a missing or non-sequence endpoints node is an error and changes nothing; otherwise the entries' backends are appended in order, those before a failing entry staying appended |
| Selectors.RoundRobinSelector.AppendEntries | src/lb/tcp/selectors.cpp:108-123 | the loop appends exactly what Build gives and reports its error |
| Selectors.Advance | src/lb/tcp/selectors.cpp:133 | the new counter is (counter + 1) mod n and below n |
| Selectors.RoundRobinSelector.SelectBackend | src/lb/tcp/selectors.cpp:130-136 | the counter becomes (counter + 1) mod n, the backend at that index is returned, the list is unchanged |
| Selectors.Selections | src/lb/tcp/selectors.cpp:130-136 | k successive selections return the backends at (counter + 1 + i) mod n |
| Selectors.FullRoundCounter | src/lb/tcp/selectors.cpp:133 | after n selections over n backends the counter is back where it was (mod n) |
| Selectors.SelectionsRotate | tests/test_selectors.cpp:56-62 | n successive selections return the list rotated to start after the counter: every backend once, in cyclic order |
| Selectors.FirstSelections | src/lb/tcp/selectors.hpp:90 | from counter 0 the first selection returns the second backend and the round ends on the first |
| Selectors.Without | src/lb/tcp/selectors.cpp:141 | the list never grows, and an absent x leaves it unchanged |
| Selectors.WithoutMembers | src/lb/tcp/selectors.cpp:141 | a backend remains exactly when it was in the list and differs from x |
| Selectors.WithoutMultiset | src/lb/tcp/selectors.cpp:141 | every other backend keeps its number of occurrences, and x has none left |
| Selectors.WithoutStep | src/lb/tcp/selectors.cpp:141 | the loop's one-element step: the next backend is kept exactly when it differs from x |
| Selectors.WithoutConcat | src/lb/tcp/selectors.cpp:141 | removal distributes over concatenation, so the kept elements keep their relative order |
| Selectors.WithoutIdempotent | src/lb/tcp/selectors.cpp:141 | removing the same backend twice is removing it once |
| Selectors.WithoutOnce | src/lb/tcp/selectors.cpp:141 | removing a backend that occurs once closes the gap and keeps the rest in order |
| Selectors.RoundRobinSelector.ExcludeBackend | src/lb/tcp/selectors.cpp:138-146 | the list becomes the list without x, the counter is unchanged, and the call fails exactly when the list is now empty |
| Selectors.RoundRobinTestPhase1 | tests/test_selectors.cpp:56-62 | five configured backends are selected as 8080, 8081, 8082, 8083, then the URL, and the counter is back at 0 |
| Selectors.RoundRobinTestExclusion1 | tests/test_selectors.cpp:64 | excluding 8080 leaves the URL, 8081, 8082, 8083 |
| Selectors.RoundRobinTestPhase2 | tests/test_selectors.cpp:65-70 | four backends are selected as 8081, 8082, 8083, then the URL, and the counter is back at 0 |
| Selectors.RoundRobinTestExclusion2 | tests/test_selectors.cpp:72 | excluding 8081 leaves the URL, 8082, 8083 |
| Selectors.RoundRobinTestPhase3 | tests/test_selectors.cpp:73-77 | three backends are selected as 8082, 8083, then the URL, and the counter is back at 0 |
| Selectors.RoundRobinTestExclusion3 | tests/test_selectors.cpp:80 | excluding 8082 leaves the URL and 8083 |
| Selectors.RoundRobinTestPhase4 | tests/test_selectors.cpp:81-84 | two backends are selected as 8083, then the URL, and the counter is back at 0 |
| Selectors.RoundRobinTestExclusion4 | tests/test_selectors.cpp:87 | excluding 8083 leaves only the URL |
| Selectors.RoundRobinTestPhase5 | tests/test_selectors.cpp:88-92 | the single URL is selected every time, and excluding it leaves the list empty |
| Selectors.DetectAlgorithm | src/lb/tcp/selectors.cpp:63-83 | a missing load_balancing node or algorithm field is an error; only `round_robin` and `consistent_hash` are known; any other name is an unknown-algorithm error |
| Selectors.DetectSelector | src/lb/tcp/selectors.cpp:63-97 | round_robin gives a freshly configured round-robin selector, or the configuration's error: endpoints missing, endpoints not a sequence, or the first failing entry's error; consistent_hash is a not-implemented error; the detection errors pass through |
| Selectors.NewWeightWrapper | src/lb/tcp/selectors.hpp:97-101 | a new weighted entry keeps the backend and weight and starts at 0 |
| Selectors.NewCounterWrapper | src/lb/tcp/selectors.hpp:173-176 | a new connection counter starts at 0 |
| Selectors.ConnectionsCompare | src/lb/tcp/selectors.hpp:178-183 | lhs is "less" exactly when it has more connections than rhs |
| Selectors.HeapTop | src/lb/tcp/selectors.hpp:185 | the top of a heap ordered by ConnectionsCompare is an entry no other beats, and it has the fewest connections |
| Pumba.MinKey | third_party/pumba/include/pumba/router.hpp:62 | the first key of a non-empty ring is its smallest |
| Pumba.Successor | third_party/pumba/include/pumba/router.hpp:59-63 | the landing key is the smallest key at or above the hash, or the smallest key when none is; none only for an empty ring |
| Pumba.Route | third_party/pumba/include/pumba/router.hpp:59-64 | the element the landing key points to; none only on an empty ring |
| Pumba.Spawn | third_party/pumba/include/pumba/router.hpp:94-99 | every replica hash now points to the element, other keys are untouched, no key is lost |
| Pumba.WithoutId | third_party/pumba/include/pumba/router.hpp:83-92 | exactly the entries pointing to the element are removed, the others keep their values |
| Pumba.SpawnMovesOnlyToNew | third_party/pumba/include/pumba/router.hpp:94-99 | after a node's hashes are written, every client routes to that node or where it routed before |
| Pumba.WithoutIdKeepsOthers | third_party/pumba/include/pumba/router.hpp:83-92 | removing an element's entries leaves every client that did not route to it where it was |
| Pumba.Router.constructor | third_party/pumba/include/pumba/router.hpp:18-20 | the router keeps the replica count (1 when none is given) and the traits, with no nodes and an empty ring |
| Pumba.Router.Replicas | third_party/pumba/include/pumba/router.hpp:77-80 | the replica count given at construction; it is a constant field and never changes |
| Pumba.Router.PhysicalNodes | third_party/pumba/include/pumba/router.hpp:67-70 | the number of nodes in the list |
| Pumba.Router.Empty | third_party/pumba/include/pumba/router.hpp:72-75 | true iff there are no physical nodes |
| Pumba.Router.InsertNode | third_party/pumba/include/pumba/router.hpp:30-35 | the node is appended under a new id, the count grows by one, every replica hash maps to it, and ring entries stay valid |
| Pumba.Router.SpawnReplicas | third_party/pumba/include/pumba/router.hpp:94-99 | the loop writes the replica hashes in turn, overwriting, and its result is Spawn |
| Pumba.Router.EraseReplicasOf | third_party/pumba/include/pumba/router.hpp:83-92 | the loop removes exactly the entries pointing to the element |
| Pumba.Router.EraseNode | third_party/pumba/include/pumba/router.hpp:45-51 | when the node's hash is not a key nothing changes; otherwise the element that key points to leaves the list together with all of its entries and nothing else |
| Pumba.Router.SelectNodeAsWritten | third_party/pumba/include/pumba/router.hpp:53-65 | no nodes raises the error; nodes with an empty ring dereference end(); otherwise a live node |
| Pumba.Router.SelectNode | third_party/pumba/include/pumba/router.hpp:53-65 | the node of the landing key for the client's hash, a live node; an error exactly when the ring is empty (always when there are no nodes); agrees with the code wherever the code returns a node |
| Pumba.InsertColliding | third_party/pumba/include/pumba/router.hpp:94-99 | a second node whose replica hash collides overwrites the first node's entry |
| Pumba.EraseFirstOfColliding | third_party/pumba/include/pumba/router.hpp:37-51 | erasing the first of two colliding nodes removes the second node and the only entry |
| Pumba.EraseRemovesCollidingNode | third_party/pumba/include/pumba/router.hpp:37-51 | with colliding hashes, erasing node a leaves only a in the list: b was removed instead |
| Pumba.DuplicateInsertThenErase | third_party/pumba/include/pumba/router.hpp:53-65 | inserting a node twice and erasing it leaves one node and an empty ring, so SelectNode as written dereferences end() |

## Left out

- Concurrency: the selectors' mutexes are not modelled, and every operation is sequential.
- Logging: DEBUG, INFO, `operator<<` and the stack traces attached to errors are not modelled. Exceptions are `Err`/`Fail` results; the message text is reduced to an error kind.
- YAML access: a configuration node is a datatype of optional fields. The exceptions yaml-cpp raises when `as<std::string>()` or `as<int>()` cannot convert a value are not modelled.
- Boost address parsing, `Backend::ToString` and `std::hash<std::string>` are not part of this model. They are function parameters with no assumed behaviour.
- `BackendCHTraits::GetHash` and `Replicate` are not part of this model either. They are constructor parameters of the router.
- Pumba.Router.InsertNode: hashes are unbounded naturals. `std::size_t` wrap-around lies inside the opaque traits, so it is not modelled.
- `EmplaceNode` builds the node in place from constructor arguments. On values this is `InsertNode`, so it has no separate member.
- The rvalue overload of `EraseNode` (router.hpp:37-43) has the same body as the `const&` overload that is modelled.
- The order of the physical-node list is not kept: nodes are a map from ids. No router operation reads that order.
- The C++ erase loop walks the ring in key order. `EraseReplicasOf` picks keys in any order, and the proved result does not depend on the order.
- The weighted round-robin, IP-hash, consistent-hash, least-connections and least-response-time selectors are left out. Their `Configure`, `SelectBackend` and `ExcludeBackend` bodies are not part of this model. Only their records, the connection-count comparator and the heap top it defines are modelled. The pairing heap's structure is not.
- The least-response-time moving average uses `double` and is left out.
- The `Url` accessors are the fields of the `Url` datatype.
- The long URLs of tests/test_url.cpp and tests/test_backends.cpp are not stated as lemmas. The verifier unfolds the matcher on long string literals beyond its resource budget. Their field values follow from `Urls.ParseUrlFields` and `Urls.GreedyParseIsTheMatch`. The short host-only example is proved.
- Selectors.RoundRobinSelector.SelectBackend: requires a non-empty list. The C++ code computes `counter % backends_.size()` (src/lb/tcp/selectors.cpp:133), which divides by zero once ExcludeBackend has emptied the list (it throws, but the list stays empty) and a later connection asks for a backend (src/lb/tcp/connector.cpp:36). The model does not give that call a result.
- Networking (connector, acceptor, sessions) and application start-up are not part of this model.

## Findings

| source | as written | input that shows it | evidently intended | confidence | as-written member | corrected member |
|---|---|---|---|---|---|---|
| third_party/pumba/include/pumba/router.hpp:55-64 | SelectNode checks only that the node list is non-empty, then reads `ring_.begin()->second`, which dereferences `end()` when the ring has no entries | any GetHash and Replicate where a node's own hash is among its replica hashes (here both give 7, one replica): InsertNode(n), InsertNode(n), EraseNode(n), SelectNode(c). The second insert overwrites the entry, the erase removes the second copy and the only entry, and one node stays in the list. A router built with 0 replicas whose Replicate then returns no hashes reaches the same state after one insert | raise the no-nodes error whenever the ring is empty | not executed; the overwrite and erase behaviour is certain, reaching it in the load balancer depends on the unseen traits | Pumba.DuplicateInsertThenErase | Pumba.Router.SelectNode |
