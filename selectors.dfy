/** Backends and the round-robin selector of the TCP load balancer
    (src/lb/tcp/selectors.hpp, src/lb/tcp/selectors.cpp).

    A backend is an IP endpoint or a URL. The round-robin selector keeps the
    configured backends in order and a counter; every selection advances the
    counter modulo the number of backends and returns the backend it lands on.
    Excluding a backend removes every equal entry, keeping the others in order.
    Parsing an IP address (Boost), converting a backend to text and hashing a
    string are not visible here and are parameters. */
module Selectors {
  import opened Wrappers
  import Urls

  // ---------------------------------------------------------------------
  // Backends
  // ---------------------------------------------------------------------

  /** The bytes of a version 4 address. */
  type V4Bytes = b: seq<bv8> | |b| == 4 witness [0, 0, 0, 0]

  /** The bytes of a version 6 address. */
  type V6Bytes = b: seq<bv8> | |b| == 16 witness seq(16, i => 0)

  /** An IP address: four bytes for version 4; sixteen bytes and the scope id
      for version 6, all of which take part in equality. */
  datatype IpAddress = V4(v4: V4Bytes) | V6(v6: V6Bytes, scopeId: nat)

  /** A TCP port: an unsigned 16-bit number. */
  type Port = p: int | 0 <= p < 0x1_0000

  /** A TCP endpoint: address and port, compared field by field. */
  datatype Endpoint = Endpoint(address: IpAddress, port: Port)

  /** A backend holds exactly one of an endpoint or a URL. */
  datatype Backend = EndpointBackend(endpoint: Endpoint) | UrlBackend(url: Urls.Url)

  /** Errors the selector code raises. */
  datatype SelectorError =
    | LoadBalancingMissing                 // no load_balancing node
    | AlgorithmMissing                     // no algorithm field
    | UnknownAlgorithm(name: string)       // an algorithm name not in the table
    | NotImplemented(name: string)         // a known algorithm without a selector
    | EndpointsMissing                     // no endpoints node
    | EndpointsNotSequence                 // endpoints is not a sequence
    | MissingField(field: string)          // an endpoint entry lacks ip or port
    | BadAddress(ip: string)               // the address does not parse
    | BadUrl(error: Urls.UrlError)         // the URL is rejected
    | AllBackendsExcluded                  // an exclusion emptied the list

  /** Backend::IsUrl. */
  function IsUrl(b: Backend): (r: bool)
    ensures r <==> !IsIpEndpoint(b)
    ensures r <==> exists u :: b == UrlBackend(u)
  {
    b.UrlBackend?
  }

  /** Backend::IsIpEndpoint. */
  function IsIpEndpoint(b: Backend): (r: bool)
    ensures r <==> exists e :: b == EndpointBackend(e)
  {
    b.EndpointBackend?
  }

  /** Backend::operator==: URLs compare as URLs, endpoints as endpoints, and a
      URL backend never equals an endpoint backend. */
  function BackendEquals(a: Backend, b: Backend): (r: bool)
    ensures r <==> a == b
    ensures IsUrl(a) != IsUrl(b) ==> !r
  {
    if IsUrl(a) && IsUrl(b) then Urls.SameUrl(a.url, b.url)
    else if IsIpEndpoint(a) && IsIpEndpoint(b) then a.endpoint == b.endpoint
    else false
  }

  /** Backend(ip_address, port): the address is parsed (and may be rejected);
      the int port is converted to the endpoint's unsigned 16-bit port. */
  function BackendFromAddress(parseAddress: string -> Option<IpAddress>, ip: string, port: int)
    : (r: Result<Backend, SelectorError>)
    ensures r.Ok? <==> parseAddress(ip).Some?
    ensures r.Err? ==> r.error == BadAddress(ip)
    ensures r.Ok? ==> IsIpEndpoint(r.value) && r.value.endpoint.address == parseAddress(ip).value
    ensures r.Ok? && 0 <= port < 0x1_0000 ==> r.value.endpoint.port == port
    ensures r.Ok? ==> (port - r.value.endpoint.port) % 0x1_0000 == 0
  {
    match parseAddress(ip)
    case None => Err(BadAddress(ip))
    case Some(address) => Ok(EndpointBackend(Endpoint(address, port % 0x1_0000)))
  }

  /** Backend(url_string): the text is parsed as a Url (and may be rejected). */
  function BackendFromUrl(s: string): (r: Result<Backend, SelectorError>)
    ensures r.Ok? <==> Urls.ParseUrl(s).Ok?
    ensures r.Ok? ==> IsUrl(r.value) && r.value.url == Urls.ParseUrl(s).value
    ensures r.Err? ==> r.error == BadUrl(Urls.ParseUrl(s).error)
  {
    match Urls.ParseUrl(s)
    case Err(e) => Err(BadUrl(e))
    case Ok(u) => Ok(UrlBackend(u))
  }

  /** BackendHasher: the hash of the backend's text. */
  function BackendHash(toText: Backend -> string, hash: string -> int, b: Backend): (h: int)
    ensures h == hash(toText(b))
  {
    hash(toText(b))
  }

  /** Backends with the same text hash alike, whatever the string hash is. */
  lemma SameTextSameHash(toText: Backend -> string, hash: string -> int, a: Backend, b: Backend)
    requires toText(a) == toText(b)
    ensures BackendHash(toText, hash, a) == BackendHash(toText, hash, b)
  {
  }

  // ---------------------------------------------------------------------
  // Selector kinds
  // ---------------------------------------------------------------------

  datatype SelectorType =
    | RoundRobin
    | WeightedRoundRobin
    | IpHash
    | ConsistentHash
    | LeastConnections
    | LeastResponseTime

  /** The enumerator values, in declaration order from 0. */
  function Ordinal(t: SelectorType): (n: nat)
    ensures n < 6
    ensures n == 0 <==> t == RoundRobin
  {
    match t
    case RoundRobin => 0
    case WeightedRoundRobin => 1
    case IpHash => 2
    case ConsistentHash => 3
    case LeastConnections => 4
    case LeastResponseTime => 5
  }

  /** Distinct kinds have distinct values. */
  lemma OrdinalInjective(a: SelectorType, b: SelectorType)
    requires Ordinal(a) == Ordinal(b)
    ensures a == b
  {
  }

  // ---------------------------------------------------------------------
  // Configuration
  // ---------------------------------------------------------------------

  /** One element of the endpoints sequence: a url, or an ip and a port. */
  datatype EndpointEntry = EndpointEntry(url: Option<string>, ip: Option<string>, port: Option<int>)

  /** The endpoints node: absent, not a sequence, or a sequence of entries. */
  datatype EndpointsNode = Missing | NotSequence | Entries(entries: seq<EndpointEntry>)

  /** The load_balancing node. */
  datatype BalancingNode = BalancingNode(algorithm: Option<string>, endpoints: EndpointsNode)

  /** The configuration root, seen through its load_balancing node. */
  datatype Config = Config(loadBalancing: Option<BalancingNode>)

  /** The backend one endpoint entry describes: a url entry becomes a URL
      backend; otherwise ip and port are both required. */
  function EntryBackend(parseAddress: string -> Option<IpAddress>, e: EndpointEntry)
    : (r: Result<Backend, SelectorError>)
    ensures e.url.Some? ==> r == BackendFromUrl(e.url.value)
    ensures e.url.None? && e.ip.None? ==> r == Err(MissingField("ip"))
    ensures e.url.None? && e.ip.Some? && e.port.None? ==> r == Err(MissingField("port"))
    ensures e.url.None? && e.ip.Some? && e.port.Some? ==>
              r == BackendFromAddress(parseAddress, e.ip.value, e.port.value)
    ensures r.Ok? ==> (IsUrl(r.value) <==> e.url.Some?)
  {
    if e.url.Some? then BackendFromUrl(e.url.value)
    else if e.ip.None? then Err(MissingField("ip"))
    else if e.port.None? then Err(MissingField("port"))
    else BackendFromAddress(parseAddress, e.ip.value, e.port.value)
  }

  /** EntryBackend with the parse function fixed, as one function value. */
  function EntryParser(parseAddress: string -> Option<IpAddress>): (f: EndpointEntry -> Result<Backend, SelectorError>)
    ensures forall e :: f(e) == EntryBackend(parseAddress, e)
  {
    e => EntryBackend(parseAddress, e)
  }

  /** What a run over a sequence gives: the values it appended, and the error
      that stopped it. */
  datatype Built<Y, E> = Built(values: seq<Y>, error: Option<E>)

  /** A run of f over xs, in order, that keeps each value and stops at the
      first element that fails. Configure runs EntryParser over the entries. */
  function Build<X, Y, E>(f: X -> Result<Y, E>, xs: seq<X>): (r: Built<Y, E>)
    ensures |r.values| <= |xs|
    ensures r.error.None? ==> |r.values| == |xs|
    ensures r.error.Some? ==> |r.values| < |xs|
    decreases |xs|
  {
    if xs == [] then Built([], None)
    else
      var before := Build(f, xs[..|xs| - 1]);
      if before.error.Some? then before
      else
        var last := f(xs[|xs| - 1]);
        if last.Err? then Built(before.values, Some(last.error))
        else Built(before.values + [last.value], None)
  }

  /** Each value Build gives is the one f gives its element, and the error it
      reports is the one the element after them fails with. */
  lemma {:induction false} BuildMeaning<X, Y, E>(f: X -> Result<Y, E>, xs: seq<X>)
    ensures var r := Build(f, xs);
            && (forall i :: 0 <= i < |r.values| ==> f(xs[i]) == Ok(r.values[i]))
            && (r.error.Some? ==> f(xs[|r.values|]) == Err(r.error.value))
    decreases |xs|
  {
    if xs != [] {
      var init := xs[..|xs| - 1];
      var before := Build(f, init);
      BuildMeaning(f, init);
      assert forall i :: 0 <= i < |init| ==> init[i] == xs[i];
      if before.error.None? {
        var last := f(xs[|xs| - 1]);
        if last.Ok? {
          BuildAppend(f, xs, before.values, last.value);
        }
      }
    }
  }

  /** Appending the value of the next element keeps every position matched. */
  lemma BuildAppend<X, Y, E>(f: X -> Result<Y, E>, xs: seq<X>, ys: seq<Y>, y: Y)
    requires |ys| + 1 == |xs|
    requires forall i :: 0 <= i < |ys| ==> f(xs[i]) == Ok(ys[i])
    requires f(xs[|ys|]) == Ok(y)
    ensures forall i :: 0 <= i < |xs| ==> f(xs[i]) == Ok((ys + [y])[i])
  {
    forall i | 0 <= i < |xs|
      ensures f(xs[i]) == Ok((ys + [y])[i])
    {
      if i < |ys| {
        assert (ys + [y])[i] == ys[i];
      }
    }
  }

  /** One more element after a run without errors: its value is appended, or
      its error stops the run. */
  lemma BuildStep<X, Y, E>(f: X -> Result<Y, E>, xs: seq<X>, i: nat)
    requires i < |xs|
    requires Build(f, xs[..i]).error.None?
    ensures var before := Build(f, xs[..i]);
            Build(f, xs[..i + 1])
              == if f(xs[i]).Err? then Built(before.values, Some(f(xs[i]).error))
                 else Built(before.values + [f(xs[i]).value], None)
  {
    var longer := xs[..i + 1];
    assert longer[..|longer| - 1] == xs[..i];
    assert longer[|longer| - 1] == xs[i];
  }

  /** Once an element fails, the elements after it change nothing. */
  lemma {:induction false} BuildAfterError<X, Y, E>(f: X -> Result<Y, E>, xs: seq<X>, j: nat)
    requires j <= |xs|
    requires Build(f, xs[..j]).error.Some?
    ensures Build(f, xs) == Build(f, xs[..j])
    decreases |xs| - j
  {
    if j < |xs| {
      var longer := xs[..j + 1];
      assert longer[..j] == xs[..j];
      assert Build(f, longer) == Build(f, xs[..j]);
      BuildAfterError(f, xs, j + 1);
    } else {
      assert xs[..j] == xs;
    }
  }

  // ---------------------------------------------------------------------
  // Round robin over a list
  // ---------------------------------------------------------------------

  /** The counter after one selection over n backends. */
  function Advance(counter: nat, n: nat): (c: nat)
    requires n > 0
    ensures c < n
    ensures c == (counter + 1) % n
  {
    (counter + 1) % n
  }

  lemma MulAtLeast(n: int, k: int)
    requires n > 0 && k >= 1
    ensures n * k >= n
  {
    assert n * k == n * (k - 1) + n;
    assert n * (k - 1) >= 0;
  }

  /** The remainder is the one r with a == n * q + r and 0 <= r < n. */
  lemma ModUnique(a: int, n: int, q: int, r: int)
    requires n > 0 && 0 <= r < n && a == n * q + r
    ensures a % n == r
  {
    var q' := a / n;
    var r' := a % n;
    assert a == n * q' + r';
    assert n * q - n * q' == r' - r;
    assert n * (q - q') == n * q - n * q';
    if q > q' {
      MulAtLeast(n, q - q');
      assert false;
    } else if q < q' {
      MulAtLeast(n, q' - q);
      assert false;
    }
  }

  lemma ModAddLeft(a: nat, b: nat, n: nat)
    requires n > 0
    ensures (a % n + b) % n == (a + b) % n
  {
    var q := a / n;
    var c := a % n + b;
    var q2 := c / n;
    assert a == n * q + a % n;
    assert c == n * q2 + c % n;
    assert a + b == n * (q + q2) + c % n;
    ModUnique(a + b, n, q + q2, c % n);
  }

  lemma ModAddModulus(x: nat, n: nat)
    requires n > 0
    ensures (x + n) % n == x % n
  {
    var q := x / n;
    assert x == n * q + x % n;
    assert x + n == n * (q + 1) + x % n;
    ModUnique(x + n, n, q + 1, x % n);
  }

  /** The counter after k selections over n backends. */
  function Advanced(counter: nat, n: nat, k: nat): (c: nat)
    requires n > 0
    ensures k > 0 ==> c == (counter + k) % n
    decreases k
  {
    if k == 0 then counter
    else
      var c := Advanced(Advance(counter, n), n, k - 1);
      ModAddLeft(counter + 1, k - 1, n);
      c
  }

  /** The backends k consecutive selections return, starting from counter. */
  function Selections(backends: seq<Backend>, counter: nat, k: nat): (picks: seq<Backend>)
    requires |backends| > 0
    ensures |picks| == k
    ensures forall i :: 0 <= i < k ==> picks[i] == backends[(counter + 1 + i) % |backends|]
    decreases k
  {
    if k == 0 then []
    else
      var next := Advance(counter, |backends|);
      var rest := Selections(backends, next, k - 1);
      forall i | 0 <= i < k - 1
        ensures rest[i] == backends[(counter + 1 + (i + 1)) % |backends|]
      {
        ModAddLeft(counter + 1, i + 1, |backends|);
      }
      [backends[next]] + rest
  }

  /** Position i of the list rotated to start at s. */
  function Rotated(s: nat, i: nat, n: nat): nat {
    if s + i < n then s + i else s + i - n
  }

  lemma ModSmall(x: nat, n: nat)
    requires x < n
    ensures x % n == x
  {
  }

  /** Selection i after counter lands on position i of the rotation that
      starts just after the counter. */
  lemma PickIndex(counter: nat, i: nat, n: nat)
    requires 0 < n && i < n
    ensures (counter + 1 + i) % n == Rotated(Advance(counter, n), i, n)
  {
    var s := Advance(counter, n);
    ModAddLeft(counter + 1, i, n);
    if s + i < n {
      ModSmall(s + i, n);
    } else {
      ModAddModulus(s + i - n, n);
      ModSmall(s + i - n, n);
    }
  }

  lemma RotatedAt(backends: seq<Backend>, s: nat, i: nat)
    requires s < |backends| && i < |backends|
    ensures (backends[s..] + backends[..s])[i] == backends[Rotated(s, i, |backends|)]
  {
  }

  lemma RotationKeepsMultiset(backends: seq<Backend>, s: nat)
    requires s <= |backends|
    ensures multiset(backends[s..] + backends[..s]) == multiset(backends)
  {
    assert backends == backends[..s] + backends[s..];
  }

  /** Any n consecutive selections over n backends return the list rotated to
      start just after the counter: each backend once, in list order; and the
      counter comes back to where it was. */
  lemma SelectionsRotate(backends: seq<Backend>, counter: nat)
    requires |backends| > 0
    ensures var start := Advance(counter, |backends|);
            Selections(backends, counter, |backends|) == backends[start..] + backends[..start]
    ensures multiset(Selections(backends, counter, |backends|)) == multiset(backends)
    ensures Advanced(counter, |backends|, |backends|) == counter % |backends|
  {
    var n := |backends|;
    var start := Advance(counter, n);
    var picks := Selections(backends, counter, n);
    var rotated := backends[start..] + backends[..start];
    forall i | 0 <= i < n
      ensures picks[i] == rotated[i]
    {
      PickIndex(counter, i, n);
      RotatedAt(backends, start, i);
    }
    assert picks == rotated;
    RotationKeepsMultiset(backends, start);
    FullRoundCounter(counter, n);
  }

  lemma FullRoundCounter(counter: nat, n: nat)
    requires n > 0
    ensures Advanced(counter, n, n) == counter % n
  {
    ModAddLeft(counter, n, n);
    ModAddModulus(counter % n, n);
    ModSmall(counter % n, n);
  }

  /** After configuration the counter is 0, so the first selection returns the
      second backend, and the n-th wraps round to the first. */
  lemma FirstSelections(backends: seq<Backend>)
    requires |backends| > 0
    ensures Selections(backends, 0, |backends|) == backends[1 % |backends|..] + backends[..1 % |backends|]
    ensures Selections(backends, 0, |backends|)[|backends| - 1] == backends[0]
  {
    SelectionsRotate(backends, 0);
    ModAddModulus(0, |backends|);
  }

  // ---------------------------------------------------------------------
  // Exclusion
  // ---------------------------------------------------------------------

  /** The list with every backend equal to x removed, the others in order
      (erase-remove). */
  function Without(backends: seq<Backend>, x: Backend): (r: seq<Backend>)
    ensures |r| <= |backends|
    ensures x !in backends ==> r == backends
    decreases |backends|
  {
    if backends == [] then []
    else
      var last := backends[|backends| - 1];
      var init := backends[..|backends| - 1];
      assert backends == init + [last];
      var kept := Without(init, x);
      if BackendEquals(last, x) then kept else kept + [last]
  }

  /** Exactly the backends other than x remain. */
  lemma {:induction false} WithoutMembers(backends: seq<Backend>, x: Backend)
    ensures forall y :: y in Without(backends, x) <==> y in backends && y != x
    decreases |backends|
  {
    if backends != [] {
      var init := backends[..|backends| - 1];
      assert backends == init + [backends[|backends| - 1]];
      WithoutMembers(init, x);
    }
  }

  /** Every other backend remains as often as it occurred; x no longer occurs. */
  lemma {:induction false} WithoutMultiset(backends: seq<Backend>, x: Backend)
    ensures multiset(Without(backends, x)) == multiset(backends)[x := 0]
    decreases |backends|
  {
    if backends != [] {
      var init := backends[..|backends| - 1];
      assert backends == init + [backends[|backends| - 1]];
      WithoutMultiset(init, x);
    }
  }

  /** Removal over one more element of a list. */
  lemma WithoutStep(backends: seq<Backend>, i: nat, x: Backend)
    requires i < |backends|
    ensures Without(backends[..i + 1], x)
            == Without(backends[..i], x) + (if BackendEquals(backends[i], x) then [] else [backends[i]])
  {
    assert backends[..i + 1][..i] == backends[..i];
  }

  /** Removal works piece by piece, so the order of what is kept is the order
      of the list. */
  lemma {:induction false} WithoutConcat(a: seq<Backend>, b: seq<Backend>, x: Backend)
    ensures Without(a + b, x) == Without(a, x) + Without(b, x)
    decreases |b|
  {
    if b == [] {
      assert a + b == a;
    } else {
      var init := b[..|b| - 1];
      assert (a + b)[..|a + b| - 1] == a + init;
      WithoutConcat(a, init, x);
    }
  }

  /** Removing a backend that is already absent, or removing twice, changes
      nothing further. */
  lemma WithoutIdempotent(backends: seq<Backend>, x: Backend)
    ensures Without(Without(backends, x), x) == Without(backends, x)
  {
    WithoutMembers(backends, x);
  }

  // ---------------------------------------------------------------------
  // The selector
  // ---------------------------------------------------------------------

  class RoundRobinSelector {
    var counter: nat
    var backends: seq<Backend>

    /** A new selector has no backends and a counter of 0. */
    constructor ()
      ensures counter == 0 && backends == []
    {
      counter := 0;
      backends := [];
    }

    /** RoundRobinSelector::Type. */
    function Type(): (t: SelectorType)
      ensures Ordinal(t) == 0
    {
      RoundRobin
    }

    /** RoundRobinSelector::Configure: append one backend per endpoint entry,
        in order; the first entry that fails stops the run with its error,
        keeping the backends appended before it. */
    method Configure(parseAddress: string -> Option<IpAddress>, node: BalancingNode)
      returns (outcome: Outcome<SelectorError>)
      modifies this
      ensures counter == old(counter)
      ensures node.endpoints.Missing? ==> backends == old(backends) && outcome == Fail(EndpointsMissing)
      ensures node.endpoints.NotSequence? ==>
                backends == old(backends) && outcome == Fail(EndpointsNotSequence)
      ensures node.endpoints.Entries? ==>
                var built := Build(EntryParser(parseAddress), node.endpoints.entries);
                && backends == old(backends) + built.values
                && outcome == (if built.error.Some? then Fail(built.error.value) else Pass)
    {
      match node.endpoints
      case Missing =>
        outcome := Fail(EndpointsMissing);
      case NotSequence =>
        outcome := Fail(EndpointsNotSequence);
      case Entries(entries) =>
        outcome := AppendEntries(parseAddress, entries);
    }

    /** The loop of Configure over the entries of the sequence. */
    method AppendEntries(parseAddress: string -> Option<IpAddress>, entries: seq<EndpointEntry>)
      returns (outcome: Outcome<SelectorError>)
      modifies this`backends
      ensures var built := Build(EntryParser(parseAddress), entries);
              && backends == old(backends) + built.values
              && outcome == (if built.error.Some? then Fail(built.error.value) else Pass)
    {
      var parse := EntryParser(parseAddress);
      var i := 0;
      while i < |entries|
        invariant 0 <= i <= |entries|
        invariant Build(parse, entries[..i]).error.None?
        invariant backends == old(backends) + Build(parse, entries[..i]).values
      {
        var entry := parse(entries[i]);
        BuildStep(parse, entries, i);
        if entry.Err? {
          BuildAfterError(parse, entries, i + 1);
          outcome := Fail(entry.error);
          return;
        }
        backends := backends + [entry.value];
        i := i + 1;
      }
      assert entries[..i] == entries;
      outcome := Pass;
    }

    /** RoundRobinSelector::SelectBackend: advance the counter modulo the
        number of backends and return the backend it lands on. */
    method SelectBackend() returns (b: Backend)
      requires |backends| > 0
      modifies this
      ensures backends == old(backends)
      ensures counter == Advance(old(counter), |backends|) && counter < |backends|
      ensures b == backends[counter]
      ensures [b] == Selections(backends, old(counter), 1)
    {
      counter := (counter + 1) % |backends|;
      b := backends[counter];
    }

    /** RoundRobinSelector::ExcludeBackend: remove every backend equal to the
        argument, keeping the order of the rest; fail once the list is empty.
        The counter is left as it is. */
    method ExcludeBackend(x: Backend) returns (outcome: Outcome<SelectorError>)
      modifies this`backends
      ensures counter == old(counter)
      ensures backends == Without(old(backends), x)
      ensures outcome == (if backends == [] then Fail(AllBackendsExcluded) else Pass)
    {
      var list := backends;
      var kept := [];
      var i := 0;
      while i < |list|
        invariant 0 <= i <= |list|
        invariant kept == Without(list[..i], x)
      {
        WithoutStep(list, i, x);
        if !BackendEquals(list[i], x) {
          kept := kept + [list[i]];
        }
        i := i + 1;
      }
      assert list[..i] == list;
      backends := kept;
      outcome := if backends == [] then Fail(AllBackendsExcluded) else Pass;
    }
  }

  /** Excluding a backend that occurs once removes just that entry. */
  lemma WithoutOnce(before: seq<Backend>, x: Backend, after: seq<Backend>)
    requires x !in before && x !in after
    ensures Without(before + [x] + after, x) == before + after
  {
    WithoutConcat(before + [x], after, x);
    WithoutConcat(before, [x], x);
  }

  /* The round-robin unit test, for any five distinct backends: a URL u
     first, then four endpoints e0..e3. Starting from a counter of 0, each
     round returns the list from its second element on, then the first, and
     brings the counter back to 0; each exclusion removes one endpoint and
     keeps the others in order; excluding the URL that remains empties the
     list. One lemma per phase of the test. */

  lemma RoundRobinTestPhase1(u: Backend, e0: Backend, e1: Backend, e2: Backend, e3: Backend)
    requires u != e0 && u != e1 && u != e2 && u != e3
    requires e0 != e1 && e0 != e2 && e0 != e3
    ensures Selections([u, e0, e1, e2, e3], 0, 5) == [e0, e1, e2, e3, u] && Advanced(0, 5, 5) == 0
  {
    FirstSelections([u, e0, e1, e2, e3]);
    FullRoundCounter(0, 5);
  }

  lemma RoundRobinTestExclusion1(u: Backend, e0: Backend, e1: Backend, e2: Backend, e3: Backend)
    requires u != e0 && u != e1 && u != e2 && u != e3
    requires e0 != e1 && e0 != e2 && e0 != e3 && e1 != e2 && e1 != e3 && e2 != e3
    ensures Without([u, e0, e1, e2, e3], e0) == [u, e1, e2, e3]
  {
    var list := [u, e0, e1, e2, e3];
    assert list == [u] + [e0] + [e1, e2, e3];
    WithoutOnce([u], e0, [e1, e2, e3]);
    assert [u] + [e1, e2, e3] == [u, e1, e2, e3];
  }

  lemma RoundRobinTestPhase2(u: Backend, e1: Backend, e2: Backend, e3: Backend)
    requires u != e1 && u != e2 && u != e3
    requires e1 != e2 && e1 != e3
    ensures Selections([u, e1, e2, e3], 0, 4) == [e1, e2, e3, u] && Advanced(0, 4, 4) == 0
  {
    FirstSelections([u, e1, e2, e3]);
    FullRoundCounter(0, 4);
  }

  lemma RoundRobinTestExclusion2(u: Backend, e1: Backend, e2: Backend, e3: Backend)
    requires u != e1 && e1 != e2 && e1 != e3
    ensures Without([u, e1, e2, e3], e1) == [u, e2, e3]
  {
    WithoutOnce([u], e1, [e2, e3]);
    assert [u] + [e1] + [e2, e3] == [u, e1, e2, e3];
  }

  lemma RoundRobinTestPhase3(u: Backend, e2: Backend, e3: Backend)
    requires u != e2 && u != e3 && e2 != e3
    ensures Selections([u, e2, e3], 0, 3) == [e2, e3, u] && Advanced(0, 3, 3) == 0
  {
    FirstSelections([u, e2, e3]);
    FullRoundCounter(0, 3);
  }

  lemma RoundRobinTestExclusion3(u: Backend, e2: Backend, e3: Backend)
    requires u != e2 && e2 != e3
    ensures Without([u, e2, e3], e2) == [u, e3]
  {
    var list := [u, e2, e3];
    assert list == [u] + [e2] + [e3];
    WithoutOnce([u], e2, [e3]);
  }

  lemma RoundRobinTestPhase4(u: Backend, e3: Backend)
    requires u != e3
    ensures Selections([u, e3], 0, 2) == [e3, u] && Advanced(0, 2, 2) == 0
  {
    FirstSelections([u, e3]);
    FullRoundCounter(0, 2);
  }

  lemma RoundRobinTestExclusion4(u: Backend, e3: Backend)
    requires u != e3
    ensures Without([u, e3], e3) == [u]
  {
    var list := [u, e3];
    assert list == [u] + [e3] + [];
    WithoutOnce([u], e3, []);
  }

  lemma RoundRobinTestPhase5(u: Backend)
    ensures Selections([u], 0, 1) == [u]
    ensures Without([u], u) == []
  {
    FirstSelections([u]);
  }

  // ---------------------------------------------------------------------
  // Choosing the selector
  // ---------------------------------------------------------------------

  /** The algorithm named in the configuration: only round_robin and
      consistent_hash are in the table. */
  function DetectAlgorithm(config: Config): (r: Result<SelectorType, SelectorError>)
    ensures config.loadBalancing.None? ==> r == Err(LoadBalancingMissing)
    ensures config.loadBalancing.Some? && config.loadBalancing.value.algorithm.None? ==>
              r == Err(AlgorithmMissing)
    ensures r.Ok? <==> config.loadBalancing.Some? && config.loadBalancing.value.algorithm.Some?
                       && config.loadBalancing.value.algorithm.value in {"round_robin", "consistent_hash"}
    ensures r.Ok? ==> (r.value == RoundRobin <==> config.loadBalancing.value.algorithm.value == "round_robin")
    ensures r.Ok? ==> r.value in {RoundRobin, ConsistentHash}
    ensures config.loadBalancing.Some? && config.loadBalancing.value.algorithm.Some?
            && config.loadBalancing.value.algorithm.value !in {"round_robin", "consistent_hash"} ==>
              r == Err(UnknownAlgorithm(config.loadBalancing.value.algorithm.value))
  {
    match config.loadBalancing
    case None => Err(LoadBalancingMissing)
    case Some(node) =>
      match node.algorithm
      case None => Err(AlgorithmMissing)
      case Some(name) =>
        if name == "round_robin" then Ok(RoundRobin)
        else if name == "consistent_hash" then Ok(ConsistentHash)
        else Err(UnknownAlgorithm(name))
  }

  /** DetectSelector: a configured round-robin selector for round_robin; an
      error for a missing or unknown algorithm, for consistent_hash (which has
      no selector here), and for a configuration the selector rejects. */
  method DetectSelector(parseAddress: string -> Option<IpAddress>, config: Config)
    returns (r: Result<RoundRobinSelector, SelectorError>)
    ensures DetectAlgorithm(config).Err? ==> r == Err(DetectAlgorithm(config).error)
    ensures DetectAlgorithm(config) == Ok(ConsistentHash) ==> r == Err(NotImplemented("consistent_hash"))
    ensures r.Ok? ==> DetectAlgorithm(config) == Ok(RoundRobin)
    ensures DetectAlgorithm(config) == Ok(RoundRobin) ==>
              var endpoints := config.loadBalancing.value.endpoints;
              && (r.Ok? <==> endpoints.Entries? && Build(EntryParser(parseAddress), endpoints.entries).error.None?)
              && (r.Ok? ==> fresh(r.value) && r.value.counter == 0
                            && r.value.backends == Build(EntryParser(parseAddress), endpoints.entries).values)
              && (r.Err? ==> r.error == match endpoints
                                        case Missing => EndpointsMissing
                                        case NotSequence => EndpointsNotSequence
                                        case Entries(entries) => Build(EntryParser(parseAddress), entries).error.value)
  {
    var algorithm := DetectAlgorithm(config);
    if algorithm.Err? {
      return Err(algorithm.error);
    }
    if algorithm.value == ConsistentHash {
      return Err(NotImplemented("consistent_hash"));
    }
    var selector := new RoundRobinSelector();
    var outcome := selector.Configure(parseAddress, config.loadBalancing.value);
    if outcome.Fail? {
      return Err(outcome.error);
    }
    return Ok(selector);
  }

  // ---------------------------------------------------------------------
  // Bookkeeping of the other selectors
  // ---------------------------------------------------------------------

  /** A backend with its weight and weighted round-robin position. */
  datatype WeightWrapper = WeightWrapper(backend: Backend, weight: nat, current: nat)

  /** A backend with its count of open connections. */
  datatype CounterWrapper = CounterWrapper(backend: Backend, counter: nat)

  /** A new weighted entry starts at position 0. */
  function NewWeightWrapper(b: Backend, weight: nat): (w: WeightWrapper)
    ensures w.backend == b && w.weight == weight && w.current == 0
  {
    WeightWrapper(b, weight, 0)
  }

  /** A new connection counter starts at 0. */
  function NewCounterWrapper(b: Backend): (w: CounterWrapper)
    ensures w.backend == b && w.counter == 0
  {
    CounterWrapper(b, 0)
  }

  /** ConnectionsCompare: the heap's "less than", true when the left entry has
      more connections, so the heap's top has the fewest. */
  function ConnectionsCompare(lhs: CounterWrapper, rhs: CounterWrapper): (r: bool)
    ensures r <==> rhs.counter < lhs.counter
  {
    lhs.counter > rhs.counter
  }

  /** The top of a max-heap ordered by ConnectionsCompare: an entry no other
      entry is greater than, which is one with the fewest connections. */
  function HeapTop(entries: seq<CounterWrapper>): (top: CounterWrapper)
    requires |entries| > 0
    ensures top in entries
    ensures forall w :: w in entries ==> !ConnectionsCompare(top, w)
    ensures forall w :: w in entries ==> top.counter <= w.counter
    decreases |entries|
  {
    if |entries| == 1 then entries[0]
    else
      var rest := HeapTop(entries[1..]);
      assert forall w :: w in entries ==> w == entries[0] || w in entries[1..];
      if ConnectionsCompare(rest, entries[0]) then entries[0] else rest
  }
}
