/** The consistent-hashing router of the pumba library
    (third_party/pumba/include/pumba/router.hpp).

    The router keeps a list of physical nodes and a ring: an ordered map from
    hash to the list element that owns it. Inserting a node writes one ring
    entry per replica hash, overwriting whatever was there; erasing a node looks
    up one key and removes the list element it points to together with every
    ring entry that points to that element; a client is routed to the node of
    the first ring key at or after its hash, wrapping round to the first key.

    List iterators are modelled by ids: `nodes` maps the id of every list
    element to its node, and the ring maps hashes to ids. The hash traits
    (GetHash, Replicate) are not visible here and are constructor parameters. */
module Pumba {
  import opened Wrappers

  /** The hash type of the traits: an unsigned machine word, ordered. */
  type Hash = nat

  /** The identity of a list element; stands for a list iterator. */
  type Id = nat

  // ---------------------------------------------------------------------
  // The ring as a map
  // ---------------------------------------------------------------------

  /** m is the smallest hash of s. */
  predicate IsLeast(s: set<Hash>, m: Hash) {
    m in s && forall x :: x in s ==> m <= x
  }

  /** There is a smallest element in every non-empty set of hashes. */
  lemma {:induction false} MinExists(s: set<Hash>)
    requires s != {}
    ensures exists m :: IsLeast(s, m)
    decreases s
  {
    var x :| x in s;
    var rest := s - {x};
    if rest == {} {
      assert IsLeast(s, x) by {
        forall y | y in s ensures x <= y {
          assert y == x || y in rest;
        }
      }
    } else {
      MinExists(rest);
      var m :| IsLeast(rest, m);
      var least := if x < m then x else m;
      assert IsLeast(s, least) by {
        forall y | y in s ensures least <= y {
          assert y == x || y in rest;
        }
      }
    }
  }

  /** The smallest hash of a non-empty set: the first key of an ordered map. */
  function MinKey(s: set<Hash>): (m: Hash)
    requires s != {}
    ensures m in s && forall x :: x in s ==> m <= x
  {
    MinExists(s);
    var m :| IsLeast(s, m);
    m
  }

  /** k is where a lookup for h lands on a ring with these keys: the first key
      at or after h, or the first key of all when every key is before h. */
  predicate IsSuccessor(keys: set<Hash>, h: Hash, k: Hash) {
    && k in keys
    && forall x :: x in keys ==>
         if k >= h then (x >= h ==> k <= x) else (x < h && k <= x)
  }

  /** Only one key is where a lookup lands. */
  lemma SuccessorUnique(keys: set<Hash>, h: Hash, a: Hash, b: Hash)
    requires IsSuccessor(keys, h, a) && IsSuccessor(keys, h, b)
    ensures a == b
  {
    assert a <= b && b <= a;
  }

  /** A landing key stays the landing key when keys it is not are removed. */
  lemma SuccessorOfSubset(small: set<Hash>, big: set<Hash>, h: Hash, k: Hash)
    requires small <= big && k in small && IsSuccessor(big, h, k)
    ensures IsSuccessor(small, h, k)
  {
  }

  /** lower_bound(h), or begin() when it is end(): the key a lookup for h
      lands on; none on an empty ring. */
  function Successor(keys: set<Hash>, h: Hash): (r: Option<Hash>)
    ensures r.None? <==> keys == {}
    ensures r.Some? ==> IsSuccessor(keys, h, r.value)
  {
    if keys == {} then None
    else
      var above := set k | k in keys && k >= h;
      if above != {} then
        var k := MinKey(above);
        assert forall x :: x in keys && x >= h ==> x in above;
        Some(k)
      else
        var k := MinKey(keys);
        assert forall x :: x in keys ==> x !in above;
        Some(k)
  }

  /** The list element a client with hash h is routed to. */
  function Route(ring: map<Hash, Id>, h: Hash): (r: Option<Id>)
    ensures r.None? <==> ring == map[]
    ensures r.Some? ==> exists k :: IsSuccessor(ring.Keys, h, k) && ring[k] == r.value
  {
    match Successor(ring.Keys, h)
    case None => None
    case Some(k) => Some(ring[k])
  }

  /** The ring after writing every hash of the list to id, one after the
      other; a hash already on the ring is overwritten. */
  function Spawn(ring: map<Hash, Id>, hashes: seq<Hash>, id: Id): (r: map<Hash, Id>)
    ensures r.Keys == ring.Keys + (set h | h in hashes)
    ensures forall h :: h in hashes ==> r[h] == id
    ensures forall h :: h in ring && h !in hashes ==> r[h] == ring[h]
    decreases |hashes|
  {
    if hashes == [] then ring
    else
      var init := hashes[..|hashes| - 1];
      assert forall h :: h in hashes ==> h in init || h == hashes[|hashes| - 1];
      Spawn(ring, init, id)[hashes[|hashes| - 1] := id]
  }

  /** The ring without the entries that point to id. */
  function WithoutId(ring: map<Hash, Id>, id: Id): (r: map<Hash, Id>)
    ensures r.Keys == set h | h in ring && ring[h] != id
    ensures forall h :: h in r ==> r[h] == ring[h] && r[h] != id
  {
    map h | h in ring && ring[h] != id :: ring[h]
  }

  /** Consistency of insertion: after a node's hashes are written, every
      client goes where it went before or to the new node. */
  lemma SpawnMovesOnlyToNew(ring: map<Hash, Id>, hashes: seq<Hash>, id: Id, h: Hash)
    ensures Route(Spawn(ring, hashes, id), h) == Some(id)
            || Route(Spawn(ring, hashes, id), h) == Route(ring, h)
  {
    var spawned := Spawn(ring, hashes, id);
    if ring == map[] && hashes == [] {
      assert spawned == ring;
      return;
    }
    if hashes != [] {
      assert hashes[0] in spawned;
    } else {
      var k0 :| k0 in ring;
      assert k0 in spawned;
    }
    var k := Successor(spawned.Keys, h).value;
    if spawned[k] != id {
      assert k !in hashes;
      assert k in ring.Keys;
      SuccessorOfSubset(ring.Keys, spawned.Keys, h, k);
      SuccessorUnique(ring.Keys, h, k, Successor(ring.Keys, h).value);
    }
  }

  /** Consistency of removal: a client that did not go to the removed element
      still goes where it went. */
  lemma WithoutIdKeepsOthers(ring: map<Hash, Id>, id: Id, h: Hash)
    requires Route(ring, h).Some? && Route(ring, h) != Some(id)
    ensures Route(WithoutId(ring, id), h) == Route(ring, h)
  {
    var k := Successor(ring.Keys, h).value;
    var rest := WithoutId(ring, id);
    assert k in rest.Keys;
    SuccessorOfSubset(rest.Keys, ring.Keys, h, k);
    SuccessorUnique(rest.Keys, h, k, Successor(rest.Keys, h).value);
  }

  // ---------------------------------------------------------------------
  // The router
  // ---------------------------------------------------------------------

  datatype RouterError = NoNodesOnRing

  /** What SelectNode does as written: a node, the error for an empty list,
      or the dereference of end() when the list has nodes but the ring has no
      entries. */
  datatype Selected<Node> = Chosen(node: Node) | NoNodes | EndDereferenced

  class Router<Node(==)> {
    const getHash: Node -> Hash
    const replicate: (Node, nat) -> seq<Hash>
    const replicas: nat
    var nodes: map<Id, Node>
    var ring: map<Hash, Id>
    var nextId: Id

    /** Every ring entry points to an element of the list. */
    ghost predicate Valid()
      reads this
    {
      && (forall h :: h in ring ==> ring[h] in nodes)
      && (forall i :: i in nodes ==> i < nextId)
    }

    /** ConsistentHashingRouter(replicas): no nodes, an empty ring. */
    constructor (getHash: Node -> Hash, replicate: (Node, nat) -> seq<Hash>, replicas: nat := 1)
      ensures Valid()
      ensures this.getHash == getHash && this.replicate == replicate && this.replicas == replicas
      ensures nodes == map[] && ring == map[] && nextId == 0
    {
      this.getHash := getHash;
      this.replicate := replicate;
      this.replicas := replicas;
      nodes := map[];
      ring := map[];
      nextId := 0;
    }

    /** Replicas: the count given at construction. */
    function Replicas(): (r: nat)
      ensures r == replicas
    {
      replicas
    }

    /** PhysicalNodes: the length of the list. */
    function PhysicalNodes(): (n: nat)
      reads this
      ensures n == |nodes|
    {
      |nodes|
    }

    /** Empty: whether the list has no nodes. */
    function Empty(): (r: bool)
      reads this
      ensures r <==> PhysicalNodes() == 0
    {
      nodes == map[]
    }

    /** InsertNode: append the node to the list and write its replica hashes
        to the ring. */
    method InsertNode(node: Node)
      requires Valid()
      modifies this
      ensures Valid()
      ensures old(nextId) !in old(nodes)
      ensures nodes == old(nodes)[old(nextId) := node] && nextId == old(nextId) + 1
      ensures PhysicalNodes() == old(PhysicalNodes()) + 1
      ensures forall h :: h in replicate(node, replicas) ==> h in ring && ring[h] == old(nextId)
      ensures ring == Spawn(old(ring), replicate(node, replicas), old(nextId))
    {
      var id := nextId;
      nodes := nodes[id := node];
      nextId := nextId + 1;
      SpawnReplicas(id);
    }

    /** SpawnReplicas: point every replica hash of the element at it. */
    method SpawnReplicas(id: Id)
      requires Valid() && id in nodes
      modifies this`ring
      ensures Valid()
      ensures ring == Spawn(old(ring), replicate(nodes[id], replicas), id)
    {
      var hashes := replicate(nodes[id], replicas);
      var i := 0;
      while i < |hashes|
        invariant 0 <= i <= |hashes|
        invariant ring == Spawn(old(ring), hashes[..i], id)
        invariant Valid()
      {
        assert hashes[..i + 1][..i] == hashes[..i];
        ring := ring[hashes[i] := id];
        i := i + 1;
      }
      assert hashes[..i] == hashes;
    }

    /** EraseReplicasOf: remove every ring entry that points to the element. */
    method EraseReplicasOf(id: Id)
      requires Valid()
      modifies this`ring
      ensures Valid()
      ensures ring == WithoutId(old(ring), id)
    {
      var remaining := ring.Keys;
      while remaining != {}
        invariant remaining <= old(ring).Keys
        invariant ring.Keys == set h | h in old(ring) && (h in remaining || old(ring)[h] != id)
        invariant forall h :: h in ring ==> ring[h] == old(ring)[h]
        invariant Valid()
        decreases remaining
      {
        var h :| h in remaining;
        if ring[h] == id {
          ring := ring - {h};
        }
        remaining := remaining - {h};
      }
    }

    /** EraseNode: look up the node's hash; if it is on the ring, remove the
        element it points to and all of that element's ring entries. */
    method EraseNode(node: Node)
      requires Valid()
      modifies this
      ensures Valid()
      ensures nextId == old(nextId)
      ensures getHash(node) !in old(ring) ==> nodes == old(nodes) && ring == old(ring)
      ensures getHash(node) in old(ring) ==>
                var victim := old(ring)[getHash(node)];
                && nodes == old(nodes) - {victim}
                && ring == WithoutId(old(ring), victim)
    {
      var h := getHash(node);
      if h in ring {
        var victim := ring[h];
        EraseReplicasOf(victim);
        nodes := nodes - {victim};
      }
    }

    /** SelectNode as written: it checks the list for emptiness, then reads the
        ring's first entry even when the ring is empty. */
    function SelectNodeAsWritten(client: Node): (r: Selected<Node>)
      reads this
      requires Valid()
      ensures r == NoNodes <==> nodes == map[]
      ensures r == EndDereferenced <==> nodes != map[] && ring == map[]
      ensures r.Chosen? ==> r.node in nodes.Values
    {
      if Empty() then NoNodes
      else
        match Route(ring, getHash(client))
        case None => EndDereferenced
        case Some(id) => Chosen(nodes[id])
    }

    /** SelectNode: the node of the ring entry a lookup for the client's hash
        lands on; an error when the ring has no entries. */
    function SelectNode(client: Node): (r: Result<Node, RouterError>)
      reads this
      requires Valid()
      ensures r.Err? <==> ring == map[]
      ensures nodes == map[] ==> r.Err?
      ensures r.Ok? ==> r.value in nodes.Values
      ensures r.Ok? ==> exists k :: IsSuccessor(ring.Keys, getHash(client), k) && r.value == nodes[ring[k]]
      ensures SelectNodeAsWritten(client).Chosen? ==> r == Ok(SelectNodeAsWritten(client).node)
    {
      match Route(ring, getHash(client))
      case None => Err(NoNodesOnRing)
      case Some(id) => Ok(nodes[id])
    }
  }

  // ---------------------------------------------------------------------
  // Collisions
  // ---------------------------------------------------------------------

  /** Writing a single hash is one map update. */
  lemma SpawnOne(ring: map<Hash, Id>, h: Hash, id: Id)
    ensures Spawn(ring, [h], id) == ring[h := id]
  {
    assert [h][..0] == [];
  }

  /** Two insertions whose only replica hash is the same key: the second
      overwrites the first's ring entry. */
  method InsertColliding<Node(==)>(router: Router<Node>, first: Node, second: Node)
    requires router.Valid() && router.nodes == map[] && router.ring == map[] && router.nextId == 0
    requires router.replicate(first, router.replicas) == [7]
    requires router.replicate(second, router.replicas) == [7]
    modifies router
    ensures router.Valid()
    ensures router.nodes == map[0 := first, 1 := second] && router.ring == map[7 := 1]
  {
    SpawnOne(map[], 7, 0);
    router.InsertNode(first);
    assert router.ring == map[7 := 0];
    SpawnOne(map[7 := 0], 7, 1);
    router.InsertNode(second);
  }

  /** Erasing the first of two colliding nodes: its key points to the second,
      which is the one removed, together with the only ring entry. */
  method EraseFirstOfColliding<Node(==)>(router: Router<Node>, first: Node, second: Node)
    requires router.Valid()
    requires router.nodes == map[0 := first, 1 := second] && router.ring == map[7 := 1]
    requires router.getHash(first) == 7
    modifies router
    ensures router.Valid()
    ensures router.nodes == map[0 := first] && router.ring == map[]
  {
    router.EraseNode(first);
    assert router.ring.Keys == {};
  }

  /** Inserting a node twice sends every replica hash to the second copy;
      erasing the node then removes that copy and all the entries, leaving the
      first copy in the list and the ring empty, so SelectNode as written reads
      end(). */
  method DuplicateInsertThenErase<Node(==)>(node: Node, client: Node) returns (s: Selected<Node>)
    ensures s == EndDereferenced
  {
    var router := new Router<Node>(_ => 7, (_, _) => [7], 1);
    assert router.replicate(node, router.replicas) == [7];
    InsertColliding(router, node, node);
    assert router.getHash(node) == 7;
    EraseFirstOfColliding(router, node, node);
    s := router.SelectNodeAsWritten(client);
  }

  /** Two nodes whose hashes collide: the ring key of the first points to the
      second, so erasing the first removes the second. */
  method EraseRemovesCollidingNode<Node(==)>(a: Node, b: Node) returns (left: set<Node>)
    requires a != b
    ensures left == {a}
  {
    var router := new Router<Node>(_ => 7, (_, _) => [7], 1);
    assert router.replicate(a, router.replicas) == [7];
    assert router.replicate(b, router.replicas) == [7];
    InsertColliding(router, a, b);
    assert router.getHash(a) == 7;
    EraseFirstOfColliding(router, a, b);
    left := router.nodes.Values;
    assert router.nodes[0] == a;
    assert forall v :: v in left ==> v == a;
  }
}
