/**
 The ConsistentHash object itself: the key list, the owner map and the node set
 changed in place, proved to hold exactly what the member list says.
 */
module HashRings {
  import opened Arithmetic
  import opened Decimal
  import opened HashPoints
  import opened ConsistentHashing
  import opened HashRuns
  import opened Options

  const INNER_PREFIX: string := "16777619:"

  function RingAt(ring: map<nat, seq<Node>>, x: nat): (ns: seq<Node>)
  {
    if x in ring then ring[x] else []
  }

  /** The owner map lists, under every hash value, the owners of the points there, and nothing else. */
  ghost predicate RingOk(h: Hash, ring: map<nat, seq<Node>>, ms: seq<Member>)
  {
    && (forall x :: x in ring ==> ring[x] != [])
    && (forall x :: RingAt(ring, x) == OwnersAt(Points(h, ms), x))
  }

  /** x is the hash of one of the first n virtual points of the node. */
  ghost predicate Touched(h: Hash, repr: string, n: nat, x: nat)
  {
    n > 0 && (PointHash(h, repr, n - 1) == x || Touched(h, repr, n - 1, x))
  }

  lemma {:induction false} TouchedBy(h: Hash, repr: string, n: nat, i: nat)
    requires i < n
    ensures Touched(h, repr, n, PointHash(h, repr, i))
  {
    if i < n - 1 {
      TouchedBy(h, repr, n - 1, i);
    }
  }

  lemma {:induction false} KeepNodesTwice(ns: seq<Node>, repr: string)
    ensures KeepNodes(KeepNodes(ns, repr), repr) == KeepNodes(ns, repr)
  {
    if ns != [] {
      var n := |ns| - 1;
      KeepNodesTwice(ns[..n], repr);
      if ns[n].repr != repr {
        KeepNodesSnoc(KeepNodes(ns[..n], repr), ns[n], repr);
      } else {
        assert KeepNodes(ns, repr) == KeepNodes(ns[..n], repr);
      }
    }
  }

  lemma {:induction false} KeepNodesSame(ns: seq<Node>, repr: string)
    requires forall i :: 0 <= i < |ns| ==> ns[i].repr != repr
    ensures KeepNodes(ns, repr) == ns
  {
    if ns != [] {
      var n := |ns| - 1;
      KeepNodesSame(ns[..n], repr);
      assert ns == ns[..n] + [ns[n]];
    }
  }

  lemma {:induction false} NodePointTouched(h: Hash, node: Node, n: nat, replicas: nat, k: nat)
    requires n <= replicas && k < |PointsOf(h, node, n)|
    ensures PointsOf(h, node, n)[k].owner == node
    ensures Touched(h, node.repr, replicas, PointsOf(h, node, n)[k].hash)
  {
    if n > 0 {
      if k < |PointsOf(h, node, n - 1)| {
        NodePointTouched(h, node, n - 1, replicas, k);
      } else {
        TouchedBy(h, node.repr, replicas, n - 1);
      }
    }
  }

  lemma {:induction false} PointTouched(h: Hash, ms: seq<Member>, replicas: nat, k: nat)
    requires Bounded(replicas, ms) && k < |Points(h, ms)|
    ensures Touched(h, Points(h, ms)[k].owner.repr, replicas, Points(h, ms)[k].hash)
  {
    var n := |ms| - 1;
    var m := ms[n];
    var before := Points(h, ms[..n]);
    if k < |before| {
      PointTouched(h, ms[..n], replicas, k);
    } else {
      NodePointTouched(h, m.node, m.count, replicas, k - |before|);
    }
  }

  /** Filtering the lists under all of a node's hash values is removing the member. */
  lemma {:induction false} RemovedFromRing(h: Hash, replicas: nat, ms: seq<Member>, repr: string, x: nat)
    requires Bounded(replicas, ms)
    ensures OwnersAt(Points(h, KeepMembers(ms, repr)), x) == KeepNodes(OwnersAt(Points(h, ms), x), repr)
    ensures !Touched(h, repr, replicas, x) ==> KeepNodes(OwnersAt(Points(h, ms), x), repr) == OwnersAt(Points(h, ms), x)
  {
    PointsKept(h, ms, repr);
    OwnersKept(Points(h, ms), repr, x);
    if !Touched(h, repr, replicas, x) {
      OwnersAreOwners(Points(h, ms), x);
      var owners := OwnersAt(Points(h, ms), x);
      forall i | 0 <= i < |owners| ensures owners[i].repr != repr {
        assert owners[i] in owners;
        var k :| 0 <= k < |Points(h, ms)| && Points(h, ms)[k] == Point(owners[i], x);
        PointTouched(h, ms, replicas, k);
      }
      KeepNodesSame(OwnersAt(Points(h, ms), x), repr);
    }
  }

  lemma {:induction false} AppendedOwners(h: Hash, node: Node, n: nat, x: nat)
    ensures OwnersAt(PointsOf(h, node, n + 1), x) ==
            OwnersAt(PointsOf(h, node, n), x) + if PointHash(h, node.repr, n) == x then [node] else []
  {
    OwnersSnoc(PointsOf(h, node, n), Point(node, PointHash(h, node.repr, n)), x);
  }

  /** The owner map after the node was filtered out under its first n hash values. */
  ghost predicate Filtered(h: Hash, was: map<nat, seq<Node>>, ring: map<nat, seq<Node>>, repr: string, n: nat)
  {
    && (forall x :: x in ring ==> ring[x] != [])
    && (forall x ::
          RingAt(ring, x) == if Touched(h, repr, n, x) then KeepNodes(RingAt(was, x), repr) else RingAt(was, x))
  }

  lemma {:induction false} FilteredNext(h: Hash, was: map<nat, seq<Node>>, ring: map<nat, seq<Node>>,
                                        ring': map<nat, seq<Node>>, repr: string, n: nat)
    requires Filtered(h, was, ring, repr, n)
    requires forall x :: x in ring' ==> ring'[x] != []
    requires forall x ::
      RingAt(ring', x) == if x == PointHash(h, repr, n) then KeepNodes(RingAt(ring, x), repr) else RingAt(ring, x)
    ensures Filtered(h, was, ring', repr, n + 1)
  {
    KeepNodesTwice(RingAt(was, PointHash(h, repr, n)), repr);
  }

  lemma {:induction false} TakeOneMore(k: multiset<nat>, a: multiset<nat>, x: nat)
    ensures k - a - multiset{x} == k - (a + multiset{x})
  {
  }

  lemma {:induction false} AddOneMore(k: multiset<nat>, a: multiset<nat>, x: nat)
    ensures k + a + multiset{x} == k + (a + multiset{x})
  {
  }

  /** What Get comes back with: a panic, no node, or a node. */
  datatype Lookup = DivideByZero | NotFound | Found(node: Node)

  function OwnerOf(owners: seq<Node>, inner: nat): (r: Lookup)
  {
    if owners == [] then NotFound else Found(Pick(owners, inner))
  }

  function Known(r: Lookup): (n: Option<Node>)
  {
    if r.Found? then Some(r.node) else None
  }

  /** x is the first key at or after hv, going around once. */
  ghost predicate FirstKey(keys: seq<nat>, hv: nat, x: nat)
  {
    && x in keys
    && forall i :: 0 <= i < |keys| ==>
         if x >= hv then keys[i] >= hv ==> x <= keys[i] else keys[i] < hv && x <= keys[i]
  }

  lemma {:induction false} FirstIndex(keys: seq<nat>, hash: nat, index: nat)
    requires keys != [] && Sorted(keys) && index <= |keys|
    requires forall i :: 0 <= i < index ==> keys[i] < hash
    requires forall i :: index <= i < |keys| ==> keys[i] >= hash
    ensures FirstKey(keys, hash, keys[if index < |keys| then index else 0])
  {
  }

  class ConsistentHash {
    const hashFunc: Hash
    const replicas: nat
    var keys: seq<nat>
    var ring: map<nat, seq<Node>>
    var nodes: set<string>
    ghost var members: seq<Member>

    ghost predicate Shape()
      reads this
    {
      && Bounded(replicas, members) && Sorted(keys)
      && RingOk(hashFunc, ring, members)
      && (forall r :: r in nodes <==> Present(members, r))
    }

    ghost function View(): (t: Table)
      reads this
    {
      Table(members, multiset(keys))
    }

    constructor (replicas: int, hashFunc: Hash)
      ensures Shape() && View() == Table([], multiset{})
      ensures this.hashFunc == hashFunc && this.replicas == if replicas < 100 then 100 else replicas
    {
      this.hashFunc := hashFunc;
      this.replicas := if replicas < 100 then 100 else replicas;
      keys := [];
      ring := map[];
      nodes := {};
      members := [];
    }

    /** sort.Search over the keys: the first index whose key is at least the hash. */
    method Search(hash: nat) returns (index: nat)
      requires Sorted(keys)
      ensures index <= |keys|
      ensures forall i :: 0 <= i < index ==> keys[i] < hash
      ensures forall i :: index <= i < |keys| ==> keys[i] >= hash
    {
      index := 0;
      var j := |keys|;
      while index < j
        invariant 0 <= index <= j <= |keys|
        invariant forall i :: 0 <= i < index ==> keys[i] < hash
        invariant forall i :: j <= i < |keys| ==> keys[i] >= hash
      {
        var mid := (index + j) / 2;
        if keys[mid] >= hash {
          j := mid;
        } else {
          index := mid + 1;
        }
      }
    }

    method RemoveKey(hash: nat)
      requires Sorted(keys)
      modifies this`keys
      ensures Sorted(keys) && multiset(keys) == multiset(old(keys)) - multiset{hash}
    {
      var index := Search(hash);
      if index < |keys| && keys[index] == hash {
        CutKey(keys, index);
        keys := keys[..index] + keys[index + 1..];
      } else {
        assert hash !in keys;
      }
    }

    /** The in-place filter of removeRingNode. */
    static method WithoutNode(ns: seq<Node>, repr: string) returns (r: seq<Node>)
      ensures r == KeepNodes(ns, repr)
    {
      r := [];
      var i := 0;
      while i < |ns|
        invariant 0 <= i <= |ns| && r == KeepNodes(ns[..i], repr)
      {
        assert ns[..i + 1][..i] == ns[..i];
        if ns[i].repr != repr {
          r := r + [ns[i]];
        }
        i := i + 1;
      }
      assert ns[..|ns|] == ns;
    }

    method RemoveRingNode(hash: nat, repr: string)
      requires forall x :: x in ring ==> ring[x] != []
      modifies this`ring
      ensures forall x :: x in ring ==> ring[x] != []
      ensures forall x :: RingAt(ring, x) == if x == hash then KeepNodes(RingAt(old(ring), x), repr) else RingAt(old(ring), x)
    {
      if hash in ring {
        var newNodes := WithoutNode(ring[hash], repr);
        if |newNodes| > 0 {
          ring := ring[hash := newNodes];
        } else {
          ring := ring - {hash};
        }
      }
    }

    method Remove(node: Node)
      requires Shape()
      modifies this
      ensures Shape() && View() == DoRemove(hashFunc, replicas, old(View()), node.repr)
    {
      var repr := node.repr;
      if repr !in nodes {
        return;
      }
      RemovePoints(repr);
      nodes := nodes - {repr};
      forall x ensures RingAt(ring, x) == OwnersAt(Points(hashFunc, KeepMembers(members, repr)), x) {
        RemovedFromRing(hashFunc, replicas, members, repr, x);
      }
      NamesAfterRemove(members, repr);
      BoundedAfterRemove(replicas, members, repr);
      members := KeepMembers(members, repr);
    }

    /** One iteration of Remove: point i, from the keys and from the owner map. */
    method RemovePoint(repr: string, i: nat, ghost was: map<nat, seq<Node>>)
      requires Sorted(keys) && Filtered(hashFunc, was, ring, repr, i)
      modifies this`keys, this`ring
      ensures Sorted(keys) && multiset(keys) == multiset(old(keys)) - multiset{PointHash(hashFunc, repr, i)}
      ensures Filtered(hashFunc, was, ring, repr, i + 1)
    {
      var hash := hashFunc(repr + Itoa(i));
      RemoveKey(hash);
      RemoveRingNode(hash, repr);
      FilteredNext(hashFunc, was, old(ring), ring, repr, i);
    }

    /** The loop of Remove over all `replicas` indices. */
    method RemovePoints(repr: string)
      requires Sorted(keys) && forall x :: x in ring ==> ring[x] != []
      modifies this`keys, this`ring
      ensures Sorted(keys) && multiset(keys) == multiset(old(keys)) - ReprHashes(hashFunc, repr, replicas)
      ensures Filtered(hashFunc, old(ring), ring, repr, replicas)
    {
      var i := 0;
      while i < replicas
        invariant 0 <= i <= replicas
        invariant Sorted(keys) && multiset(keys) == multiset(old(keys)) - ReprHashes(hashFunc, repr, i)
        invariant Filtered(hashFunc, old(ring), ring, repr, i)
      {
        TakeOneMore(multiset(old(keys)), ReprHashes(hashFunc, repr, i), PointHash(hashFunc, repr, i));
        RemovePoint(repr, i, old(ring));
        i := i + 1;
      }
    }

    /** One iteration of AddWithReplicas. */
    method AddPoint(node: Node, i: nat, ghost was: map<nat, seq<Node>>)
      requires Extended(hashFunc, was, ring, node, i)
      modifies this`keys, this`ring
      ensures multiset(keys) == multiset(old(keys)) + multiset{PointHash(hashFunc, node.repr, i)}
      ensures Extended(hashFunc, was, ring, node, i + 1)
    {
      var hash := hashFunc(node.repr + Itoa(i));
      keys := keys + [hash];
      ring := ring[hash := RingAt(ring, hash) + [node]];
      ExtendedNext(hashFunc, was, old(ring), node, i);
    }

    /** The loop of AddWithReplicas. */
    method AddPoints(node: Node, count: nat)
      requires forall x :: x in ring ==> ring[x] != []
      modifies this`keys, this`ring
      ensures multiset(keys) == multiset(old(keys)) + ReprHashes(hashFunc, node.repr, count)
      ensures Extended(hashFunc, old(ring), ring, node, count)
    {
      var i := 0;
      while i < count
        invariant 0 <= i <= count
        invariant multiset(keys) == multiset(old(keys)) + ReprHashes(hashFunc, node.repr, i)
        invariant Extended(hashFunc, old(ring), ring, node, i)
      {
        AddOneMore(multiset(old(keys)), ReprHashes(hashFunc, node.repr, i), PointHash(hashFunc, node.repr, i));
        AddPoint(node, i, old(ring));
        i := i + 1;
      }
    }

    /** The second critical section of AddWithReplicas. */
    method Append(node: Node, c: nat)
      requires Shape() && c <= replicas
      modifies this
      ensures Shape() && View() == DoAppend(hashFunc, replicas, old(View()), node, c)
    {
      nodes := nodes + {node.repr};
      AddPoints(node, c);
      SortSorts(keys);
      keys := Sort(keys);
      AddedToRing(hashFunc, old(ring), ring, members, Member(node, c));
      NamesAfterAdd(members, Member(node, c));
      members := members + [Member(node, c)];
    }

    /** Both critical sections of an addition, for the schedule with no other caller between them. */
    method AddWithReplicas(node: Node, count: int)
      requires Shape()
      modifies this
      ensures Shape()
      ensures View() == DoAppend(hashFunc, replicas, DoRemove(hashFunc, replicas, old(View()), node.repr), node, count)
    {
      Remove(node);
      Append(node, if count > replicas then replicas else if count < 0 then 0 else count);
    }

    method AddWithWeight(node: Node, weight: int)
      requires Shape()
      modifies this
      ensures Shape()
      ensures View()
           == DoAppend(hashFunc, replicas, DoRemove(hashFunc, replicas, old(View()), node.repr), node, WeightReplicas(replicas, weight))
    {
      var share := replicas * weight;
      AddWithReplicas(node, if share < 0 then -(-share / TOP_WEIGHT) else share / TOP_WEIGHT);
    }

    /**
     Get: the owner under the first key clockwise from the value's hash.  The
     index is taken modulo the number of keys, so a ring with owners and no
     keys divides by zero.
     */
    method Get(v: string) returns (r: Lookup)
      requires Shape()
      ensures r.DivideByZero? <==> Points(hashFunc, members) != [] && keys == []
      ensures r.Found? ==> exists m :: m in members && r.node.repr == m.node.repr
      ensures Points(hashFunc, members) == [] ==> r == NotFound
      ensures Points(hashFunc, members) != [] && keys != [] ==>
        exists x :: FirstKey(keys, hashFunc(v), x)
          && r == OwnerOf(OwnersAt(Points(hashFunc, members), x), hashFunc("16777619:" + v))
      ensures Exact(hashFunc, View()) ==> !r.DivideByZero?
      ensures Exact(hashFunc, View()) ==>
        LivesAt(Points(hashFunc, members), hashFunc(v), hashFunc("16777619:" + v), Known(r))
    {
      ghost var ps := Points(hashFunc, members);
      EmptyRing(hashFunc, ring, members);
      if |ring| == 0 {
        return NotFound;
      }
      var hash := hashFunc(v);
      var index := Search(hash);
      if |keys| == 0 {
        r := DivideByZero;
      } else {
        TurnAround(index, |keys|);
        var at := index % |keys|;
        FirstIndex(keys, hash, index);
        r := OwnerAt(keys[at], hashFunc(INNER_PREFIX + v));
      }
      if Exact(hashFunc, View()) {
        KeysNonEmpty(keys, ps);
        IndexIsClockwise(keys, ps, hash, index);
      }
    }

    /** The owner under a key: the only one, one of several by the inner hash, or none. */
    method OwnerAt(x: nat, inner: nat) returns (r: Lookup)
      requires Shape()
      ensures r == OwnerOf(OwnersAt(Points(hashFunc, members), x), inner)
      ensures r.Found? ==> exists m :: m in members && r.node.repr == m.node.repr
    {
      if x !in ring {
        return NotFound;
      }
      var owners := ring[x];
      OwnersAreMembers(hashFunc, members, x, Pick(owners, inner));
      if |owners| == 1 {
        return Found(owners[0]);
      }
      return Found(owners[inner % |owners|]);
    }
  }

  lemma {:induction false} OwnersAreMembers(h: Hash, ms: seq<Member>, x: nat, n: Node)
    requires n in OwnersAt(Points(h, ms), x)
    ensures exists m :: m in ms && n.repr == m.node.repr
  {
    OwnersAreOwners(Points(h, ms), x);
    var i :| 0 <= i < |Points(h, ms)| && Points(h, ms)[i] == Point(n, x);
    PointOwner(h, ms, i);
  }

  lemma {:induction false} PointOwner(h: Hash, ms: seq<Member>, k: nat)
    requires k < |Points(h, ms)|
    ensures exists m :: m in ms && Points(h, ms)[k].owner == m.node
  {
    var m := ms[|ms| - 1];
    var init := ms[..|ms| - 1];
    if k < |Points(h, init)| {
      PointOwner(h, init, k);
    } else {
      NodePointTouched(h, m.node, m.count, m.count, k - |Points(h, init)|);
    }
  }

  /**
   Get after removing member k from an exact ring divides by zero if and only
   if the other members have points and the surplus points of the removed one
   cover them all.
   */
  lemma {:induction false} RemoveDividesByZeroIff(h: Hash, replicas: nat, ms: seq<Member>, k: nat)
    requires Counted(replicas, ms) && k < |ms|
    ensures var repr := ms[k].node.repr;
      var t := DoRemove(h, replicas, Table(ms, Hashes(Points(h, ms))), repr);
      var others := Hashes(Points(h, KeepMembers(ms, repr)));
      Points(h, t.members) != [] && t.keys == multiset{}
      <==> Points(h, KeepMembers(ms, repr)) != []
           && others <= ReprHashes(h, repr, replicas) - ReprHashes(h, repr, ms[k].count)
  {
    var m := ms[k];
    var others := Hashes(Points(h, KeepMembers(ms, m.node.repr)));
    HashesSplit(h, ms, k);
    HashesOfNode(h, m.node, m.count);
    MoreHashes(h, m.node.repr, m.count, replicas);
    CoveredIff(others, ReprHashes(h, m.node.repr, m.count), ReprHashes(h, m.node.repr, replicas));
  }

  lemma {:induction false} CoveredIff(others: multiset<nat>, own: multiset<nat>, all: multiset<nat>)
    requires own <= all
    ensures others + own - all == multiset{} <==> others <= all - own
  {
    if others + own - all == multiset{} {
      forall x ensures others[x] <= (all - own)[x] {
        assert (others + own - all)[x] == 0;
      }
    }
  }

  /** With full replicas no interleaving of additions and removals makes Get divide by zero. */
  lemma {:induction false} FullRunNeverDividesByZero(h: Hash, replicas: nat, run: Run)
    requires FullReplicas(replicas, run)
    ensures var t := After(h, replicas, run); Points(h, t.members) != [] ==> t.keys != multiset{}
  {
    var ps := Points(h, After(h, replicas, run).members);
    FullRunKeys(h, replicas, run);
    if ps != [] {
      HashesAreHashes(ps, ps[0].hash);
      assert ps[0].hash in After(h, replicas, run).keys;
    }
  }

  lemma {:induction false} NamesAfterRemove(ms: seq<Member>, repr: string)
    ensures forall r :: Present(KeepMembers(ms, repr), r) <==> Present(ms, r) && r != repr
  {
    KeptMembers(ms, repr);
    var kept := KeepMembers(ms, repr);
    forall r | Present(ms, r) && r != repr ensures Present(kept, r) {
      var i :| 0 <= i < |ms| && ms[i].node.repr == r;
      assert ms[i] in kept;
    }
    forall r | Present(kept, r) ensures Present(ms, r) && r != repr {
      var i :| 0 <= i < |kept| && kept[i].node.repr == r;
      assert kept[i] in ms;
    }
  }

  lemma {:induction false} NamesAfterAdd(ms: seq<Member>, m: Member)
    ensures forall r :: Present(ms + [m], r) <==> Present(ms, r) || r == m.node.repr
  {
    forall r | Present(ms, r) || r == m.node.repr ensures Present(ms + [m], r) {
      if Present(ms, r) {
        var i :| 0 <= i < |ms| && ms[i].node.repr == r;
        assert (ms + [m])[i].node.repr == r;
      } else {
        assert (ms + [m])[|ms|].node.repr == r;
      }
    }
  }

  /** The owner map after the first n points of a node were appended. */
  ghost predicate Extended(h: Hash, was: map<nat, seq<Node>>, ring: map<nat, seq<Node>>, node: Node, n: nat)
  {
    && (forall x :: x in ring ==> ring[x] != [])
    && (forall x :: RingAt(ring, x) == RingAt(was, x) + OwnersAt(PointsOf(h, node, n), x))
  }

  lemma {:induction false} ExtendedNext(h: Hash, was: map<nat, seq<Node>>, ring: map<nat, seq<Node>>, node: Node, n: nat)
    requires Extended(h, was, ring, node, n)
    ensures var x := PointHash(h, node.repr, n);
      Extended(h, was, ring[x := RingAt(ring, x) + [node]], node, n + 1)
  {
    var y := PointHash(h, node.repr, n);
    var ring' := ring[y := RingAt(ring, y) + [node]];
    forall x ensures RingAt(ring', x) == RingAt(was, x) + OwnersAt(PointsOf(h, node, n + 1), x) {
      AppendedOwners(h, node, n, x);
      OwnerJoins(ring, ring', y, node, x, RingAt(was, x), OwnersAt(PointsOf(h, node, n), x));
    }
  }

  lemma {:induction false} OwnerJoins(ring: map<nat, seq<Node>>, ring': map<nat, seq<Node>>, y: nat, node: Node, x: nat,
                                      a: seq<Node>, b: seq<Node>)
    requires ring' == ring[y := RingAt(ring, y) + [node]] && RingAt(ring, x) == a + b
    ensures RingAt(ring', x) == a + (b + if y == x then [node] else [])
  {
    assert b + [] == b;
    assert (a + b) + [node] == a + (b + [node]);
  }

  lemma {:induction false} AddedToRing(h: Hash, was: map<nat, seq<Node>>, ring: map<nat, seq<Node>>, ms: seq<Member>, m: Member)
    requires RingOk(h, was, ms) && Extended(h, was, ring, m.node, m.count)
    ensures RingOk(h, ring, ms + [m])
  {
    PointsSnoc(h, ms, m);
    forall x ensures RingAt(ring, x) == OwnersAt(Points(h, ms + [m]), x) {
      OwnersConcat(Points(h, ms), PointsOf(h, m.node, m.count), x);
    }
  }

  lemma {:induction false} TurnAround(index: nat, n: nat)
    requires index <= n && n > 0
    ensures index % n == if index < n then index else 0
  {
    if index == n {
      DivModUnique(index, n, 1, 0);
    } else {
      DivModUnique(index, n, 0, index);
    }
  }

  lemma {:induction false} EmptyRing(h: Hash, ring: map<nat, seq<Node>>, ms: seq<Member>)
    requires RingOk(h, ring, ms)
    ensures |ring| == 0 <==> Points(h, ms) == []
  {
    var ps := Points(h, ms);
    if ps != [] {
      OwnersNonEmpty(ps, 0);
      assert ps[0].hash in ring;
    } else {
      forall x ensures x !in ring {
        assert RingAt(ring, x) == OwnersAt(ps, x);
      }
    }
  }

  lemma {:induction false} KeysNonEmpty(keys: seq<nat>, ps: seq<Point>)
    requires multiset(keys) == Hashes(ps) && ps != []
    ensures keys != []
  {
    HashesAreHashes(ps, ps[0].hash);
    assert ps[0].hash in multiset(keys);
  }

  /** The key at the search index, or the first key after the last one, is the clockwise point. */
  lemma {:induction false} IndexIsClockwise(keys: seq<nat>, ps: seq<Point>, hash: nat, index: nat)
    requires multiset(keys) == Hashes(ps) && keys != [] && Sorted(keys) && index <= |keys|
    requires forall i :: 0 <= i < index ==> keys[i] < hash
    requires forall i :: index <= i < |keys| ==> keys[i] >= hash
    ensures var x := keys[if index < |keys| then index else 0];
      Clockwise(ps, hash, x) && OwnersAt(ps, x) != []
  {
    var x := keys[if index < |keys| then index else 0];
    assert x in multiset(keys);
    HashesAreHashes(ps, x);
    var k :| 0 <= k < |ps| && ps[k].hash == x;
    OwnersNonEmpty(ps, k);
    forall i | 0 <= i < |ps|
      ensures if x >= hash then ps[i].hash >= hash ==> x <= ps[i].hash else ps[i].hash < hash && x <= ps[i].hash
    {
      HashesAreHashes(ps, ps[i].hash);
      assert ps[i].hash in multiset(keys);
      var j :| 0 <= j < |keys| && keys[j] == ps[i].hash;
    }
  }

  /** The key list and the owner map are determined by the members. */
  lemma {:induction false} SameMembersSameRing(h: Hash, ms: seq<Member>, keys: seq<nat>, keys': seq<nat>,
                                               ring: map<nat, seq<Node>>, ring': map<nat, seq<Node>>)
    requires Sorted(keys) && Sorted(keys') && multiset(keys) == multiset(keys')
    requires RingOk(h, ring, ms) && RingOk(h, ring', ms)
    ensures keys == keys' && ring == ring'
  {
    SortedUnique(keys, keys');
    forall x ensures x in ring <==> x in ring' {
      assert RingAt(ring, x) == RingAt(ring', x);
    }
    forall x | x in ring ensures ring[x] == ring'[x] {
      assert RingAt(ring, x) == RingAt(ring', x);
    }
  }
}
