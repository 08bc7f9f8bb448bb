/**
 The consistent-hash ring of infra/hash/consistenthash.go: a sorted key list,
 a map from hash values to owners and a set of node names, changed in place.

 The reference is the list of members; their virtual points determine the key
 list and the owner map completely.  Each step is one critical section: Remove
 is one, and AddWithReplicas is two, a Remove and then an append, between which
 other callers may run.
 */
module ConsistentHashing {
  import opened HashPoints
  import opened Options
  import opened Arithmetic

  // ------------------------------------------------------------------ lookup

  /** x is the hash of the first point at or after hv, going around once. */
  ghost predicate Clockwise(ps: seq<Point>, hv: nat, x: nat)
  {
    && (exists i :: 0 <= i < |ps| && ps[i].hash == x)
    && (forall i :: 0 <= i < |ps| ==>
          if x >= hv then ps[i].hash >= hv ==> x <= ps[i].hash else ps[i].hash < hv && x <= ps[i].hash)
  }

  lemma {:induction false} ClockwiseExists(ps: seq<Point>, hv: nat) returns (x: nat)
    requires ps != []
    ensures Clockwise(ps, hv, x)
  {
    var n := |ps| - 1;
    if n == 0 {
      x := ps[0].hash;
    } else {
      var y := ClockwiseExists(ps[..n], hv);
      var z := ps[n].hash;
      x := if (y >= hv) == (z >= hv) then (if z < y then z else y) else if z >= hv then z else y;
      var i :| 0 <= i < n && ps[..n][i].hash == y;
      assert ps[i].hash == y;
      forall j | 0 <= j < |ps|
        ensures if x >= hv then ps[j].hash >= hv ==> x <= ps[j].hash else ps[j].hash < hv && x <= ps[j].hash
      {
        if j < n {
          assert ps[..n][j] == ps[j];
        }
      }
    }
  }

  lemma {:induction false} OwnersNonEmpty(ps: seq<Point>, i: nat)
    requires i < |ps|
    ensures ps[i].owner in OwnersAt(ps, ps[i].hash)
  {
    var n := |ps| - 1;
    if i < n {
      OwnersNonEmpty(ps[..n], i);
    } else {
      var o := OwnersAt(ps, ps[i].hash);
      assert o[|o| - 1] == ps[i].owner;
    }
  }

  lemma {:induction false} OwnersAreOwners(ps: seq<Point>, x: nat)
    ensures forall m :: m in OwnersAt(ps, x) ==> exists i :: 0 <= i < |ps| && ps[i] == Point(m, x)
  {
    if ps != [] {
      var n := |ps| - 1;
      OwnersAreOwners(ps[..n], x);
      forall m | m in OwnersAt(ps, x) ensures exists i :: 0 <= i < |ps| && ps[i] == Point(m, x) {
        if m in OwnersAt(ps[..n], x) {
          var i :| 0 <= i < n && ps[..n][i] == Point(m, x);
          assert ps[i] == Point(m, x);
        } else {
          assert ps[n] == Point(m, x);
        }
      }
    }
  }

  function Pick(ns: seq<Node>, inner: nat): (m: Node)
    requires ns != []
    ensures m in ns
  {
    if |ns| == 1 then ns[0] else ns[inner % |ns|]
  }

  /** Among several owners of a point the inner hash counts through all of them, around and around. */
  lemma {:induction false} PickCounts(ns: seq<Node>, inner: nat)
    requires ns != []
    ensures inner < |ns| ==> Pick(ns, inner) == ns[inner]
    ensures Pick(ns, inner + |ns|) == Pick(ns, inner)
  {
    var n := |ns|;
    DivModUnique(inner + n, n, inner / n + 1, inner % n);
    if inner < n {
      DivModUnique(inner, n, 0, inner);
    }
  }

  /** Where a value with hash hv and inner hash `inner` lives, by the points alone. */
  ghost predicate LivesAt(ps: seq<Point>, hv: nat, inner: nat, r: Option<Node>)
  {
    if ps == [] then r == None
    else exists x :: Clockwise(ps, hv, x) && OwnersAt(ps, x) != [] && r == Some(Pick(OwnersAt(ps, x), inner))
  }

  // ------------------------------------------------------- minimal disruption

  ghost predicate CollisionFree(ps: seq<Point>)
  {
    forall i, j :: 0 <= i < j < |ps| ==> ps[i].hash != ps[j].hash
  }

  lemma {:induction false} KeepIsSubset(ps: seq<Point>, repr: string)
    ensures forall p :: p in Keep(ps, repr) <==> p in ps && p.owner.repr != repr
  {
    if ps != [] {
      KeepIsSubset(ps[..|ps| - 1], repr);
      assert ps == ps[..|ps| - 1] + [ps[|ps| - 1]];
    }
  }

  lemma {:induction false} SingleOwner(ps: seq<Point>, k: nat)
    requires CollisionFree(ps) && k < |ps|
    ensures OwnersAt(ps, ps[k].hash) == [ps[k].owner]
  {
    var n := |ps| - 1;
    if k < n {
      assert ps[..n][k] == ps[k];
      SingleOwner(ps[..n], k);
    } else {
      NoOwners(ps[..n], ps[k].hash);
    }
  }

  lemma {:induction false} NoOwners(ps: seq<Point>, x: nat)
    requires forall i :: 0 <= i < |ps| ==> ps[i].hash != x
    ensures OwnersAt(ps, x) == []
  {
    if ps != [] {
      NoOwners(ps[..|ps| - 1], x);
    }
  }

  /** With collision-free points, removing a node moves no value that lived elsewhere. */
  lemma {:induction false} RemoveMovesNothingElse(ps: seq<Point>, repr: string, hv: nat, inner: nat, m: Node)
    requires CollisionFree(ps) && LivesAt(ps, hv, inner, Some(m)) && m.repr != repr
    ensures LivesAt(Keep(ps, repr), hv, inner, Some(m))
  {
    assert ps != [];
    var x :| Clockwise(ps, hv, x) && OwnersAt(ps, x) != [] && Some(m) == Some(Pick(OwnersAt(ps, x), inner));
    KeptClockwise(ps, repr, hv, x, m);
    assert Pick([m], inner) == m;
  }

  /** A subset of the points that still holds the clockwise one keeps it clockwise. */
  lemma {:induction false} SubsetClockwise(ps: seq<Point>, qs: seq<Point>, hv: nat, x: nat, j: nat)
    requires Clockwise(ps, hv, x) && (forall q :: q in qs ==> q in ps) && j < |qs| && qs[j].hash == x
    ensures Clockwise(qs, hv, x)
  {
    forall i | 0 <= i < |qs|
      ensures if x >= hv then qs[i].hash >= hv ==> x <= qs[i].hash else qs[i].hash < hv && x <= qs[i].hash
    {
      assert qs[i] in ps;
      var k :| 0 <= k < |ps| && ps[k] == qs[i];
    }
  }

  lemma {:induction false} KeptOwner(ps: seq<Point>, repr: string, k: nat)
    requires CollisionFree(ps) && k < |ps| && ps[k].owner.repr != repr
    ensures OwnersAt(Keep(ps, repr), ps[k].hash) == [ps[k].owner]
  {
    var m := ps[k].owner;
    SingleOwner(ps, k);
    OwnersKept(ps, repr, ps[k].hash);
    assert KeepNodes([m], repr) == [m] by {
      assert [m][..0] == [];
    }
  }

  lemma {:induction false} KeptClockwise(ps: seq<Point>, repr: string, hv: nat, x: nat, m: Node)
    requires CollisionFree(ps) && Clockwise(ps, hv, x) && m in OwnersAt(ps, x) && m.repr != repr
    ensures Keep(ps, repr) != [] && Clockwise(Keep(ps, repr), hv, x) && OwnersAt(Keep(ps, repr), x) == [m]
  {
    OwnersAreOwners(ps, x);
    var k :| 0 <= k < |ps| && ps[k] == Point(m, x);
    KeptOwner(ps, repr, k);
    KeepIsSubset(ps, repr);
    assert ps[k] in Keep(ps, repr);
    var j :| 0 <= j < |Keep(ps, repr)| && Keep(ps, repr)[j] == ps[k];
    SubsetClockwise(ps, Keep(ps, repr), hv, x, j);
  }

  /** With collision-free points, adding a new node moves values only to that node. */
  lemma {:induction false} AddMovesOnlyToNew(h: Hash, ms: seq<Member>, node: Node, count: nat, hv: nat, inner: nat, m: Node)
    requires forall i :: 0 <= i < |ms| ==> ms[i].node.repr != node.repr
    requires CollisionFree(Points(h, ms + [Member(node, count)]))
    requires LivesAt(Points(h, ms + [Member(node, count)]), hv, inner, Some(m)) && m.repr != node.repr
    ensures LivesAt(Points(h, ms), hv, inner, Some(m))
  {
    var all := ms + [Member(node, count)];
    RemoveMovesNothingElse(Points(h, all), node.repr, hv, inner, m);
    PointsKept(h, all, node.repr);
    AddThenRemove(ms, Member(node, count));
  }

  /** Removing a member that was just added leaves the members, hence the whole ring, as they were. */
  lemma {:induction false} AddThenRemove(ms: seq<Member>, m: Member)
    requires forall i :: 0 <= i < |ms| ==> ms[i].node.repr != m.node.repr
    ensures KeepMembers(ms + [m], m.node.repr) == ms
  {
    assert (ms + [m])[..|ms|] == ms;
    AbsentKept(ms, m.node.repr);
  }

  lemma {:induction false} LivesAtUnique(ps: seq<Point>, hv: nat, inner: nat, r: Option<Node>, q: Option<Node>)
    requires LivesAt(ps, hv, inner, r) && LivesAt(ps, hv, inner, q)
    ensures r == q
  {
    if ps != [] {
      var x :| Clockwise(ps, hv, x) && OwnersAt(ps, x) != [] && r == Some(Pick(OwnersAt(ps, x), inner));
      var y :| Clockwise(ps, hv, y) && OwnersAt(ps, y) != [] && q == Some(Pick(OwnersAt(ps, y), inner));
    }
  }

  // -------------------------------------------------------------- sorted keys

  ghost predicate Sorted(s: seq<nat>)
  {
    forall i, j :: 0 <= i < j < |s| ==> s[i] <= s[j]
  }

  function Insert(x: nat, s: seq<nat>): (r: seq<nat>)
  {
    if s == [] then [x] else if x <= s[0] then [x] + s else [s[0]] + Insert(x, s[1..])
  }

  /** slices.Sort */
  function Sort(s: seq<nat>): (r: seq<nat>)
  {
    if s == [] then [] else Insert(s[0], Sort(s[1..]))
  }

  lemma {:induction false} SortedCons(x: nat, s: seq<nat>)
    requires Sorted(s) && forall y :: y in s ==> x <= y
    ensures Sorted([x] + s)
  {
    forall j | 1 <= j < |[x] + s| ensures x <= ([x] + s)[j] {
      assert ([x] + s)[j] == s[j - 1];
      assert s[j - 1] in s;
    }
  }

  lemma {:induction false} HeadAndTail(s: seq<nat>)
    requires s != []
    ensures multiset(s) == multiset{s[0]} + multiset(s[1..])
  {
    assert s == [s[0]] + s[1..];
  }

  lemma {:induction false} InsertKeys(x: nat, s: seq<nat>)
    ensures multiset(Insert(x, s)) == multiset(s) + multiset{x}
  {
    if s != [] {
      HeadAndTail(s);
      InsertKeys(x, s[1..]);
    }
  }

  lemma {:induction false} InsertSorted(x: nat, s: seq<nat>)
    requires Sorted(s)
    ensures Sorted(Insert(x, s))
  {
    if s != [] {
      if x <= s[0] {
        SortedCons(x, s);
      } else {
        var r := Insert(x, s[1..]);
        InsertSorted(x, s[1..]);
        InsertKeys(x, s[1..]);
        forall y | y in r ensures s[0] <= y {
          assert y in multiset(r);
        }
        SortedCons(s[0], r);
      }
    }
  }

  lemma {:induction false} SortSorts(s: seq<nat>)
    ensures Sorted(Sort(s)) && multiset(Sort(s)) == multiset(s)
  {
    if s != [] {
      HeadAndTail(s);
      SortSorts(s[1..]);
      InsertKeys(s[0], Sort(s[1..]));
      InsertSorted(s[0], Sort(s[1..]));
    }
  }

  lemma {:induction false} SameHead(a: seq<nat>, b: seq<nat>)
    requires a != [] && b != [] && Sorted(a) && Sorted(b) && multiset(a) == multiset(b)
    ensures a[0] == b[0]
  {
    assert a[0] in multiset(b);
    assert b[0] in multiset(a);
  }

  lemma {:induction false} CancelOne(x: nat, a: multiset<nat>, b: multiset<nat>)
    requires multiset{x} + a == multiset{x} + b
    ensures a == b
  {
    assert a == multiset{x} + a - multiset{x};
    assert b == multiset{x} + b - multiset{x};
  }

  /** A sorted key list is determined by the keys in it. */
  lemma {:induction false} SortedUnique(a: seq<nat>, b: seq<nat>)
    requires Sorted(a) && Sorted(b) && multiset(a) == multiset(b)
    ensures a == b
    decreases |a|, 1
  {
    assert |a| == |multiset(a)| == |multiset(b)| == |b|;
    if a != [] {
      SameHead(a, b);
      HeadAndTail(a);
      HeadAndTail(b);
      CancelOne(a[0], multiset(a[1..]), multiset(b[1..]));
      SameTails(a, b);
    }
  }

  lemma {:induction false} SameTails(a: seq<nat>, b: seq<nat>)
    requires a != [] && b != [] && a[0] == b[0] && Sorted(a[1..]) && Sorted(b[1..])
    requires multiset(a[1..]) == multiset(b[1..])
    ensures a == b
    decreases |a|, 0
  {
    SortedUnique(a[1..], b[1..]);
    assert a == [a[0]] + a[1..] && b == [b[0]] + b[1..];
  }

  lemma {:induction false} CutKey(s: seq<nat>, i: nat)
    requires i < |s|
    ensures multiset(s[..i] + s[i + 1..]) == multiset(s) - multiset{s[i]}
  {
    var l, r := s[..i], s[i + 1..];
    assert s == l + ([s[i]] + r);
    assert multiset(s) == multiset(l) + multiset([s[i]] + r);
    assert multiset([s[i]] + r) == multiset{s[i]} + multiset(r);
    assert multiset(l + r) == multiset(l) + multiset(r);
  }

  // -------------------------------------------- what removing does to the keys

  /** The hashes of the first n virtual points of a representation. */
  ghost function ReprHashes(h: Hash, repr: string, n: nat): (m: multiset<nat>)
  {
    if n == 0 then multiset{} else ReprHashes(h, repr, n - 1) + multiset{PointHash(h, repr, n - 1)}
  }

  lemma {:induction false} HashesOfNode(h: Hash, node: Node, n: nat)
    ensures Hashes(PointsOf(h, node, n)) == ReprHashes(h, node.repr, n)
  {
    if n > 0 {
      HashesOfNode(h, node, n - 1);
      var ps := PointsOf(h, node, n);
      assert ps[..|ps| - 1] == PointsOf(h, node, n - 1);
    }
  }

  lemma {:induction false} SubsetOfSum(a: multiset<nat>, b: multiset<nat>, c: multiset<nat>)
    requires a <= b
    ensures a <= b + c
  {
  }

  lemma {:induction false} MoreHashes(h: Hash, repr: string, c: nat, n: nat)
    requires c <= n
    ensures ReprHashes(h, repr, c) <= ReprHashes(h, repr, n)
  {
    if c < n {
      MoreHashes(h, repr, c, n - 1);
      SubsetOfSum(ReprHashes(h, repr, c), ReprHashes(h, repr, n - 1), multiset{PointHash(h, repr, n - 1)});
    }
  }

  /** Taking away all of `all` from others + own is exact if and only if the surplus hits no other. */
  lemma {:induction false} SurplusIff(others: multiset<nat>, own: multiset<nat>, all: multiset<nat>)
    requires own <= all
    ensures others + own - all == others <==> others !! (all - own)
  {
    if others !! (all - own) {
      forall x ensures (others + own - all)[x] == others[x] {
        assert others[x] == 0 || (all - own)[x] == 0;
      }
    } else {
      var x :| x in others && x in all - own;
      assert (others + own - all)[x] < others[x];
    }
  }

  /** The keys after Remove of member k are right if and only if its surplus points hit no other's. */
  lemma {:induction false} RemoveExactIff(h: Hash, replicas: nat, ms: seq<Member>, k: nat)
    requires Distinct(ms) && k < |ms| && ms[k].count <= replicas
    ensures var repr := ms[k].node.repr;
      var others := Hashes(Points(h, KeepMembers(ms, repr)));
      Hashes(Points(h, ms)) - ReprHashes(h, repr, replicas) == others
      <==> others !! (ReprHashes(h, repr, replicas) - ReprHashes(h, repr, ms[k].count))
  {
    var repr := ms[k].node.repr;
    HashesSplit(h, ms, k);
    HashesOfNode(h, ms[k].node, ms[k].count);
    MoreHashes(h, repr, ms[k].count, replicas);
    SurplusIff(Hashes(Points(h, KeepMembers(ms, repr))), ReprHashes(h, repr, ms[k].count), ReprHashes(h, repr, replicas));
  }

  ghost function Zeros(n: nat): (m: multiset<nat>)
  {
    multiset{}[0 := n]
  }

  lemma {:induction false} ConstantHashes(h: Hash, repr: string, n: nat)
    requires forall s :: h(s) == 0
    ensures ReprHashes(h, repr, n) == Zeros(n)
  {
    if n > 0 {
      ConstantHashes(h, repr, n - 1);
    }
  }

  lemma {:induction false} OneMember(h: Hash, m: Member)
    ensures Points(h, [m]) == PointsOf(h, m.node, m.count)
  {
    PointsSnoc(h, [], m);
    assert [] + [m] == [m];
  }

  /**
   With colliding hashes and half the replicas, removing one of two nodes takes
   every key while the other node still owns points: Get would divide by zero.
   */
  lemma {:induction false} PartialReplicasLoseKeys(h: Hash, a: Node, b: Node)
    requires (forall s :: h(s) == 0) && a.repr != b.repr
    ensures Hashes(Points(h, [Member(a, 50)] + [Member(b, 50)])) - ReprHashes(h, b.repr, 100) == multiset{}
    ensures Hashes(Points(h, KeepMembers([Member(a, 50)] + [Member(b, 50)], b.repr))) == Zeros(50)
  {
    TwoMembers(h, a, 50, b, 50);
    ConstantHashes(h, a.repr, 50);
    ConstantHashes(h, b.repr, 50);
    ConstantHashes(h, b.repr, 100);
    assert Zeros(50) + Zeros(50) == Zeros(100);
  }

  lemma {:induction false} TwoMembers(h: Hash, a: Node, m: nat, b: Node, n: nat)
    requires a.repr != b.repr
    ensures Hashes(Points(h, [Member(a, m)] + [Member(b, n)])) == ReprHashes(h, a.repr, m) + ReprHashes(h, b.repr, n)
    ensures Hashes(Points(h, KeepMembers([Member(a, m)] + [Member(b, n)], b.repr))) == ReprHashes(h, a.repr, m)
  {
    AddThenRemove([Member(a, m)], Member(b, n));
    PointsSnoc(h, [Member(a, m)], Member(b, n));
    OneMember(h, Member(a, m));
    HashesConcat(PointsOf(h, a, m), PointsOf(h, b, n));
    HashesOfNode(h, a, m);
    HashesOfNode(h, b, n);
  }
}
