/**
 The virtual points of a consistent-hash ring (infra/hash/consistenthash.go),
 as the list of members stands for them: member n with count c owns the points
 hash(repr(n) + "0") .. hash(repr(n) + itoa(c - 1)).
 */
module HashPoints {
  import opened Decimal

  /** A node is known to the ring by its representation. */
  datatype Node = Node(repr: string, id: int)

  datatype Point = Point(owner: Node, hash: nat)

  datatype Member = Member(node: Node, count: nat)

  type Hash = string -> nat

  function PointHash(h: Hash, repr: string, i: nat): (x: nat)
  {
    h(repr + Itoa(i))
  }

  /** The first n virtual points of a node. */
  function PointsOf(h: Hash, node: Node, n: nat): (ps: seq<Point>)
  {
    if n == 0 then [] else PointsOf(h, node, n - 1) + [Point(node, PointHash(h, node.repr, n - 1))]
  }

  /** All virtual points, in the order they were added. */
  function Points(h: Hash, ms: seq<Member>): (ps: seq<Point>)
  {
    if ms == [] then []
    else Points(h, ms[..|ms| - 1]) + PointsOf(h, ms[|ms| - 1].node, ms[|ms| - 1].count)
  }

  /** The owners of the points at a hash value, in the order they were added. */
  function OwnersAt(ps: seq<Point>, x: nat): (ns: seq<Node>)
  {
    if ps == [] then []
    else OwnersAt(ps[..|ps| - 1], x) + if ps[|ps| - 1].hash == x then [ps[|ps| - 1].owner] else []
  }

  /** The points not owned by the node with this representation. */
  function Keep(ps: seq<Point>, repr: string): (r: seq<Point>)
  {
    if ps == [] then []
    else Keep(ps[..|ps| - 1], repr) + if ps[|ps| - 1].owner.repr != repr then [ps[|ps| - 1]] else []
  }

  function KeepNodes(ns: seq<Node>, repr: string): (r: seq<Node>)
  {
    if ns == [] then []
    else KeepNodes(ns[..|ns| - 1], repr) + if ns[|ns| - 1].repr != repr then [ns[|ns| - 1]] else []
  }

  function KeepMembers(ms: seq<Member>, repr: string): (r: seq<Member>)
  {
    if ms == [] then []
    else KeepMembers(ms[..|ms| - 1], repr) + if ms[|ms| - 1].node.repr != repr then [ms[|ms| - 1]] else []
  }

  ghost function Hashes(ps: seq<Point>): (m: multiset<nat>)
  {
    if ps == [] then multiset{} else Hashes(ps[..|ps| - 1]) + multiset{ps[|ps| - 1].hash}
  }

  /** No two members have the same representation. */
  ghost predicate Distinct(ms: seq<Member>)
  {
    forall i, j :: 0 <= i < j < |ms| ==> ms[i].node.repr != ms[j].node.repr
  }

  // ------------------------------------------------------------ concatenation

  lemma {:induction false} OwnersConcat(a: seq<Point>, b: seq<Point>, x: nat)
    ensures OwnersAt(a + b, x) == OwnersAt(a, x) + OwnersAt(b, x)
  {
    if b == [] {
      assert a + b == a;
    } else {
      var n := |b| - 1;
      assert (a + b)[..|a + b| - 1] == a + b[..n];
      OwnersConcat(a, b[..n], x);
    }
  }

  lemma {:induction false} KeepConcat(a: seq<Point>, b: seq<Point>, repr: string)
    ensures Keep(a + b, repr) == Keep(a, repr) + Keep(b, repr)
  {
    if b == [] {
      assert a + b == a;
    } else {
      var n := |b| - 1;
      assert (a + b)[..|a + b| - 1] == a + b[..n];
      KeepConcat(a, b[..n], repr);
    }
  }

  lemma {:induction false} HashesConcat(a: seq<Point>, b: seq<Point>)
    ensures Hashes(a + b) == Hashes(a) + Hashes(b)
  {
    if b == [] {
      assert a + b == a;
    } else {
      var n := |b| - 1;
      assert (a + b)[..|a + b| - 1] == a + b[..n];
      HashesConcat(a, b[..n]);
    }
  }

  lemma {:induction false} HashesAreHashes(ps: seq<Point>, x: nat)
    ensures x in Hashes(ps) <==> exists i :: 0 <= i < |ps| && ps[i].hash == x
  {
    if ps != [] {
      var n := |ps| - 1;
      HashesAreHashes(ps[..n], x);
      if x in Hashes(ps[..n]) {
        var i :| 0 <= i < n && ps[..n][i].hash == x;
        assert ps[i].hash == x;
      }
      if j :| 0 <= j < n && ps[j].hash == x {
        assert ps[..n][j].hash == x;
      }
    }
  }

  lemma {:induction false} OwnersSnoc(ps: seq<Point>, p: Point, x: nat)
    ensures OwnersAt(ps + [p], x) == OwnersAt(ps, x) + if p.hash == x then [p.owner] else []
  {
    assert (ps + [p])[..|ps|] == ps;
  }

  lemma {:induction false} KeepNodesSnoc(ns: seq<Node>, n: Node, repr: string)
    ensures KeepNodes(ns + [n], repr) == KeepNodes(ns, repr) + if n.repr != repr then [n] else []
  {
    assert (ns + [n])[..|ns|] == ns;
  }

  lemma {:induction false} PointsSnoc(h: Hash, ms: seq<Member>, m: Member)
    ensures Points(h, ms + [m]) == Points(h, ms) + PointsOf(h, m.node, m.count)
  {
    assert (ms + [m])[..|ms|] == ms;
  }

  // --------------------------------------------------------- removing a member

  lemma {:induction false} OwnersKept(ps: seq<Point>, repr: string, x: nat)
    ensures OwnersAt(Keep(ps, repr), x) == KeepNodes(OwnersAt(ps, x), repr)
  {
    if ps != [] {
      var n := |ps| - 1;
      var p := ps[n];
      OwnersKept(ps[..n], repr, x);
      var kept, owners := Keep(ps[..n], repr), OwnersAt(ps[..n], x);
      if p.owner.repr != repr {
        OwnersSnoc(kept, p, x);
      } else {
        assert kept + [] == kept;
      }
      if p.hash == x {
        KeepNodesSnoc(owners, p.owner, repr);
      } else {
        assert owners + [] == owners;
      }
    }
  }

  lemma {:induction false} KeepPointsOf(h: Hash, node: Node, n: nat, repr: string)
    ensures Keep(PointsOf(h, node, n), repr) == if node.repr == repr then [] else PointsOf(h, node, n)
  {
    if n > 0 {
      KeepPointsOf(h, node, n - 1, repr);
      var ps := PointsOf(h, node, n);
      assert ps[..|ps| - 1] == PointsOf(h, node, n - 1);
    }
  }

  /** Dropping a member drops exactly its points. */
  lemma {:induction false} PointsKept(h: Hash, ms: seq<Member>, repr: string)
    ensures Points(h, KeepMembers(ms, repr)) == Keep(Points(h, ms), repr)
  {
    if ms != [] {
      var n := |ms| - 1;
      var m := ms[n];
      PointsKept(h, ms[..n], repr);
      KeepConcat(Points(h, ms[..n]), PointsOf(h, m.node, m.count), repr);
      KeepPointsOf(h, m.node, m.count, repr);
      var kept := KeepMembers(ms[..n], repr);
      if m.node.repr != repr {
        PointsSnoc(h, kept, m);
      } else {
        assert Keep(Points(h, ms[..n]), repr) + [] == Keep(Points(h, ms[..n]), repr);
        assert KeepMembers(ms, repr) == kept;
      }
    }
  }

  lemma {:induction false} AbsentKept(ms: seq<Member>, repr: string)
    requires forall i :: 0 <= i < |ms| ==> ms[i].node.repr != repr
    ensures KeepMembers(ms, repr) == ms
  {
    if ms != [] {
      var n := |ms| - 1;
      AbsentKept(ms[..n], repr);
      assert ms == ms[..n] + [ms[n]];
    }
  }

  lemma {:induction false} KeptMembers(ms: seq<Member>, repr: string)
    ensures forall m :: m in KeepMembers(ms, repr) <==> m in ms && m.node.repr != repr
    ensures Distinct(ms) ==> Distinct(KeepMembers(ms, repr))
  {
    if ms != [] {
      var n := |ms| - 1;
      KeptMembers(ms[..n], repr);
      assert ms == ms[..n] + [ms[n]];
      if Distinct(ms) && ms[n].node.repr != repr {
        var kept := KeepMembers(ms[..n], repr);
        forall i | 0 <= i < |kept| ensures kept[i].node.repr != ms[n].node.repr {
          assert kept[i] in ms[..n];
        }
      }
    }
  }

  /** The points of all members are those of the others and those of the one. */
  lemma {:induction false} HashesSplit(h: Hash, ms: seq<Member>, k: nat)
    requires Distinct(ms) && k < |ms|
    ensures var m := ms[k];
      Hashes(Points(h, ms)) == Hashes(Points(h, KeepMembers(ms, m.node.repr))) + Hashes(PointsOf(h, m.node, m.count))
  {
    var n := |ms| - 1;
    var m, l := ms[k], ms[n];
    HashesConcat(Points(h, ms[..n]), PointsOf(h, l.node, l.count));
    var kept := KeepMembers(ms[..n], m.node.repr);
    if k == n {
      AbsentKept(ms[..n], m.node.repr);
      assert KeepMembers(ms, m.node.repr) == kept;
    } else {
      HashesSplit(h, ms[..n], k);
      assert KeepMembers(ms, m.node.repr) == kept + [l];
      PointsSnoc(h, kept, l);
      HashesConcat(Points(h, kept), PointsOf(h, l.node, l.count));
      SumSwap(Hashes(Points(h, kept)), Hashes(PointsOf(h, m.node, m.count)), Hashes(PointsOf(h, l.node, l.count)));
    }
  }

  lemma {:induction false} SumSwap(a: multiset<nat>, b: multiset<nat>, c: multiset<nat>)
    ensures a + b + c == a + c + b
  {
  }
}
