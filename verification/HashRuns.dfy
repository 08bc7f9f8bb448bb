/**
 Whole runs of the consistent-hash ring (infra/hash/consistenthash.go) as
 sequences of critical sections: Remove is one, and AddWithReplicas is two, a
 Remove and then an append, between which other callers may run.
 */
module HashRuns {
  import opened ConsistentHashing
  import opened HashPoints
  import opened Options
  import opened Arithmetic
  import opened Decimal

  /** The members of a ring and the keys it actually holds. */
  datatype Table = Table(members: seq<Member>, keys: multiset<nat>)

  predicate Present(ms: seq<Member>, repr: string)
  {
    exists i :: 0 <= i < |ms| && ms[i].node.repr == repr
  }

  function Clamp(count: int, replicas: nat): (c: nat)
  {
    if count > replicas then replicas else if count < 0 then 0 else count
  }

  /** Remove always walks all `replicas` indices of the node. */
  ghost function DoRemove(h: Hash, replicas: nat, t: Table, repr: string): (t': Table)
  {
    if Present(t.members, repr) then Table(KeepMembers(t.members, repr), t.keys - ReprHashes(h, repr, replicas)) else t
  }

  /** The second critical section of AddWithReplicas: it does not look whether the node is there. */
  ghost function DoAppend(h: Hash, replicas: nat, t: Table, node: Node, count: int): (t': Table)
  {
    var c := Clamp(count, replicas);
    Table(t.members + [Member(node, c)], t.keys + ReprHashes(h, node.repr, c))
  }

  datatype Op = OpRemove(node: Node) | OpAppend(node: Node, count: int)

  ghost function Do(h: Hash, replicas: nat, t: Table, op: Op): (t': Table)
  {
    match op
    case OpRemove(node) => DoRemove(h, replicas, t, node.repr)
    case OpAppend(node, count) => DoAppend(h, replicas, t, node, count)
  }

  /** A run of critical sections, the last one outermost. */
  datatype Run = Start | Then(before: Run, op: Op)

  ghost function After(h: Hash, replicas: nat, run: Run): (t: Table)
  {
    match run
    case Start => Table([], multiset{})
    case Then(before, op) => Do(h, replicas, After(h, replicas, before), op)
  }

  /** The keys are exactly the virtual points of the members. */
  ghost predicate Exact(h: Hash, t: Table)
  {
    t.keys == Hashes(Points(h, t.members))
  }

  ghost predicate Bounded(replicas: nat, ms: seq<Member>)
  {
    forall i :: 0 <= i < |ms| ==> ms[i].count <= replicas
  }

  ghost predicate Counted(replicas: nat, ms: seq<Member>)
  {
    Distinct(ms) && Bounded(replicas, ms)
  }

  lemma {:induction false} BoundedAfterRemove(replicas: nat, ms: seq<Member>, repr: string)
    requires Bounded(replicas, ms)
    ensures Bounded(replicas, KeepMembers(ms, repr)) && !Present(KeepMembers(ms, repr), repr)
    ensures forall m :: m in KeepMembers(ms, repr) ==> m in ms
    ensures Distinct(ms) ==> Distinct(KeepMembers(ms, repr))
  {
    KeptMembers(ms, repr);
    forall i | 0 <= i < |KeepMembers(ms, repr)| ensures KeepMembers(ms, repr)[i].count <= replicas {
      assert KeepMembers(ms, repr)[i] in ms;
    }
  }

  lemma {:induction false} AppendKeepsExact(h: Hash, replicas: nat, t: Table, node: Node, count: int)
    ensures Exact(h, t) ==> Exact(h, DoAppend(h, replicas, t, node, count))
    ensures Hashes(Points(h, DoAppend(h, replicas, t, node, count).members))
         == Hashes(Points(h, t.members)) + ReprHashes(h, node.repr, Clamp(count, replicas))
  {
    var c := Clamp(count, replicas);
    PointsSnoc(h, t.members, Member(node, c));
    HashesConcat(Points(h, t.members), PointsOf(h, node, c));
    HashesOfNode(h, node, c);
  }

  // ----------------------------------------------------- what an addition adds

  /** The points owned by the node with this representation. */
  function Owned(ps: seq<Point>, repr: string): (r: seq<Point>)
  {
    if ps == [] then []
    else Owned(ps[..|ps| - 1], repr) + if ps[|ps| - 1].owner.repr == repr then [ps[|ps| - 1]] else []
  }

  lemma {:induction false} OwnedConcat(a: seq<Point>, b: seq<Point>, repr: string)
    ensures Owned(a + b, repr) == Owned(a, repr) + Owned(b, repr)
  {
    if b == [] {
      assert a + b == a;
    } else {
      var n := |b| - 1;
      assert (a + b)[..|a + b| - 1] == a + b[..n];
      OwnedConcat(a, b[..n], repr);
    }
  }

  /** The virtual points of a node: the hashes of its representation followed by 0, 1, 2, ... */
  lemma {:induction false} NodePoints(h: Hash, node: Node, n: nat)
    ensures var ps := PointsOf(h, node, n);
      |ps| == n && Owned(ps, node.repr) == ps && forall i :: 0 <= i < n ==> ps[i] == Point(node, h(node.repr + Itoa(i)))
  {
    if n > 0 {
      NodePoints(h, node, n - 1);
      OwnedSnoc(PointsOf(h, node, n - 1), Point(node, h(node.repr + Itoa(n - 1))), node.repr);
    }
  }

  lemma {:induction false} OwnedSnoc(ps: seq<Point>, p: Point, repr: string)
    ensures Owned(ps + [p], repr) == Owned(ps, repr) + if p.owner.repr == repr then [p] else []
  {
    assert (ps + [p])[..|ps|] == ps;
  }

  lemma {:induction false} NothingOwned(ps: seq<Point>, repr: string)
    ensures Owned(Keep(ps, repr), repr) == []
  {
    if ps != [] {
      var n := |ps| - 1;
      NothingOwned(ps[..n], repr);
      if ps[n].owner.repr != repr {
        OwnedConcat(Keep(ps[..n], repr), [ps[n]], repr);
        assert [ps[n]][..0] == [];
      } else {
        assert Keep(ps, repr) == Keep(ps[..n], repr);
      }
    }
  }

  /**
   An addition, both critical sections.  Whatever points the node had before, it
   now owns as many as asked for, at most all and none for a negative number; the
   i-th is at the hash of its representation followed by i.  The keys grow by
   exactly these hashes over the ring without the node, and the points of the
   other nodes are as they were.
   */
  lemma {:induction false} AdditionAdds(h: Hash, replicas: nat, t: Table, node: Node, count: int)
    ensures var without := DoRemove(h, replicas, t, node.repr);
      var t' := DoAppend(h, replicas, without, node, count);
      var own := Owned(Points(h, t'.members), node.repr);
      && (0 <= count <= replicas ==> |own| == count) && (count > replicas ==> |own| == replicas) && (count < 0 ==> own == [])
      && (forall i :: 0 <= i < |own| ==> own[i] == Point(node, h(node.repr + Itoa(i))))
      && t'.keys == without.keys + Hashes(own)
      && Keep(Points(h, t'.members), node.repr) == Keep(Points(h, t.members), node.repr)
  {
    var without := DoRemove(h, replicas, t, node.repr);
    var c := DoAppend(h, replicas, without, node, count).members[|without.members|].count;
    RemovedPoints(h, replicas, t, node.repr);
    JoinedPoints(h, without.members, node, c);
    HashesOfNode(h, node, c);
  }

  lemma {:induction false} JoinedPoints(h: Hash, ms: seq<Member>, node: Node, c: nat)
    requires Owned(Points(h, ms), node.repr) == []
    ensures var ps := Points(h, ms + [Member(node, c)]);
      && Owned(ps, node.repr) == PointsOf(h, node, c) && Keep(ps, node.repr) == Keep(Points(h, ms), node.repr)
      && |PointsOf(h, node, c)| == c && forall i :: 0 <= i < c ==> PointsOf(h, node, c)[i] == Point(node, h(node.repr + Itoa(i)))
  {
    var was, new_points := Points(h, ms), PointsOf(h, node, c);
    NodePoints(h, node, c);
    PointsSnoc(h, ms, Member(node, c));
    OwnedConcat(was, new_points, node.repr);
    KeepConcat(was, new_points, node.repr);
    KeepPointsOf(h, node, c, node.repr);
    assert Keep(was, node.repr) + [] == Keep(was, node.repr);
  }

  lemma {:induction false} RemovedPoints(h: Hash, replicas: nat, t: Table, repr: string)
    ensures var ps := Points(h, DoRemove(h, replicas, t, repr).members);
      Owned(ps, repr) == [] && Keep(ps, repr) == ps == Keep(Points(h, t.members), repr)
  {
    if !Present(t.members, repr) {
      AbsentKept(t.members, repr);
    }
    PointsKept(h, t.members, repr);
    NothingOwned(Points(h, t.members), repr);
    KeepTwice(Points(h, t.members), repr);
  }

  lemma {:induction false} KeepTwice(ps: seq<Point>, repr: string)
    ensures Keep(Keep(ps, repr), repr) == Keep(ps, repr)
  {
    if ps != [] {
      var n := |ps| - 1;
      KeepTwice(ps[..n], repr);
      if ps[n].owner.repr != repr {
        KeepConcat(Keep(ps[..n], repr), [ps[n]], repr);
        assert [ps[n]][..0] == [];
      } else {
        assert Keep(ps, repr) == Keep(ps[..n], repr);
      }
    }
  }

  const TOP_WEIGHT: int := 100

  /** The number of replicas for a weight in percent: the quotient, rounded toward zero. */
  function WeightReplicas(replicas: nat, weight: int): (count: int)
  {
    if replicas * weight < 0 then -(-(replicas * weight) / TOP_WEIGHT) else replicas * weight / TOP_WEIGHT
  }

  /** A node added with a weight owns that percentage of the replicas, rounded down, all from 100 on and none below 1. */
  lemma {:induction false} WeightOwns(h: Hash, replicas: nat, t: Table, node: Node, weight: int)
    ensures var t' := DoAppend(h, replicas, DoRemove(h, replicas, t, node.repr), node, WeightReplicas(replicas, weight));
      var n := |Owned(Points(h, t'.members), node.repr)|;
      && (0 <= weight <= 100 ==> 100 * n <= replicas * weight < 100 * (n + 1))
      && (weight >= 100 ==> n == replicas) && (weight <= 0 ==> n == 0)
  {
    AdditionAdds(h, replicas, t, node, WeightReplicas(replicas, weight));
    WeightRange(replicas, weight);
  }

  lemma {:induction false} WeightRange(replicas: nat, weight: int)
    ensures var c := WeightReplicas(replicas, weight);
      && (0 <= weight <= 100 ==> 100 * c <= replicas * weight < 100 * (c + 1) && 0 <= c <= replicas)
      && (weight >= 100 ==> c >= replicas) && (weight <= 0 ==> c <= 0)
  {
    var p := replicas * weight;
    if weight < 0 {
      MulNonNegative(replicas, -weight);
      assert p == -(replicas * -weight);
    } else {
      MulNonNegative(replicas, weight);
      if weight <= 100 {
        MulNonNegative(replicas, 100 - weight);
        assert p == 100 * replicas - replicas * (100 - weight);
      }
      if weight >= 100 {
        MulNonNegative(replicas, weight - 100);
        assert p == 100 * replicas + replicas * (weight - 100);
      }
    }
  }

  // ------------------------------------------- full replicas, any interleaving

  /** How many members a representation has. */
  function Copies(ms: seq<Member>, repr: string): (n: nat)
  {
    if ms == [] then 0
    else Copies(ms[..|ms| - 1], repr) + if ms[|ms| - 1].node.repr == repr then 1 else 0
  }

  ghost function Times(m: multiset<nat>, n: nat): (r: multiset<nat>)
  {
    if n == 0 then multiset{} else Times(m, n - 1) + m
  }

  lemma {:induction false} CopiesPresent(ms: seq<Member>, repr: string)
    ensures Copies(ms, repr) > 0 <==> Present(ms, repr)
  {
    if ms != [] {
      var n := |ms| - 1;
      CopiesPresent(ms[..n], repr);
      if Present(ms[..n], repr) {
        var i :| 0 <= i < n && ms[..n][i].node.repr == repr;
        assert ms[i].node.repr == repr;
      }
      if i :| 0 <= i < n && ms[i].node.repr == repr {
        assert ms[..n][i].node.repr == repr;
      }
    }
  }

  lemma {:induction false} DistinctCopies(ms: seq<Member>, repr: string)
    requires Distinct(ms)
    ensures Copies(ms, repr) <= 1
  {
    if ms != [] {
      var n := |ms| - 1;
      DistinctCopies(ms[..n], repr);
      CopiesPresent(ms[..n], repr);
      if Present(ms[..n], repr) {
        var i :| 0 <= i < n && ms[..n][i].node.repr == repr;
        assert ms[i].node.repr != ms[n].node.repr;
      }
    }
  }

  ghost predicate AllFull(replicas: nat, ms: seq<Member>)
  {
    forall i :: 0 <= i < |ms| ==> ms[i].count == replicas
  }

  /** The points of all members are those of the others and one set per copy. */
  ghost predicate Split(h: Hash, replicas: nat, ms: seq<Member>, repr: string)
  {
    Hashes(Points(h, ms))
      == Hashes(Points(h, KeepMembers(ms, repr))) + Times(ReprHashes(h, repr, replicas), Copies(ms, repr))
  }

  lemma {:induction false} CopiesSplit(h: Hash, replicas: nat, ms: seq<Member>, repr: string)
    requires AllFull(replicas, ms)
    ensures Split(h, replicas, ms, repr)
  {
    if ms == [] {
      NothingSplit(h, replicas, repr);
    } else {
      CopiesSplit(h, replicas, ms[..|ms| - 1], repr);
      SplitStep(h, replicas, ms, repr);
    }
  }

  lemma {:induction false} NothingSplit(h: Hash, replicas: nat, repr: string)
    ensures Split(h, replicas, [], repr)
  {
    assert KeepMembers([], repr) == [];
  }

  lemma {:induction false} SplitStep(h: Hash, replicas: nat, ms: seq<Member>, repr: string)
    requires ms != [] && ms[|ms| - 1].count == replicas && Split(h, replicas, ms[..|ms| - 1], repr)
    ensures Split(h, replicas, ms, repr)
  {
    var n := |ms| - 1;
    var l, init := ms[n], ms[..n];
    SplitLast(h, l, KeepMembers(init, repr), Points(h, init), repr, Copies(init, repr));
    assert Points(h, ms) == Points(h, init) + PointsOf(h, l.node, l.count);
    assert KeepMembers(ms, repr) == KeepMembers(init, repr) + if l.node.repr != repr then [l] else [];
    if l.node.repr == repr {
      assert Copies(ms, repr) == Copies(init, repr) + 1;
    } else {
      assert Copies(ms, repr) == Copies(init, repr);
    }
  }

  lemma {:induction false} SplitLast(h: Hash, l: Member, kept: seq<Member>, before: seq<Point>, repr: string, copies: nat)
    requires Hashes(before) == Hashes(Points(h, kept)) + Times(ReprHashes(h, repr, l.count), copies)
    ensures var all := Hashes(before + PointsOf(h, l.node, l.count));
      if l.node.repr != repr
      then all == Hashes(Points(h, kept + [l])) + Times(ReprHashes(h, repr, l.count), copies)
      else all == Hashes(Points(h, kept + [])) + Times(ReprHashes(h, repr, l.count), copies + 1)
  {
    var own := ReprHashes(h, l.node.repr, l.count);
    var others, same := Hashes(Points(h, kept)), Times(ReprHashes(h, repr, l.count), copies);
    HashesConcat(before, PointsOf(h, l.node, l.count));
    HashesOfNode(h, l.node, l.count);
    if l.node.repr != repr {
      PointsSnoc(h, kept, l);
      HashesConcat(Points(h, kept), PointsOf(h, l.node, l.count));
      SumSwap(others, same, own);
    } else {
      assert kept + [] == kept;
      SumAssoc(others, same, own);
    }
  }

  lemma {:induction false} SumAssoc(a: multiset<nat>, b: multiset<nat>, c: multiset<nat>)
    ensures a + b + c == a + (b + c)
  {
  }

  /** What one step adds to the keys left behind: a removal takes one copy of several. */
  ghost function StaleStep(h: Hash, replicas: nat, t: Table, op: Op, stale: multiset<nat>): (m: multiset<nat>)
  {
    var copies := Copies(t.members, op.node.repr);
    if op.OpRemove? && copies > 1 then stale + Times(ReprHashes(h, op.node.repr, replicas), copies - 1) else stale
  }

  /** The keys that removals of nodes registered more than once have left behind. */
  ghost function Stale(h: Hash, replicas: nat, run: Run): (m: multiset<nat>)
  {
    match run
    case Start => multiset{}
    case Then(before, op) => StaleStep(h, replicas, After(h, replicas, before), op, Stale(h, replicas, before))
  }

  /** Every append of the run asks for all replicas. */
  predicate FullReplicas(replicas: nat, run: Run)
  {
    run.Then? ==> (run.op.OpAppend? ==> run.op.count >= replicas) && FullReplicas(replicas, run.before)
  }

  lemma {:induction false} RemoveOneCopy(others: multiset<nat>, r: multiset<nat>, copies: nat, stale: multiset<nat>)
    requires copies > 0
    ensures others + Times(r, copies) + stale - r == others + (stale + Times(r, copies - 1))
  {
    assert Times(r, copies) == Times(r, copies - 1) + r;
  }

  /** The keys are those of the members' points, all of full count, and the stale ones. */
  ghost predicate Keyed(h: Hash, replicas: nat, t: Table, stale: multiset<nat>)
  {
    AllFull(replicas, t.members) && t.keys == Hashes(Points(h, t.members)) + stale
  }

  lemma {:induction false} RemoveStep(h: Hash, replicas: nat, t: Table, node: Node, stale: multiset<nat>)
    requires Keyed(h, replicas, t, stale)
    ensures Keyed(h, replicas, DoRemove(h, replicas, t, node.repr), StaleStep(h, replicas, t, OpRemove(node), stale))
  {
    var repr := node.repr;
    CopiesPresent(t.members, repr);
    if Present(t.members, repr) {
      var kept := KeepMembers(t.members, repr);
      var others, r, copies := Hashes(Points(h, kept)), ReprHashes(h, repr, replicas), Copies(t.members, repr);
      CopiesSplit(h, replicas, t.members, repr);
      RemoveOneCopy(others, r, copies, stale);
      OnlyOneCopy(r, stale);
      FullAfterRemove(replicas, t.members, repr);
    }
  }

  lemma {:induction false} AppendStep(h: Hash, replicas: nat, t: Table, node: Node, count: int, stale: multiset<nat>)
    requires Keyed(h, replicas, t, stale) && count >= replicas
    ensures Keyed(h, replicas, DoAppend(h, replicas, t, node, count), stale)
  {
    AppendKeepsExact(h, replicas, t, node, count);
    SumSwap(Hashes(Points(h, t.members)), stale, ReprHashes(h, node.repr, replicas));
  }

  lemma {:induction false} OnlyOneCopy(r: multiset<nat>, stale: multiset<nat>)
    ensures stale + Times(r, 0) == stale
  {
  }

  lemma {:induction false} FullAfterRemove(replicas: nat, ms: seq<Member>, repr: string)
    requires AllFull(replicas, ms)
    ensures AllFull(replicas, KeepMembers(ms, repr))
  {
    var kept := KeepMembers(ms, repr);
    KeptMembers(ms, repr);
    forall i | 0 <= i < |kept| ensures kept[i].count == replicas {
      assert kept[i] in ms;
    }
  }

  lemma {:induction false} FullStep(h: Hash, replicas: nat, t: Table, op: Op, stale: multiset<nat>)
    requires Keyed(h, replicas, t, stale) && (op.OpAppend? ==> op.count >= replicas)
    ensures Keyed(h, replicas, Do(h, replicas, t, op), StaleStep(h, replicas, t, op, stale))
  {
    match op {
      case OpAppend(node, count) => AppendStep(h, replicas, t, node, count, stale);
      case OpRemove(node) => RemoveStep(h, replicas, t, node, stale);
    }
  }

  /** After any interleaving with full replicas the keys are all live points and the stale ones. */
  lemma {:induction false} FullRunKeys(h: Hash, replicas: nat, run: Run)
    requires FullReplicas(replicas, run)
    ensures Keyed(h, replicas, After(h, replicas, run), Stale(h, replicas, run))
  {
    match run {
      case Start => NothingKeyed(h, replicas);
      case Then(before, op) =>
        FullRunKeys(h, replicas, before);
        FullStep(h, replicas, After(h, replicas, before), op, Stale(h, replicas, before));
    }
  }

  lemma {:induction false} NothingKeyed(h: Hash, replicas: nat)
    ensures Keyed(h, replicas, Table([], multiset{}), multiset{})
  {
    assert Points(h, []) == [];
  }

  ghost predicate RemovesSingle(t: Table, op: Op)
  {
    op.OpRemove? ==> Copies(t.members, op.node.repr) <= 1
  }

  /** No removal of the run finds its node registered more than once. */
  ghost predicate SingleRemovals(h: Hash, replicas: nat, run: Run)
  {
    run.Then? ==> RemovesSingle(After(h, replicas, run.before), run.op) && SingleRemovals(h, replicas, run.before)
  }

  lemma {:induction false} StaleStepIff(h: Hash, replicas: nat, t: Table, op: Op, stale: multiset<nat>)
    requires replicas > 0
    ensures StaleStep(h, replicas, t, op, stale) == multiset{} <==> stale == multiset{} && RemovesSingle(t, op)
  {
    var repr := op.node.repr;
    var copies := Copies(t.members, repr);
    if !RemovesSingle(t, op) {
      var r := ReprHashes(h, repr, replicas);
      assert PointHash(h, repr, replicas - 1) in r;
      assert Times(r, copies - 1) == Times(r, copies - 2) + r;
      assert PointHash(h, repr, replicas - 1) in StaleStep(h, replicas, t, op, stale);
    }
  }

  lemma {:induction false} StaleIff(h: Hash, replicas: nat, run: Run)
    requires replicas > 0
    ensures Stale(h, replicas, run) == multiset{} <==> SingleRemovals(h, replicas, run)
  {
    match run {
      case Start =>
      case Then(before, op) =>
        StaleIff(h, replicas, before);
        StaleStepIff(h, replicas, After(h, replicas, before), op, Stale(h, replicas, before));
    }
  }

  /**
   With full replicas, however the hashes collide and however the critical
   sections interleave, the keys are the points of the members if and only if
   no removal found its node registered more than once.
   */
  lemma {:induction false} FullRunExactIff(h: Hash, replicas: nat, run: Run)
    requires FullReplicas(replicas, run) && replicas > 0
    ensures Exact(h, After(h, replicas, run)) <==> SingleRemovals(h, replicas, run)
  {
    FullRunKeys(h, replicas, run);
    StaleIff(h, replicas, run);
    Surplus(Hashes(Points(h, After(h, replicas, run).members)), Stale(h, replicas, run));
  }

  lemma {:induction false} Surplus(a: multiset<nat>, b: multiset<nat>)
    ensures a + b == a <==> b == multiset{}
  {
    if b != multiset{} {
      var x :| x in b;
      assert (a + b)[x] > a[x];
    }
  }

  /** Two overlapping Adds of a node, and a Remove of it: both remove, then both append. */
  function Overlapping(node: Node, replicas: nat): (run: Run)
  {
    Then(Then(Then(Then(Then(Start, OpRemove(node)), OpRemove(node)),
                   OpAppend(node, replicas)), OpAppend(node, replicas)), OpRemove(node))
  }

  /** After that run the keys of one copy are left behind without an owner. */
  lemma {:induction false} OverlappingAdds(h: Hash, replicas: nat, node: Node)
    requires replicas > 0
    ensures var t := After(h, replicas, Overlapping(node, replicas));
      t.members == [] && t.keys == ReprHashes(h, node.repr, replicas) && !Exact(h, t)
  {
    var m, r := Member(node, replicas), ReprHashes(h, node.repr, replicas);
    var twice := Overlapping(node, replicas).before;
    assert After(h, replicas, twice.before.before.before) == Table([], multiset{});
    assert After(h, replicas, twice.before.before) == Table([], multiset{});
    assert After(h, replicas, twice.before) == Table([] + [m], multiset{} + r);
    assert After(h, replicas, twice) == Table([m] + [m], r + r);
    assert ([m] + [m])[0].node.repr == node.repr;
    AllDropped(m);
    assert r + r - r == r;
    assert PointHash(h, node.repr, replicas - 1) in r;
  }

  lemma {:induction false} AllDropped(m: Member)
    ensures KeepMembers([m] + [m], m.node.repr) == []
  {
    assert ([m] + [m])[..1] == [m];
    assert [m][..0] == [];
    assert KeepMembers([m], m.node.repr) == KeepMembers([], m.node.repr) + [];
  }

  // ------------------------------------------------------- appends to the absent

  ghost predicate AppendsFresh(t: Table, op: Op)
  {
    op.OpAppend? ==> !Present(t.members, op.node.repr)
  }

  /** Each append of the run finds its node absent. */
  ghost predicate FreshAppends(h: Hash, replicas: nat, run: Run)
  {
    run.Then? ==> AppendsFresh(After(h, replicas, run.before), run.op) && FreshAppends(h, replicas, run.before)
  }

  lemma {:induction false} FreshStep(h: Hash, replicas: nat, t: Table, op: Op)
    requires Counted(replicas, t.members) && AppendsFresh(t, op)
    ensures Counted(replicas, Do(h, replicas, t, op).members)
  {
    if op.OpRemove? {
      BoundedAfterRemove(replicas, t.members, op.node.repr);
    }
  }

  lemma {:induction false} FreshMembers(h: Hash, replicas: nat, run: Run)
    requires FreshAppends(h, replicas, run)
    ensures Counted(replicas, After(h, replicas, run).members)
  {
    match run {
      case Start =>
      case Then(before, op) =>
        FreshMembers(h, replicas, before);
        FreshStep(h, replicas, After(h, replicas, before), op);
    }
  }

  /** With full replicas a run whose appends find their nodes absent is exact. */
  lemma {:induction false} FullRunExact(h: Hash, replicas: nat, run: Run)
    requires FullReplicas(replicas, run) && FreshAppends(h, replicas, run)
    ensures Counted(replicas, After(h, replicas, run).members) && Exact(h, After(h, replicas, run))
  {
    FreshMembers(h, replicas, run);
    FullRunKeys(h, replicas, run);
    NothingStale(h, replicas, run);
  }

  lemma {:induction false} NothingStale(h: Hash, replicas: nat, run: Run)
    requires FreshAppends(h, replicas, run)
    ensures Stale(h, replicas, run) == multiset{}
  {
    match run {
      case Start =>
      case Then(before, op) =>
        NothingStale(h, replicas, before);
        FreshMembers(h, replicas, before);
        DistinctCopies(After(h, replicas, before).members, op.node.repr);
    }
  }

  /** A whole AddWithReplicas, no other caller in between, appends to a ring without the node. */
  lemma {:induction false} WholeAddIsFresh(h: Hash, replicas: nat, run: Run, node: Node, count: int)
    requires FreshAppends(h, replicas, run)
    ensures FreshAppends(h, replicas, Then(Then(run, OpRemove(node)), OpAppend(node, count)))
  {
    var t := After(h, replicas, run);
    FreshMembers(h, replicas, run);
    BoundedAfterRemove(replicas, t.members, node.repr);
    assert FreshAppends(h, replicas, Then(run, OpRemove(node)));
    assert After(h, replicas, Then(run, OpRemove(node))) == DoRemove(h, replicas, t, node.repr);
  }

  // ------------------------------------------------ points that do not collide

  /** The condition under which removing a node is exact. */
  ghost predicate Harmless(h: Hash, replicas: nat, ms: seq<Member>, repr: string)
  {
    forall k :: 0 <= k < |ms| && ms[k].node.repr == repr ==>
      Hashes(Points(h, KeepMembers(ms, repr))) !! (ReprHashes(h, repr, replicas) - ReprHashes(h, repr, ms[k].count))
  }

  lemma {:induction false} RemoveKeepsExact(h: Hash, replicas: nat, t: Table, repr: string)
    requires Counted(replicas, t.members) && Exact(h, t) && Harmless(h, replicas, t.members, repr)
    ensures Exact(h, DoRemove(h, replicas, t, repr))
  {
    if Present(t.members, repr) {
      var k :| 0 <= k < |t.members| && t.members[k].node.repr == repr;
      RemoveExactIff(h, replicas, t.members, k);
    }
  }

  /** No two virtual points of the named nodes have the same hash. */
  ghost predicate NoCollisions(h: Hash, replicas: nat, names: set<string>)
  {
    forall r1, r2, i: nat, j: nat {:trigger PointHash(h, r1, i), PointHash(h, r2, j)} ::
      r1 in names && r2 in names && i < replicas && j < replicas && PointHash(h, r1, i) == PointHash(h, r2, j) ==>
      r1 == r2 && i == j
  }

  ghost predicate Named(ms: seq<Member>, names: set<string>)
  {
    forall i :: 0 <= i < |ms| ==> ms[i].node.repr in names
  }

  lemma {:induction false} ReprHashIs(h: Hash, repr: string, n: nat, x: nat) returns (i: nat)
    requires x in ReprHashes(h, repr, n)
    ensures i < n && PointHash(h, repr, i) == x
  {
    if PointHash(h, repr, n - 1) == x {
      i := n - 1;
    } else {
      i := ReprHashIs(h, repr, n - 1, x);
    }
  }

  lemma {:induction false} PointHashIs(h: Hash, ms: seq<Member>, x: nat) returns (k: nat, i: nat)
    requires x in Hashes(Points(h, ms))
    ensures k < |ms| && i < ms[k].count && PointHash(h, ms[k].node.repr, i) == x
  {
    if ms == [] {
      assert false;
    } else {
      var n := |ms| - 1;
      HashesConcat(Points(h, ms[..n]), PointsOf(h, ms[n].node, ms[n].count));
      HashesOfNode(h, ms[n].node, ms[n].count);
      if x in ReprHashes(h, ms[n].node.repr, ms[n].count) {
        k := n;
        i := ReprHashIs(h, ms[n].node.repr, ms[n].count, x);
      } else {
        k, i := PointHashIs(h, ms[..n], x);
      }
    }
  }

  /** The points of members without a name avoid all points of that name. */
  lemma {:induction false} PointsApart(h: Hash, replicas: nat, names: set<string>, ms: seq<Member>, repr: string, x: nat)
    requires NoCollisions(h, replicas, names) && repr in names
    requires Bounded(replicas, ms) && Named(ms, names) && !Present(ms, repr)
    requires x in Hashes(Points(h, ms))
    ensures x !in ReprHashes(h, repr, replicas)
  {
    var k, i := PointHashIs(h, ms, x);
    if x in ReprHashes(h, repr, replicas) {
      var j := ReprHashIs(h, repr, replicas, x);
      assert false;
    }
  }

  lemma {:induction false} NamedAfterRemove(ms: seq<Member>, names: set<string>, repr: string)
    requires Named(ms, names)
    ensures Named(KeepMembers(ms, repr), names)
  {
    KeptMembers(ms, repr);
    var kept := KeepMembers(ms, repr);
    forall i | 0 <= i < |kept| ensures kept[i].node.repr in names {
      assert kept[i] in ms;
    }
  }

  lemma {:induction false} CollisionFreeIsHarmless(h: Hash, replicas: nat, names: set<string>, ms: seq<Member>, repr: string)
    requires NoCollisions(h, replicas, names) && repr in names && Counted(replicas, ms) && Named(ms, names)
    ensures Harmless(h, replicas, ms, repr)
  {
    var others := KeepMembers(ms, repr);
    BoundedAfterRemove(replicas, ms, repr);
    NamedAfterRemove(ms, names, repr);
    forall x | x in Hashes(Points(h, others)) ensures x !in ReprHashes(h, repr, replicas) {
      PointsApart(h, replicas, names, others, repr, x);
    }
  }

  ghost predicate NamedRun(run: Run, names: set<string>)
  {
    run.Then? ==> run.op.node.repr in names && NamedRun(run.before, names)
  }

  ghost predicate NamedExact(h: Hash, replicas: nat, t: Table, names: set<string>)
  {
    Counted(replicas, t.members) && Named(t.members, names) && Exact(h, t)
  }

  lemma {:induction false} NamedRemove(h: Hash, replicas: nat, names: set<string>, t: Table, repr: string)
    requires NoCollisions(h, replicas, names) && repr in names && NamedExact(h, replicas, t, names)
    ensures NamedExact(h, replicas, DoRemove(h, replicas, t, repr), names)
  {
    BoundedAfterRemove(replicas, t.members, repr);
    CollisionFreeIsHarmless(h, replicas, names, t.members, repr);
    RemoveKeepsExact(h, replicas, t, repr);
    NamedAfterRemove(t.members, names, repr);
  }

  lemma {:induction false} NamedAppend(h: Hash, replicas: nat, names: set<string>, t: Table, node: Node, count: int)
    requires NamedExact(h, replicas, t, names) && node.repr in names && !Present(t.members, node.repr)
    ensures NamedExact(h, replicas, DoAppend(h, replicas, t, node, count), names)
  {
    FreshStep(h, replicas, t, OpAppend(node, count));
    AppendKeepsExact(h, replicas, t, node, count);
  }

  /** Runs over nodes whose points do not collide are exact with any replica counts. */
  lemma {:induction false} CollisionFreeRunExact(h: Hash, replicas: nat, names: set<string>, run: Run)
    requires NoCollisions(h, replicas, names) && NamedRun(run, names) && FreshAppends(h, replicas, run)
    ensures NamedExact(h, replicas, After(h, replicas, run), names)
  {
    match run {
      case Start =>
      case Then(before, op) =>
        CollisionFreeRunExact(h, replicas, names, before);
        match op {
          case OpRemove(node) => NamedRemove(h, replicas, names, After(h, replicas, before), node.repr);
          case OpAppend(node, count) => NamedAppend(h, replicas, names, After(h, replicas, before), node, count);
        }
    }
  }

  lemma {:induction false} PointsOfAt(h: Hash, node: Node, n: nat, i: nat)
    requires i < n
    ensures |PointsOf(h, node, n)| == n && PointsOf(h, node, n)[i] == Point(node, PointHash(h, node.repr, i))
  {
    if n > 1 {
      PointsOfAt(h, node, n - 1, if i < n - 1 then i else 0);
    }
  }

  lemma {:induction false} NodeCollisionFree(h: Hash, replicas: nat, names: set<string>, node: Node, n: nat)
    requires NoCollisions(h, replicas, names) && node.repr in names && n <= replicas
    ensures CollisionFree(PointsOf(h, node, n))
  {
    var ps := PointsOf(h, node, n);
    if n > 0 {
      PointsOfAt(h, node, n, 0);
    }
    forall i, j | 0 <= i < j < |ps| ensures ps[i].hash != ps[j].hash {
      PointsOfAt(h, node, n, i);
      PointsOfAt(h, node, n, j);
    }
  }

  ghost predicate Apart(a: seq<Point>, b: seq<Point>)
  {
    forall i, j :: 0 <= i < |a| && 0 <= j < |b| ==> a[i].hash != b[j].hash
  }

  lemma {:induction false} JoinCollisionFree(a: seq<Point>, b: seq<Point>)
    requires CollisionFree(a) && CollisionFree(b)
    requires Apart(a, b)
    ensures CollisionFree(a + b)
  {
    forall i, j | 0 <= i < j < |a + b| ensures (a + b)[i].hash != (a + b)[j].hash {
      if j >= |a| {
        assert (a + b)[j] == b[j - |a|];
        if i >= |a| {
          assert (a + b)[i] == b[i - |a|];
        }
      }
    }
  }

  lemma {:induction false} MembersApart(h: Hash, replicas: nat, names: set<string>, ms: seq<Member>, m: Member)
    requires NoCollisions(h, replicas, names) && m.node.repr in names && m.count <= replicas
    requires Bounded(replicas, ms) && Named(ms, names) && !Present(ms, m.node.repr)
    ensures Apart(Points(h, ms), PointsOf(h, m.node, m.count))
  {
    var a, b := Points(h, ms), PointsOf(h, m.node, m.count);
    HashesOfNode(h, m.node, m.count);
    MoreHashes(h, m.node.repr, m.count, replicas);
    forall i, j | 0 <= i < |a| && 0 <= j < |b| ensures a[i].hash != b[j].hash {
      HashesAreHashes(a, a[i].hash);
      HashesAreHashes(b, b[j].hash);
      PointsApart(h, replicas, names, ms, m.node.repr, a[i].hash);
    }
  }

  /** Names that do not collide give points that do not collide. */
  lemma {:induction false} NamesCollisionFree(h: Hash, replicas: nat, names: set<string>, ms: seq<Member>)
    requires NoCollisions(h, replicas, names) && Counted(replicas, ms) && Named(ms, names)
    ensures CollisionFree(Points(h, ms))
  {
    if ms != [] {
      var n := |ms| - 1;
      var m := ms[n];
      NamesCollisionFree(h, replicas, names, ms[..n]);
      NodeCollisionFree(h, replicas, names, m.node, m.count);
      MembersApart(h, replicas, names, ms[..n], m);
      var a, b := Points(h, ms[..n]), PointsOf(h, m.node, m.count);
      assert Apart(a, b);
      JoinCollisionFree(a, b);
    }
  }

  // ----------------------------------------- minimal disruption after any run

  /**
   After a run over nodes whose points do not collide, a further Remove leaves
   every value that lived elsewhere where it was.
   */
  lemma {:induction false} RunRemoveMovesNothingElse(h: Hash, replicas: nat, names: set<string>, run: Run, node: Node,
                                                     hv: nat, inner: nat, m: Node)
    requires NoCollisions(h, replicas, names) && NamedRun(run, names) && node.repr in names
    requires FreshAppends(h, replicas, run)
    requires LivesAt(Points(h, After(h, replicas, run).members), hv, inner, Some(m)) && m.repr != node.repr
    ensures var t' := Do(h, replicas, After(h, replicas, run), OpRemove(node));
      Exact(h, t') && LivesAt(Points(h, t'.members), hv, inner, Some(m))
  {
    var t := After(h, replicas, run);
    CollisionFreeRunExact(h, replicas, names, run);
    CollisionFreeIsHarmless(h, replicas, names, t.members, node.repr);
    RemoveKeepsExact(h, replicas, t, node.repr);
    NamesCollisionFree(h, replicas, names, t.members);
    RemoveMovesNothingElse(Points(h, t.members), node.repr, hv, inner, m);
    PointsKept(h, t.members, node.repr);
  }

  /** After such a run, appending a node that is not in the ring moves values only to that node. */
  lemma {:induction false} RunAddMovesOnlyToNew(h: Hash, replicas: nat, names: set<string>, run: Run,
                                                node: Node, count: int, hv: nat, inner: nat, m: Node)
    requires NoCollisions(h, replicas, names) && NamedRun(run, names) && node.repr in names
    requires FreshAppends(h, replicas, run)
    requires var t := After(h, replicas, run);
      && !Present(t.members, node.repr)
      && LivesAt(Points(h, Do(h, replicas, t, OpAppend(node, count)).members), hv, inner, Some(m)) && m.repr != node.repr
    ensures var t := After(h, replicas, run);
      && Exact(h, t) && Exact(h, Do(h, replicas, t, OpAppend(node, count)))
      && LivesAt(Points(h, t.members), hv, inner, Some(m))
  {
    var t, c := After(h, replicas, run), Clamp(count, replicas);
    CollisionFreeRunExact(h, replicas, names, run);
    AppendKeepsExact(h, replicas, t, node, count);
    AppendedCollisionFree(h, replicas, names, t.members, Member(node, c));
    AddMovesOnlyToNew(h, t.members, node, c, hv, inner, m);
  }

  lemma {:induction false} AppendedCollisionFree(h: Hash, replicas: nat, names: set<string>, ms: seq<Member>, m: Member)
    requires NoCollisions(h, replicas, names) && Counted(replicas, ms) && Named(ms, names)
    requires m.node.repr in names && m.count <= replicas && !Present(ms, m.node.repr)
    ensures CollisionFree(Points(h, ms + [m]))
  {
    NamesCollisionFree(h, replicas, names, ms + [m]);
  }

  /**
   Appending a new node and removing it again restores the members always, and
   the keys if and only if the surplus points of the node hit no other point.
   */
  lemma {:induction false} AddThenRemoveRestores(h: Hash, replicas: nat, t: Table, node: Node, count: int)
    requires !Present(t.members, node.repr)
    ensures var t' := DoRemove(h, replicas, DoAppend(h, replicas, t, node, count), node.repr);
      && t'.members == t.members
      && (t' == t <==> t.keys !! (ReprHashes(h, node.repr, replicas) - ReprHashes(h, node.repr, Clamp(count, replicas))))
  {
    var m := Member(node, Clamp(count, replicas));
    assert (t.members + [m])[|t.members|].node.repr == node.repr;
    AddThenRemove(t.members, m);
    MoreHashes(h, node.repr, m.count, replicas);
    SurplusIff(t.keys, ReprHashes(h, node.repr, m.count), ReprHashes(h, node.repr, replicas));
  }
}
