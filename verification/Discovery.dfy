/**
 The discovery container of infra/discov/subscriber.go: a map from keys to
 values, its inverse from values to key lists, and a cached snapshot of the
 values.  In exclusive mode a value belongs to the last key that registered it.
 */
module Discovery {

  // --------------------------------------------------------- the abstract registry

  /** The keys other than k that hold v. */
  function Rivals(m: map<string, string>, k: string, v: string): (ks: set<string>)
  {
    set x | x in m && m[x] == v && x != k
  }

  function Put(m: map<string, string>, k: string, v: string, exclusive: bool): (r: map<string, string>)
  {
    (if exclusive then m - Rivals(m, k, v) else m)[k := v]
  }

  datatype Event = Add(key: string, value: string) | Del(key: string)

  function Do(m: map<string, string>, e: Event, exclusive: bool): (r: map<string, string>)
  {
    match e
    case Add(k, v) => Put(m, k, v, exclusive)
    case Del(k) => m - {k}
  }

  function After(es: seq<Event>, n: nat, exclusive: bool): (m: map<string, string>)
    requires n <= |es|
  {
    if n == 0 then map[] else Do(After(es, n - 1, exclusive), es[n - 1], exclusive)
  }

  /** The event ends the registration of k with v. */
  predicate Ends(e: Event, k: string, v: string, exclusive: bool)
  {
    match e
    case Add(k', v') => if k' == k then v' != v else exclusive && v' == v
    case Del(k') => k' == k
  }

  /** The registration of k with v at event i stands after n events. */
  ghost predicate Stands(es: seq<Event>, n: nat, i: nat, k: string, v: string, exclusive: bool)
    requires n <= |es|
  {
    i < n && es[i] == Add(k, v) && forall j :: i < j < n ==> !Ends(es[j], k, v, exclusive)
  }

  /** Some registration of k with v stands. */
  ghost predicate Registered(es: seq<Event>, n: nat, k: string, v: string, exclusive: bool)
    requires n <= |es|
  {
    exists i: nat :: Stands(es, n, i, k, v, exclusive)
  }

  /** A key holds a value after a run exactly when some registration of the two was never ended. */
  lemma {:induction false} HeldExactly(es: seq<Event>, n: nat, k: string, v: string, exclusive: bool)
    requires n <= |es|
    ensures var m := After(es, n, exclusive);
      k in m && m[k] == v <==> Registered(es, n, k, v, exclusive)
  {
    if n > 0 {
      HeldExactly(es, n - 1, k, v, exclusive);
      RegisteredNext(es, n - 1, k, v, exclusive);
    }
  }

  lemma {:induction false} RegisteredNext(es: seq<Event>, n: nat, k: string, v: string, exclusive: bool)
    requires n < |es|
    ensures Registered(es, n + 1, k, v, exclusive) <==>
      es[n] == Add(k, v) || (Registered(es, n, k, v, exclusive) && !Ends(es[n], k, v, exclusive))
  {
    if es[n] == Add(k, v) {
      assert Stands(es, n + 1, n, k, v, exclusive);
    } else if Registered(es, n, k, v, exclusive) && !Ends(es[n], k, v, exclusive) {
      var i: nat :| Stands(es, n, i, k, v, exclusive);
      assert Stands(es, n + 1, i, k, v, exclusive);
    } else if Registered(es, n + 1, k, v, exclusive) {
      var i: nat :| Stands(es, n + 1, i, k, v, exclusive);
      assert Stands(es, n, i, k, v, exclusive);
    }
  }

  /** In exclusive mode no value ever belongs to two keys. */
  lemma {:induction false} ExclusiveInjective(es: seq<Event>, n: nat, a: string, b: string)
    requires n <= |es|
    ensures var m := After(es, n, true);
      a in m && b in m && m[a] == m[b] ==> a == b
  {
    if n > 0 {
      ExclusiveInjective(es, n - 1, a, b);
    }
  }

  // ------------------------------------------------------------ the inverse index

  ghost predicate Distinct(s: seq<string>)
  {
    forall i, j :: 0 <= i < j < |s| ==> s[i] != s[j]
  }

  /** The key list of a value: non-empty, without repetition, exactly the keys mapped to it. */
  ghost predicate ListsKeys(ks: seq<string>, m: map<string, string>, v: string)
  {
    ks != [] && Distinct(ks) && forall k :: k in ks <==> k in m && m[k] == v
  }

  ghost predicate Inverse(values: map<string, seq<string>>, m: map<string, string>)
  {
    && (forall v :: v in values ==> ListsKeys(values[v], m, v))
    && (forall k :: k in m ==> m[k] in values)
  }

  function Without(ks: seq<string>, key: string, n: nat): (r: seq<string>)
    requires n <= |ks|
  {
    if n == 0 then []
    else if ks[n - 1] != key then Without(ks, key, n - 1) + [ks[n - 1]]
    else Without(ks, key, n - 1)
  }

  lemma {:induction false} WithoutMembers(ks: seq<string>, key: string, n: nat, k: string)
    requires n <= |ks|
    ensures k in Without(ks, key, n) <==> k != key && k in ks[..n]
  {
    if n > 0 {
      WithoutMembers(ks, key, n - 1, k);
      assert ks[..n] == ks[..n - 1] + [ks[n - 1]];
    }
  }

  lemma {:induction false} WithoutDistinct(ks: seq<string>, key: string, n: nat)
    requires n <= |ks| && Distinct(ks)
    ensures Distinct(Without(ks, key, n))
  {
    if n > 0 {
      WithoutDistinct(ks, key, n - 1);
      WithoutMembers(ks, key, n - 1, ks[n - 1]);
    }
  }

  /** doRemoveKey on the two maps. */
  function RemoveFrom(values: map<string, seq<string>>, v: string, key: string): (r: map<string, seq<string>>)
    requires v in values
  {
    var remain := Without(values[v], key, |values[v]|);
    if remain != [] then values[v := remain] else values - {v}
  }

  lemma {:induction false} RemainLists(ks: seq<string>, m: map<string, string>, v: string, key: string)
    requires ListsKeys(ks, m, v) && key in m && m[key] == v
    ensures var remain := Without(ks, key, |ks|);
      && Distinct(remain) && (forall k :: k in remain <==> k in m - {key} && m[k] == v)
  {
    WithoutDistinct(ks, key, |ks|);
    assert ks[..|ks|] == ks;
    forall k ensures k in Without(ks, key, |ks|) <==> k in m - {key} && m[k] == v {
      WithoutMembers(ks, key, |ks|, k);
    }
  }

  lemma {:induction false} RemoveKeepsInverse(values: map<string, seq<string>>, m: map<string, string>, key: string)
    requires Inverse(values, m) && key in m
    ensures Inverse(RemoveFrom(values, m[key], key), m - {key})
  {
    var v := m[key];
    var m', values' := m - {key}, RemoveFrom(values, v, key);
    var remain := Without(values[v], key, |values[v]|);
    RemainLists(values[v], m, v, key);
    forall w | w in values' ensures ListsKeys(values'[w], m', w) {
      if w == v {
        assert values'[w] == remain;
      } else {
        assert ListsKeys(values[w], m, w);
      }
    }
    forall k | k in m' ensures m'[k] in values' {
      if m[k] == v {
        assert k in remain;
      }
    }
  }

  function KeysOf(values: map<string, seq<string>>, v: string): (ks: seq<string>)
  {
    if v in values then values[v] else []
  }

  lemma {:induction false} AddKeepsInverse(values: map<string, seq<string>>, m: map<string, string>, k: string, v: string)
    requires Inverse(values, m) && k !in m
    ensures Inverse(values[v := KeysOf(values, v) + [k]], m[k := v])
  {
    var ks := KeysOf(values, v);
    var m', values' := m[k := v], values[v := ks + [k]];
    assert k !in ks;
    assert forall x :: x in ks <==> x in m && m[x] == v;
    forall w | w in values' ensures ListsKeys(values'[w], m', w) {
      if w == v {
        assert forall x :: x in ks + [k] <==> x in ks || x == k;
      } else {
        assert ListsKeys(values[w], m, w);
      }
    }
  }

  /** Exactly the values held by some key. */
  ghost predicate ListsValues(vals: seq<string>, m: map<string, string>)
  {
    Distinct(vals) && forall v :: v in vals <==> v in m.Values
  }

  lemma {:induction false} ValueKeys(values: map<string, seq<string>>, m: map<string, string>, v: string)
    requires Inverse(values, m)
    ensures v in values <==> v in m.Values
  {
    if v in values {
      assert ListsKeys(values[v], m, v) && values[v][0] in values[v];
    }
  }

  /** Every value belongs to one key. */
  ghost predicate Singles(values: map<string, seq<string>>)
  {
    forall v :: v in values ==> |values[v]| == 1
  }

  lemma {:induction false} RemoveKeepsSingles(values: map<string, seq<string>>, m: map<string, string>, key: string)
    requires Inverse(values, m) && key in m && Singles(values)
    ensures Singles(RemoveFrom(values, m[key], key))
  {
    var ks := values[m[key]];
    assert ListsKeys(ks, m, m[key]) && key in ks && ks == [key];
    assert Without(ks, key, 1) == [];
  }

  /** The keys of a list, as a set. */
  function KeySet(ks: seq<string>, n: nat): (r: set<string>)
    requires n <= |ks|
  {
    set i | 0 <= i < n :: ks[i]
  }

  lemma {:induction false} Unheld(values: map<string, seq<string>>, m: map<string, string>, v: string)
    requires Inverse(values, m) && forall k :: k in m ==> m[k] != v
    ensures v !in values
  {
    ValueKeys(values, m, v);
  }

  /** Dropping the key and then its rivals is what an exclusive registration does. */
  lemma {:induction false} DroppedRivals(m: map<string, string>, ks: seq<string>, k: string, v: string)
    requires forall x :: x in ks <==> x in m - {k} && m[x] == v
    ensures KeySet(ks, |ks|) == Rivals(m, k, v)
    ensures ((m - {k}) - KeySet(ks, |ks|))[k := v] == Put(m, k, v, true)
    ensures (m - {k})[k := v] == Put(m, k, v, false)
  {
    forall x ensures x in KeySet(ks, |ks|) <==> x in Rivals(m, k, v) {
      if x in KeySet(ks, |ks|) {
        assert x in ks;
      }
    }
  }

  // ---------------------------------------------------------------- the container

  class Container {
    const exclusive: bool
    var values: map<string, seq<string>>
    var mapping: map<string, string>
    var snapshot: seq<string>
    var dirty: bool

    /** The index inverts the mapping, exclusively if so asked, and a clean snapshot is up to date. */
    ghost predicate Valid()
      reads this
    {
      && Inverse(values, mapping)
      && (exclusive ==> Singles(values))
      && (!dirty ==> ListsValues(snapshot, mapping))
    }

    constructor (exclusive: bool)
      ensures Valid() && mapping == map[] && this.exclusive == exclusive
    {
      this.exclusive := exclusive;
      values, mapping, snapshot, dirty := map[], map[], [], true;
    }

    /** The in-place filter of a key list. */
    static method Filter(keys: seq<string>, key: string) returns (remain: seq<string>)
      ensures remain == Without(keys, key, |keys|)
    {
      remain := [];
      for i := 0 to |keys|
        invariant remain == Without(keys, key, i)
      {
        if keys[i] != key {
          remain := remain + [keys[i]];
        }
      }
    }

    method DoRemoveKey(key: string)
      requires Inverse(values, mapping) && (exclusive ==> Singles(values))
      modifies this`values, this`mapping
      ensures Inverse(values, mapping) && (exclusive ==> Singles(values)) && mapping == old(mapping) - {key}
    {
      if key !in mapping {
        return;
      }
      var server := mapping[key];
      RemoveKeepsInverse(values, mapping, key);
      if exclusive {
        RemoveKeepsSingles(values, mapping, key);
      }
      mapping := mapping - {key};
      var remain := Filter(values[server], key);
      if remain != [] {
        values := values[server := remain];
      } else {
        values := values - {server};
      }
    }

    method DropAll(keys: seq<string>)
      requires Inverse(values, mapping) && (exclusive ==> Singles(values))
      modifies this`values, this`mapping
      ensures Inverse(values, mapping) && (exclusive ==> Singles(values))
      ensures mapping == old(mapping) - KeySet(keys, |keys|)
    {
      for i := 0 to |keys|
        invariant Inverse(values, mapping) && (exclusive ==> Singles(values))
        invariant mapping == old(mapping) - KeySet(keys, i)
      {
        DoRemoveKey(keys[i]);
        assert KeySet(keys, i + 1) == KeySet(keys, i) + {keys[i]};
      }
    }

    /** Registering a key; the result is the other keys that held the value, if any. */
    method AddKv(key: string, value: string) returns (previous: seq<string>, early: bool)
      requires Valid()
      modifies this`values, this`mapping, this`dirty
      ensures Valid() && mapping == Put(old(mapping), key, value, exclusive)
      ensures early <==> previous != []
      ensures if key in old(mapping) && old(mapping)[key] == value then previous == []
        else KeySet(previous, |previous|) == Rivals(old(mapping), key, value)
    {
      if key in mapping && mapping[key] == value {
        return [], false;
      }
      dirty := true;
      if key in mapping {
        DoRemoveKey(key);
      }
      assert mapping == old(mapping) - {key};
      previous := Evict(value);
      DroppedRivals(old(mapping), previous, key, value);
      early := previous != [];
      Append(key, value);
    }

    /** In exclusive mode the keys that hold a value lose it. */
    method Evict(value: string) returns (previous: seq<string>)
      requires Inverse(values, mapping) && (exclusive ==> Singles(values))
      modifies this`values, this`mapping
      ensures Inverse(values, mapping) && (exclusive ==> Singles(values) && value !in values)
      ensures forall k :: k in previous <==> k in old(mapping) && old(mapping)[k] == value
      ensures mapping == if exclusive then old(mapping) - KeySet(previous, |previous|) else old(mapping)
    {
      previous := KeysOf(values, value);
      assert forall k :: k in previous <==> k in mapping && mapping[k] == value;
      if exclusive && previous != [] {
        DropAll(previous);
        assert forall k :: k in mapping ==> k !in previous;
        Unheld(values, mapping, value);
      }
    }

    method Append(key: string, value: string)
      requires Inverse(values, mapping) && key !in mapping && dirty
      requires exclusive ==> Singles(values) && value !in values
      modifies this`values, this`mapping
      ensures Valid() && mapping == old(mapping)[key := value]
    {
      AddKeepsInverse(values, mapping, key, value);
      values := values[value := KeysOf(values, value) + [key]];
      mapping := mapping[key := value];
    }

    method RemoveKey(key: string)
      requires Valid()
      modifies this`values, this`mapping, this`dirty
      ensures Valid() && mapping == old(mapping) - {key}
    {
      dirty := true;
      DoRemoveKey(key);
    }

    /** Each value held by some key exactly once, from the snapshot if nothing changed since it was taken. */
    method GetValues() returns (vals: seq<string>)
      requires Valid()
      modifies this`snapshot, this`dirty
      ensures Valid() && ListsValues(vals, mapping) && !dirty && snapshot == vals
      ensures !old(dirty) ==> vals == old(snapshot)
    {
      if !dirty {
        return snapshot;
      }
      vals := [];
      var left := values.Keys;
      while left != {}
        invariant left <= values.Keys && Distinct(vals)
        invariant forall v :: v in vals <==> v in values && v !in left
        decreases |left|
      {
        var each :| each in left;
        vals, left := vals + [each], left - {each};
      }
      forall v ensures v in vals <==> v in mapping.Values {
        ValueKeys(values, mapping, v);
      }
      snapshot, dirty := vals, false;
    }
  }
}
