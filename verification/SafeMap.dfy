/**
 The two-generation map of infra/collection/safemap.go.  Deletions are counted
 per generation; when a generation has seen many deletions and few keys are
 left, its keys are merged into the other one.
 */
module SafeMaps {
  import opened Options

  const COPY_THRESHOLD: nat := 1000
  const MAX_DELETION: nat := 10000

  /** Looking a key up in a plain map. */
  function Lookup<K(==), V>(m: map<K, V>, key: K): (r: Option<V>)
  {
    if key in m then Some(m[key]) else None
  }

  /** Key-disjoint generations can be merged either way round. */
  lemma MergeEitherWay<K, V>(older: map<K, V>, newer: map<K, V>)
    requires older.Keys !! newer.Keys
    ensures newer + older == older + newer
    ensures newer + older + map[] == older + newer
    ensures older + newer + map[] == older + newer
  {
  }

  class SafeMap<K(==), V> {
    var deletionOld: nat
    var deletionNew: nat
    var dirtyOld: map<K, V>
    var dirtyNew: map<K, V>

    /** No key lives in both generations. */
    ghost predicate Valid()
      reads this
    {
      dirtyOld.Keys !! dirtyNew.Keys
    }

    /** The plain map the two generations stand for. */
    ghost function Contents(): (m: map<K, V>)
      reads this
    {
      dirtyOld + dirtyNew
    }

    constructor ()
      ensures Valid() && Contents() == map[]
    {
      deletionOld, deletionNew := 0, 0;
      dirtyOld, dirtyNew := map[], map[];
    }

    method Get(key: K) returns (r: Option<V>)
      requires Valid()
      ensures r == if key in Contents() then Some(Contents()[key]) else None
    {
      if key in dirtyOld {
        return Some(dirtyOld[key]);
      }
      if key in dirtyNew {
        return Some(dirtyNew[key]);
      }
      return None;
    }

    method Set(key: K, value: V)
      requires Valid()
      modifies this
      ensures Valid() && Contents() == old(Contents())[key := value]
      ensures if old(deletionOld) <= 10000 then key in dirtyOld else key in dirtyNew
      ensures deletionOld == old(deletionOld) + if old(deletionOld) > 10000 && key in old(dirtyOld) then 1 else 0
      ensures deletionNew == old(deletionNew) + if old(deletionOld) <= 10000 && key in old(dirtyNew) then 1 else 0
    {
      if deletionOld <= MAX_DELETION {
        if key in dirtyNew {
          dirtyNew := dirtyNew - {key};
          deletionNew := deletionNew + 1;
        }
        dirtyOld := dirtyOld[key := value];
      } else {
        if key in dirtyOld {
          dirtyOld := dirtyOld - {key};
          deletionOld := deletionOld + 1;
        }
        dirtyNew := dirtyNew[key := value];
      }
    }

    method Del(key: K)
      requires Valid()
      modifies this
      ensures Valid() && Contents() == old(Contents()) - {key}
    {
      Take(key);
      Compact();
    }

    /** The head of Del: the key leaves its generation, which counts one more deletion. */
    method Take(key: K)
      requires Valid()
      modifies this
      ensures Valid() && Contents() == old(Contents()) - {key}
      ensures dirtyOld == old(dirtyOld) - {key} && dirtyNew == old(dirtyNew) - {key}
      ensures deletionOld == old(deletionOld) + if key in old(dirtyOld) then 1 else 0
      ensures deletionNew == old(deletionNew) + if key in old(dirtyNew) then 1 else 0
    {
      if key in dirtyOld {
        dirtyOld := dirtyOld - {key};
        deletionOld := deletionOld + 1;
      } else if key in dirtyNew {
        dirtyNew := dirtyNew - {key};
        deletionNew := deletionNew + 1;
      }
    }

    /** The tail of Del: merge a generation with many deletions and few keys into the other. */
    method Compact()
      requires Valid()
      modifies this
      ensures Valid() && Contents() == old(Contents())
      ensures old(deletionOld) >= 10000 && |old(dirtyOld)| < 1000 ==> dirtyNew == map[] && deletionNew == 0
      ensures deletionNew >= 10000 ==> |dirtyNew| >= 1000
      ensures old(deletionOld) < 10000 && old(deletionNew) < 10000 ==>
        unchanged(`dirtyOld) && unchanged(`dirtyNew) && unchanged(`deletionOld) && unchanged(`deletionNew)
    {
      MergeEitherWay(dirtyOld, dirtyNew);
      if deletionOld >= MAX_DELETION && |dirtyOld| < COPY_THRESHOLD {
        dirtyNew := dirtyNew + dirtyOld;
        dirtyOld := dirtyNew;
        deletionOld := deletionNew;
        dirtyNew := map[];
        deletionNew := 0;
      }
      if deletionNew >= MAX_DELETION && |dirtyNew| < COPY_THRESHOLD {
        dirtyOld := dirtyOld + dirtyNew;
        dirtyNew := map[];
        deletionNew := 0;
      }
    }

    method Size() returns (n: nat)
      requires Valid()
      ensures n == |Contents()|
    {
      assert Contents().Keys == dirtyOld.Keys + dirtyNew.Keys;
      n := |dirtyOld| + |dirtyNew|;
    }
  }
}
