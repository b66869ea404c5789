/** Maps that iterate in insertion order, as the Map of ECMAScript does. */
module InsertionMaps {

  /** The sequence without the first occurrence of `k`. */
  function Without<K(==)>(keys: seq<K>, k: K): (r: seq<K>)
    ensures forall x | x in r :: x in keys
    ensures forall x | x in keys && x != k :: x in r
    ensures |r| == |keys| - if k in keys then 1 else 0
  {
    if keys == [] then [] else if keys[0] == k then keys[1..] else [keys[0]] + Without(keys[1..], k)
  }

  ghost predicate Distinct<K>(keys: seq<K>) {
    forall i, j | 0 <= i < j < |keys| :: keys[i] != keys[j]
  }

  lemma {:induction false} WithoutIsDistinct<K>(keys: seq<K>, k: K)
    requires Distinct(keys)
    ensures Distinct(Without(keys, k)) && k !in Without(keys, k)
  {
    if keys != [] && keys[0] != k {
      WithoutIsDistinct(keys[1..], k);
      var r := Without(keys[1..], k);
      assert keys[0] !in r;
      forall i, j | 0 <= i < j < |[keys[0]] + r| ensures ([keys[0]] + r)[i] != ([keys[0]] + r)[j] {
        if i == 0 { assert r[j - 1] in r; }
      }
    }
  }

  /** The sequence without the members of `gone`. */
  function Less<K(==)>(keys: seq<K>, gone: set<K>): (r: seq<K>)
    ensures forall x | x in r :: x in keys && x !in gone
    ensures forall x | x in keys && x !in gone :: x in r
    ensures |r| <= |keys|
  {
    if keys == [] then [] else (if keys[0] in gone then [] else [keys[0]]) + Less(keys[1..], gone)
  }

  lemma {:induction false} LessIsDistinct<K>(keys: seq<K>, gone: set<K>)
    requires Distinct(keys)
    ensures Distinct(Less(keys, gone))
  {
    if keys != [] {
      LessIsDistinct(keys[1..], gone);
      assert keys[0] !in keys[1..];
    }
  }

  lemma {:induction false} LessNothing<K>(keys: seq<K>)
    ensures Less(keys, {}) == keys
  {
    if keys != [] { LessNothing(keys[1..]); }
  }

  lemma {:induction false} LessOneMore<K>(keys: seq<K>, gone: set<K>, k: K)
    requires Distinct(keys) && k !in gone
    ensures Without(Less(keys, gone), k) == Less(keys, gone + {k})
  {
    if keys != [] {
      var rest := Less(keys[1..], gone);
      LessOneMore(keys[1..], gone, k);
      if keys[0] in gone {
        assert Less(keys, gone) == rest;
      } else {
        assert Less(keys, gone)[0] == keys[0] && Less(keys, gone)[1..] == rest;
        if keys[0] == k {
          assert k !in keys[1..];
          WithoutAbsent(rest, k);
        }
      }
    }
  }

  lemma {:induction false} WithoutAbsent<K>(keys: seq<K>, k: K)
    requires k !in keys
    ensures Without(keys, k) == keys
  {
    if keys != [] { WithoutAbsent(keys[1..], k); }
  }

  datatype OMap<K(==), V> = OMap(keys: seq<K>, vals: map<K, V>)
  {
    ghost predicate Valid() {
      && Distinct(keys)
      && (forall k | k in keys :: k in vals)
      && (forall k | k in vals :: k in keys)
    }

    predicate Has(k: K) {
      k in vals
    }

    function Get(k: K): V
      requires Has(k)
    {
      vals[k]
    }

    /** A present key keeps its place; a new one goes last. */
    function Put(k: K, v: V): (r: OMap<K, V>) {
      OMap(if k in vals then keys else keys + [k], vals[k := v])
    }

    function Remove(k: K): (r: OMap<K, V>) {
      OMap(Without(keys, k), vals - {k})
    }

    function RemoveAll(gone: set<K>): (r: OMap<K, V>) {
      OMap(Less(keys, gone), vals - gone)
    }

    lemma RemoveAllIsValid(gone: set<K>)
      requires Valid()
      ensures RemoveAll(gone).Valid() && RemoveAll(gone).Size() <= Size()
    {
      LessIsDistinct(keys, gone);
    }

    lemma RemoveAllOfNone()
      ensures RemoveAll({}) == this
    {
      LessNothing(keys);
    }

    lemma RemoveOneMore(gone: set<K>, k: K)
      requires Valid() && k !in gone
      ensures RemoveAll(gone).Remove(k) == RemoveAll(gone + {k})
    {
      LessOneMore(keys, gone, k);
      assert vals - gone - {k} == vals - (gone + {k});
    }

    /** Those of some keys that are among the first `i`. */
    function Among(i: nat, some: set<K>): set<K>
      requires i <= |keys|
    {
      set k | k in keys[..i] && k in some
    }

    /** Deleting key by key while going through the map: where it starts, one step, where it ends. */
    lemma RemoveStart(gone: set<K>)
      ensures RemoveAll(Among(0, gone)) == this
    {
      assert Among(0, gone) == {};
      RemoveAllOfNone();
    }

    lemma RemoveStep(s: OMap<K, V>, i: nat, gone: set<K>)
      requires Valid() && i < |keys| && s == RemoveAll(Among(i, gone))
      ensures keys[i] in s.vals && s.vals[keys[i]] == vals[keys[i]]
      ensures RemoveAll(Among(i + 1, gone)) == if keys[i] in gone then s.Remove(keys[i]) else s
    {
      assert keys[i] !in keys[..i];
      assert keys[..i + 1] == keys[..i] + [keys[i]];
      if keys[i] in gone {
        assert Among(i + 1, gone) == Among(i, gone) + {keys[i]};
        RemoveOneMore(Among(i, gone), keys[i]);
      } else {
        assert Among(i + 1, gone) == Among(i, gone);
      }
    }

    lemma RemoveEnd(gone: set<K>)
      requires Valid() && gone <= vals.Keys
      ensures Among(|keys|, gone) == gone
    {
      assert keys[..|keys|] == keys;
    }

    function Size(): nat {
      |keys|
    }

    lemma PutIsValid(k: K, v: V)
      requires Valid()
      ensures Put(k, v).Valid()
      ensures Put(k, v).Size() == Size() + if Has(k) then 0 else 1
    {
    }

    lemma RemoveIsValid(k: K)
      requires Valid()
      ensures Remove(k).Valid()
      ensures Remove(k).Size() == Size() - if Has(k) then 1 else 0
    {
      WithoutIsDistinct(keys, k);
    }

    lemma SizeIsCard()
      requires Valid()
      ensures Size() == |vals.Keys|
    {
      DistinctCard(keys);
      assert vals.Keys == set k | k in keys;
    }
  }

  function Empty<K(==), V>(): OMap<K, V> {
    OMap([], map[])
  }

  lemma {:induction false} DistinctCard<K>(keys: seq<K>)
    requires Distinct(keys)
    ensures |set k | k in keys| == |keys|
  {
    if keys != [] {
      var rest := keys[1..];
      DistinctCard(rest);
      assert (set k | k in keys) == {keys[0]} + (set k | k in rest);
      assert keys[0] !in rest;
    }
  }

  lemma {:induction false} SubsetIsNoLarger<T>(a: set<T>, b: set<T>)
    requires a <= b
    ensures |a| <= |b|
  {
    if a != {} {
      var x :| x in a;
      SubsetIsNoLarger(a - {x}, b - {x});
    }
  }
}
