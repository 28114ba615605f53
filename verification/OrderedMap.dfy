/** Maps that remember the order in which their keys were first inserted. */
module OrderedMap {

  import opened Common

  datatype Table<K, V> = Table(keys: seq<K>, values: map<K, V>)

  type Combine<!V> = (V, V) -> V

  function Empty<K, V>(): Table<K, V> {
    Table([], map[])
  }

  function Single<K, V>(key: K, value: V): Table<K, V> {
    Table([key], map[key := value])
  }

  /** The keys are exactly those with a value, each once. */
  ghost predicate Valid<K(!new), V>(t: Table<K, V>) {
    Distinct(t.keys) && forall k :: k in t.keys <==> k in t.values
  }

  function Without<K(==)>(s: seq<K>, excluded: seq<K>): seq<K> {
    if s == [] then []
    else (if s[0] in excluded then [] else [s[0]]) + Without(s[1..], excluded)
  }

  function MergeValue<K, V>(op: Combine<V>, t: map<K, V>, u: map<K, V>, k: K): V
    requires k in t || k in u
  {
    if k in t && k in u then op(t[k], u[k]) else if k in t then t[k] else u[k]
  }

  function MergeValues<K, V>(op: Combine<V>, t: map<K, V>, u: map<K, V>): map<K, V> {
    map k | k in t.Keys + u.Keys :: MergeValue(op, t, u, k)
  }

  /** All entries of u put into t: a key of both combines its values, a new key goes to the end. */
  function Merge<K, V>(op: Combine<V>, t: Table<K, V>, u: Table<K, V>): Table<K, V> {
    Table(t.keys + Without(u.keys, t.keys), MergeValues(op, t.values, u.values))
  }

  // ---------------------------------------------------------------- the algebra of merging

  ghost predicate Associative<V(!new)>(op: Combine<V>) {
    forall a, b, c :: op(op(a, b), c) == op(a, op(b, c))
  }

  ghost predicate Idempotent<V(!new)>(op: Combine<V>) {
    forall a :: op(a, a) == a
  }

  ghost predicate Commutative<V(!new)>(op: Combine<V>) {
    forall a, b :: op(a, b) == op(b, a)
  }

  lemma {:induction false} WithoutConcat<K>(a: seq<K>, b: seq<K>, excluded: seq<K>)
    ensures Without(a + b, excluded) == Without(a, excluded) + Without(b, excluded)
  {
    if a == [] {
      assert a + b == b;
    } else {
      WithoutConcat(a[1..], b, excluded);
      HeadTail(a, b);
      assert (a + b)[1..] == a[1..] + b;
    }
  }

  lemma {:induction false} WithoutMember<K>(s: seq<K>, excluded: seq<K>, k: K)
    ensures k in Without(s, excluded) <==> k in s && k !in excluded
  {
    if s != [] {
      WithoutMember(s[1..], excluded, k);
      HeadTail(s, []);
      assert k in s <==> k == s[0] || k in s[1..];
    }
  }

  lemma {:induction false} WithoutTwice<K>(s: seq<K>, a: seq<K>, b: seq<K>)
    ensures Without(Without(s, b), a) == Without(s, a + Without(b, a))
  {
    if s != [] {
      WithoutTwice(s[1..], a, b);
      WithoutMember(b, a, s[0]);
      assert s[0] in a + Without(b, a) <==> s[0] in a || s[0] in b;
      var head := if s[0] in b then [] else [s[0]];
      WithoutConcat(head, Without(s[1..], b), a);
      WithoutHead(s[0], a);
    }
  }

  lemma WithoutHead<K>(k: K, excluded: seq<K>)
    ensures Without([k], excluded) == if k in excluded then [] else [k]
    ensures Without([], excluded) == []
  {
    assert [k][1..] == [];
  }

  lemma MergeAssociative<K, V(!new)>(op: Combine<V>, t: Table<K, V>, u: Table<K, V>, v: Table<K, V>)
    requires Associative(op)
    ensures Merge(op, Merge(op, t, u), v) == Merge(op, t, Merge(op, u, v))
  {
    hide Without;
    WithoutConcat(u.keys, Without(v.keys, u.keys), t.keys);
    WithoutTwice(v.keys, t.keys, u.keys);
    assert t.keys + Without(u.keys, t.keys) + Without(v.keys, t.keys + Without(u.keys, t.keys))
           == t.keys + Without(u.keys + Without(v.keys, u.keys), t.keys);
  }

  lemma {:induction false} WithoutAll<K>(s: seq<K>, excluded: seq<K>)
    requires forall i :: 0 <= i < |s| ==> s[i] in excluded
    ensures Without(s, excluded) == []
  {
    if s != [] { WithoutAll(s[1..], excluded); }
  }

  lemma {:induction false} WithoutNone<K>(s: seq<K>, excluded: seq<K>)
    requires forall i :: 0 <= i < |s| ==> s[i] !in excluded
    ensures Without(s, excluded) == s
  {
    if s != [] {
      WithoutNone(s[1..], excluded);
      HeadTail(s, []);
    }
  }

  lemma MergeIdempotent<K, V(!new)>(op: Combine<V>, t: Table<K, V>)
    requires Idempotent(op)
    ensures Merge(op, t, t) == t
  {
    WithoutAll(t.keys, t.keys);
  }

  lemma MergeEmpty<K, V>(op: Combine<V>, t: Table<K, V>)
    ensures Merge(op, t, Empty()) == t
    ensures Merge(op, Empty(), t) == t
  {
    WithoutNone(t.keys, []);
    assert t.keys + [] == t.keys && [] + t.keys == t.keys;
  }

  // ---------------------------------------------------------------- merging one entry at a time

  /** The first n entries. */
  ghost function Prefix<K(!new), V>(t: Table<K, V>, n: nat): Table<K, V>
    requires n <= |t.keys| && Valid(t)
  {
    Table(t.keys[..n], map k | k in t.keys[..n] :: t.values[k])
  }

  lemma PrefixAll<K(!new), V>(t: Table<K, V>)
    requires Valid(t)
    ensures Prefix(t, |t.keys|) == t
    ensures Prefix(t, 0) == Empty()
  {
    assert t.keys[..|t.keys|] == t.keys;
  }

  lemma PrefixStep<K(!new), V>(op: Combine<V>, t: Table<K, V>, n: nat)
    requires Valid(t) && n < |t.keys|
    ensures Prefix(t, n + 1) == Merge(op, Prefix(t, n), Single(t.keys[n], t.values[t.keys[n]]))
  {
    hide Without;
    var key := t.keys[n];
    KeyIsNew(t.keys, n);
    WithoutHead(key, t.keys[..n]);
    assert t.keys[..n + 1] == t.keys[..n] + [key];
  }

  lemma KeyIsNew<K>(keys: seq<K>, n: nat)
    requires Distinct(keys) && n < |keys|
    ensures keys[n] !in keys[..n]
  {
    assert forall i :: 0 <= i < n ==> keys[i] != keys[n];
  }

  lemma MergeKeepsValid<K(!new), V>(op: Combine<V>, t: Table<K, V>, u: Table<K, V>)
    requires Valid(t) && Valid(u)
    ensures Valid(Merge(op, t, u))
  {
    var added := Without(u.keys, t.keys);
    WithoutDistinct(u.keys, t.keys);
    forall k
      ensures k in added <==> k in u.keys && k !in t.keys
    {
      WithoutMember(u.keys, t.keys, k);
    }
    assert forall i :: 0 <= i < |added| ==> added[i] in added;
    assert forall i :: 0 <= i < |t.keys| ==> t.keys[i] in t.keys;
  }

  lemma {:induction false} WithoutDistinct<K>(s: seq<K>, excluded: seq<K>)
    requires Distinct(s)
    ensures Distinct(Without(s, excluded))
  {
    if s != [] {
      WithoutDistinct(s[1..], excluded);
      WithoutMember(s[1..], excluded, s[0]);
      assert s[0] !in s[1..];
      var rest := Without(s[1..], excluded);
      assert forall i :: 0 <= i < |rest| ==> rest[i] in rest;
    }
  }

  /** `map.set`, combining with the value already there. */
  function Put<K, V>(op: Combine<V>, t: Table<K, V>, key: K, value: V): Table<K, V> {
    if key in t.values then Table(t.keys, t.values[key := op(t.values[key], value)])
    else Table(t.keys + [key], t.values[key := value])
  }

  lemma PutIsMerge<K(!new), V>(op: Combine<V>, t: Table<K, V>, key: K, value: V)
    requires Valid(t)
    ensures Put(op, t, key, value) == Merge(op, t, Single(key, value))
  {
    WithoutHead(key, t.keys);
    assert t.keys + [] == t.keys;
  }

  /** Puts the entries of u into t one by one. */
  method MergeEntries<K(!new), V(!new)>(op: Combine<V>, t: Table<K, V>, u: Table<K, V>) returns (merged: Table<K, V>)
    requires Valid(t) && Valid(u) && Associative(op)
    ensures merged == Merge(op, t, u) && Valid(merged)
  {
    merged := t;
    PrefixAll(u);
    MergeEmpty(op, t);
    for i := 0 to |u.keys|
      invariant merged == Merge(op, t, Prefix(u, i)) && Valid(merged)
    {
      var key := u.keys[i];
      var value := u.values[key];
      PutIsMerge(op, merged, key, value);
      MergeKeepsValid(op, merged, Single(key, value));
      PrefixStep(op, u, i);
      MergeAssociative(op, t, Prefix(u, i), Single(key, value));
      merged := Put(op, merged, key, value);
    }
  }
}
