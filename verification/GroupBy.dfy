/** The rxjs `groupBy` of `ops2Event` on values: groups by key, keys in order of first appearance. */
module GroupBy {

  function MapAll<T, U>(xs: seq<T>, f: T -> U): (ys: seq<U>)
    ensures |ys| == |xs| && forall i :: 0 <= i < |xs| ==> ys[i] == f(xs[i])
  {
    if xs == [] then [] else MapAll(xs[..|xs| - 1], f) + [f(xs[|xs| - 1])]
  }

  // The members of one group, in order.
  function GroupOf<T, K(==)>(xs: seq<T>, keyOf: T -> K, key: K): seq<T> {
    if xs == [] then []
    else
      var last := xs[|xs| - 1];
      GroupOf(xs[..|xs| - 1], keyOf, key) + if keyOf(last) == key then [last] else []
  }

  function Keys<T, K(==)>(xs: seq<T>, keyOf: T -> K): seq<K> {
    if xs == [] then []
    else
      var before := Keys(xs[..|xs| - 1], keyOf);
      var key := keyOf(xs[|xs| - 1]);
      if key in before then before else before + [key]
  }

  ghost predicate Distinct<K(!new)>(keys: seq<K>) {
    forall i, j :: 0 <= i < j < |keys| ==> keys[i] != keys[j]
  }

  lemma {:induction false} KeysAreTheGroups<T, K(!new)>(xs: seq<T>, keyOf: T -> K)
    ensures forall key :: key in Keys(xs, keyOf) <==> GroupOf(xs, keyOf, key) != []
    ensures Distinct(Keys(xs, keyOf))
  {
    if xs != [] {
      KeysAreTheGroups(xs[..|xs| - 1], keyOf);
    }
  }

  lemma {:induction false} GroupMembers<T, K>(xs: seq<T>, keyOf: T -> K, key: K)
    ensures forall x :: x in GroupOf(xs, keyOf, key) <==> x in xs && keyOf(x) == key
  {
    if xs != [] {
      var n := |xs| - 1;
      GroupMembers(xs[..n], keyOf, key);
      assert xs == xs[..n] + [xs[n]];
    }
  }

  // What the groups of some keys map to, taken together.
  function Together<T, K(==), U>(xs: seq<T>, keyOf: T -> K, f: T -> U, keys: seq<K>): multiset<U> {
    if keys == [] then multiset{}
    else
      Together(xs, keyOf, f, keys[..|keys| - 1]) + multiset(MapAll(GroupOf(xs, keyOf, keys[|keys| - 1]), f))
  }

  lemma GroupGrows<T, K, U>(xs: seq<T>, keyOf: T -> K, f: T -> U, x: T, key: K)
    ensures multiset(MapAll(GroupOf(xs + [x], keyOf, key), f))
            == multiset(MapAll(GroupOf(xs, keyOf, key), f)) + if keyOf(x) == key then multiset{f(x)} else multiset{}
  {
    assert (xs + [x])[..|xs|] == xs;
    var group := GroupOf(xs, keyOf, key);
    if keyOf(x) == key {
      assert (group + [x])[..|group|] == group;
    } else {
      assert group + [] == group;
    }
  }

  lemma MembershipSplits<K(!new)>(keys: seq<K>, key: K)
    requires Distinct(keys) && keys != []
    ensures key in keys <==> key in keys[..|keys| - 1] || key == keys[|keys| - 1]
    ensures !(key in keys[..|keys| - 1] && key == keys[|keys| - 1])
  {
    assert keys == keys[..|keys| - 1] + [keys[|keys| - 1]];
  }

  lemma Regroup<U>(a: multiset<U>, x: multiset<U>, b: multiset<U>, y: multiset<U>)
    ensures (a + x) + (b + y) == (a + b) + (x + y)
  {
  }

  // One more element adds to its own group and to no other.
  lemma {:induction false} TogetherGrows<T, K(!new), U>(xs: seq<T>, keyOf: T -> K, f: T -> U, x: T, keys: seq<K>)
    requires Distinct(keys)
    ensures Together(xs + [x], keyOf, f, keys)
            == Together(xs, keyOf, f, keys) + if keyOf(x) in keys then multiset{f(x)} else multiset{}
  {
    if keys != [] {
      var n := |keys| - 1;
      var key := keyOf(x);
      TogetherGrows(xs, keyOf, f, x, keys[..n]);
      GroupGrows(xs, keyOf, f, x, keys[n]);
      MembershipSplits(keys, key);
      Regroup(Together(xs, keyOf, f, keys[..n]), if key in keys[..n] then multiset{f(x)} else multiset{},
              multiset(MapAll(GroupOf(xs, keyOf, keys[n]), f)), if key == keys[n] then multiset{f(x)} else multiset{});
    }
  }

  // An element with a new key makes a group of its own.
  lemma GroupStarts<T, K(!new), U>(xs: seq<T>, keyOf: T -> K, f: T -> U, x: T, keys: seq<K>)
    requires GroupOf(xs, keyOf, keyOf(x)) == []
    ensures Together(xs + [x], keyOf, f, keys + [keyOf(x)]) == Together(xs + [x], keyOf, f, keys) + multiset{f(x)}
  {
    assert (keys + [keyOf(x)])[..|keys|] == keys;
    GroupGrows(xs, keyOf, f, x, keyOf(x));
  }

  lemma MapAllGrows<T, U>(xs: seq<T>, f: T -> U, x: T)
    ensures multiset(MapAll(xs + [x], f)) == multiset(MapAll(xs, f)) + multiset{f(x)}
  {
    assert MapAll(xs + [x], f) == MapAll(xs, f) + [f(x)];
  }

  lemma PartitionGrows<T, K(!new), U>(xs: seq<T>, keyOf: T -> K, f: T -> U, x: T)
    ensures Together(xs + [x], keyOf, f, Keys(xs + [x], keyOf))
            == Together(xs, keyOf, f, Keys(xs, keyOf)) + multiset{f(x)}
  {
    var before := Keys(xs, keyOf);
    KeysAreTheGroups(xs, keyOf);
    assert (xs + [x])[..|xs|] == xs;
    TogetherGrows(xs, keyOf, f, x, before);
    if keyOf(x) !in before {
      GroupStarts(xs, keyOf, f, x, before);
    }
  }

  predicate Partitioned<T, K(==), U(==)>(xs: seq<T>, keyOf: T -> K, f: T -> U) {
    Together(xs, keyOf, f, Keys(xs, keyOf)) == multiset(MapAll(xs, f))
  }

  lemma PartitionedSnoc<T, K(!new), U>(xs: seq<T>, keyOf: T -> K, f: T -> U, x: T)
    requires Partitioned(xs, keyOf, f)
    ensures Partitioned(xs + [x], keyOf, f)
  {
    PartitionGrows(xs, keyOf, f, x);
    MapAllGrows(xs, f, x);
  }

  // What holds of the empty sequence and survives one more element holds of every sequence.
  lemma {:induction false} SnocInduction<T(!new)>(p: seq<T> -> bool, xs: seq<T>)
    requires p([]) && forall ys: seq<T>, y: T :: p(ys) ==> p(ys + [y])
    ensures p(xs)
  {
    if xs != [] {
      var n := |xs| - 1;
      SnocInduction(p, xs[..n]);
      assert xs == xs[..n] + [xs[n]];
    }
  }

  /** The groups of all keys are together the whole sequence. */
  lemma GroupsPartition<T(!new), K(!new), U>(xs: seq<T>, keyOf: T -> K, f: T -> U)
    ensures Together(xs, keyOf, f, Keys(xs, keyOf)) == multiset(MapAll(xs, f))
  {
    var p := (ys: seq<T>) => Partitioned(ys, keyOf, f);
    forall ys: seq<T>, y: T | p(ys) ensures p(ys + [y]) {
      PartitionedSnoc(ys, keyOf, f, y);
    }
    SnocInduction(p, xs);
    assert p(xs);
  }
}
