/** Facts about sequences of any element type. */
module Sequences {
  ghost predicate Distinct<T>(s: seq<T>) {
    forall i, j | 0 <= i < j < |s| :: s[i] != s[j]
  }

  lemma PrefixGrows<T>(s: seq<T>, i: nat)
    requires i < |s|
    ensures s[..i + 1] == s[..i] + [s[i]]
    ensures s[..i + 1][..i] == s[..i]
  {
  }

  lemma WholePrefix<T>(s: seq<T>)
    ensures s[..|s|] == s
  {
  }

  lemma ConcatAssoc<T>(a: seq<T>, b: seq<T>, c: seq<T>)
    ensures a + b + c == a + (b + c)
  {
  }

  lemma DropFront<T>(a: seq<T>, b: seq<T>)
    ensures (a + b)[|a|..] == b
  {
  }

  /** A sequence without repetition does not contain its next element yet. */
  lemma NextIsNew<T>(s: seq<T>, i: nat)
    requires Distinct(s) && i < |s|
    ensures s[i] in s && s[i] !in s[..i]
  {
  }

  lemma DropOne<T>(rest: seq<T>, front: seq<T>, back: seq<T>, x: T)
    requires multiset(rest + [x]) == multiset(front + [x] + back)
    ensures multiset(rest) == multiset(front + back)
  {
    assert multiset(rest + [x]) == multiset(rest) + multiset{x};
    assert multiset(front + [x] + back) == multiset(front + back) + multiset{x};
    assert multiset(rest) == multiset(rest + [x]) - multiset{x};
  }

  /** Where an element of a multiset sits in an order of it. */
  lemma SplitAt<T>(t: seq<T>, x: T) returns (front: seq<T>, back: seq<T>)
    requires x in t
    ensures t == front + [x] + back
  {
    var k :| 0 <= k < |t| && t[k] == x;
    front, back := t[..k], t[k + 1..];
  }

  /** Where the last element of one order sits in another order of the same elements. */
  lemma Find<T>(s: seq<T>, t: seq<T>) returns (front: seq<T>, back: seq<T>)
    requires s != [] && multiset(s) == multiset(t)
    ensures t == front + [s[|s| - 1]] + back
    ensures multiset(s[..|s| - 1]) == multiset(front + back)
  {
    var rest, x := s[..|s| - 1], s[|s| - 1];
    assert s == rest + [x];
    assert x in multiset(s);
    front, back := SplitAt(t, x);
    DropOne(rest, front, back, x);
  }

  /** The map from each key to the value at its position. */
  function PairUp<K(==), V>(keys: seq<K>, values: seq<V>): map<K, V>
    requires |keys| == |values|
  {
    var n := |keys|;
    if n == 0 then map[] else PairUp(keys[..n - 1], values[..n - 1])[keys[n - 1] := values[n - 1]]
  }

  lemma {:induction false} PairUpKeys<K, V>(keys: seq<K>, values: seq<V>)
    requires |keys| == |values|
    ensures forall k :: k in PairUp(keys, values) <==> k in keys
  {
    var n := |keys|;
    if n > 0 {
      PairUpKeys(keys[..n - 1], values[..n - 1]);
      assert keys == keys[..n - 1] + [keys[n - 1]];
    }
  }

  lemma {:induction false} PairUpAt<K, V>(keys: seq<K>, values: seq<V>, i: nat)
    requires i < |keys| == |values| && Distinct(keys)
    ensures keys[i] in PairUp(keys, values) && PairUp(keys, values)[keys[i]] == values[i]
  {
    if i < |keys| - 1 {
      PairUpAt(keys[..|keys| - 1], values[..|keys| - 1], i);
    }
  }

  lemma {:induction false} PairUpValues<K, V>(keys: seq<K>, values: seq<V>)
    requires |keys| == |values| && Distinct(keys)
    ensures forall v :: v in PairUp(keys, values).Values <==> v in values
  {
    var n := |keys|;
    if n > 0 {
      PairUpValues(keys[..n - 1], values[..n - 1]);
      PairUpKeys(keys[..n - 1], values[..n - 1]);
      NextIsNew(keys, n - 1);
      OneMorePair(PairUp(keys[..n - 1], values[..n - 1]), keys[n - 1], values[n - 1]);
      assert values == values[..n - 1] + [values[n - 1]];
    }
  }

  /** Distinct keys are paired with exactly the values at their positions. */
  lemma PairUpExact<K, V>(keys: seq<K>, values: seq<V>)
    requires |keys| == |values| && Distinct(keys)
    ensures forall k :: k in PairUp(keys, values) <==> k in keys
    ensures forall i | 0 <= i < |keys| :: PairUp(keys, values)[keys[i]] == values[i]
    ensures forall v :: v in PairUp(keys, values).Values <==> v in values
  {
    PairUpKeys(keys, values);
    PairUpValues(keys, values);
    forall i | 0 <= i < |keys| ensures PairUp(keys, values)[keys[i]] == values[i] {
      PairUpAt(keys, values, i);
    }
  }

  lemma OneMorePair<K, V>(pairs: map<K, V>, key: K, value: V)
    requires key !in pairs
    ensures forall v :: v in pairs[key := value].Values <==> v in pairs.Values || v == value
  {
    var more := pairs[key := value];
    assert more[key] == value;
    forall v | v in pairs.Values ensures v in more.Values {
      var k :| k in pairs && pairs[k] == v;
      assert more[k] == v;
    }
  }
}
