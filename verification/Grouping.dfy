/**
 * A form is a flat table whose keys split into a row and a column; parsing it
 * groups the entries by row. Proved here for any key type and any splitting.
 */
module Grouping {
  import opened Wrappers

  type Flat<B(==), F(==)> = map<(B, F), int>
  type Nested<B(==), F(==)> = map<B, map<F, int>>

  function Firsts<B(==), F(==)>(flat: Flat<B, F>): set<B> {
    set p | p in flat :: p.0
  }

  function Row<B(==), F(==)>(flat: Flat<B, F>, b: B): map<F, int> {
    map f | f in (set p | p in flat && p.0 == b :: p.1) :: flat[(b, f)]
  }

  function Group<B(==), F(==)>(flat: Flat<B, F>): Nested<B, F> {
    map b | b in Firsts(flat) :: Row(flat, b)
  }

  predicate Holds<B(==), F(==)>(out: Nested<B, F>, p: (B, F)) {
    p.0 in out && p.1 in out[p.0]
  }

  /** `out` has exactly the entries of `flat`, and no empty row. */
  ghost predicate IsGroup<B(!new), F(!new)>(flat: Flat<B, F>, out: Nested<B, F>) {
    && (forall b | b in out :: out[b] != map[])
    && (forall p :: p in flat <==> Holds(out, p))
    && (forall p | p in flat :: out[p.0][p.1] == flat[p])
  }

  lemma GroupIsGroup<B(!new), F(!new)>(flat: Flat<B, F>)
    ensures IsGroup(flat, Group(flat))
  {
    var out := Group(flat);
    forall b | b in out ensures out[b] != map[] {
      var p :| p in flat && p.0 == b;
      assert p.1 in out[b];
    }
    forall p ensures p in flat <==> Holds(out, p) {
      if Holds(out, p) {
        var q :| q in flat && q.0 == p.0 && q.1 == p.1;
        assert q == p;
      }
    }
    forall p | p in flat ensures out[p.0][p.1] == flat[p] {
      assert (p.0, p.1) == p;
    }
  }

  lemma GroupUnique<B(!new), F(!new)>(flat: Flat<B, F>, out: Nested<B, F>)
    requires IsGroup(flat, out)
    ensures out == Group(flat)
  {
    var other := Group(flat);
    GroupIsGroup(flat);
    forall b ensures b in out <==> b in other {
      if b in out {
        var f :| f in out[b];
        assert Holds(out, (b, f)) && Holds(other, (b, f));
      }
      if b in other {
        var f :| f in other[b];
        assert Holds(other, (b, f)) && Holds(out, (b, f));
      }
    }
    forall b | b in out ensures out[b] == other[b] {
      forall f ensures f in out[b] <==> f in other[b] {
        assert Holds(out, (b, f)) <==> Holds(other, (b, f));
      }
      forall f | f in out[b] ensures out[b][f] == other[b][f] {
        assert Holds(out, (b, f)) && (b, f) in flat;
      }
    }
  }

  // ------------------------------------------------------- splitting flat keys

  ghost predicate Injective<K(!new), P(!new)>(split: K -> Option<P>) {
    forall k, l :: split(k).Some? && split(k) == split(l) ==> k == l
  }

  predicate Counts<K, V, P>(form: map<K, V>, k: K, split: K -> Option<P>, number: V -> Option<int>) {
    k in form && split(k).Some? && number(form[k]).Some?
  }

  /** The entries whose key splits and whose value is a number. */
  function Decode<K(!new), V, B(!new), F(!new)>(form: map<K, V>, split: K -> Option<(B, F)>, number: V -> Option<int>): Flat<B, F>
    requires Injective(split)
  {
    map k | k in form && Counts(form, k, split, number) :: split(k).value := number(form[k]).value
  }

  lemma DecodeExact<K(!new), V, B(!new), F(!new)>(form: map<K, V>, split: K -> Option<(B, F)>, number: V -> Option<int>)
    requires Injective(split)
    ensures forall k | Counts(form, k, split, number) ::
              split(k).value in Decode(form, split, number)
              && Decode(form, split, number)[split(k).value] == number(form[k]).value
    ensures forall p | p in Decode(form, split, number) ::
              exists k :: Counts(form, k, split, number) && split(k) == Some(p)
  {
  }

  /** An entry that does not count makes no difference. */
  lemma DecodeIgnores<K(!new), V, B(!new), F(!new)>(form: map<K, V>, more: map<K, V>, key: K,
                                                    split: K -> Option<(B, F)>, number: V -> Option<int>)
    requires Injective(split) && key !in form && more.Keys == form.Keys + {key} && forall k | k in form :: more[k] == form[k]
    requires split(key) == None || number(more[key]) == None
    ensures Decode(more, split, number) == Decode(form, split, number)
  {
    forall k ensures Counts(more, k, split, number) <==> Counts(form, k, split, number) {
      assert k in more <==> k in form || k == key;
    }
    DecodeExact(form, split, number);
    DecodeExact(more, split, number);
  }

  /** `out` groups exactly the counting entries whose key is not in `left`. */
  ghost predicate Represents<K(!new), V, B(!new), F(!new)>(form: map<K, V>, left: set<K>, out: Nested<B, F>,
                                                           split: K -> Option<(B, F)>, number: V -> Option<int>) {
    && (forall b | b in out :: out[b] != map[])
    && (forall k | k !in left && Counts(form, k, split, number) ::
          Holds(out, split(k).value) && out[split(k).value.0][split(k).value.1] == number(form[k]).value)
    && (forall p | Holds(out, p) :: exists k :: k !in left && Counts(form, k, split, number) && split(k) == Some(p))
  }

  lemma RepresentsStep<K(!new), V, B(!new), F(!new)>(form: map<K, V>, left: set<K>, out: Nested<B, F>, k: K,
                                                     split: K -> Option<(B, F)>, number: V -> Option<int>)
    requires Injective(split) && Represents(form, left, out, split, number) && k in left && k in form
    ensures !Counts(form, k, split, number) ==> Represents(form, left - {k}, out, split, number)
    ensures Counts(form, k, split, number) ==>
              var (b, f) := split(k).value;
              var row := (if b in out then out[b] else map[])[f := number(form[k]).value];
              Represents(form, left - {k}, out[b := row], split, number)
  {
    if Counts(form, k, split, number) {
      var (b, f) := split(k).value;
      var row := (if b in out then out[b] else map[])[f := number(form[k]).value];
      var out' := out[b := row];
      assert f in row;
      forall p | Holds(out', p)
        ensures exists l :: l !in left - {k} && Counts(form, l, split, number) && split(l) == Some(p)
      {
        if p != (b, f) {
          assert Holds(out, p);
        }
      }
    }
  }

  lemma RepresentsAll<K(!new), V, B(!new), F(!new)>(form: map<K, V>, out: Nested<B, F>,
                                                    split: K -> Option<(B, F)>, number: V -> Option<int>)
    requires Injective(split) && Represents(form, {}, out, split, number)
    ensures out == Group(Decode(form, split, number))
  {
    DecodeExact(form, split, number);
    GroupUnique(Decode(form, split, number), out);
  }

  /** The grouping loop: skip what does not split or is no number, add the rest to its row. */
  method GroupFields<K(!new, ==), V, B(!new, ==), F(!new, ==)>(form: map<K, V>, split: K -> Option<(B, F)>, number: V -> Option<int>)
    returns (out: Nested<B, F>)
    requires Injective(split)
    ensures out == Group(Decode(form, split, number))
  {
    out := map[];
    var left := form.Keys;
    while left != {}
      invariant left <= form.Keys
      invariant Represents(form, left, out, split, number)
    {
      var k :| k in left;
      var parts, value := split(k), number(form[k]);
      RepresentsStep(form, left, out, k, split, number);
      if parts.Some? && value.Some? {
        var (b, f) := parts.value;
        out := out[b := (if b in out then out[b] else map[])[f := value.value]];
      }
      left := left - {k};
    }
    RepresentsAll(form, out, split, number);
  }

  /** `form` lists exactly the entries of `table`, each under its own key. */
  ghost predicate Lists<I(!new), K(!new), V(!new), F(!new)>(form: map<K, V>, table: map<I, map<F, int>>,
                                                            key: (I, F) -> K, embed: int -> V) {
    && (forall i, f | i in table && f in table[i] :: key(i, f) in form && form[key(i, f)] == embed(table[i][f]))
    && (forall k | k in form :: exists i, f :: i in table && f in table[i] && k == key(i, f))
  }

  /** Decoding a list finds exactly the entries of the table. */
  lemma DecodeRebuilds<I(!new), K(!new), V(!new), B(!new), F(!new)>(
      form: map<K, V>, table: map<I, map<F, int>>, key: (I, F) -> K, embed: int -> V,
      name: I -> B, split: K -> Option<(B, F)>, number: V -> Option<int>)
    requires Injective(split) && Lists(form, table, key, embed)
    requires forall i, f :: split(key(i, f)) == Some((name(i), f))
    requires forall v :: number(embed(v)) == Some(v)
    ensures Flattens(Decode(form, split, number), table, name)
  {
    var flat := Decode(form, split, number);
    DecodeExact(form, split, number);
    forall i, f | i in table && f in table[i] ensures (name(i), f) in flat && flat[(name(i), f)] == table[i][f] {
      var v := table[i][f];
      assert number(embed(v)) == Some(v);
      assert Counts(form, key(i, f), split, number);
    }
    forall p | p in flat ensures exists i | i in table :: p.0 == name(i) && p.1 in table[i] {
      var k :| Counts(form, k, split, number) && split(k) == Some(p);
      var i, f :| i in table && f in table[i] && k == key(i, f);
    }
  }

  /** `flat` holds exactly the entries of `table`, under the row names. */
  ghost predicate Flattens<I(!new), B(!new), F(!new)>(flat: Flat<B, F>, table: map<I, map<F, int>>, name: I -> B) {
    && (forall i, f | i in table && f in table[i] :: (name(i), f) in flat && flat[(name(i), f)] == table[i][f])
    && (forall p | p in flat :: exists i | i in table :: p.0 == name(i) && p.1 in table[i])
  }

  lemma RowRebuilt<I(!new), B(!new), F(!new)>(flat: Flat<B, F>, out: Nested<B, F>,
                                              table: map<I, map<F, int>>, name: I -> B, i: I)
    requires IsGroup(flat, out) && Flattens(flat, table, name)
    requires forall i, j :: name(i) == name(j) ==> i == j
    requires i in table && table[i] != map[]
    ensures name(i) in out && out[name(i)] == table[i]
  {
    var b := name(i);
    var f :| f in table[i];
    assert Holds(out, (b, f));
    forall g ensures g in out[b] <==> g in table[i] {
      assert (b, g) in flat <==> Holds(out, (b, g));
    }
    forall g | g in table[i] ensures out[b][g] == table[i][g] {
      assert (b, g) in flat;
    }
  }

  lemma RowsRebuilt<I(!new), B(!new), F(!new)>(flat: Flat<B, F>, out: Nested<B, F>,
                                               table: map<I, map<F, int>>, name: I -> B)
    requires IsGroup(flat, out) && Flattens(flat, table, name)
    requires forall i, j :: name(i) == name(j) ==> i == j
    ensures forall b | b in out :: exists i | i in table && table[i] != map[] :: b == name(i)
    ensures forall i | i in table && table[i] != map[] :: name(i) in out && out[name(i)] == table[i]
  {
    forall b | b in out ensures exists i | i in table && table[i] != map[] :: b == name(i) {
      var f :| f in out[b];
      assert Holds(out, (b, f)) && (b, f) in flat;
    }
    forall i | i in table && table[i] != map[] ensures name(i) in out && out[name(i)] == table[i] {
      RowRebuilt(flat, out, table, name, i);
    }
  }
}
