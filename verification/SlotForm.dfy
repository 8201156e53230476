/**
 * The second form page: per-battery limits travel through flat string keys
 * `battery_<N>__<field>`, are parsed back, and are merged into the stored slot.
 */
module SlotForm {
  import opened Wrappers
  import opened Text
  import opened TimeSlots
  import opened Grouping

  /** A submitted form value: `None`, a number, or something `int()` rejects. */
  datatype FormValue = Blank | Number(n: real) | Junk

  type StepB = map<string, FormValue>

  const SEPARATOR := "__"
  const SOC_MIN := "soc_min"
  const SOC_MAX := "soc_max"
  const MAX_CHARGE := "max_charge_power_w"
  const MAX_DISCHARGE := "max_discharge_power_w"

  /** `int()` on a number truncates toward zero. */
  function Truncate(n: real): int {
    if n >= 0.0 then n.Floor else -((-n).Floor)
  }

  function SlotFieldKey(battery: nat, field: string): string {
    ScopeName(battery) + SEPARATOR + field
  }

  // ------------------------------------------------------------------- parsing

  /** `key.split("__", 1)`, for keys whose first part names a battery. */
  function SplitKey(key: string): Option<(string, string)> {
    match FindSeparator(key)
    case None => None
    case Some(k) => if SCOPE_PREFIX <= key[..k] then Some((key[..k], key[k + 2..])) else None
  }

  function IntOf(value: FormValue): Option<int> {
    if value.Number? then Some(Truncate(value.n)) else None
  }

  /** Splitting loses nothing, so two keys never name the same battery and field. */
  lemma SplitInjective()
    ensures Injective(SplitKey)
  {
    forall k, l | SplitKey(k).Some? && SplitKey(k) == SplitKey(l) ensures k == l {
      JoinSplit(k);
      JoinSplit(l);
    }
  }

  lemma JoinSplit(key: string)
    requires SplitKey(key).Some?
    ensures key == SplitKey(key).value.0 + SEPARATOR + SplitKey(key).value.1
  {
    var k := FindSeparator(key).value;
    assert key == key[..k] + key[k..k + 2] + key[k + 2..];
  }

  /** The usable fields of a form, keyed by battery and field name. */
  function Decoded(form: StepB): Flat<string, string> {
    SplitInjective();
    Decode(form, SplitKey, IntOf)
  }

  /** Swap an inverted state-of-charge pair. */
  function Ordered(limits: Limits): (r: Limits)
    ensures r.Keys == limits.Keys
    ensures SOC_MIN in r && SOC_MAX in r ==> r[SOC_MIN] <= r[SOC_MAX]
    ensures forall f :: f in limits && f != SOC_MIN && f != SOC_MAX ==> r[f] == limits[f]
  {
    if SOC_MIN in limits && SOC_MAX in limits && limits[SOC_MIN] > limits[SOC_MAX]
    then limits[SOC_MIN := limits[SOC_MAX]][SOC_MAX := limits[SOC_MIN]]
    else limits
  }

  function AllOrdered(grouped: map<string, Limits>): map<string, Limits> {
    map b | b in grouped :: Ordered(grouped[b])
  }

  function ParsedLimits(form: StepB): map<string, Limits> {
    AllOrdered(FieldGroups(form))
  }

  function FieldGroups(form: StepB): Nested<string, string> {
    Group(Decoded(form))
  }

  /** The parser: one pass over the form grouping by battery, one pass over the result swapping pairs. */
  method ParseStepB(form: StepB) returns (out: map<string, Limits>)
    ensures out == ParsedLimits(form)
  {
    SplitInjective();
    out := GroupFields(form, SplitKey, IntOf);
    out := SwapInvertedPairs(out);
  }

  method SwapInvertedPairs(grouped: map<string, Limits>) returns (out: map<string, Limits>)
    ensures out == AllOrdered(grouped)
  {
    out := grouped;
    var left := out.Keys;
    while left != {}
      invariant left <= grouped.Keys == out.Keys
      invariant forall b | b in grouped :: out[b] == if b in left then grouped[b] else Ordered(grouped[b])
    {
      var battery :| battery in left;
      var limits := out[battery];
      if SOC_MIN in limits && SOC_MAX in limits && limits[SOC_MIN] > limits[SOC_MAX] {
        out := out[battery := limits[SOC_MIN := limits[SOC_MAX]][SOC_MAX := limits[SOC_MIN]]];
      }
      left := left - {battery};
    }
  }

  // ------------------------------------------------------------------ encoding

  lemma FieldKeySplits(battery: nat, field: string)
    ensures SplitKey(SlotFieldKey(battery, field)) == Some((ScopeName(battery), field))
  {
    var name := ScopeName(battery);
    assert forall k | |SCOPE_PREFIX| <= k < |name| :: name[k] == Decimal(battery + 1)[k - |SCOPE_PREFIX|];
    assert forall k | |SCOPE_PREFIX| <= k < |name| :: IsDigit(name[k]);
    FindSeparatorAfter(name, field);
    var key := SlotFieldKey(battery, field);
    assert key[..|name|] == name && key[|name| + 2..] == field;
    assert SCOPE_PREFIX <= name;
  }

  lemma EmbedIsRead(v: int)
    ensures IntOf(Embed(v)) == Some(v)
  {
  }

  lemma ScopeNameInjective(i: nat, j: nat)
    requires ScopeName(i) == ScopeName(j)
    ensures i == j
  {
    ScopeNameTargets(i, 0);
    ScopeNameTargets(j, 0);
  }

  /** Distinct battery and field pairs never share a form key. */
  lemma FieldKeyInjective(i: nat, f: string, j: nat, g: string)
    requires SlotFieldKey(i, f) == SlotFieldKey(j, g)
    ensures i == j && f == g
  {
    FieldKeySplits(i, f);
    FieldKeySplits(j, g);
    ScopeNameInjective(i, j);
  }

  function Embed(v: int): FormValue { Number(v as real) }

  /** `form` is the flat encoding of `limits`: one key per battery and field, nothing else. */
  ghost predicate Encodes(form: StepB, limits: map<nat, Limits>) {
    Lists(form, limits, SlotFieldKey, Embed)
  }

  function Encode(limits: map<nat, Limits>): (form: StepB)
    ensures Encodes(form, limits)
  {
    KeysAgree(limits);
    map i, f | i in limits && f in limits[i] :: SlotFieldKey(i, f) := Embed(limits[i][f])
  }

  /** Two entries with one form key are one entry. */
  lemma KeysAgree(limits: map<nat, Limits>)
    ensures forall i, f, j, g | i in limits && f in limits[i] && j in limits && g in limits[j]
                                && SlotFieldKey(i, f) == SlotFieldKey(j, g) :: limits[i][f] == limits[j][g]
  {
    forall i, f, j, g | i in limits && f in limits[i] && j in limits && g in limits[j]
                        && SlotFieldKey(i, f) == SlotFieldKey(j, g) ensures limits[i][f] == limits[j][g] {
      FieldKeyInjective(i, f, j, g);
    }
  }

  /** What parsing an encoding returns: the limits under the battery names, each pair in order. */
  ghost predicate NamedAndOrdered(parsed: map<string, Limits>, limits: map<nat, Limits>) {
    && (forall b | b in parsed :: exists i | i in limits && limits[i] != map[] :: b == ScopeName(i))
    && (forall i | i in limits && limits[i] != map[] ::
          ScopeName(i) in parsed && parsed[ScopeName(i)] == Ordered(limits[i]))
  }

  /** `grouped` has exactly the non-empty rows of `limits`, under the battery names. */
  ghost predicate NamesRows(grouped: map<string, Limits>, limits: map<nat, Limits>) {
    && (forall b | b in grouped :: exists i | i in limits && limits[i] != map[] :: b == ScopeName(i))
    && (forall i | i in limits && limits[i] != map[] :: ScopeName(i) in grouped && grouped[ScopeName(i)] == limits[i])
  }

  lemma GroupsOfEncoding(form: StepB, limits: map<nat, Limits>)
    requires Encodes(form, limits)
    ensures NamesRows(FieldGroups(form), limits)
  {
    var split, number, key, embed, name := SplitKey, IntOf, SlotFieldKey, Embed, ScopeName;
    SplitInjective();
    forall i: nat, f ensures split(key(i, f)) == Some((name(i), f)) {
      FieldKeySplits(i, f);
    }
    forall i: nat, j: nat | name(i) == name(j) ensures i == j {
      ScopeNameInjective(i, j);
    }
    forall v ensures number(embed(v)) == Some(v) {
      EmbedIsRead(v);
    }
    DecodeRebuilds(form, limits, key, embed, name, split, number);
    GroupIsGroup(Decoded(form));
    RowsRebuilt(Decoded(form), FieldGroups(form), limits, name);
  }

  lemma OrderRows(grouped: map<string, Limits>, limits: map<nat, Limits>)
    requires NamesRows(grouped, limits)
    ensures NamedAndOrdered(AllOrdered(grouped), limits)
  {
  }

  /** Encoding and parsing gives the same limits back; only batteries without any field vanish. */
  lemma FormKeyRoundTrip(form: StepB, limits: map<nat, Limits>)
    requires Encodes(form, limits)
    ensures NamedAndOrdered(ParsedLimits(form), limits)
  {
    GroupsOfEncoding(form, limits);
    OrderRows(FieldGroups(form), limits);
  }

  function OrderedByIndex(limits: map<nat, Limits>): map<nat, Limits> {
    map i | i in limits :: Ordered(limits[i])
  }

  lemma NamedAndOrderedUnique(parsed: map<string, Limits>, other: map<string, Limits>, limits: map<nat, Limits>)
    requires NamedAndOrdered(parsed, limits) && NamedAndOrdered(other, limits)
    ensures parsed == other
  {
  }

  lemma OrderedTwice(limits: Limits)
    ensures Ordered(Ordered(limits)) == Ordered(limits)
    ensures Ordered(limits) == map[] <==> limits == map[]
  {
    assert Ordered(limits).Keys == limits.Keys;
  }

  /** Re-encoding the parsed pairs and parsing again changes nothing. */
  lemma ReparseIsStable(form: StepB, again: StepB, limits: map<nat, Limits>)
    requires Encodes(form, limits) && Encodes(again, OrderedByIndex(limits))
    ensures ParsedLimits(again) == ParsedLimits(form)
  {
    var ordered := OrderedByIndex(limits);
    FormKeyRoundTrip(form, limits);
    FormKeyRoundTrip(again, ordered);
    forall i | i in limits ensures Ordered(ordered[i]) == Ordered(limits[i]) && (ordered[i] == map[] <==> limits[i] == map[]) {
      OrderedTwice(limits[i]);
    }
    assert NamedAndOrdered(ParsedLimits(again), limits);
    NamedAndOrderedUnique(ParsedLimits(again), ParsedLimits(form), limits);
  }

  /** A number is cut toward zero to a whole one. */
  lemma TruncateExact(n: real)
    ensures n >= 0.0 ==> 0 <= Truncate(n) && Truncate(n) as real <= n < Truncate(n) as real + 1.0
    ensures n <= 0.0 ==> Truncate(n) <= 0 && Truncate(n) as real - 1.0 < n <= Truncate(n) as real
    ensures Truncate(-n) == -Truncate(n)
    ensures IntOf(Number(n)) == Some(Truncate(n))
  {
  }

  /** A key that names no field of a battery, or a value that is no number, changes nothing. */
  lemma OtherEntriesIgnored(form: StepB, key: string, value: FormValue)
    requires key !in form && (SplitKey(key) == None || !value.Number?)
    ensures ParsedLimits(form[key := value]) == ParsedLimits(form)
  {
    SplitInjective();
    DecodeIgnores(form, form[key := value], key, SplitKey, IntOf);
  }

  /** Ordering swaps an inverted pair and leaves everything else alone. */
  lemma OrderedExact(limits: Limits)
    ensures SOC_MIN in limits && SOC_MAX in limits ==>
              && Ordered(limits)[SOC_MIN] == (if limits[SOC_MIN] <= limits[SOC_MAX] then limits[SOC_MIN] else limits[SOC_MAX])
              && Ordered(limits)[SOC_MAX] == (if limits[SOC_MIN] <= limits[SOC_MAX] then limits[SOC_MAX] else limits[SOC_MIN])
    ensures SOC_MIN !in limits || SOC_MAX !in limits ==> Ordered(limits) == limits
  {
    assert SOC_MIN[5] != SOC_MAX[5];
  }
}
