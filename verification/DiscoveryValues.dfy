/**
 Observed values and their canonical form: `canonical_value` and `scope_of` of
 apps/api/secp_api/discovery_fact_commitment.py.  Values are JSON with string keys; a mapping keeps the
 order its keys were inserted in, which is what the canonical form must forget.
 */
module DiscoveryValues {
  import opened Wrappers
  import opened Ordering

  datatype Value =
    | Null
    | Bool(b: bool)
    | Int(n: int)
    | Float(x: real)
    | Text(s: string)
    | List(items: Items)
    | Tuple(items: Items)
    | Dict(entries: Entries)

  datatype Items = End | Item(first: Value, rest: Items)

  /** A Python mapping, in insertion order. */
  datatype Entries = Empty | Entry(key: string, value: Value, others: Entries)

  function Keys(es: Entries): set<string> {
    if es.Empty? then {} else {es.key} + Keys(es.others)
  }

  function Lookup(es: Entries, k: string): (r: Option<Value>)
    ensures r.Some? <==> k in Keys(es)
  {
    if es.Empty? then None
    else if es.key == k then Some(es.value)
    else Lookup(es.others, k)
  }

  /** Python keeps the keys of a mapping distinct, at every level. */
  predicate WellKeyed(v: Value) {
    match v
    case List(items) => ItemsWellKeyed(items)
    case Tuple(items) => ItemsWellKeyed(items)
    case Dict(es) => EntriesWellKeyed(es)
    case _ => true
  }

  predicate ItemsWellKeyed(items: Items) {
    items.Item? ==> WellKeyed(items.first) && ItemsWellKeyed(items.rest)
  }

  predicate EntriesWellKeyed(es: Entries) {
    es.Entry? ==> es.key !in Keys(es.others) && WellKeyed(es.value) && EntriesWellKeyed(es.others)
  }

  // ------------------------------------------------------------------ the canonical form

  function Canonical(v: Value): Value {
    match v
    case List(items) => List(CanonicalItems(items))
    case Tuple(items) => List(CanonicalItems(items))
    case Dict(es) => Dict(CanonicalEntries(es))
    case _ => v
  }

  function CanonicalItems(items: Items): Items {
    if items.End? then End else Item(Canonical(items.first), CanonicalItems(items.rest))
  }

  function CanonicalEntries(es: Entries): Entries {
    if es.Empty? then Empty else Placed(es.key, Canonical(es.value), CanonicalEntries(es.others))
  }

  /** An entry put in front of the first key that is not smaller. */
  function Placed(k: string, v: Value, es: Entries): (r: Entries)
    ensures Keys(r) == {k} + Keys(es)
  {
    if es.Empty? || Le(k, es.key) then Entry(k, v, es)
    else Entry(es.key, es.value, Placed(k, v, es.others))
  }

  // ------------------------------------------------------------------ what a value means

  /** A value without the order of its mappings; lists and tuples are both sequences. */
  datatype Meaning = Scalar(v: Value) | Sequence(ms: seq<Meaning>) | Mapping(m: map<string, Meaning>)

  function MeaningOf(v: Value): Meaning {
    match v
    case List(items) => Sequence(ItemsMeaning(items))
    case Tuple(items) => Sequence(ItemsMeaning(items))
    case Dict(es) => Mapping(EntriesMeaning(es))
    case _ => Scalar(v)
  }

  function ItemsMeaning(items: Items): seq<Meaning> {
    if items.End? then [] else [MeaningOf(items.first)] + ItemsMeaning(items.rest)
  }

  function EntriesMeaning(es: Entries): (r: map<string, Meaning>)
    ensures r.Keys == Keys(es)
  {
    if es.Empty? then map[] else EntriesMeaning(es.others)[es.key := MeaningOf(es.value)]
  }

  lemma UpdatesCommute(m: map<string, Meaning>, j: string, k: string, a: Meaning, b: Meaning)
    requires j != k
    ensures m[j := a][k := b] == m[k := b][j := a]
  {
  }

  lemma {:induction false} PlacedMeans(k: string, v: Value, es: Entries)
    requires k !in Keys(es)
    ensures EntriesMeaning(Placed(k, v, es)) == EntriesMeaning(es)[k := MeaningOf(v)]
  {
    if es.Entry? && !Le(k, es.key) {
      PlacedMeans(k, v, es.others);
      UpdatesCommute(EntriesMeaning(es.others), es.key, k, MeaningOf(es.value), MeaningOf(v));
    }
  }

  lemma {:induction false} PlacedWellKeyed(k: string, v: Value, es: Entries)
    requires k !in Keys(es) && EntriesWellKeyed(es) && WellKeyed(v)
    ensures EntriesWellKeyed(Placed(k, v, es))
  {
    if es.Entry? && !Le(k, es.key) {
      PlacedWellKeyed(k, v, es.others);
    }
  }

  /** Canonicalising loses nothing but order. */
  lemma {:induction false} CanonicalKeepsMeaning(v: Value)
    requires WellKeyed(v)
    ensures MeaningOf(Canonical(v)) == MeaningOf(v) && WellKeyed(Canonical(v))
  {
    match v
    case List(items) => ItemsKeepMeaning(items);
    case Tuple(items) => ItemsKeepMeaning(items);
    case Dict(es) => EntriesKeepMeaning(es);
    case _ =>
  }

  lemma {:induction false} ItemsKeepMeaning(items: Items)
    requires ItemsWellKeyed(items)
    ensures ItemsMeaning(CanonicalItems(items)) == ItemsMeaning(items) && ItemsWellKeyed(CanonicalItems(items))
  {
    if items.Item? {
      CanonicalKeepsMeaning(items.first);
      ItemsKeepMeaning(items.rest);
    }
  }

  lemma {:induction false} CanonicalKeys(es: Entries)
    ensures Keys(CanonicalEntries(es)) == Keys(es)
  {
    if es.Entry? { CanonicalKeys(es.others); }
  }

  lemma {:induction false} EntriesKeepMeaning(es: Entries)
    requires EntriesWellKeyed(es)
    ensures EntriesMeaning(CanonicalEntries(es)) == EntriesMeaning(es) && EntriesWellKeyed(CanonicalEntries(es))
  {
    if es.Entry? {
      CanonicalKeepsMeaning(es.value);
      EntriesKeepMeaning(es.others);
      CanonicalKeys(es.others);
      PlacedMeans(es.key, Canonical(es.value), CanonicalEntries(es.others));
      PlacedWellKeyed(es.key, Canonical(es.value), CanonicalEntries(es.others));
    }
  }

  // ------------------------------------------------------------------ one meaning, one form

  /** Every key comes before all the keys after it. */
  ghost predicate KeySorted(es: Entries) {
    es.Entry? ==> (forall k :: k in Keys(es.others) ==> Le(es.key, k)) && KeySorted(es.others)
  }

  lemma {:induction false} PlacedSorted(k: string, v: Value, es: Entries)
    requires KeySorted(es)
    ensures KeySorted(Placed(k, v, es))
  {
    LeTotal(k, k);
    if es.Entry? {
      LeTotal(k, es.key);
      if Le(k, es.key) {
        forall x | x in Keys(es) ensures Le(k, x) {
          if x != es.key { LeTransitive(k, es.key, x); }
        }
      } else {
        PlacedSorted(k, v, es.others);
      }
    }
  }

  lemma {:induction false} CanonicalIsSorted(es: Entries)
    ensures KeySorted(CanonicalEntries(es))
  {
    if es.Entry? {
      CanonicalIsSorted(es.others);
      PlacedSorted(es.key, Canonical(es.value), CanonicalEntries(es.others));
    }
  }

  /** Two sorted mappings with the same meaning have the same first key. */
  lemma SameFirstKey(a: Entries, b: Entries)
    requires KeySorted(a) && KeySorted(b) && Keys(a) == Keys(b) && a.Entry? && b.Entry?
    ensures a.key == b.key
  {
    if a.key != b.key {
      assert a.key in Keys(b) && b.key in Keys(a);
      LeAntisymmetric(a.key, b.key);
    }
  }

  /** Keys in order at every level, lists only. */
  ghost predicate Ordered(v: Value) {
    match v
    case List(items) => ItemsOrdered(items)
    case Tuple(_) => false
    case Dict(es) => KeySorted(es) && EntriesOrdered(es)
    case _ => true
  }

  ghost predicate ItemsOrdered(items: Items) {
    items.Item? ==> Ordered(items.first) && ItemsOrdered(items.rest)
  }

  ghost predicate EntriesOrdered(es: Entries) {
    es.Entry? ==> Ordered(es.value) && EntriesOrdered(es.others)
  }

  lemma {:induction false} PlacedOrdered(k: string, v: Value, es: Entries)
    requires Ordered(v) && EntriesOrdered(es)
    ensures EntriesOrdered(Placed(k, v, es))
  {
    if es.Entry? && !Le(k, es.key) { PlacedOrdered(k, v, es.others); }
  }

  lemma {:induction false} CanonicalIsOrdered(v: Value)
    ensures Ordered(Canonical(v))
  {
    match v
    case List(items) => ItemsAreOrdered(items);
    case Tuple(items) => ItemsAreOrdered(items);
    case Dict(es) => EntriesAreOrdered(es); CanonicalIsSorted(es);
    case _ =>
  }

  lemma {:induction false} ItemsAreOrdered(items: Items)
    ensures ItemsOrdered(CanonicalItems(items))
  {
    if items.Item? { CanonicalIsOrdered(items.first); ItemsAreOrdered(items.rest); }
  }

  lemma {:induction false} EntriesAreOrdered(es: Entries)
    ensures EntriesOrdered(CanonicalEntries(es))
  {
    if es.Entry? {
      CanonicalIsOrdered(es.value);
      EntriesAreOrdered(es.others);
      PlacedOrdered(es.key, Canonical(es.value), CanonicalEntries(es.others));
    }
  }

  /** An ordered value is the only ordered value with its meaning. */
  lemma {:induction false} OrderedIsUnique(v: Value, w: Value)
    requires Ordered(v) && Ordered(w) && WellKeyed(v) && WellKeyed(w) && MeaningOf(v) == MeaningOf(w)
    ensures v == w
  {
    match v
    case List(items) => OrderedItemsAreUnique(items, w.items);
    case Dict(es) => OrderedEntriesAreUnique(es, w.entries);
    case _ =>
  }

  lemma {:induction false} OrderedItemsAreUnique(a: Items, b: Items)
    requires ItemsOrdered(a) && ItemsOrdered(b) && ItemsWellKeyed(a) && ItemsWellKeyed(b)
    requires ItemsMeaning(a) == ItemsMeaning(b)
    ensures a == b
  {
    if a.Item? {
      var s, t := ItemsMeaning(a), ItemsMeaning(b);
      assert s[0] == t[0] && s[1..] == t[1..];
      OrderedIsUnique(a.first, b.first);
      OrderedItemsAreUnique(a.rest, b.rest);
    }
  }

  lemma {:induction false} OrderedEntriesAreUnique(a: Entries, b: Entries)
    requires KeySorted(a) && KeySorted(b) && EntriesOrdered(a) && EntriesOrdered(b)
    requires EntriesWellKeyed(a) && EntriesWellKeyed(b)
    requires EntriesMeaning(a) == EntriesMeaning(b)
    ensures a == b
  {
    assert Keys(a) == EntriesMeaning(a).Keys == Keys(b);
    if a.Entry? {
      assert a.key in Keys(b);
      SameFirstKey(a, b);
      var s, t := EntriesMeaning(a), EntriesMeaning(b);
      assert s[a.key] == t[a.key];
      OrderedIsUnique(a.value, b.value);
      assert EntriesMeaning(a.others) == s - {a.key};
      assert EntriesMeaning(b.others) == t - {a.key};
      OrderedEntriesAreUnique(a.others, b.others);
    }
  }

  /** Equal canonical forms exactly when the values differ only in the order of mappings, at any level. */
  lemma CanonicalIff(v: Value, w: Value)
    requires WellKeyed(v) && WellKeyed(w)
    ensures Canonical(v) == Canonical(w) <==> MeaningOf(v) == MeaningOf(w)
  {
    CanonicalKeepsMeaning(v);
    CanonicalKeepsMeaning(w);
    CanonicalIsOrdered(v);
    CanonicalIsOrdered(w);
    if MeaningOf(v) == MeaningOf(w) {
      OrderedIsUnique(Canonical(v), Canonical(w));
    }
  }

  lemma CanonicalIdempotent(v: Value)
    requires WellKeyed(v)
    ensures Canonical(Canonical(v)) == Canonical(v)
  {
    CanonicalKeepsMeaning(v);
    CanonicalIff(Canonical(v), v);
  }

  // ------------------------------------------------------------------ scope

  /** `scope_of` */
  function ScopeOf(v: Value): seq<string> {
    if v.Dict? then SortedSet(Keys(v.entries)) else []
  }

  /** The scope names exactly the keys the canonical value carries. */
  lemma ScopeIsKeys(v: Value)
    ensures forall k :: k in ScopeOf(v) <==> v.Dict? && k in Keys(Canonical(v).entries)
  {
    if v.Dict? { CanonicalKeys(v.entries); }
  }
}
