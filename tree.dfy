/** Parsed configuration and template documents: the values a JSON or YAML
    loader produces, with their runtime type tags and key lookup. */
module Tree {
  import opened Wrappers

  /** A parsed document. A mapping keeps its keys in insertion order, which is
      the order the validator walks them in; a list is an opaque leaf. */
  datatype Value =
    | Null
    | Bool(b: bool)
    | Int(i: int)
    | Float(r: real)
    | Text(s: string)
    | Seq(items: seq<Value>)
    | Map(entries: seq<(string, Value)>)

  /** The runtime type of a value, as `type(v)` would report it: `bool` and
      `int` are different types, and so are `int` and `float`. */
  datatype Tag = NullTag | BoolTag | IntTag | FloatTag | TextTag | SeqTag | MapTag

  function TagOf(v: Value): (t: Tag)
    ensures t == NullTag <==> v.Null?
    ensures t == BoolTag <==> v.Bool?
    ensures t == IntTag <==> v.Int?
    ensures t == FloatTag <==> v.Float?
    ensures t == TextTag <==> v.Text?
    ensures t == SeqTag <==> v.Seq?
    ensures t == MapTag <==> v.Map?
  {
    match v
    case Null => NullTag
    case Bool(_) => BoolTag
    case Int(_) => IntTag
    case Float(_) => FloatTag
    case Text(_) => TextTag
    case Seq(_) => SeqTag
    case Map(_) => MapTag
  }

  /** The keys of a mapping, in its own order. */
  function Keys(entries: seq<(string, Value)>): (ks: seq<string>)
    ensures |ks| == |entries|
    ensures forall i :: 0 <= i < |entries| ==> ks[i] == entries[i].0
  {
    seq(|entries|, i requires 0 <= i < |entries| => entries[i].0)
  }

  /** `config[key]`, or None when the key is absent. */
  function Lookup(entries: seq<(string, Value)>, key: string): Option<Value>
  {
    if entries == [] then None
    else if entries[0].0 == key then Some(entries[0].1)
    else Lookup(entries[1..], key)
  }

  /** Lookup finds nothing exactly when the key is absent (`key not in
      config`), and otherwise finds a value stored under that key. */
  lemma {:induction false} LookupFindsKey(entries: seq<(string, Value)>, key: string)
    ensures Lookup(entries, key).None? <==> key !in Keys(entries)
    ensures Lookup(entries, key).Some? ==> (key, Lookup(entries, key).value) in entries
  {
    if entries != [] && entries[0].0 != key {
      assert Keys(entries) == [entries[0].0] + Keys(entries[1..]);
      LookupFindsKey(entries[1..], key);
    }
  }

  /** A mapping holds each key at most once. */
  predicate UniqueKeys(entries: seq<(string, Value)>)
  {
    forall i, j :: 0 <= i < j < |entries| ==> entries[i].0 != entries[j].0
  }

  /** Every mapping in the tree holds each key at most once, as every parsed
      dictionary does. Lists are leaves and are not looked into. */
  predicate WellFormed(v: Value)
  {
    match v
    case Map(entries) =>
      UniqueKeys(entries) &&
      forall i :: 0 <= i < |entries| ==> WellFormed(entries[i].1)
    case _ => true
  }

  /** The two trees agree on everything the validator looks at: the type tag of
      every value and, for mappings, the keys in order. Leaf values may differ. */
  predicate SameShape(a: Value, b: Value)
  {
    TagOf(a) == TagOf(b) &&
    (a.Map? ==>
      |a.entries| == |b.entries| &&
      forall i :: 0 <= i < |a.entries| ==>
        a.entries[i].0 == b.entries[i].0 && SameShape(a.entries[i].1, b.entries[i].1))
  }

  /** In a mapping without duplicate keys, looking a key up finds the entry
      that holds it. */
  lemma {:induction false} LookupUnique(entries: seq<(string, Value)>, i: nat)
    requires UniqueKeys(entries)
    requires i < |entries|
    ensures Lookup(entries, entries[i].0) == Some(entries[i].1)
  {
    if i > 0 {
      assert entries[0].0 != entries[i].0;
      assert entries[1..][i - 1] == entries[i];
      LookupUnique(entries[1..], i - 1);
    }
  }

  /** Looking the same key up in two mappings of the same shape gives values of
      the same shape, or nothing in both. */
  lemma {:induction false} LookupSameShape(e1: seq<(string, Value)>, e2: seq<(string, Value)>, key: string)
    requires |e1| == |e2|
    requires forall i :: 0 <= i < |e1| ==> e1[i].0 == e2[i].0 && SameShape(e1[i].1, e2[i].1)
    ensures Lookup(e1, key).None? <==> Lookup(e2, key).None?
    ensures Lookup(e1, key).Some? ==> SameShape(Lookup(e1, key).value, Lookup(e2, key).value)
  {
    if e1 != [] && e1[0].0 != key {
      LookupSameShape(e1[1..], e2[1..], key);
    }
  }
}
