/**
 Saving a configuration and loading it again (internal/config/config.go, internal/config/merge.go).

 `Decode` reads a document along the types the configuration is declared with, as `Load` does: a key a
 struct does not declare is ignored, a key repeated in a mapping is an error. The saved document is the
 merge of the old one with the encoded configuration.
 */
module ConfigSave {
  import opened Wrappers
  import opened YamlTree
  import opened YamlMergeProperties

  /** The type a value is read at. Structs are named, since a struct may hold one of its own kind. */
  datatype Schema = Leaf | Items(entry: Schema) | Table(entry: Schema) | Struct(name: string) | Any

  /** For each struct, its fields by key. */
  type Types = map<string, map<string, Schema>>

  datatype Data = Null | Text(tag: string, text: string) | List(items: seq<Data>) | Rows(rows: map<string, Data>)

  /** The type read under a key; none when a struct declares no such field, or keys are out of place. */
  function Under(types: Types, sch: Schema, key: string): Option<Schema> {
    match sch
    case Struct(name) => if name in types && key in types[name] then Some(types[name][key]) else None
    case Table(entry) => Some(entry)
    case Any => Some(Any)
    case _ => None
  }

  /** The type of a sequence's items. */
  function EntryOf(sch: Schema): Option<Schema> {
    match sch
    case Items(entry) => Some(entry)
    case Any => Some(Any)
    case _ => None
  }

  /** The node under a key of a mapping. */
  function Child(t: Tree, key: string): (child: Tree)
    requires Lookup(t.content, key).Some?
    ensures child in t.content && Lookup(t.content, key) == Some(child)
  {
    FindKeyFound(t.content, key, 0);
    t.content[FindKey(t.content, key) + 1]
  }

  /** The keys a decoder takes notice of. */
  function KeysRead(types: Types, t: Tree, sch: Schema): set<string> {
    set q | 0 <= q < |t.content| - 1 && q % 2 == 0 && Under(types, sch, t.content[q].value).Some? :: t.content[q].value
  }

  lemma KeyRead(types: Types, t: Tree, sch: Schema, key: string)
    ensures key in KeysRead(types, t, sch) <==> Lookup(t.content, key).Some? && Under(types, sch, key).Some?
  {
    FindKeyFound(t.content, key, 0);
    if Lookup(t.content, key).Some? && Under(types, sch, key).Some? {
      var q := FindKey(t.content, key);
      assert t.content[q].value in KeysRead(types, t, sch);
    }
  }

  predicate TakesKeys(sch: Schema) {
    sch.Struct? || sch.Table? || sch.Any?
  }

  /** What a document decodes to; `None` when the decoder reports an error. */
  function Decode(types: Types, t: Tree, sch: Schema): Option<Data>
    decreases t, 3
  {
    match t.kind
    case ScalarNode =>
      if t.tag == "!!null" then Some(Null)
      else if sch.Leaf? || sch.Any? then Some(Text(t.tag, t.value))
      else None
    case SequenceNode => if ItemsDecode(types, t, sch) then Some(List(ItemsOf(types, t, sch))) else None
    case MappingNode =>
      if DistinctKeys(t.content) && KeysDecode(types, t, sch) then Some(Rows(RowsOf(types, t, sch))) else None
    case AliasNode => None
  }

  predicate ItemsDecode(types: Types, t: Tree, sch: Schema)
    decreases t, 1
  {
    EntryOf(sch).Some? && forall k | 0 <= k < |t.content| :: DecodeItem(types, t, sch, k).Some?
  }

  function ItemsOf(types: Types, t: Tree, sch: Schema): (items: seq<Data>)
    requires ItemsDecode(types, t, sch)
    ensures |items| == |t.content|
    ensures forall k | 0 <= k < |items| :: DecodeItem(types, t, sch, k) == Some(items[k])
    decreases t, 2
  {
    seq(|t.content|, k requires 0 <= k < |t.content| && DecodeItem(types, t, sch, k).Some? =>
          DecodeItem(types, t, sch, k).value)
  }

  predicate KeysDecode(types: Types, t: Tree, sch: Schema)
    decreases t, 1
  {
    TakesKeys(sch) && forall key | key in KeysRead(types, t, sch) :: DecodeKey(types, t, sch, key).Some?
  }

  function RowsOf(types: Types, t: Tree, sch: Schema): (rows: map<string, Data>)
    requires KeysDecode(types, t, sch)
    ensures rows.Keys == KeysRead(types, t, sch)
    ensures forall key | key in rows :: DecodeKey(types, t, sch, key) == Some(rows[key])
    decreases t, 2
  {
    map key | key in KeysRead(types, t, sch) :: DecodeKey(types, t, sch, key).value
  }

  function DecodeItem(types: Types, t: Tree, sch: Schema, k: nat): Option<Data>
    requires EntryOf(sch).Some? && k < |t.content|
    decreases t, 0
  {
    Decode(types, t.content[k], EntryOf(sch).value)
  }

  function DecodeKey(types: Types, t: Tree, sch: Schema, key: string): Option<Data>
    requires key in KeysRead(types, t, sch)
    decreases t, 0
  {
    KeyRead(types, t, sch, key);
    Decode(types, Child(t, key), Under(types, sch, key).value)
  }

  // ---- What a document decodes to ----

  /** A scalar decodes to its tag and text where one is expected, and null to null anywhere. */
  lemma ScalarsDecode(types: Types, t: Tree, sch: Schema)
    requires t.kind == ScalarNode
    ensures t.tag == "!!null" ==> Decode(types, t, sch) == Some(Null)
    ensures t.tag != "!!null" && (sch.Leaf? || sch.Any?) ==> Decode(types, t, sch) == Some(Text(t.tag, t.value))
    ensures t.tag != "!!null" && !sch.Leaf? && !sch.Any? ==> Decode(types, t, sch) == None
  {
  }

  /** A sequence decodes, where items are expected, to the list of what its items decode to. */
  lemma SequencesDecode(types: Types, t: Tree, sch: Schema, entry: Schema)
    requires t.kind == SequenceNode && (sch == Items(entry) || (sch == Any && entry == Any))
    ensures Decode(types, t, sch).Some? <==> forall k | 0 <= k < |t.content| :: Decode(types, t.content[k], entry).Some?
    ensures Decode(types, t, sch).Some? ==>
              && Decode(types, t, sch).value.List? && |Decode(types, t, sch).value.items| == |t.content|
              && forall k | 0 <= k < |t.content| ::
                   Decode(types, t.content[k], entry) == Some(Decode(types, t, sch).value.items[k])
  {
    forall k | 0 <= k < |t.content|
      ensures DecodeItem(types, t, sch, k) == Decode(types, t.content[k], entry)
    {
    }
    assert Decode(types, t, sch).Some? <==> ItemsDecode(types, t, sch);
    if forall k | 0 <= k < |t.content| :: Decode(types, t.content[k], entry).Some? {
      forall k | 0 <= k < |t.content|
        ensures DecodeItem(types, t, sch, k).Some?
      {
        assert Decode(types, t.content[k], entry).Some?;
      }
    } else {
      var k :| 0 <= k < |t.content| && !Decode(types, t.content[k], entry).Some?;
      assert !DecodeItem(types, t, sch, k).Some?;
    }
  }

  /** A mapping whose keys differ decodes, where keys are expected, to what is read under each of them. */
  lemma MappingsDecode(types: Types, t: Tree, sch: Schema)
    requires t.kind == MappingNode && Decode(types, t, sch).Some?
    ensures sch.Struct? || sch.Table? || sch.Any?
    ensures Decode(types, t, sch).value.Rows?
    ensures forall key :: key in Decode(types, t, sch).value.rows <==>
                            Lookup(t.content, key).Some? && Under(types, sch, key).Some?
    ensures forall key | key in Decode(types, t, sch).value.rows ::
              Decode(types, Lookup(t.content, key).value, Under(types, sch, key).value)
              == Some(Decode(types, t, sch).value.rows[key])
  {
    var rows := Decode(types, t, sch).value.rows;
    forall key
      ensures key in rows <==> Lookup(t.content, key).Some? && Under(types, sch, key).Some?
    {
      KeyRead(types, t, sch, key);
    }
    forall key | key in rows
      ensures Decode(types, Lookup(t.content, key).value, Under(types, sch, key).value) == Some(rows[key])
    {
      assert DecodeKey(types, t, sch, key) == Some(rows[key]);
    }
  }

  // ---- The encoded configuration ----

  predicate IsNull(t: Tree) {
    t.kind == ScalarNode && t.tag == "!!null"
  }

  /**
   `s` encodes a value of type `sch`: a struct with every field it declares and no other, in any
   order; null where a pointer is nil.
   */
  predicate Encodes(types: Types, s: Tree, sch: Schema)
    decreases s
  {
    match s.kind
    case ScalarNode => s.content == [] && (IsNull(s) || sch.Leaf? || sch.Any?)
    case SequenceNode =>
      EntryOf(sch).Some? && forall k | 0 <= k < |s.content| :: Encodes(types, s.content[k], EntryOf(sch).value)
    case MappingNode =>
      && TakesKeys(sch) && DistinctKeys(s.content)
      && (sch.Struct? ==> sch.name in types && forall key | key in types[sch.name] :: Lookup(s.content, key).Some?)
      && forall q | 0 <= q < |s.content| - 1 && q % 2 == 0 ::
           && s.content[q].kind == ScalarNode && s.content[q].content == []
           && Under(types, sch, s.content[q].value).Some?
           && Encodes(types, s.content[q + 1], Under(types, sch, s.content[q].value).value)
    case AliasNode => false
  }

  lemma {:induction false} EncodedIsWellKeyed(types: Types, s: Tree, sch: Schema)
    requires Encodes(types, s, sch)
    ensures WellKeyed(s)
    decreases s
  {
    forall k | 0 <= k < |s.content| ensures WellKeyed(s.content[k]) {
      if s.kind == SequenceNode {
        EncodedIsWellKeyed(types, s.content[k], EntryOf(sch).value);
      } else if k % 2 == 1 {
        EncodedIsWellKeyed(types, s.content[k], Under(types, sch, s.content[k - 1].value).value);
      } else {
        assert s.content[k].content == [];
      }
    }
  }

  lemma EncodedChild(types: Types, s: Tree, sch: Schema, q: nat)
    requires Encodes(types, s, sch) && s.kind == MappingNode && q < |s.content| - 1 && q % 2 == 0
    ensures var key := s.content[q].value;
            && Lookup(s.content, key) == Some(s.content[q + 1]) && key in KeysRead(types, s, sch)
            && Under(types, sch, key).Some? && Encodes(types, s.content[q + 1], Under(types, sch, key).value)
  {
    LookupAt(s.content, q);
    KeyRead(types, s, sch, s.content[q].value);
  }

  /** An encoded configuration decodes. */
  lemma {:induction false} EncodedDecodes(types: Types, s: Tree, sch: Schema)
    requires Encodes(types, s, sch)
    ensures Decode(types, s, sch).Some?
    decreases s
  {
    if s.kind == SequenceNode {
      forall k | 0 <= k < |s.content| ensures DecodeItem(types, s, sch, k).Some? {
        EncodedDecodes(types, s.content[k], EntryOf(sch).value);
      }
      assert ItemsDecode(types, s, sch);
    } else if s.kind == MappingNode {
      forall key | key in KeysRead(types, s, sch) ensures DecodeKey(types, s, sch, key).Some? {
        var q :| 0 <= q < |s.content| - 1 && q % 2 == 0 && s.content[q].value == key;
        EncodedChild(types, s, sch, q);
        EncodedDecodes(types, s.content[q + 1], Under(types, sch, key).value);
      }
      assert KeysDecode(types, s, sch);
    }
  }

  // ---- What decides that two documents decode alike ----

  predicate SameKeys(types: Types, t: Tree, s: Tree, sch: Schema) {
    && KeysRead(types, t, sch) == KeysRead(types, s, sch)
    && forall key | key in KeysRead(types, s, sch) :: DecodeKey(types, t, sch, key) == DecodeKey(types, s, sch, key)
  }

  predicate SameItems(types: Types, t: Tree, s: Tree, sch: Schema) {
    && EntryOf(sch).Some? && |t.content| == |s.content|
    && forall k | 0 <= k < |s.content| :: DecodeItem(types, t, sch, k) == DecodeItem(types, s, sch, k)
  }

  lemma RowsEqual(types: Types, t: Tree, s: Tree, sch: Schema)
    requires KeysDecode(types, t, sch) && KeysDecode(types, s, sch)
    ensures RowsOf(types, t, sch) == RowsOf(types, s, sch) <==> SameKeys(types, t, s, sch)
  {
    var a, b := RowsOf(types, t, sch), RowsOf(types, s, sch);
    if a == b {
      assert a.Keys == b.Keys;
      forall key | key in b.Keys ensures DecodeKey(types, t, sch, key) == DecodeKey(types, s, sch, key) {
        assert a[key] == b[key];
      }
    }
    if SameKeys(types, t, s, sch) {
      forall key | key in b.Keys ensures key in a && a[key] == b[key] {
        assert DecodeKey(types, t, sch, key) == DecodeKey(types, s, sch, key);
      }
      assert a.Keys == b.Keys;
    }
  }

  lemma SameRows(types: Types, t: Tree, s: Tree, sch: Schema)
    requires t.kind == s.kind == MappingNode && Decode(types, s, sch).Some?
    ensures Decode(types, t, sch) == Decode(types, s, sch)
            <==> DistinctKeys(t.content) && SameKeys(types, t, s, sch)
  {
    if KeysDecode(types, t, sch) {
      RowsEqual(types, t, s, sch);
    }
  }

  lemma ItemsEqual(types: Types, t: Tree, s: Tree, sch: Schema)
    requires ItemsDecode(types, t, sch) && ItemsDecode(types, s, sch)
    ensures ItemsOf(types, t, sch) == ItemsOf(types, s, sch) <==> SameItems(types, t, s, sch)
  {
    var a, b := ItemsOf(types, t, sch), ItemsOf(types, s, sch);
    if SameItems(types, t, s, sch) {
      assert forall k | 0 <= k < |b| :: Some(a[k]) == Some(b[k]);
    }
  }

  lemma SameItemsDecode(types: Types, t: Tree, s: Tree, sch: Schema)
    requires ItemsDecode(types, s, sch) && SameItems(types, t, s, sch)
    ensures ItemsDecode(types, t, sch)
  {
    forall k | 0 <= k < |t.content| ensures DecodeItem(types, t, sch, k).Some? {
      assert DecodeItem(types, t, sch, k) == DecodeItem(types, s, sch, k);
    }
  }

  lemma SameList(types: Types, t: Tree, s: Tree, sch: Schema)
    requires t.kind == s.kind == SequenceNode && Decode(types, s, sch).Some?
    ensures Decode(types, t, sch) == Decode(types, s, sch) <==> SameItems(types, t, s, sch)
  {
    if SameItems(types, t, s, sch) {
      SameItemsDecode(types, t, s, sch);
    }
    if ItemsDecode(types, t, sch) {
      ItemsEqual(types, t, s, sch);
    }
  }

  lemma SameContentSameKeys(types: Types, t: Tree, s: Tree, sch: Schema)
    requires t.content == s.content
    ensures SameKeys(types, t, s, sch)
  {
    forall key | key in KeysRead(types, s, sch)
      ensures DecodeKey(types, t, sch, key) == DecodeKey(types, s, sch, key)
    {
      KeyRead(types, s, sch, key);
      assert Child(t, key) == Child(s, key);
    }
  }

  /** Comments do not count. */
  lemma ReplacedDecodes(types: Types, d: Tree, s: Tree, sch: Schema)
    requires Decode(types, s, sch).Some?
    ensures Decode(types, Replace(d, s), sch) == Decode(types, s, sch)
  {
    if s.kind == MappingNode {
      SameContentSameKeys(types, Replace(d, s), s, sch);
      SameRows(types, Replace(d, s), s, sch);
    } else if s.kind == SequenceNode {
      SameList(types, Replace(d, s), s, sch);
    }
  }

  // ---- When the saved document decodes to the configuration ----

  /**
   Merging `s` into `d` repeats no key and, where a map is merged into a map, leaves no key behind
   that the configuration has dropped.
   */
  predicate Kept(types: Types, d: Tree, s: Tree, sch: Schema)
    decreases s, 2
  {
    if d.kind == MappingNode && s.kind == MappingNode then
      && DistinctKeys(d.content)
      && (sch.Struct? || KeysWithin(d.content, s.content))
      && KeptKeys(types, d, s, sch)
    else if d.kind == SequenceNode && s.kind == SequenceNode then
      forall k | 0 <= k < |s.content| :: KeptItem(types, d, s, sch, k)
    else true
  }

  /** Every key of the content `a` is a key of `b`. */
  predicate KeysWithin(a: seq<Tree>, b: seq<Tree>) {
    forall p | 0 <= p < |a| - 1 && p % 2 == 0 :: Lookup(b, a[p].value).Some?
  }

  predicate KeptKeys(types: Types, d: Tree, s: Tree, sch: Schema)
    decreases s, 1
  {
    forall q | 0 <= q < |s.content| - 1 && q % 2 == 0 :: KeptKey(types, d, s, sch, q)
  }

  predicate KeptKey(types: Types, d: Tree, s: Tree, sch: Schema, q: nat)
    requires q < |s.content| - 1
    decreases s, 0
  {
    var key := s.content[q].value;
    Lookup(d.content, key).Some? && Under(types, sch, key).Some?
    ==> Kept(types, Lookup(d.content, key).value, s.content[q + 1], Under(types, sch, key).value)
  }

  predicate KeptItem(types: Types, d: Tree, s: Tree, sch: Schema, k: nat)
    requires k < |s.content|
    decreases s, 0
  {
    var c := Claims(d.content, NoneUsed(|d.content|), s, 0);
    k < |c| && 0 <= c[k] < |d.content| && EntryOf(sch).Some?
    ==> Kept(types, d.content[c[k]], s.content[k], EntryOf(sch).value)
  }

  lemma MergeOneKeepsDistinct(dc: seq<Tree>, key: Tree, val: Tree)
    requires |dc| % 2 == 0
    ensures DistinctKeys(MergeOne(dc, key, val)) <==> DistinctKeys(dc)
  {
    FindKeyFound(dc, key.value, 0);
    var r := MergeOne(dc, key, val);
    assert |r| >= |dc| && forall p | 0 <= p < |dc| && p % 2 == 0 :: r[p] == dc[p];
  }

  /** A merge neither adds a repeated key nor removes one. */
  lemma {:induction false} MergeKeepsDistinct(dc: seq<Tree>, s: Tree, i: nat)
    requires |dc| % 2 == 0
    ensures DistinctKeys(MergePairs(dc, s, i)) <==> DistinctKeys(dc)
    decreases |s.content| - i
  {
    if i + 1 < |s.content| {
      MergeOneKeepsDistinct(dc, s.content[i], s.content[i + 1]);
      FindKeyFound(dc, s.content[i].value, 0);
      MergeKeepsDistinct(MergeOne(dc, s.content[i], s.content[i + 1]), s, i + 2);
    }
  }

  lemma KeysWithinMeans(a: seq<Tree>, b: seq<Tree>)
    ensures KeysWithin(a, b) <==> forall key :: Lookup(a, key).Some? ==> Lookup(b, key).Some?
  {
    forall key | Lookup(a, key).Some?
      ensures exists p :: 0 <= p < |a| - 1 && p % 2 == 0 && a[p].value == key
    {
      FindKeyFound(a, key, 0);
    }
    forall p | 0 <= p < |a| - 1 && p % 2 == 0 ensures Lookup(a, a[p].value).Some? {
      FindKeyFound(a, a[p].value, 0);
    }
  }

  /** The keys read from the merged mapping are the source's, unless a map had one more. */
  lemma MergedKeysRead(types: Types, d: Tree, s: Tree, sch: Schema)
    requires d.kind == s.kind == MappingNode && |d.content| % 2 == 0 && Encodes(types, s, sch)
    ensures KeysRead(types, MergeValue(d, s), sch) == KeysRead(types, s, sch)
            <==> sch.Struct? || KeysWithin(d.content, s.content)
  {
    var t := MergeValue(d, s);
    var a, b := KeysRead(types, t, sch), KeysRead(types, s, sch);
    KeysWithinMeans(d.content, s.content);
    forall key ensures key in a <==> key in b || (Lookup(d.content, key).Some? && Under(types, sch, key).Some?) {
      KeyRead(types, t, sch, key);
      KeyRead(types, s, sch, key);
      MergePairsLookup(d.content, s, 0, key);
    }
    forall key | Under(types, sch, key).Some? ensures key in b <==> sch.Struct? || Lookup(s.content, key).Some? {
      KeyRead(types, s, sch, key);
    }
    if a == b && !sch.Struct? {
      forall key | Lookup(d.content, key).Some? ensures Lookup(s.content, key).Some? {
        assert key in a;
      }
    }
  }

  /** What the merged mapping has under the source's key at `q`. */
  lemma MergedChild(types: Types, d: Tree, s: Tree, sch: Schema, q: nat)
    requires d.kind == s.kind == MappingNode && Paired(d) && Encodes(types, s, sch)
    requires q < |s.content| - 1 && q % 2 == 0
    ensures var key, val := s.content[q].value, s.content[q + 1];
            && (Lookup(d.content, key).Some? ==> Paired(Lookup(d.content, key).value))
            && Lookup(MergeValue(d, s).content, key)
            == match Lookup(d.content, key) case None => Some(val) case Some(current) => Some(MergeValue(current, val))
  {
    EncodedChild(types, s, sch, q);
    MergePairsLookup(d.content, s, 0, s.content[q].value);
    FindKeyFound(d.content, s.content[q].value, 0);
  }

  lemma {:induction false} MergedKeyReadsBack(types: Types, d: Tree, s: Tree, sch: Schema, q: nat)
    requires d.kind == s.kind == MappingNode && Paired(d) && Encodes(types, s, sch)
    requires q < |s.content| - 1 && q % 2 == 0
    ensures var key := s.content[q].value;
            && key in KeysRead(types, MergeValue(d, s), sch) && key in KeysRead(types, s, sch)
            && (DecodeKey(types, MergeValue(d, s), sch, key) == DecodeKey(types, s, sch, key)
                <==> KeptKey(types, d, s, sch, q))
    decreases s, 0
  {
    var key := s.content[q].value;
    EncodedChild(types, s, sch, q);
    MergedChild(types, d, s, sch, q);
    KeyRead(types, MergeValue(d, s), sch, key);
    if Lookup(d.content, key).Some? {
      MergedReadsBack(types, Lookup(d.content, key).value, s.content[q + 1], Under(types, sch, key).value);
    }
  }

  lemma {:induction false} KeysReadBack(types: Types, d: Tree, s: Tree, sch: Schema)
    requires d.kind == s.kind == MappingNode && Paired(d) && Encodes(types, s, sch)
    requires KeysRead(types, MergeValue(d, s), sch) == KeysRead(types, s, sch)
    ensures SameKeys(types, MergeValue(d, s), s, sch) <==> KeptKeys(types, d, s, sch)
    decreases s, 1
  {
    var t := MergeValue(d, s);
    if KeptKeys(types, d, s, sch) {
      forall key | key in KeysRead(types, s, sch)
        ensures DecodeKey(types, t, sch, key) == DecodeKey(types, s, sch, key)
      {
        var q :| 0 <= q < |s.content| - 1 && q % 2 == 0 && s.content[q].value == key;
        MergedKeyReadsBack(types, d, s, sch, q);
      }
    }
    if SameKeys(types, t, s, sch) {
      forall q | 0 <= q < |s.content| - 1 && q % 2 == 0 ensures KeptKey(types, d, s, sch, q) {
        MergedKeyReadsBack(types, d, s, sch, q);
      }
    }
  }

  lemma {:induction false} MappingReadsBack(types: Types, d: Tree, s: Tree, sch: Schema)
    requires d.kind == s.kind == MappingNode && Paired(d) && Encodes(types, s, sch)
    ensures Decode(types, MergeValue(d, s), sch) == Decode(types, s, sch) <==> Kept(types, d, s, sch)
    decreases s, 2
  {
    EncodedDecodes(types, s, sch);
    MergeKeepsDistinct(d.content, s, 0);
    MergedKeysRead(types, d, s, sch);
    SameRows(types, MergeValue(d, s), s, sch);
    if sch.Struct? || KeysWithin(d.content, s.content) {
      KeysReadBack(types, d, s, sch);
    }
  }

  lemma MergedItemAt(d: Tree, s: Tree, k: nat)
    requires d.kind == s.kind == SequenceNode && Paired(d) && k < |s.content|
    ensures var c, t := Claims(d.content, NoneUsed(|d.content|), s, 0), MergeValue(d, s);
            && |c| == |t.content| == |s.content| && -1 <= c[k] < |d.content|
            && (c[k] == -1 ==> t.content[k] == s.content[k])
            && (c[k] != -1 ==> Paired(d.content[c[k]]) && t.content[k] == MergeValue(d.content[c[k]], s.content[k]))
  {
    MergeItemsByClaims(d.content, NoneUsed(|d.content|), s, 0, k);
  }

  lemma {:induction false} MergedItemReadsBack(types: Types, d: Tree, t: Tree, s: Tree, sch: Schema, k: nat)
    requires d.kind == s.kind == SequenceNode && Paired(d) && Encodes(types, s, sch) && k < |s.content|
    requires t == MergeValue(d, s)
    ensures |t.content| == |s.content|
    ensures DecodeItem(types, t, sch, k) == DecodeItem(types, s, sch, k) <==> KeptItem(types, d, s, sch, k)
    decreases s, 1
  {
    MergedItemAt(d, s, k);
    var m := Claims(d.content, NoneUsed(|d.content|), s, 0)[k];
    if m != -1 {
      MergedReadsBack(types, d.content[m], s.content[k], EntryOf(sch).value);
    }
  }

  lemma {:induction false} SequenceReadsBack(types: Types, d: Tree, s: Tree, sch: Schema)
    requires d.kind == s.kind == SequenceNode && Paired(d) && Encodes(types, s, sch)
    ensures Decode(types, MergeValue(d, s), sch) == Decode(types, s, sch) <==> Kept(types, d, s, sch)
    decreases s, 2
  {
    EncodedDecodes(types, s, sch);
    MergeItemsLength(d.content, NoneUsed(|d.content|), s, 0);
    SameList(types, MergeValue(d, s), s, sch);
    forall k | 0 <= k < |s.content|
      ensures DecodeItem(types, MergeValue(d, s), sch, k) == DecodeItem(types, s, sch, k)
              <==> KeptItem(types, d, s, sch, k)
    {
      MergedItemReadsBack(types, d, MergeValue(d, s), s, sch, k);
    }
  }

  lemma {:induction false} MergedReadsBack(types: Types, d: Tree, s: Tree, sch: Schema)
    requires Paired(d) && Encodes(types, s, sch)
    ensures Decode(types, MergeValue(d, s), sch) == Decode(types, s, sch) <==> Kept(types, d, s, sch)
    decreases s, 3
  {
    if d.kind == MappingNode && s.kind == MappingNode {
      MappingReadsBack(types, d, s, sch);
    } else if d.kind == SequenceNode && s.kind == SequenceNode {
      SequenceReadsBack(types, d, s, sch);
    } else {
      EncodedDecodes(types, s, sch);
      ReplacedDecodes(types, d, s, sch);
    }
  }

  /** The document `Save` writes: the merge into the old document if that is a mapping, else the encoding. */
  function Saved(doc: Option<Tree>, s: Tree): Tree {
    if doc.Some? && doc.value.kind == MappingNode then MergeValue(doc.value, s) else s
  }

  /**
   Main result: a saved document loads as the configuration that was saved if and only if the old
   document repeated no key where the merge went and, in a map, held no key the configuration dropped.
   A key no struct declares stays in the document and does no harm.
   */
  lemma SavedReadsBack(types: Types, doc: Option<Tree>, s: Tree, sch: Schema)
    requires Encodes(types, s, sch) && (doc.Some? ==> Paired(doc.value))
    ensures Decode(types, s, sch).Some?
    ensures Decode(types, Saved(doc, s), sch) == Decode(types, s, sch)
            <==> (doc.Some? && doc.value.kind == MappingNode ==> Kept(types, doc.value, s, sch))
  {
    EncodedDecodes(types, s, sch);
    if doc.Some? {
      MergedReadsBack(types, doc.value, s, sch);
    }
  }

  /** `d` with one more pair behind its others. */
  function Noted(d: Tree, key: Tree, note: Tree): Tree {
    d.(content := d.content + [key, note])
  }

  lemma NotedKey(types: Types, d: Tree, key: Tree, note: Tree, s: Tree, sch: Schema, q: nat)
    requires |d.content| % 2 == 0 && Lookup(d.content, key.value).None? && q < |s.content| - 1
    requires s.content[q].value != key.value
    ensures KeptKey(types, Noted(d, key, note), s, sch, q) <==> KeptKey(types, d, s, sch, q)
  {
    FindKeyFound(d.content, key.value, 0);
    assert MergeOne(d.content, key, note) == d.content + [key, note];
    MergeOneLookup(d.content, key, note, s.content[q].value);
  }

  lemma NotedKeys(types: Types, d: Tree, key: Tree, note: Tree, s: Tree, sch: Schema)
    requires |d.content| % 2 == 0 && Lookup(d.content, key.value).None?
    requires s.kind == MappingNode && Encodes(types, s, sch) && Under(types, sch, key.value).None?
    ensures KeptKeys(types, Noted(d, key, note), s, sch) <==> KeptKeys(types, d, s, sch)
  {
    forall q | 0 <= q < |s.content| - 1 && q % 2 == 0
      ensures KeptKey(types, Noted(d, key, note), s, sch, q) <==> KeptKey(types, d, s, sch, q)
    {
      EncodedChild(types, s, sch, q);
      NotedKey(types, d, key, note, s, sch, q);
    }
  }

  lemma UnknownKeyIsKept(types: Types, d: Tree, key: Tree, note: Tree, s: Tree, sch: Schema)
    requires d.kind == s.kind == MappingNode && |d.content| % 2 == 0 && Encodes(types, s, sch)
    requires sch.Struct? && Under(types, sch, key.value).None? && Lookup(d.content, key.value).None?
    ensures Kept(types, Noted(d, key, note), s, sch) <==> Kept(types, d, s, sch)
  {
    NotedKeys(types, d, key, note, s, sch);
    FindKeyFound(d.content, key.value, 0);
    assert MergeOne(d.content, key, note) == d.content + [key, note];
    MergeOneKeepsDistinct(d.content, key, note);
  }

  lemma EncodedKeyIsRead(types: Types, s: Tree, sch: Schema, key: string)
    requires s.kind == MappingNode && Encodes(types, s, sch)
    ensures Lookup(s.content, key).Some? ==> Under(types, sch, key).Some?
  {
    FindKeyFound(s.content, key, 0);
  }

  /** It stands through the save with its value. */
  lemma NoteStands(types: Types, d: Tree, key: Tree, note: Tree, s: Tree, sch: Schema)
    requires |d.content| % 2 == 0 && s.kind == MappingNode && Encodes(types, s, sch)
    requires Under(types, sch, key.value).None? && Lookup(d.content, key.value).None?
    ensures Lookup(MergePairs(d.content + [key, note], s, 0), key.value) == Some(note)
  {
    FindKeyAppended(d.content, key, note, key.value, 0);
    FindKeyFound(d.content, key.value, 0);
    EncodedKeyIsRead(types, s, sch, key.value);
    MergePairsLookup(d.content + [key, note], s, 0, key.value);
  }

  lemma NotedPaired(d: Tree, key: Tree, note: Tree)
    requires d.kind == MappingNode && Paired(d) && Paired(key) && Paired(note)
    ensures Paired(Noted(d, key, note))
  {
  }

  /** A key no struct declares has no part in whether a save reads back. */
  lemma UnknownKeyIsHarmless(types: Types, d: Tree, key: Tree, note: Tree, s: Tree, sch: Schema)
    requires d.kind == s.kind == MappingNode && Paired(d) && Paired(key) && Paired(note) && Encodes(types, s, sch)
    requires sch.Struct? && Under(types, sch, key.value).None? && Lookup(d.content, key.value).None?
    ensures Decode(types, MergeValue(Noted(d, key, note), s), sch) == Decode(types, s, sch)
            <==> Decode(types, MergeValue(d, s), sch) == Decode(types, s, sch)
  {
    UnknownKeyIsKept(types, d, key, note, s, sch);
    NotedPaired(d, key, note);
    MergedReadsBack(types, d, s, sch);
    MergedReadsBack(types, Noted(d, key, note), s, sch);
  }

  // ---- Three documents ----

  function Scalar(text: string): Tree {
    Tree(ScalarNode, "!!str", text, 0, "", "", [])
  }

  function Mapping(content: seq<Tree>): Tree {
    Tree(MappingNode, "!!map", "", 0, "", "", content)
  }

  lemma OneField(types: Types, sch: Schema, key: string, val: Tree)
    requires sch.Struct? && sch.name in types && types[sch.name].Keys == {key}
    requires Encodes(types, val, types[sch.name][key])
    ensures Encodes(types, Mapping([Scalar(key), val]), sch)
  {
    var s := Mapping([Scalar(key), val]);
    LookupAt(s.content, 0);
  }

  lemma PairedFlat(content: seq<Tree>)
    requires |content| % 2 == 0
    requires forall k | 0 <= k < |content| :: content[k].kind == ScalarNode && content[k].content == []
    ensures Paired(Mapping(content))
  {
    forall k | 0 <= k < |content| ensures Paired(content[k]) {
      assert content[k].content == [];
    }
  }

  lemma DeletedRuleNotKept(types: Types, rules: Tree, empty: Tree)
    requires rules == Mapping([Scalar("a"), Scalar("on")]) && empty == Mapping([])
    ensures Paired(rules) && MergeValue(rules, empty) == rules && !Kept(types, rules, empty, Table(Any))
  {
    PairedFlat(rules.content);
    assert rules.content[0].value == "a" && Lookup(empty.content, "a") == None;
    assert !KeysWithin(rules.content, empty.content);
  }

  /** A rule deleted from an ingest is still in the saved document, and loads again. */
  lemma DeletedRuleSurvives()
    ensures var types, sch := map["Ingest" := map["rules" := Table(Any)]], Struct("Ingest");
            var d := Mapping([Scalar("rules"), Mapping([Scalar("a"), Scalar("on")])]);
            var s := Mapping([Scalar("rules"), Mapping([])]);
            && Paired(d) && Encodes(types, s, sch) && Saved(Some(d), s) == d
            && Decode(types, Saved(Some(d), s), sch) != Decode(types, s, sch)
  {
    var types, sch := map["Ingest" := map["rules" := Table(Any)]], Struct("Ingest");
    var rules, empty := Mapping([Scalar("a"), Scalar("on")]), Mapping([]);
    var d, s := Mapping([Scalar("rules"), rules]), Mapping([Scalar("rules"), empty]);
    DeletedRuleNotKept(types, rules, empty);
    assert Paired(Scalar("rules"));
    OneField(types, sch, "rules", empty);
    LookupAt(d.content, 0);
    assert FindKey(d.content, "rules") == 0;
    assert MergePairs(d.content, s, 2) == d.content;
    assert MergeOne(d.content, s.content[0], s.content[1]) == d.content;
    assert !KeptKey(types, d, s, sch, 0);
    SavedReadsBack(types, Some(d), s, sch);
  }

  /** A note behind a document that reads back: it stands, and the document still reads back. */
  lemma NotedReadsBack(types: Types, d: Tree, key: Tree, note: Tree, s: Tree, sch: Schema)
    requires d.kind == s.kind == MappingNode && Paired(d) && Paired(key) && Paired(note) && Encodes(types, s, sch)
    requires sch.Struct? && Under(types, sch, key.value).None? && Lookup(d.content, key.value).None?
    requires Kept(types, d, s, sch)
    ensures Paired(Noted(d, key, note))
    ensures Lookup(Saved(Some(Noted(d, key, note)), s).content, key.value) == Some(note)
    ensures Decode(types, Saved(Some(Noted(d, key, note)), s), sch) == Decode(types, s, sch)
  {
    NotedPaired(d, key, note);
    NoteStands(types, d, key, note, s, sch);
    UnknownKeyIsHarmless(types, d, key, note, s, sch);
    MergedReadsBack(types, d, s, sch);
  }

  /** A key no struct declares stays in the saved document, which still loads as what was saved. */
  lemma NoteIsHarmless()
    ensures var types, sch := map["Config" := map["a" := Leaf]], Struct("Config");
            var d := Mapping([Scalar("a"), Scalar("on"), Scalar("x_note"), Scalar("hi")]);
            var s := Mapping([Scalar("a"), Scalar("off")]);
            && Paired(d) && Encodes(types, s, sch)
            && Lookup(Saved(Some(d), s).content, "x_note") == Some(Scalar("hi"))
            && Decode(types, Saved(Some(d), s), sch) == Decode(types, s, sch)
  {
    var types, sch := map["Config" := map["a" := Leaf]], Struct("Config");
    var d := Mapping([Scalar("a"), Scalar("on")]);
    PairedFlat(d.content);
    OneField(types, sch, "a", Scalar("off"));
    OneScalarKept(types, d, "a", "off", sch);
    assert Lookup(d.content, "x_note").None? && Paired(Scalar("x_note")) && Paired(Scalar("hi"));
    NotedReadsBack(types, d, Scalar("x_note"), Scalar("hi"), Mapping([Scalar("a"), Scalar("off")]), sch);
    assert d.content + [Scalar("x_note"), Scalar("hi")]
        == [Scalar("a"), Scalar("on"), Scalar("x_note"), Scalar("hi")];
  }

  lemma OneScalarKept(types: Types, d: Tree, key: string, text: string, sch: Schema)
    requires sch.Struct? && d.kind == MappingNode && DistinctKeys(d.content)
    ensures Kept(types, d, Mapping([Scalar(key), Scalar(text)]), sch)
  {
    assert KeptKey(types, d, Mapping([Scalar(key), Scalar(text)]), sch, 0);
  }

  /** A document that repeats a key cannot be loaded after the save either. */
  lemma RepeatedKeyIsRefused()
    ensures var types, sch := map["Config" := map["a" := Leaf]], Struct("Config");
            var d := Mapping([Scalar("a"), Scalar("x"), Scalar("a"), Scalar("y")]);
            var s := Mapping([Scalar("a"), Scalar("on")]);
            Paired(d) && Encodes(types, s, sch) && Decode(types, Saved(Some(d), s), sch) == None
  {
    var types, sch := map["Config" := map["a" := Leaf]], Struct("Config");
    var d := Mapping([Scalar("a"), Scalar("x"), Scalar("a"), Scalar("y")]);
    var s := Mapping([Scalar("a"), Scalar("on")]);
    PairedFlat(d.content);
    OneField(types, sch, "a", Scalar("on"));
    assert d.content[0].value == d.content[2].value;
    MergeKeepsDistinct(d.content, s, 0);
  }
}
