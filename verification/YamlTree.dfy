/**
 The YAML merge as a function on trees (internal/config/merge.go).

 A tree is the value a yaml.Node denotes. A mapping keeps its keys and values alternating in `content`,
 as yaml.Node does, and a node's comments are one text, which is kept or not. The functions here follow
 the code's recursion: `MergeValue` on two nodes, `MergePairs` over the pairs of a source mapping, and
 `MergeItems` over the items of a source sequence, each of which claims an unused item of its name or
 stays as it is. `YamlMerge` proves that the in-place code computes these functions;
 `YamlMergeProperties` proves what they promise.
 */
module YamlTree {

  datatype Kind = SequenceNode | MappingNode | ScalarNode | AliasNode

  datatype Tree = Tree(kind: Kind, tag: string, value: string, style: int, anchor: string,
                       comment: string, content: seq<Tree>)

  /** Index of the first key spelled `key`, at or after `i`; -1 when there is none. */
  function FindKeyFrom(content: seq<Tree>, key: string, i: nat): int
    decreases |content| - i
  {
    if i + 1 >= |content| then -1
    else if content[i].value == key then i
    else FindKeyFrom(content, key, i + 2)
  }

  function FindKey(content: seq<Tree>, key: string): int {
    FindKeyFrom(content, key, 0)
  }

  function IdentityFrom(content: seq<Tree>, i: nat): string
    decreases |content| - i
  {
    if i + 1 >= |content| then ""
    else if content[i].value == "name" && content[i + 1].kind == ScalarNode then content[i + 1].value
    else IdentityFrom(content, i + 2)
  }

  /** The value of a mapping's "name" field, or "" for anything without one. */
  function Identity(t: Tree): string {
    if t.kind == MappingNode then IdentityFrom(t.content, 0) else ""
  }

  /** A pair that names a mapping: the key "name" with a scalar value. */
  predicate NamesIt(content: seq<Tree>, i: nat) {
    i + 1 < |content| && content[i].value == "name" && content[i + 1].kind == ScalarNode
  }

  /** The first pair that names a mapping gives the identity; without one there is none. */
  lemma {:induction false} IdentityExactly(content: seq<Tree>, i: nat) returns (at: int)
    ensures forall k: nat | i <= k && (k - i) % 2 == 0 && (at == -1 || k < at) :: !NamesIt(content, k)
    ensures at == -1 ==> IdentityFrom(content, i) == ""
    ensures at != -1 ==> i <= at && (at - i) % 2 == 0 && NamesIt(content, at)
                         && IdentityFrom(content, i) == content[at + 1].value
    decreases |content| - i
  {
    if i + 1 >= |content| {
      at := -1;
    } else if NamesIt(content, i) {
      at := i;
    } else {
      at := IdentityExactly(content, i + 2);
    }
  }

  /** Only mappings have an identity, and it is the one of their pairs. */
  lemma IdentityOf(t: Tree)
    ensures t.kind == MappingNode ==> Identity(t) == IdentityFrom(t.content, 0)
    ensures t.kind != MappingNode ==> Identity(t) == ""
  {
  }

  function NoneUsed(n: nat): seq<bool> {
    seq(n, _ => false)
  }

  /** The least index at or after `i` that is unused and has the identity `name`; -1 when none does. */
  function Match(items: seq<Tree>, used: seq<bool>, name: string, i: nat): int
    requires |used| == |items|
    decreases |items| - i
  {
    if i >= |items| then -1
    else if !used[i] && Identity(items[i]) == name then i
    else Match(items, used, name, i + 1)
  }

  /** The match the code looks for: an item without identity matches nothing. */
  function MatchItem(items: seq<Tree>, used: seq<bool>, item: Tree): (m: int)
    requires |used| == |items|
  {
    if Identity(item) == "" then -1 else Match(items, used, Identity(item), 0)
  }

  lemma {:induction false} FindKeyFound(content: seq<Tree>, key: string, i: nat)
    ensures var j := FindKeyFrom(content, key, i);
            && (j == -1 || (i <= j < |content| - 1 && (j - i) % 2 == 0 && content[j].value == key))
            && forall q | i <= q < |content| - 1 && (q - i) % 2 == 0 && (j == -1 || q < j) ::
                 content[q].value != key
    decreases |content| - i
  {
    if i + 1 < |content| && content[i].value != key {
      FindKeyFound(content, key, i + 2);
    }
  }

  lemma {:induction false} MatchFound(items: seq<Tree>, used: seq<bool>, name: string, i: nat)
    requires |used| == |items|
    ensures var m := Match(items, used, name, i);
            && (m == -1 || (i <= m < |items| && !used[m] && Identity(items[m]) == name))
            && forall q | i <= q < |items| && (m == -1 || q < m) :: used[q] || Identity(items[q]) != name
    decreases |items| - i
  {
    if i < |items| && (used[i] || Identity(items[i]) != name) {
      MatchFound(items, used, name, i + 1);
    }
  }

  /** The source's value under the destination's comment. */
  function Replace(d: Tree, s: Tree): Tree {
    s.(comment := d.comment)
  }

  function MergeValue(d: Tree, s: Tree): Tree
    decreases s, |s.content| + 1
  {
    if d.kind == MappingNode && s.kind == MappingNode then
      d.(content := MergePairs(d.content, s, 0))
    else if d.kind == SequenceNode && s.kind == SequenceNode then
      d.(content := MergeItems(d.content, NoneUsed(|d.content|), s, 0))
    else
      Replace(d, s)
  }

  /** Merges the key/value pairs of `s` from index `i` on into `dc`. */
  function MergePairs(dc: seq<Tree>, s: Tree, i: nat): seq<Tree>
    decreases s, |s.content| - i
  {
    if i + 1 >= |s.content| then dc
    else MergePairs(MergeOne(dc, s.content[i], s.content[i + 1]), s, i + 2)
  }

  function MergeOne(dc: seq<Tree>, key: Tree, val: Tree): seq<Tree>
    decreases val, |val.content| + 2
  {
    var j := FindKey(dc, key.value);
    FindKeyFound(dc, key.value, 0);
    if j == -1 then dc + [key, val] else dc[j + 1 := MergeValue(dc[j + 1], val)]
  }

  /** The merged items of `s` from index `i` on; `used` marks the items of `dc` already claimed. */
  function MergeItems(dc: seq<Tree>, used: seq<bool>, s: Tree, i: nat): seq<Tree>
    requires |used| == |dc|
    decreases s, |s.content| - i
  {
    if i >= |s.content| then []
    else
      var item := s.content[i];
      var m := MatchItem(dc, used, item);
      MatchFound(dc, used, Identity(item), 0);
      if m == -1 then [item] + MergeItems(dc, used, s, i + 1)
      else [MergeValue(dc[m], item)] + MergeItems(dc, used[m := true], s, i + 1)
  }

  /** One step of `MergeItems`, behind a list of items already merged. */
  lemma MergeItemsStep(out: seq<Tree>, dc: seq<Tree>, used: seq<bool>, s: Tree, i: nat)
    requires |used| == |dc| && i < |s.content|
    ensures var m := MatchItem(dc, used, s.content[i]);
            -1 <= m < |dc|
            && out + MergeItems(dc, used, s, i)
            == if m == -1 then out + [s.content[i]] + MergeItems(dc, used, s, i + 1)
               else out + [MergeValue(dc[m], s.content[i])] + MergeItems(dc, used[m := true], s, i + 1)
  {
    MatchFound(dc, used, Identity(s.content[i]), 0);
  }
}
