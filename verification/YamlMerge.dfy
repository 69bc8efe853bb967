/**
 The in-place merge over yaml.Node objects (internal/config/merge.go), proved to compute the tree
 functions of `YamlTree` on what the nodes denote.

 A node owns the nodes below it: `repr` is its footprint, and `view` is the tree it denotes. The two
 documents merged share no node, as a parsed document and a freshly encoded configuration do not.
 Source nodes are moved into the destination, so both footprints are written. In the loop over a source
 sequence, `Unclaimed`, `Intact` and `Merged` say what is still free of the destination, still to come
 of the source, and already in the result, and that their footprints are disjoint.
 */
module YamlMerge {
  import opened YamlTree

  class Node {
    var kind: Kind
    var tag: string
    var value: string
    var style: int
    var anchor: string
    var comment: string
    var content: seq<Node>

    ghost var repr: set<Node>
    ghost var view: Tree

    /** Everything `view` says about this node itself. */
    ghost predicate Labelled()
      reads this
    {
      && view.kind == kind && view.tag == tag && view.value == value && view.style == style
      && view.anchor == anchor && view.comment == comment
    }

    ghost predicate Valid()
      reads this, repr
      decreases repr
    {
      && this in repr
      && (forall k | 0 <= k < |content| ::
            content[k] in repr && this !in content[k].repr && content[k].repr <= repr)
      && Labelled() && |view.content| == |content|
      && (forall k | 0 <= k < |content| :: content[k].Valid() && view.content[k] == content[k].view)
      && (forall k, l | 0 <= k < l < |content| :: content[k].repr !! content[l].repr)
    }
  }

  method FindMappingKey(mapping: Node, key: string) returns (j: int)
    requires mapping.Valid()
    ensures j == FindKey(mapping.view.content, key)
    ensures j == -1 || 0 <= j < |mapping.content| - 1
  {
    FindKeyFound(mapping.view.content, key, 0);
    var i := 0;
    while i + 1 < |mapping.content|
      invariant 0 <= i
      invariant FindKeyFrom(mapping.view.content, key, i) == FindKey(mapping.view.content, key)
    {
      if mapping.content[i].value == key {
        return i;
      }
      i := i + 2;
    }
    return -1;
  }

  method MappingIdentityValue(node: Node) returns (name: string)
    requires node.Valid()
    ensures name == Identity(node.view)
  {
    if node.kind != MappingNode {
      return "";
    }
    var i := 0;
    while i + 1 < |node.content|
      invariant 0 <= i
      invariant IdentityFrom(node.view.content, i) == IdentityFrom(node.view.content, 0)
    {
      if node.content[i].value == "name" && node.content[i + 1].kind == ScalarNode {
        return node.content[i + 1].value;
      }
      i := i + 2;
    }
    return "";
  }

  method ReplaceNodeValue(dst: Node, src: Node)
    requires dst.Valid() && src.Valid() && dst.repr !! src.repr
    modifies dst
    ensures dst.Valid() && dst.view == Replace(old(dst.view), src.view)
    ensures dst.comment == old(dst.comment) && dst.value == src.value && dst.content == src.content
    ensures dst.kind == src.kind && dst.tag == src.tag && dst.style == src.style && dst.anchor == src.anchor
    ensures dst.repr <= old(dst.repr) + src.repr
  {
    dst.kind := src.kind;
    dst.tag := src.tag;
    dst.value := src.value;
    dst.style := src.style;
    dst.anchor := src.anchor;
    dst.content := src.content;
    dst.view := Replace(dst.view, src.view);
    dst.repr := {dst} + (src.repr - {src});
  }

  /** The children from `i` on are intact: as `v` shows them, inside `home`, and apart from each other. */
  ghost predicate Intact(nodes: seq<Node>, i: nat, v: Tree, home: set<Node>)
    reads nodes, set k, o | 0 <= k < |nodes| && o in nodes[k].repr :: o
  {
    && |nodes| == |v.content|
    && (forall k | i <= k < |nodes| ::
          nodes[k].Valid() && nodes[k].view == v.content[k] && nodes[k].repr <= home)
    && (forall k, l | i <= k < l < |nodes| :: nodes[k].repr !! nodes[l].repr)
  }

  /** Adds a key and its value, both taken from the source, at the end of a mapping. */
  method AppendPair(dst: Node, key: Node, val: Node)
    requires dst.Valid() && key.Valid() && val.Valid()
    requires dst.repr !! key.repr && dst.repr !! val.repr && key.repr !! val.repr
    modifies dst
    ensures dst.Valid()
    ensures dst.view == old(dst.view).(content := old(dst.view.content) + [key.view, val.view])
    ensures dst.repr == old(dst.repr) + key.repr + val.repr
  {
    dst.content := dst.content + [key, val];
    dst.view := dst.view.(content := dst.view.content + [key.view, val.view]);
    dst.repr := dst.repr + key.repr + val.repr;
  }

  method MergeMappingNode(dst: Node, src: Node)
    requires dst.Valid() && src.Valid() && dst.repr !! src.repr
    modifies dst.repr, src.repr
    ensures dst.Valid() && dst.repr <= old(dst.repr + src.repr)
    ensures dst.view == old(dst.view).(content := MergePairs(old(dst.view.content), old(src.view), 0))
    decreases src.view, 1
  {
    ghost var d0, s0 := dst.view, src.view;
    var sc := src.content;
    var i := 0;
    while i + 1 < |sc|
      invariant src.content == sc
      invariant dst.Valid() && dst.repr <= old(dst.repr + src.repr) - {src}
      invariant Intact(sc, i, s0, old(src.repr) - {src})
      invariant forall k | i <= k < |sc| :: sc[k].repr !! dst.repr
      invariant dst.view == d0.(content := dst.view.content)
      invariant MergePairs(dst.view.content, s0, i) == MergePairs(d0.content, s0, 0)
    {
      MergePairInto(dst, sc[i], sc[i + 1]);
      i := i + 2;
    }
  }

  /** One key/value pair of the source: appended, or merged into the value already there. */
  method MergePairInto(dst: Node, key: Node, val: Node)
    requires dst.Valid() && key.Valid() && val.Valid()
    requires dst.repr !! key.repr && dst.repr !! val.repr && key.repr !! val.repr
    modifies dst.repr, val.repr
    ensures dst.Valid() && dst.repr <= old(dst.repr + key.repr + val.repr)
    ensures dst.view == old(dst.view).(content := MergeOne(old(dst.view.content), old(key.view), old(val.view)))
    decreases val.view, 4
  {
    var j := FindMappingKey(dst, key.value);
    if j == -1 {
      AppendPair(dst, key, val);
    } else {
      MergeChild(dst, j + 1, val);
    }
  }

  /** Merges `val` into one child of `dst`, choosing by the kinds of the two nodes. */
  method MergeChild(dst: Node, k: nat, val: Node)
    requires dst.Valid() && val.Valid() && dst.repr !! val.repr && k < |dst.content|
    modifies dst.repr, val.repr
    ensures dst.Valid() && dst.repr == old(dst.repr + val.repr)
    ensures dst.view == old(dst.view).(content :=
                          old(dst.view.content)[k := MergeValue(old(dst.view.content[k]), old(val.view))])
    decreases val.view, 3
  {
    var child := dst.content[k];
    MergeNode(child, val);
    forall l | 0 <= l < |dst.content| && l != k
      ensures dst.content[l].Valid() && dst.content[l].view == dst.view.content[l]
      ensures dst.content[l].repr == old(dst.content[l].repr)
    {
      assert old(dst.content[k].repr !! dst.content[l].repr);
      assert forall o | o in old(dst.content[l].repr) :: unchanged(o);
    }
    dst.repr := dst.repr + old(val.repr);
    dst.view := dst.view.(content := dst.view.content[k := child.view]);
  }

  method MergeNode(dst: Node, src: Node)
    requires dst.Valid() && src.Valid() && dst.repr !! src.repr
    modifies dst.repr, src.repr
    ensures dst.Valid() && dst.repr <= old(dst.repr + src.repr)
    ensures dst.view == MergeValue(old(dst.view), old(src.view))
    decreases src.view, 2
  {
    if dst.kind == MappingNode && src.kind == MappingNode {
      MergeMappingNode(dst, src);
    } else if dst.kind == SequenceNode && src.kind == SequenceNode {
      MergeSequenceNode(dst, src);
    } else {
      ReplaceNodeValue(dst, src);
    }
  }

  /** The destination items not yet claimed are intact. */
  ghost predicate Unclaimed(nodes: seq<Node>, used: seq<bool>, v: Tree, home: set<Node>)
    reads nodes, set k, o | 0 <= k < |nodes| && o in nodes[k].repr :: o
  {
    && |nodes| == |v.content| == |used|
    && (forall k | 0 <= k < |nodes| && !used[k] ::
          nodes[k].Valid() && nodes[k].view == v.content[k] && nodes[k].repr <= home)
    && (forall k, l | 0 <= k < |nodes| && 0 <= l < |nodes| && k != l && !used[k] && !used[l] ::
          nodes[k].repr !! nodes[l].repr)
  }

  /** The merged items show `out`, lie inside `pool`, and are apart from each other. */
  ghost predicate Merged(nodes: seq<Node>, out: seq<Tree>, pool: set<Node>)
    reads nodes, set k, o | 0 <= k < |nodes| && o in nodes[k].repr :: o
  {
    && |nodes| == |out|
    && (forall k | 0 <= k < |nodes| ::
          nodes[k].Valid() && nodes[k].view == out[k] && nodes[k].repr <= pool)
    && (forall k, l | 0 <= k < l < |nodes| :: nodes[k].repr !! nodes[l].repr)
  }

  method FindUnused(nodes: seq<Node>, used: array<bool>, name: string, ghost v: Tree, ghost home: set<Node>)
    returns (matched: int)
    requires Unclaimed(nodes, used[..], v, home)
    ensures matched == Match(v.content, used[..], name, 0)
    ensures matched == -1 || (0 <= matched < |nodes| && !used[matched] && Identity(v.content[matched]) == name)
  {
    MatchFound(v.content, used[..], name, 0);
    var i := 0;
    while i < |nodes|
      invariant 0 <= i <= |nodes|
      invariant Match(v.content, used[..], name, i) == Match(v.content, used[..], name, 0)
    {
      if !used[i] {
        var other := MappingIdentityValue(nodes[i]);
        if other == name {
          return i;
        }
      }
      i := i + 1;
    }
    return -1;
  }

  /** Merges a source item into the unclaimed destination item `m`, and claims it. */
  method ClaimItem(dc: seq<Node>, used: array<bool>, m: nat, srcItem: Node, ghost v: Tree, ghost home: set<Node>)
    returns (ghost claimed: set<Node>)
    requires Unclaimed(dc, used[..], v, home) && srcItem.Valid() && srcItem.repr !! home
    requires m < |dc| && !used[m] && dc[m].kind == srcItem.kind == MappingNode
    modifies used, dc[m].repr, srcItem.repr
    ensures Unclaimed(dc, used[..], v, home - claimed) && used[..] == old(used[..])[m := true]
    ensures dc[m].Valid() && dc[m].repr <= claimed == old(dc[m].repr + srcItem.repr)
    ensures dc[m].view == MergeValue(v.content[m], old(srcItem.view))
    decreases srcItem.view, 2
  {
    claimed := dc[m].repr + srcItem.repr;
    used[m] := true;
    MergeMappingNode(dc[m], srcItem);
    forall k | 0 <= k < |dc| && !used[k]
      ensures dc[k].Valid() && dc[k].view == v.content[k]
      ensures dc[k].repr == old(dc[k].repr) && dc[k].repr <= home - claimed
    {
      assert old(dc[m].repr !! dc[k].repr);
      assert forall o | o in old(dc[k].repr) :: unchanged(o);
    }
  }

  /**
   One source item: it claims the first unused destination item of the same name and is merged into
   it, or it stands for itself. Only the claimed nodes are written.
   */
  method MergeItem(dc: seq<Node>, used: array<bool>, srcItem: Node, ghost v: Tree, ghost home: set<Node>)
    returns (node: Node, matched: int, ghost claimed: set<Node>)
    requires Unclaimed(dc, used[..], v, home) && srcItem.Valid() && srcItem.repr !! home
    modifies used, home, srcItem.repr
    ensures Unclaimed(dc, used[..], v, home - claimed)
    ensures node.Valid() && node.repr <= claimed <= home + old(srcItem.repr)
    ensures forall o | o in home && o !in claimed :: unchanged(o)
    ensures matched == MatchItem(v.content, old(used[..]), old(srcItem.view))
    ensures matched == -1 ==> used[..] == old(used[..]) && node.view == old(srcItem.view)
    ensures matched != -1 ==> 0 <= matched < |dc| && used[..] == old(used[..])[matched := true]
    ensures matched != -1 ==> node.view == MergeValue(v.content[matched], old(srcItem.view))
    decreases srcItem.view, 3
  {
    var name := MappingIdentityValue(srcItem);
    matched := -1;
    if name != "" {
      matched := FindUnused(dc, used, name, v, home);
    }
    if matched == -1 {
      node, claimed := srcItem, srcItem.repr;
      assert home - claimed == home;
    } else {
      node := dc[matched];
      claimed := ClaimItem(dc, used, matched, srcItem, v, home);
    }
  }

  lemma MergedAppend(nodes: seq<Node>, out: seq<Tree>, pool: set<Node>, node: Node, claimed: set<Node>)
    requires Merged(nodes, out, pool)
    requires node.Valid() && node.repr <= claimed && claimed !! pool
    ensures Merged(nodes + [node], out + [node.view], pool + claimed)
  {
  }

  /**
   The loop over a sequence's items before item `i`: what is free of the destination, what is still to
   come of the source, and what has been merged, each apart from the others.
   */
  ghost predicate Gathering(dc: seq<Node>, used: seq<bool>, d: Tree, free: set<Node>,
                            sc: seq<Node>, i: nat, s: Tree, rest: set<Node>,
                            merged: seq<Node>, out: seq<Tree>, pool: set<Node>)
    reads dc, set k, o | 0 <= k < |dc| && o in dc[k].repr :: o
    reads sc, set k, o | 0 <= k < |sc| && o in sc[k].repr :: o
    reads merged, set k, o | 0 <= k < |merged| && o in merged[k].repr :: o
  {
    && i <= |sc| && free !! rest && pool !! free && pool !! rest
    && Unclaimed(dc, used, d, free) && Intact(sc, i, s, rest) && Merged(merged, out, pool)
  }

  /** One round: source item `i` is merged, and everything else is carried over. */
  method TakeItem(dc: seq<Node>, used: array<bool>, ghost d: Tree, ghost free: set<Node>,
                  sc: seq<Node>, i: nat, ghost s: Tree, ghost rest: set<Node>,
                  ghost merged: seq<Node>, ghost out: seq<Tree>, ghost pool: set<Node>)
    returns (node: Node, ghost claimed: set<Node>, ghost taken: set<Node>)
    requires i < |sc| && Gathering(dc, used[..], d, free, sc, i, s, rest, merged, out, pool)
    modifies used, free, rest
    ensures claimed <= free + taken && taken <= rest
    ensures Gathering(dc, used[..], d, free - claimed, sc, i + 1, s, rest - taken,
                      merged + [node], out + [node.view], pool + claimed)
    ensures out + [node.view] + MergeItems(d.content, used[..], s, i + 1)
         == out + MergeItems(d.content, old(used[..]), s, i)
    decreases sc[i].view, 4
  {
    taken := sc[i].repr;
    MergeItemsStep(out, d.content, used[..], s, i);
    var matched;
    node, matched, claimed := MergeItem(dc, used, sc[i], d, free);
    forall k | 0 <= k < |merged|
      ensures merged[k].Valid() && merged[k].view == out[k] && merged[k].repr == old(merged[k].repr)
    {
      assert forall o | o in old(merged[k].repr) :: unchanged(o);
    }
    forall k | i < k < |sc|
      ensures sc[k].Valid() && sc[k].view == s.content[k] && sc[k].repr == old(sc[k].repr)
    {
      assert old(sc[i].repr !! sc[k].repr);
      assert forall o | o in old(sc[k].repr) :: unchanged(o);
    }
    MergedAppend(merged, out, pool, node, claimed);
  }

  /** The loop over the source's items, on the children of two sequences. */
  method GatherItems(dc: seq<Node>, used: array<bool>, ghost d: Tree, ghost dstHome: set<Node>,
                     sc: seq<Node>, ghost s: Tree, ghost srcHome: set<Node>)
    returns (merged: seq<Node>, ghost out: seq<Tree>, ghost pool: set<Node>)
    requires Gathering(dc, used[..], d, dstHome, sc, 0, s, srcHome, [], [], {})
    modifies used, dstHome, srcHome
    ensures Merged(merged, out, pool) && pool <= dstHome + srcHome
    ensures out == MergeItems(d.content, old(used[..]), s, 0)
    decreases s, 0
  {
    ghost var free, rest := dstHome, srcHome;
    merged, out, pool := [], [], {};
    var i := 0;
    while i < |sc|
      invariant i <= |sc| && free <= dstHome && rest <= srcHome && pool <= dstHome + srcHome
      invariant Gathering(dc, used[..], d, free, sc, i, s, rest, merged, out, pool)
      invariant out + MergeItems(d.content, used[..], s, i) == MergeItems(d.content, old(used[..]), s, 0)
    {
      var node, claimed, taken := TakeItem(dc, used, d, free, sc, i, s, rest, merged, out, pool);
      free, rest, pool := free - claimed, rest - taken, pool + claimed;
      merged, out := merged + [node], out + [node.view];
      i := i + 1;
    }
  }

  /** Installs the merged items as the whole content of a sequence. */
  method SetItems(dst: Node, items: seq<Node>, ghost out: seq<Tree>, ghost pool: set<Node>)
    requires dst.Labelled() && Merged(items, out, pool) && dst !in pool
    modifies dst
    ensures dst.Valid() && dst.repr == {dst} + pool
    ensures dst.view == old(dst.view).(content := out)
  {
    dst.content := items;
    dst.view := dst.view.(content := out);
    dst.repr := {dst} + pool;
  }

  method MergeSequenceNode(dst: Node, src: Node)
    requires dst.Valid() && src.Valid() && dst.repr !! src.repr
    modifies dst.repr, src.repr
    ensures dst.Valid() && dst.repr <= old(dst.repr + src.repr)
    ensures dst.view == old(dst.view).(content :=
                          MergeItems(old(dst.view.content), NoneUsed(|old(dst.view.content)|), old(src.view), 0))
    decreases src.view, 1
  {
    ghost var dstHome, srcHome := dst.repr - {dst}, src.repr - {src};
    var dc, sc := dst.content, src.content;
    var used := new bool[|dc|](_ => false);
    assert used[..] == NoneUsed(|dc|);
    var merged, out, pool := GatherItems(dc, used, dst.view, dstHome, sc, src.view, srcHome);
    SetItems(dst, merged, out, pool);
  }
}
