/**
 What the YAML merge promises (internal/config/merge.go): a key the source declares carries the
 source's value, every other key stands where it was, sequences follow the source, and merging the
 same source again changes nothing.
 */
module YamlMergeProperties {
  import opened Wrappers
  import opened YamlTree

  /** The value a mapping's content gives `key`. */
  function Lookup(content: seq<Tree>, key: string): Option<Tree> {
    LookupFrom(content, key, 0)
  }

  function LookupFrom(content: seq<Tree>, key: string, i: nat): Option<Tree> {
    var j := FindKeyFrom(content, key, i);
    FindKeyFound(content, key, i);
    if j == -1 then None else Some(content[j + 1])
  }

  /** A mapping's content pairs keys with values, and no key repeats. */
  predicate DistinctKeys(content: seq<Tree>) {
    && |content| % 2 == 0
    && forall p, q | 0 <= p < q < |content| && p % 2 == 0 && q % 2 == 0 ::
         content[p].value != content[q].value
  }

  /** Every mapping of the tree has distinct keys, as an encoded configuration does. */
  predicate WellKeyed(t: Tree)
    decreases t
  {
    && (t.kind == MappingNode ==> DistinctKeys(t.content))
    && forall k | 0 <= k < |t.content| :: WellKeyed(t.content[k])
  }

  lemma {:induction false} FindKeyUpdated(dc: seq<Tree>, p: nat, v: Tree, key: string, i: nat)
    requires p < |dc| && p % 2 == 1 && i % 2 == 0
    ensures FindKeyFrom(dc[p := v], key, i) == FindKeyFrom(dc, key, i)
    decreases |dc| - i
  {
    if i + 1 < |dc| && dc[i].value != key {
      FindKeyUpdated(dc, p, v, key, i + 2);
    }
  }

  lemma {:induction false} FindKeyAppended(dc: seq<Tree>, k: Tree, v: Tree, key: string, i: nat)
    requires |dc| % 2 == 0 && i % 2 == 0 && i <= |dc|
    ensures FindKeyFrom(dc + [k, v], key, i)
         == if FindKeyFrom(dc, key, i) != -1 then FindKeyFrom(dc, key, i)
            else if k.value == key then |dc| else -1
    decreases |dc| - i
  {
    if i < |dc| && dc[i].value != key {
      FindKeyAppended(dc, k, v, key, i + 2);
    } else if i == |dc| {
      assert FindKeyFrom(dc + [k, v], key, i + 2) == -1;
    }
  }

  /** What merging `val` makes of what a key had. */
  function Onto(current: Option<Tree>, val: Tree): Option<Tree> {
    match current
    case None => Some(val)
    case Some(d) => Some(MergeValue(d, val))
  }

  lemma LookupAppended(dc: seq<Tree>, k: Tree, v: Tree, key: string)
    requires |dc| % 2 == 0 && FindKey(dc, k.value) == -1
    ensures Lookup(dc + [k, v], key) == if key == k.value then Some(v) else Lookup(dc, key)
  {
    FindKeyFound(dc, key, 0);
    FindKeyAppended(dc, k, v, key, 0);
  }

  lemma LookupUpdated(dc: seq<Tree>, j: nat, v: Tree, key: string)
    requires j + 1 < |dc| && j % 2 == 0 && FindKey(dc, dc[j].value) == j
    ensures Lookup(dc[j + 1 := v], key) == if key == dc[j].value then Some(v) else Lookup(dc, key)
  {
    FindKeyFound(dc, key, 0);
    FindKeyUpdated(dc, j + 1, v, key, 0);
  }

  /** What one source pair does to the lookups of a mapping. */
  lemma MergeOneLookup(dc: seq<Tree>, k: Tree, v: Tree, key: string)
    requires |dc| % 2 == 0
    ensures |MergeOne(dc, k, v)| % 2 == 0
    ensures Lookup(MergeOne(dc, k, v), key) == if key == k.value then Onto(Lookup(dc, key), v) else Lookup(dc, key)
  {
    var j := FindKey(dc, k.value);
    FindKeyFound(dc, k.value, 0);
    if j == -1 {
      LookupAppended(dc, k, v, key);
    } else {
      LookupUpdated(dc, j, MergeValue(dc[j + 1], v), key);
    }
  }

  lemma LookupStep(content: seq<Tree>, key: string, i: nat)
    requires i + 1 < |content|
    ensures LookupFrom(content, key, i)
         == if content[i].value == key then Some(content[i + 1]) else LookupFrom(content, key, i + 2)
  {
  }

  lemma LookedUpOnce(content: seq<Tree>, i: nat)
    requires DistinctKeys(content) && i % 2 == 0 && i + 1 < |content|
    ensures LookupFrom(content, content[i].value, i + 2) == None
  {
    FindKeyFound(content, content[i].value, i + 2);
  }

  /** The merged mapping as a table: source keys are merged in, all others keep their value. */
  lemma {:induction false} MergePairsLookup(dc: seq<Tree>, s: Tree, i: nat, key: string)
    requires |dc| % 2 == 0 && i % 2 == 0 && DistinctKeys(s.content)
    ensures |MergePairs(dc, s, i)| % 2 == 0
    ensures Lookup(MergePairs(dc, s, i), key)
         == match LookupFrom(s.content, key, i)
            case None => Lookup(dc, key)
            case Some(v) => Onto(Lookup(dc, key), v)
    decreases |s.content| - i
  {
    if i + 1 < |s.content| {
      var k, v := s.content[i], s.content[i + 1];
      var next := MergeOne(dc, k, v);
      MergeOneLookup(dc, k, v, key);
      MergePairsLookup(next, s, i + 2, key);
      LookupStep(s.content, key, i);
      LookedUpOnce(s.content, i);
      assert MergePairs(dc, s, i) == MergePairs(next, s, i + 2);
    }
  }

  /** The source pairs from `i` on whose key `dc` does not have, in source order. */
  function NewPairs(dc: seq<Tree>, s: Tree, i: nat): seq<Tree>
    decreases |s.content| - i
  {
    if i + 1 >= |s.content| then []
    else if FindKey(dc, s.content[i].value) == -1 then s.content[i..i + 2] + NewPairs(dc, s, i + 2)
    else NewPairs(dc, s, i + 2)
  }

  lemma {:induction false} NewPairsAppended(dc: seq<Tree>, k: Tree, v: Tree, s: Tree, i: nat)
    requires |dc| % 2 == 0 && i % 2 == 0
    requires forall q | i <= q < |s.content| && q % 2 == 0 :: s.content[q].value != k.value
    ensures NewPairs(dc + [k, v], s, i) == NewPairs(dc, s, i)
    decreases |s.content| - i
  {
    if i + 1 < |s.content| {
      FindKeyAppended(dc, k, v, s.content[i].value, 0);
      NewPairsAppended(dc, k, v, s, i + 2);
    }
  }

  lemma {:induction false} NewPairsUpdated(dc: seq<Tree>, p: nat, v: Tree, s: Tree, i: nat)
    requires p < |dc| && p % 2 == 1
    ensures NewPairs(dc[p := v], s, i) == NewPairs(dc, s, i)
    decreases |s.content| - i
  {
    if i + 1 < |s.content| {
      FindKeyUpdated(dc, p, v, s.content[i].value, 0);
      NewPairsUpdated(dc, p, v, s, i + 2);
    }
  }

  /** In place: the destination's key nodes, with their comments, stand at their old indices. */
  lemma {:induction false} MergeKeepsKeys(dc: seq<Tree>, s: Tree, i: nat, p: nat)
    requires p < |dc| && p % 2 == 0 && |dc| % 2 == 0
    ensures p < |MergePairs(dc, s, i)| && MergePairs(dc, s, i)[p] == dc[p]
    decreases |s.content| - i
  {
    if i + 1 < |s.content| {
      FindKeyFound(dc, s.content[i].value, 0);
      MergeKeepsKeys(MergeOne(dc, s.content[i], s.content[i + 1]), s, i + 2, p);
    }
  }

  /** In place: a value whose key the source lacks is untouched, at its old index. */
  lemma {:induction false} MergeKeepsOthers(dc: seq<Tree>, s: Tree, i: nat, p: nat)
    requires p < |dc| && p % 2 == 0 && |dc| % 2 == 0
    requires FindKeyFrom(s.content, dc[p].value, i) == -1
    ensures p + 1 < |MergePairs(dc, s, i)| && MergePairs(dc, s, i)[p + 1] == dc[p + 1]
    decreases |s.content| - i
  {
    if i + 1 < |s.content| {
      FindKeyFound(dc, s.content[i].value, 0);
      MergeKeepsOthers(MergeOne(dc, s.content[i], s.content[i + 1]), s, i + 2, p);
    }
  }

  /** A pair just appended stays in front of the pairs that follow it. */
  lemma AppendedStands(dc: seq<Tree>, k: Tree, v: Tree, s: Tree, i: nat)
    requires |dc| % 2 == 0 && FindKeyFrom(s.content, k.value, i) == -1
    ensures var r := MergePairs(dc + [k, v], s, i);
            |r| >= |dc| + 2 ==> r[|dc|..] == [k, v] + r[|dc| + 2..]
  {
    MergeKeepsKeys(dc + [k, v], s, i, |dc|);
    MergeKeepsOthers(dc + [k, v], s, i, |dc|);
  }

  /** One source pair: what is left to merge, and what it adds behind the old entries. */
  lemma NewPairStep(dc: seq<Tree>, s: Tree, i: nat)
    requires i + 1 < |s.content|
    ensures var k, v := s.content[i], s.content[i + 1];
            && MergePairs(dc, s, i) == MergePairs(MergeOne(dc, k, v), s, i + 2)
            && NewPairs(dc, s, i)
            == if FindKey(dc, k.value) == -1 then [k, v] + NewPairs(dc, s, i + 2) else NewPairs(dc, s, i + 2)
  {
    assert s.content[i..i + 2] == [s.content[i], s.content[i + 1]];
  }

  /** A new key is appended once: the pairs behind it neither repeat it nor tell it from `dc`. */
  lemma NewKeyOnce(dc: seq<Tree>, s: Tree, i: nat)
    requires |dc| % 2 == 0 && i % 2 == 0 && DistinctKeys(s.content) && i + 1 < |s.content|
    ensures FindKeyFrom(s.content, s.content[i].value, i + 2) == -1
    ensures NewPairs(dc + [s.content[i], s.content[i + 1]], s, i + 2) == NewPairs(dc, s, i + 2)
  {
    FindKeyFound(s.content, s.content[i].value, i + 2);
    NewPairsAppended(dc, s.content[i], s.content[i + 1], s, i + 2);
  }

  lemma Behind(r: seq<Tree>, n: nat, pair: seq<Tree>, rest: seq<Tree>)
    requires |pair| == 2 && |r| >= n + 2 && r[n..] == pair + r[n + 2..] && r[n + 2..] == rest
    ensures r[n..] == pair + rest
  {
  }

  lemma {:induction false} NewPairAppended(dc: seq<Tree>, s: Tree, i: nat)
    requires |dc| % 2 == 0 && i % 2 == 0 && DistinctKeys(s.content) && i + 1 < |s.content|
    requires FindKey(dc, s.content[i].value) == -1
    ensures |MergePairs(dc, s, i)| >= |dc| && MergePairs(dc, s, i)[|dc|..] == NewPairs(dc, s, i)
    decreases |s.content| - i, 0
  {
    var k, v := s.content[i], s.content[i + 1];
    var longer := dc + [k, v];
    MergeAppendsNewPairs(longer, s, i + 2);
    NewKeyOnce(dc, s, i);
    AppendedStands(dc, k, v, s, i + 2);
    Behind(MergePairs(longer, s, i + 2), |dc|, [k, v], NewPairs(dc, s, i + 2));
    NewPairStep(dc, s, i);
  }

  /** In place: behind the old entries come exactly the source's new pairs, in source order. */
  lemma {:induction false} MergeAppendsNewPairs(dc: seq<Tree>, s: Tree, i: nat)
    requires |dc| % 2 == 0 && i % 2 == 0 && DistinctKeys(s.content)
    ensures |MergePairs(dc, s, i)| >= |dc| && MergePairs(dc, s, i)[|dc|..] == NewPairs(dc, s, i)
    decreases |s.content| - i, 1
  {
    if i + 1 < |s.content| {
      var k, v := s.content[i], s.content[i + 1];
      var j := FindKey(dc, k.value);
      FindKeyFound(dc, k.value, 0);
      if j == -1 {
        NewPairAppended(dc, s, i);
      } else {
        NewPairStep(dc, s, i);
        MergeAppendsNewPairs(dc[j + 1 := MergeValue(dc[j + 1], v)], s, i + 2);
        NewPairsUpdated(dc, j + 1, MergeValue(dc[j + 1], v), s, i + 2);
      }
    }
  }

  /** For each source item from `i` on, the destination item it claims, or -1. */
  function Claims(dc: seq<Tree>, used: seq<bool>, s: Tree, i: nat): seq<int>
    requires |used| == |dc|
    decreases |s.content| - i
  {
    if i >= |s.content| then []
    else
      var m := MatchItem(dc, used, s.content[i]);
      MatchFound(dc, used, Identity(s.content[i]), 0);
      [m] + Claims(dc, if m == -1 then used else used[m := true], s, i + 1)
  }

  lemma {:induction false} MergeItemsLength(dc: seq<Tree>, used: seq<bool>, s: Tree, i: nat)
    requires |used| == |dc| && i <= |s.content|
    ensures |MergeItems(dc, used, s, i)| == |s.content| - i
    decreases |s.content| - i
  {
    if i < |s.content| {
      var m := MatchItem(dc, used, s.content[i]);
      MatchFound(dc, used, Identity(s.content[i]), 0);
      MergeItemsLength(dc, if m == -1 then used else used[m := true], s, i + 1);
    }
  }

  /** One item of the source: what it claims, and what is left for the items behind it. */
  lemma ItemStep(dc: seq<Tree>, used: seq<bool>, s: Tree, i: nat) returns (m: int, used': seq<bool>, first: Tree)
    requires |used| == |dc| && i < |s.content|
    ensures -1 <= m < |dc| && |used'| == |dc| && forall q | 0 <= q < |dc| :: used[q] ==> used'[q]
    ensures m != -1 ==> !used[m] && "" != Identity(s.content[i]) == Identity(dc[m])
    ensures first == if m == -1 then s.content[i] else MergeValue(dc[m], s.content[i])
    ensures Claims(dc, used, s, i) == [m] + Claims(dc, used', s, i + 1)
    ensures MergeItems(dc, used, s, i) == [first] + MergeItems(dc, used', s, i + 1)
  {
    MatchFound(dc, used, Identity(s.content[i]), 0);
    m := MatchItem(dc, used, s.content[i]);
    used' := if m == -1 then used else used[m := true];
    first := if m == -1 then s.content[i] else MergeValue(dc[m], s.content[i]);
  }

  lemma {:induction false} ClaimsLength(dc: seq<Tree>, used: seq<bool>, s: Tree, i: nat)
    requires |used| == |dc| && i <= |s.content|
    ensures |Claims(dc, used, s, i)| == |s.content| - i
    decreases |s.content| - i
  {
    if i < |s.content| {
      var m, used', first := ItemStep(dc, used, s, i);
      ClaimsLength(dc, used', s, i + 1);
    }
  }

  /**
   A merged sequence follows the source item by item: an item that claims is merged into a
   destination item of the same name, and every other item is the source's own.
   */
  lemma {:induction false} MergeItemsByClaims(dc: seq<Tree>, used: seq<bool>, s: Tree, i: nat, k: nat)
    requires |used| == |dc| && i + k < |s.content|
    ensures var r, c := MergeItems(dc, used, s, i), Claims(dc, used, s, i);
            && |r| == |c| == |s.content| - i && -1 <= c[k] < |dc|
            && r[k] == (if c[k] == -1 then s.content[i + k] else MergeValue(dc[c[k]], s.content[i + k]))
            && (c[k] != -1 ==> !used[c[k]] && "" != Identity(s.content[i + k]) == Identity(dc[c[k]]))
    decreases |s.content| - i
  {
    ClaimsLength(dc, used, s, i);
    MergeItemsLength(dc, used, s, i);
    var m, used', first := ItemStep(dc, used, s, i);
    if k > 0 {
      MergeItemsByClaims(dc, used', s, i + 1, k - 1);
    }
  }

  /** No destination item is claimed twice. */
  lemma {:induction false} ClaimsAreDistinct(dc: seq<Tree>, used: seq<bool>, s: Tree, i: nat, k: nat, l: nat)
    requires |used| == |dc| && k < l && i + l < |s.content|
    ensures |Claims(dc, used, s, i)| == |s.content| - i
    ensures var c := Claims(dc, used, s, i); c[k] != -1 ==> c[k] != c[l]
    decreases |s.content| - i
  {
    var m := MatchItem(dc, used, s.content[i]);
    MatchFound(dc, used, Identity(s.content[i]), 0);
    var used' := if m == -1 then used else used[m := true];
    MergeItemsByClaims(dc, used', s, i + 1, l - 1);
    if k > 0 {
      ClaimsAreDistinct(dc, used', s, i + 1, k - 1, l - 1);
    }
  }

  /** A named source item that claims nothing found every destination item of its name taken. */
  lemma {:induction false} ClaimsAreComplete(dc: seq<Tree>, used: seq<bool>, s: Tree, i: nat, k: nat, q: nat)
    requires |used| == |dc| && i + k < |s.content| && q < |dc| && !used[q]
    requires "" != Identity(s.content[i + k]) == Identity(dc[q])
    ensures |Claims(dc, used, s, i)| == |s.content| - i
    ensures var c := Claims(dc, used, s, i); c[k] != -1 || exists l | 0 <= l < k :: c[l] == q
    decreases |s.content| - i
  {
    MergeItemsByClaims(dc, used, s, i, k);
    var m := MatchItem(dc, used, s.content[i]);
    MatchFound(dc, used, Identity(s.content[i]), 0);
    var used' := if m == -1 then used else used[m := true];
    var c := Claims(dc, used, s, i);
    if k > 0 && m != q {
      ClaimsAreComplete(dc, used', s, i + 1, k - 1, q);
      var c' := Claims(dc, used', s, i + 1);
      if c'[k - 1] == -1 {
        var l :| 0 <= l < k - 1 && c'[l] == q;
        assert c[l + 1] == q;
      }
    } else if k > 0 {
      assert c[0] == q;
    }
  }

  // ---- The merged document carries the source ----

  /**
   `t` carries every value `s` declares. A mapping may hold further keys; a sequence has the
   source's items, and an item without a name is the source's own.
   */
  predicate Carries(t: Tree, s: Tree)
    decreases s
  {
    if s.kind == MappingNode then
      && t.kind == MappingNode && |t.content| % 2 == 0
      && forall q | 0 <= q < |s.content| - 1 && q % 2 == 0 ::
           && Lookup(t.content, s.content[q].value).Some?
           && Carries(Lookup(t.content, s.content[q].value).value, s.content[q + 1])
    else if s.kind == SequenceNode then
      && t.kind == SequenceNode && |t.content| == |s.content|
      && forall k | 0 <= k < |s.content| ::
           && Carries(t.content[k], s.content[k])
           && (Identity(s.content[k]) == "" ==> t.content[k] == s.content[k])
    else
      SameValue(t, s)
  }

  /** Two nodes that differ in their comments at most. */
  predicate SameValue(t: Tree, s: Tree) {
    && t.kind == s.kind && t.tag == s.tag && t.value == s.value && t.style == s.style && t.anchor == s.anchor
    && t.content == s.content
  }

  lemma LookupAt(content: seq<Tree>, q: nat)
    requires DistinctKeys(content) && q < |content| && q % 2 == 0
    ensures Lookup(content, content[q].value) == Some(content[q + 1])
  {
    FindKeyFound(content, content[q].value, 0);
  }

  lemma {:induction false} CarriesReplaced(t: Tree, s: Tree)
    requires WellKeyed(s) && SameValue(t, s)
    ensures Carries(t, s)
    decreases s
  {
    if s.kind == MappingNode {
      forall q | 0 <= q < |s.content| && q % 2 == 0
        ensures Lookup(t.content, s.content[q].value).Some?
        ensures Carries(Lookup(t.content, s.content[q].value).value, s.content[q + 1])
      {
        LookupAt(s.content, q);
        CarriesReplaced(s.content[q + 1], s.content[q + 1]);
      }
    } else if s.kind == SequenceNode {
      forall k | 0 <= k < |s.content| ensures Carries(s.content[k], s.content[k]) {
        CarriesReplaced(s.content[k], s.content[k]);
      }
    }
  }

  /** Mappings of the destination pair their keys with values, as every parsed mapping does. */
  predicate Paired(t: Tree)
    decreases t
  {
    && (t.kind == MappingNode ==> |t.content| % 2 == 0)
    && forall k | 0 <= k < |t.content| :: Paired(t.content[k])
  }

  /** Main result: after the merge, every key the source declares carries the source's value. */
  lemma {:induction false} MergeCarries(d: Tree, s: Tree)
    requires Paired(d) && WellKeyed(s)
    ensures Carries(MergeValue(d, s), s)
    decreases s
  {
    var t := MergeValue(d, s);
    if d.kind == MappingNode && s.kind == MappingNode {
      forall q | 0 <= q < |s.content| && q % 2 == 0
        ensures Lookup(t.content, s.content[q].value).Some?
        ensures Carries(Lookup(t.content, s.content[q].value).value, s.content[q + 1])
      {
        var key, val := s.content[q].value, s.content[q + 1];
        LookupAt(s.content, q);
        MergePairsLookup(d.content, s, 0, key);
        FindKeyFound(d.content, key, 0);
        match Lookup(d.content, key) {
          case None => CarriesReplaced(val, val);
          case Some(old_) => MergeCarries(old_, val);
        }
      }
      MergePairsLookup(d.content, s, 0, "");
    } else if d.kind == SequenceNode && s.kind == SequenceNode {
      var c := Claims(d.content, NoneUsed(|d.content|), s, 0);
      MergeItemsLength(d.content, NoneUsed(|d.content|), s, 0);
      forall k | 0 <= k < |s.content|
        ensures Carries(t.content[k], s.content[k])
        ensures Identity(s.content[k]) == "" ==> t.content[k] == s.content[k]
      {
        MergeItemsByClaims(d.content, NoneUsed(|d.content|), s, 0, k);
        if c[k] == -1 {
          CarriesReplaced(s.content[k], s.content[k]);
        } else {
          MergeCarries(d.content[c[k]], s.content[k]);
        }
      }
    } else {
      CarriesReplaced(t, s);
    }
  }

  // ---- What becomes of the old document's comments ----

  /**
   A node merged into a node of its own kind keeps all the old node says of itself; any other takes
   everything from the source but the comment.
   */
  lemma MergedNode(d: Tree, s: Tree)
    ensures var t := MergeValue(d, s);
            && t.comment == d.comment
            && if d.kind == s.kind && (d.kind == MappingNode || d.kind == SequenceNode)
               then t.kind == d.kind && t.tag == d.tag && t.value == d.value && t.style == d.style
                    && t.anchor == d.anchor
               else SameValue(t, s)
  {
  }

  /**
   `t` has the comments of `d` wherever `s` was merged into `d`: on the node itself, under every key both
   have, and on every item that an item of the source claimed, at any depth.
   */
  predicate KeepsComments(d: Tree, s: Tree, t: Tree)
    decreases s
  {
    && t.comment == d.comment
    && (d.kind == MappingNode && s.kind == MappingNode ==>
          forall q | 0 <= q < |s.content| - 1 && q % 2 == 0 && Lookup(d.content, s.content[q].value).Some? ::
            && Lookup(t.content, s.content[q].value).Some?
            && KeepsComments(Lookup(d.content, s.content[q].value).value, s.content[q + 1],
                             Lookup(t.content, s.content[q].value).value))
    && (d.kind == SequenceNode && s.kind == SequenceNode ==>
          var c := Claims(d.content, NoneUsed(|d.content|), s, 0);
          && |c| == |t.content| == |s.content|
          && forall k | 0 <= k < |s.content| && 0 <= c[k] < |d.content| ::
               KeepsComments(d.content[c[k]], s.content[k], t.content[k]))
  }

  /** Main result: a merge keeps the old document's comments at any depth. */
  lemma {:induction false} MergeKeepsComments(d: Tree, s: Tree)
    requires Paired(d) && WellKeyed(s)
    ensures KeepsComments(d, s, MergeValue(d, s))
    decreases s
  {
    var t := MergeValue(d, s);
    MergedNode(d, s);
    if d.kind == MappingNode && s.kind == MappingNode {
      forall q | 0 <= q < |s.content| - 1 && q % 2 == 0 && Lookup(d.content, s.content[q].value).Some?
        ensures Lookup(t.content, s.content[q].value).Some?
        ensures KeepsComments(Lookup(d.content, s.content[q].value).value, s.content[q + 1],
                              Lookup(t.content, s.content[q].value).value)
      {
        LookupAt(s.content, q);
        MergePairsLookup(d.content, s, 0, s.content[q].value);
        FindKeyFound(d.content, s.content[q].value, 0);
        MergeKeepsComments(Lookup(d.content, s.content[q].value).value, s.content[q + 1]);
      }
    } else if d.kind == SequenceNode && s.kind == SequenceNode {
      SequenceKeepsComments(d, s);
    }
  }

  lemma {:induction false} SequenceKeepsComments(d: Tree, s: Tree)
    requires d.kind == s.kind == SequenceNode && Paired(d) && WellKeyed(s)
    ensures KeepsComments(d, s, MergeValue(d, s))
    decreases s, 0
  {
    var used := NoneUsed(|d.content|);
    var c := Claims(d.content, used, s, 0);
    MergedNode(d, s);
    ClaimsLength(d.content, used, s, 0);
    MergeItemsLength(d.content, used, s, 0);
    forall k | 0 <= k < |s.content| && 0 <= c[k] < |d.content|
      ensures KeepsComments(d.content[c[k]], s.content[k], MergeValue(d, s).content[k])
    {
      MergeItemsByClaims(d.content, used, s, 0, k);
      MergeKeepsComments(d.content[c[k]], s.content[k]);
    }
  }

  // ---- Merging again changes nothing ----

  lemma {:induction false} IdentityCarried(t: Tree, s: Tree)
    requires WellKeyed(s) && Carries(t, s) && Identity(s) != ""
    ensures Identity(t) == Identity(s)
  {
    var q := IdentityAt(s.content, 0);
    FindKeyFound(t.content, "name", 0);
    IdentityAtFirst(t.content, 0);
  }

  /** The index of the "name" key an identity comes from. */
  lemma {:induction false} IdentityAt(content: seq<Tree>, i: nat) returns (q: nat)
    requires IdentityFrom(content, i) != ""
    ensures i <= q < |content| - 1 && (q - i) % 2 == 0
    ensures content[q].value == "name" && content[q + 1].kind == ScalarNode
    ensures content[q + 1].value == IdentityFrom(content, i)
    decreases |content| - i
  {
    if content[i].value == "name" && content[i + 1].kind == ScalarNode {
      q := i;
    } else {
      q := IdentityAt(content, i + 2);
    }
  }

  lemma {:induction false} IdentityAtFirst(content: seq<Tree>, i: nat)
    ensures var j := FindKeyFrom(content, "name", i);
            j != -1 && 0 <= j < |content| - 1 && content[j + 1].kind == ScalarNode
            ==> IdentityFrom(content, i) == content[j + 1].value
    decreases |content| - i
  {
    if i + 1 < |content| && content[i].value != "name" {
      IdentityAtFirst(content, i + 2);
    }
  }

  /** Merging the source's pair at `q` changes nothing. */
  predicate FixedPair(dc: seq<Tree>, s: Tree, q: nat)
    requires q + 1 < |s.content|
  {
    MergeOne(dc, s.content[q], s.content[q + 1]) == dc
  }

  lemma {:induction false} FixedPairs(dc: seq<Tree>, s: Tree, i: nat)
    requires i % 2 == 0 && forall q | 0 <= q < |s.content| - 1 && q % 2 == 0 :: FixedPair(dc, s, q)
    ensures MergePairs(dc, s, i) == dc
    decreases |s.content| - i
  {
    if i + 1 < |s.content| {
      assert FixedPair(dc, s, i);
      FixedPairs(dc, s, i + 2);
    }
  }

  /** A merged item is the source's own when it has no name, else it has the name and is a fixed point. */
  predicate FixedItem(dc: seq<Tree>, s: Tree, k: nat)
    requires k < |dc| == |s.content|
  {
    if Identity(s.content[k]) == "" then dc[k] == s.content[k]
    else Identity(dc[k]) == Identity(s.content[k]) && MergeValue(dc[k], s.content[k]) == dc[k]
  }

  /** The items before `i` that a second merge has claimed: exactly the named ones. */
  ghost predicate NamedUsed(s: Tree, used: seq<bool>, i: nat) {
    |used| == |s.content| &&
    forall k | 0 <= k < |used| :: used[k] <==> k < i && Identity(s.content[k]) != ""
  }

  /** A named item finds the item it was merged into: every one before it is claimed or has no name. */
  lemma NamedFindsItself(dc: seq<Tree>, s: Tree, used: seq<bool>, i: nat)
    requires |dc| == |s.content| && forall k | 0 <= k < |dc| :: FixedItem(dc, s, k)
    requires i < |dc| && NamedUsed(s, used, i) && Identity(s.content[i]) != ""
    ensures Match(dc, used, Identity(s.content[i]), 0) == i
  {
    assert FixedItem(dc, s, i);
    MatchFound(dc, used, Identity(s.content[i]), 0);
    forall k | 0 <= k < i && !used[k] ensures Identity(dc[k]) == "" {
      assert FixedItem(dc, s, k);
    }
  }

  lemma {:induction false} FixedItems(dc: seq<Tree>, s: Tree, used: seq<bool>, i: nat)
    requires |dc| == |s.content| && forall k | 0 <= k < |dc| :: FixedItem(dc, s, k)
    requires i <= |dc| && NamedUsed(s, used, i)
    ensures MergeItems(dc, used, s, i) == dc[i..]
    decreases |dc| - i
  {
    if i < |dc| {
      assert FixedItem(dc, s, i);
      if Identity(s.content[i]) == "" {
        FixedItems(dc, s, used, i + 1);
      } else {
        NamedFindsItself(dc, s, used, i);
        FixedItems(dc, s, used[i := true], i + 1);
      }
    }
  }

  lemma {:induction false} CarriedPair(t: Tree, s: Tree, q: nat)
    requires t.kind == s.kind == MappingNode && WellKeyed(s) && Carries(t, s)
    requires q % 2 == 0 && q + 1 < |s.content|
    ensures FixedPair(t.content, s, q)
    decreases s, 0
  {
    var key, val := s.content[q].value, s.content[q + 1];
    FindKeyFound(t.content, key, 0);
    var found := Lookup(t.content, key).value;
    assert Carries(found, val) && WellKeyed(val);
    MergeFixed(found, val);
  }

  lemma {:induction false} CarriedItem(t: Tree, s: Tree, k: nat)
    requires t.kind == s.kind == SequenceNode && WellKeyed(s) && Carries(t, s) && k < |s.content|
    ensures |t.content| == |s.content| && FixedItem(t.content, s, k)
    decreases s, 0
  {
    assert Carries(t.content[k], s.content[k]) && WellKeyed(s.content[k]);
    if Identity(s.content[k]) != "" {
      IdentityCarried(t.content[k], s.content[k]);
      MergeFixed(t.content[k], s.content[k]);
    }
  }

  /** A tree that carries the source is a fixed point of merging it. */
  lemma {:induction false} MergeFixed(t: Tree, s: Tree)
    requires WellKeyed(s) && Carries(t, s)
    ensures MergeValue(t, s) == t
    decreases s, 1
  {
    if s.kind == MappingNode {
      forall q | 0 <= q < |s.content| - 1 && q % 2 == 0 ensures FixedPair(t.content, s, q) {
        CarriedPair(t, s, q);
      }
      FixedPairs(t.content, s, 0);
    } else if s.kind == SequenceNode {
      forall k | 0 <= k < |s.content| ensures |t.content| == |s.content| && FixedItem(t.content, s, k) {
        CarriedItem(t, s, k);
      }
      FixedItems(t.content, s, NoneUsed(|t.content|), 0);
    }
  }

  /** Main result: merging the same source a second time changes nothing. */
  lemma MergeIdempotent(d: Tree, s: Tree)
    requires Paired(d) && WellKeyed(s)
    ensures MergeValue(MergeValue(d, s), s) == MergeValue(d, s)
  {
    MergeCarries(d, s);
    MergeFixed(MergeValue(d, s), s);
  }

  // ---- What the destination keeps ----

  /**
   A sequence item merged into one of the same name keeps that item's comment, and every key the
   source's item does not have keeps its value.
   */
  lemma NamedItemKeepsRest(d: Tree, s: Tree, k: nat, key: string)
    requires d.kind == s.kind == SequenceNode && Paired(d) && WellKeyed(s) && k < |s.content|
    requires Lookup(s.content[k].content, key).None?
    ensures var c, t := Claims(d.content, NoneUsed(|d.content|), s, 0), MergeValue(d, s);
            && |t.content| == |s.content| == |c| && -1 <= c[k] < |d.content|
            && (c[k] != -1 && d.content[c[k]].kind == MappingNode ==>
                  && t.content[k].comment == d.content[c[k]].comment
                  && Lookup(t.content[k].content, key) == Lookup(d.content[c[k]].content, key))
  {
    MergeItemsByClaims(d.content, NoneUsed(|d.content|), s, 0, k);
    var c := Claims(d.content, NoneUsed(|d.content|), s, 0);
    if c[k] != -1 && d.content[c[k]].kind == MappingNode {
      assert WellKeyed(s.content[k]) && Paired(d.content[c[k]]);
      MergePairsLookup(d.content[c[k]].content, s.content[k], 0, key);
    }
  }
}
