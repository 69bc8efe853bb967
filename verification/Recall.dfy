/**
 Recall over projections (internal/recall/vanta.go: searchVector, Related, resolveResults,
 projectionRecallLimit).

 A fragment may be projected twice, so recall asks for more hits than the caller wants and drops
 repeats. The engine's ranking and the fragment table are parameters; scores are reals.
 */
module Recall {
  import opened Wrappers
  import opened Sorting
  import opened Text

  /** The largest value of the source's `int`. */
  const MAX_INT := 0x7FFF_FFFF_FFFF_FFFF

  datatype Hit = Hit(memoryKey: string, score: Option<real>, summary: string)

  datatype Fragment = Fragment(id: string, summary: string)

  datatype SearchResult = SearchResult(fragment: Fragment, key: string, score: real, snippet: string)

  /** The fragment table: what a key names, if anything. */
  type Table = string -> Option<Fragment>

  function Key(h: Hit): string {
    Trim(h.memoryKey)
  }

  predicate Wanted(t: Table, skip: string, h: Hit) {
    Key(h) != "" && Key(h) != skip && t(Key(h)).Some?
  }

  function ResultOf(t: Table, skip: string, h: Hit): SearchResult
    requires Wanted(t, skip, h)
  {
    var f := t(Key(h)).value;
    SearchResult(f, Key(h), if h.score.Some? then h.score.value else 0.0,
                 if h.summary == "" then f.summary else h.summary)
  }

  predicate Has(results: seq<SearchResult>, key: string) {
    exists i | 0 <= i < |results| :: results[i].key == key
  }

  /** The whole ranking without repeats: the first hit of every key that is wanted. */
  function Deduplicated(t: Table, skip: string, hits: seq<Hit>): seq<SearchResult> {
    if hits == [] then []
    else
      var rest, h := Deduplicated(t, skip, hits[..|hits| - 1]), hits[|hits| - 1];
      if Wanted(t, skip, h) && !Has(rest, Key(h)) then rest + [ResultOf(t, skip, h)] else rest
  }

  /** The first `limit` results; a limit of zero is no limit. */
  function FirstOf(results: seq<SearchResult>, limit: nat): seq<SearchResult> {
    if limit > 0 && |results| > limit then results[..limit] else results
  }

  // ---- resolveResults ----

  ghost predicate Seen(seen: set<string>, results: seq<SearchResult>) {
    forall key :: key in seen <==> Has(results, key)
  }

  lemma SeenGrows(seen: set<string>, out: seq<SearchResult>, r: SearchResult)
    requires Seen(seen, out)
    ensures Seen(seen + {r.key}, out + [r])
  {
    AddedKey(out, r);
  }

  method ResolveResults(t: Table, hits: seq<Hit>, skip: string, limit: nat) returns (out: seq<SearchResult>)
    ensures out == FirstOf(Deduplicated(t, skip, hits), limit)
  {
    out := [];
    var seen: set<string> := {};
    var i := 0;
    while i < |hits|
      invariant i <= |hits| && out == Deduplicated(t, skip, hits[..i])
      invariant Seen(seen, out)
      invariant limit > 0 ==> |out| < limit
    {
      var key := Trim(hits[i].memoryKey);
      assert hits[..i + 1][..i] == hits[..i];
      i := i + 1;
      if key == "" || key == skip || key in seen {
        continue;
      }
      if t(key).None? {
        continue;
      }
      SeenGrows(seen, out, ResultOf(t, skip, hits[i - 1]));
      seen := seen + {key};
      out := out + [ResultOf(t, skip, hits[i - 1])];
      if limit > 0 && |out| >= limit {
        PrefixResults(t, skip, hits, i);
        return;
      }
    }
    assert hits[..|hits|] == hits;
  }

  lemma AddedKey(out: seq<SearchResult>, r: SearchResult)
    ensures forall key :: Has(out + [r], key) <==> Has(out, key) || key == r.key
  {
    assert (out + [r])[|out|] == r;
    forall key
      ensures Has(out + [r], key) <==> Has(out, key) || key == r.key
    {
      if Has(out, key) {
        var i :| 0 <= i < |out| && out[i].key == key;
        assert (out + [r])[i].key == key;
      }
    }
  }

  /** Fewer hits give the first of the results. */
  lemma {:induction false} PrefixResults(t: Table, skip: string, hits: seq<Hit>, n: nat)
    requires n <= |hits|
    ensures Deduplicated(t, skip, hits[..n]) <= Deduplicated(t, skip, hits)
  {
    if n == |hits| {
      assert hits[..n] == hits;
    } else {
      PrefixResults(t, skip, hits[..|hits| - 1], n);
      assert hits[..|hits| - 1][..n] == hits[..n];
    }
  }

  // ---- How many hits to ask for ----

  function ProjectionRecallLimit(limit: int): (n: int)
    ensures n <= MAX_INT || limit > MAX_INT
  {
    if limit > 0 && limit <= MAX_INT / 2 then limit * 2 else limit
  }

  /** Recall of a query: the engine's ranking for a number of hits, or an error. */
  type Engine = int -> Option<seq<Hit>>

  method SearchVector(t: Table, engine: Engine, base: seq<SearchResult>, limit: nat)
    returns (results: seq<SearchResult>, fellBack: bool)
    ensures var recalled := engine(ProjectionRecallLimit(limit));
            var resolved := if recalled.None? then [] else FirstOf(Deduplicated(t, "", recalled.value), limit);
            fellBack == (resolved == []) && results == if fellBack then base else resolved
  {
    var recalled := engine(ProjectionRecallLimit(limit));
    if recalled.None? {
      return base, true;
    }
    results := ResolveResults(t, recalled.value, "", limit);
    if |results| == 0 {
      return base, true;
    }
    return results, false;
  }

  method Related(t: Table, engine: Engine, base: seq<SearchResult>, fragment: string, limit: nat)
    returns (results: seq<SearchResult>)
    ensures var recalled := engine(ProjectionRecallLimit(limit + 3));
            var resolved := if recalled.None? then [] else FirstOf(Deduplicated(t, fragment, recalled.value), limit);
            results == if resolved == [] then base else resolved
  {
    var recalled := engine(ProjectionRecallLimit(limit + 3));
    if recalled.None? {
      return base;
    }
    results := ResolveResults(t, recalled.value, fragment, limit);
    if |results| == 0 {
      return base;
    }
  }

  // ---- Asking for fewer hits than there are ----

  /**
   Asking for the first `n` hits gives what the whole ranking would exactly when they hold as many
   distinct wanted keys as the caller asked for, or all there are.
   */
  lemma OverfetchExactly(t: Table, skip: string, ranking: seq<Hit>, n: nat, limit: nat)
    requires n <= |ranking| && limit > 0
    ensures FirstOf(Deduplicated(t, skip, ranking[..n]), limit) == FirstOf(Deduplicated(t, skip, ranking), limit)
       <==> || |Deduplicated(t, skip, ranking[..n])| >= limit
            || |Deduplicated(t, skip, ranking[..n])| == |Deduplicated(t, skip, ranking)|
  {
    PrefixResults(t, skip, ranking, n);
  }

  // ---- Counting keys ----

  function Keys(hits: seq<Hit>): (keys: seq<string>)
    ensures |keys| == |hits| && forall i | 0 <= i < |hits| :: keys[i] == Key(hits[i])
  {
    seq(|hits|, i requires 0 <= i < |hits| => Key(hits[i]))
  }

  function ResultKeys(results: seq<SearchResult>): (keys: seq<string>)
    ensures |keys| == |results| && forall i | 0 <= i < |results| :: keys[i] == results[i].key
  {
    seq(|results|, i requires 0 <= i < |results| => results[i].key)
  }

  ghost predicate AtMostTwice(hits: seq<Hit>) {
    forall key :: multiset(Keys(hits))[key] <= 2
  }

  /** Keys that occur at most twice are at most twice as many as the different ones. */
  lemma {:induction false} KeysAreHalf(keys: multiset<string>, different: set<string>)
    requires (forall key :: keys[key] <= 2) && forall key | key in keys :: key in different
    ensures |keys| <= 2 * |different|
    decreases |different|
  {
    if keys != multiset{} {
      var key :| key in keys;
      KeysAreHalf(keys[key := 0], different - {key});
    }
  }

  ghost predicate AllResolve(t: Table, hits: seq<Hit>) {
    forall i | 0 <= i < |hits| :: Key(hits[i]) != "" && t(Key(hits[i])).Some?
  }

  /** The different keys but the skipped one, in order. */
  function Different(keys: seq<string>, skip: string): seq<string> {
    if keys == [] then []
    else
      var rest, key := Different(keys[..|keys| - 1], skip), keys[|keys| - 1];
      if key != skip && key !in rest then rest + [key] else rest
  }

  lemma {:induction false} DifferentCounts(keys: seq<string>, skip: string)
    ensures var d := Different(keys, skip);
            (forall key :: key in d <==> key in keys && key != skip) && |d| == |Members(keys) - {skip}|
  {
    if keys == [] {
      assert Members(keys) - {skip} == {};
    } else {
      var init, key := keys[..|keys| - 1], keys[|keys| - 1];
      DifferentCounts(init, skip);
      assert keys == init + [key];
      DifferentStep(init, key, skip);
    }
  }

  lemma DifferentStep(init: seq<string>, key: string, skip: string)
    ensures |Members(init + [key]) - {skip}| == |Members(init) - {skip}| + (if key == skip || key in init then 0 else 1)
  {
    var before, after := Members(init) - {skip}, Members(init + [key]) - {skip};
    if key == skip || key in init {
      assert after == before;
    } else {
      assert after == before + {key};
    }
  }

  lemma HasKey(results: seq<SearchResult>, key: string)
    ensures Has(results, key) <==> key in ResultKeys(results)
  {
    var keys := ResultKeys(results);
    if key in keys {
      var i :| 0 <= i < |keys| && keys[i] == key;
      assert results[i].key == key;
    }
    if Has(results, key) {
      var i :| 0 <= i < |results| && results[i].key == key;
      assert keys[i] == key;
    }
  }

  /** When every key resolves, there is one result for each key but the skipped one. */
  lemma {:induction false} OneResultEach(t: Table, skip: string, hits: seq<Hit>)
    requires AllResolve(t, hits)
    ensures ResultKeys(Deduplicated(t, skip, hits)) == Different(Keys(hits), skip)
  {
    if hits != [] {
      var init, last := hits[..|hits| - 1], hits[|hits| - 1];
      OneResultEach(t, skip, init);
      assert Keys(hits)[..|hits| - 1] == Keys(init);
      HasKey(Deduplicated(t, skip, init), Key(last));
    }
  }

  lemma FewerTwice(ranking: seq<Hit>, n: nat)
    requires AtMostTwice(ranking) && n <= |ranking|
    ensures AtMostTwice(ranking[..n])
  {
    var keys := Keys(ranking);
    assert Keys(ranking[..n]) == keys[..n];
    assert keys == keys[..n] + keys[n..];
    assert multiset(keys) == multiset(keys[..n]) + multiset(keys[n..]);
    forall key
      ensures multiset(Keys(ranking[..n]))[key] <= 2
    {
      assert multiset(Keys(ranking))[key] <= 2;
    }
  }

  lemma MembersCount(keys: seq<string>, skip: string)
    ensures |Members(keys)| <= |Different(keys, skip)| + (if skip in keys then 1 else 0)
  {
    DifferentCounts(keys, skip);
    if skip in keys {
      assert Members(keys) == (Members(keys) - {skip}) + {skip};
    } else {
      assert Members(keys) == Members(keys) - {skip};
    }
  }

  /** The first `n` hits have at least half as many results, one less for a skipped key. */
  lemma EnoughResults(t: Table, skip: string, ranking: seq<Hit>, n: nat)
    requires AtMostTwice(ranking) && AllResolve(t, ranking) && n <= |ranking|
    ensures n <= 2 * |Deduplicated(t, skip, ranking[..n])| + (if skip == "" then 0 else 2)
  {
    var hits := ranking[..n];
    FewerTwice(ranking, n);
    KeysAreHalf(multiset(Keys(hits)), Members(Keys(hits)));
    OneResultEach(t, skip, hits);
    MembersCount(Keys(hits), skip);
    if skip in Keys(hits) {
      var i :| 0 <= i < |hits| && Keys(hits)[i] == skip;
      assert Key(hits[i]) != "";
    }
  }

  lemma EnoughIsAll(a: seq<SearchResult>, b: seq<SearchResult>, limit: nat)
    requires a <= b && 0 < limit <= |a|
    ensures FirstOf(a, limit) == FirstOf(b, limit)
  {
  }

  function FirstHits(ranking: seq<Hit>, n: int): seq<Hit> {
    if 0 < n < |ranking| then ranking[..n] else ranking
  }

  /** The engine's answer when it is asked for `n` hits: the first `n`, or all there are. */
  lemma FirstHitsExactly(ranking: seq<Hit>, n: int)
    ensures FirstHits(ranking, n) <= ranking
    ensures 0 < n ==> |FirstHits(ranking, n)| == if n <= |ranking| then n else |ranking|
  {
  }

  /** Twice the limit is enough hits, and two more when a key is skipped. */
  lemma HitsAreEnough(t: Table, skip: string, ranking: seq<Hit>, n: nat, limit: nat)
    requires AtMostTwice(ranking) && AllResolve(t, ranking) && 0 < limit
    requires 2 * limit + (if skip == "" then 0 else 2) <= n
    ensures FirstOf(Deduplicated(t, skip, FirstHits(ranking, n)), limit)
         == FirstOf(Deduplicated(t, skip, ranking), limit)
  {
    if n < |ranking| {
      EnoughResults(t, skip, ranking, n);
      PrefixResults(t, skip, ranking, n);
      EnoughIsAll(Deduplicated(t, skip, ranking[..n]), Deduplicated(t, skip, ranking), limit);
    }
  }

  /**
   Main result: when each key occurs at most twice in the ranking and every key resolves, asking for
   twice the limit gives exactly the first `limit` of the whole ranking without repeats. A limit too
   large to be doubled is more than any ranking holds.
   */
  lemma OverfetchIsEnough(t: Table, ranking: seq<Hit>, limit: nat)
    requires AtMostTwice(ranking) && AllResolve(t, ranking) && 0 < limit && |ranking| <= MAX_INT / 2
    ensures FirstOf(Deduplicated(t, "", FirstHits(ranking, ProjectionRecallLimit(limit))), limit)
         == FirstOf(Deduplicated(t, "", ranking), limit)
  {
    if limit <= MAX_INT / 2 {
      HitsAreEnough(t, "", ranking, ProjectionRecallLimit(limit), limit);
    }
  }

  /** And so does asking for twice three more when one fragment is to be left out. */
  lemma OverfetchAroundSkip(t: Table, skip: string, ranking: seq<Hit>, limit: nat)
    requires AtMostTwice(ranking) && AllResolve(t, ranking) && 0 < limit && |ranking| <= MAX_INT / 2
    ensures FirstOf(Deduplicated(t, skip, FirstHits(ranking, ProjectionRecallLimit(limit + 3))), limit)
         == FirstOf(Deduplicated(t, skip, ranking), limit)
  {
    if limit + 3 <= MAX_INT / 2 {
      HitsAreEnough(t, skip, ranking, ProjectionRecallLimit(limit + 3), limit);
    }
  }

  /** The results are distinct, wanted, and in the order their keys are first ranked. */
  lemma {:induction false} ResultsAreFirstHits(t: Table, skip: string, hits: seq<Hit>, i: nat)
    requires i < |Deduplicated(t, skip, hits)|
    ensures exists k | 0 <= k < |hits| ::
              && Wanted(t, skip, hits[k]) && Deduplicated(t, skip, hits)[i] == ResultOf(t, skip, hits[k])
              && |Deduplicated(t, skip, hits[..k])| == i && !Has(Deduplicated(t, skip, hits[..k]), Key(hits[k]))
  {
    var init := hits[..|hits| - 1];
    if i < |Deduplicated(t, skip, init)| {
      ResultsAreFirstHits(t, skip, init, i);
      var k :| 0 <= k < |init|
        && Wanted(t, skip, init[k]) && Deduplicated(t, skip, init)[i] == ResultOf(t, skip, init[k])
        && |Deduplicated(t, skip, init[..k])| == i && !Has(Deduplicated(t, skip, init[..k]), Key(init[k]));
      assert init[..k] == hits[..k] && init[k] == hits[k];
    } else {
      assert hits[..|hits| - 1] == init;
    }
  }

  /** And every wanted hit's key has a result. */
  lemma {:induction false} EveryWantedKeyIsThere(t: Table, skip: string, hits: seq<Hit>, k: nat)
    requires k < |hits| && Wanted(t, skip, hits[k])
    ensures Has(Deduplicated(t, skip, hits), Key(hits[k]))
  {
    var last := hits[|hits| - 1];
    if k < |hits| - 1 {
      EveryWantedKeyIsThere(t, skip, hits[..|hits| - 1], k);
    }
    if Wanted(t, skip, last) {
      AddedKey(Deduplicated(t, skip, hits[..|hits| - 1]), ResultOf(t, skip, last));
    }
  }

  /** A hit that may give a result: it has a key, not the one left out, and the key names a fragment. */
  predicate Gives(t: Table, skip: string, h: Hit) {
    var key := Trim(h.memoryKey);
    key != "" && key != skip && t(key).Some?
  }

  /** The result a hit gives: the fragment its key names, its score or zero, its summary or the fragment's. */
  predicate GivesResult(t: Table, h: Hit, r: SearchResult) {
    && r.key == Trim(h.memoryKey) && t(r.key) == Some(r.fragment)
    && (h.score.Some? ==> r.score == h.score.value) && (h.score.None? ==> r.score == 0.0)
    && (h.summary != "" ==> r.snippet == h.summary) && (h.summary == "" ==> r.snippet == r.fragment.summary)
  }

  lemma GivesExactly(t: Table, skip: string, h: Hit)
    ensures Wanted(t, skip, h) <==> Gives(t, skip, h)
    ensures Gives(t, skip, h) ==> GivesResult(t, h, ResultOf(t, skip, h))
  {
  }

  /**
   Main result: every result is the one a hit gives, no key comes twice, there are as many as the limit
   allows, and none of them is left out while there is room.
   */
  lemma ResultsSay(t: Table, skip: string, hits: seq<Hit>, limit: nat)
    ensures var out := FirstOf(Deduplicated(t, skip, hits), limit);
            && (limit > 0 ==> |out| <= limit)
            && (forall i | 0 <= i < |out| ::
                  exists k | 0 <= k < |hits| :: Gives(t, skip, hits[k]) && GivesResult(t, hits[k], out[i]))
            && (forall i, j | 0 <= i < j < |out| :: out[i].key != out[j].key)
            && (limit == 0 || |out| < limit ==>
                  forall k | 0 <= k < |hits| && Gives(t, skip, hits[k]) :: Has(out, Trim(hits[k].memoryKey)))
  {
    var all := Deduplicated(t, skip, hits);
    forall i | 0 <= i < |all|
      ensures exists k | 0 <= k < |hits| :: Gives(t, skip, hits[k]) && GivesResult(t, hits[k], all[i])
    {
      var k := ResultIsNamed(t, skip, hits, i);
      GivesExactly(t, skip, hits[k]);
    }
    forall i, j | 0 <= i < j < |all|
      ensures all[i].key != all[j].key
    {
      ResultKeysDiffer(t, skip, hits, i, j);
    }
    forall k | 0 <= k < |hits| && Gives(t, skip, hits[k])
      ensures Has(all, Trim(hits[k].memoryKey))
    {
      GivesExactly(t, skip, hits[k]);
      EveryWantedKeyIsThere(t, skip, hits, k);
    }
  }

  /** Twice as many hits are asked for, unless that is more than an `int` holds or there is no limit. */
  lemma RecallLimitExactly(limit: int)
    requires limit <= MAX_INT
    ensures 0 < limit && 2 * limit <= 0x7FFF_FFFF_FFFF_FFFF ==> ProjectionRecallLimit(limit) == 2 * limit
    ensures limit <= 0 || 2 * limit > 0x7FFF_FFFF_FFFF_FFFF ==> ProjectionRecallLimit(limit) == limit
  {
  }

  // ---- Fragments under two keys ----

  /** A result is what its key names. */
  lemma ResultIsNamed(t: Table, skip: string, hits: seq<Hit>, i: nat) returns (k: nat)
    requires i < |Deduplicated(t, skip, hits)|
    ensures k < |hits| && Wanted(t, skip, hits[k]) && Deduplicated(t, skip, hits)[i] == ResultOf(t, skip, hits[k])
  {
    ResultsAreFirstHits(t, skip, hits, i);
    k :| 0 <= k < |hits| && Wanted(t, skip, hits[k]) && Deduplicated(t, skip, hits)[i] == ResultOf(t, skip, hits[k]);
  }

  lemma {:induction false} ResultKeysDiffer(t: Table, skip: string, hits: seq<Hit>, i: nat, j: nat)
    requires i < j < |Deduplicated(t, skip, hits)|
    ensures Deduplicated(t, skip, hits)[i].key != Deduplicated(t, skip, hits)[j].key
  {
    var init := hits[..|hits| - 1];
    if j < |Deduplicated(t, skip, init)| {
      ResultKeysDiffer(t, skip, init, i, j);
    }
  }

  /** Two wanted hits whose keys are different names of one fragment. */
  predicate SameFragment(t: Table, skip: string, g: Hit, h: Hit) {
    && Wanted(t, skip, g) && Wanted(t, skip, h) && Key(g) != Key(h)
    && t(Key(g)).value.id == t(Key(h)).value.id
  }

  predicate EachOnce(results: seq<SearchResult>) {
    forall i, j | 0 <= i < j < |results| :: results[i].fragment.id != results[j].fragment.id
  }

  lemma TwoNamesTwoResults(t: Table, skip: string, hits: seq<Hit>, a: nat, b: nat)
    requires a < |hits| && b < |hits| && SameFragment(t, skip, hits[a], hits[b])
    ensures !EachOnce(Deduplicated(t, skip, hits))
  {
    var results := Deduplicated(t, skip, hits);
    EveryWantedKeyIsThere(t, skip, hits, a);
    EveryWantedKeyIsThere(t, skip, hits, b);
    var i: nat :| i < |results| && results[i].key == Key(hits[a]);
    var j: nat :| j < |results| && results[j].key == Key(hits[b]);
    var k := ResultIsNamed(t, skip, hits, i);
    var l := ResultIsNamed(t, skip, hits, j);
    assert results[i].fragment.id == results[j].fragment.id;
  }

  /**
   Repeats are dropped by key: the results name each fragment once if and only if no two of the keys
   that are wanted are names of one fragment.
   */
  lemma FragmentsOnce(t: Table, skip: string, hits: seq<Hit>)
    ensures EachOnce(Deduplicated(t, skip, hits))
            <==> forall a, b | 0 <= a < |hits| && 0 <= b < |hits| :: !SameFragment(t, skip, hits[a], hits[b])
  {
    var results := Deduplicated(t, skip, hits);
    if a, b :| 0 <= a < |hits| && 0 <= b < |hits| && SameFragment(t, skip, hits[a], hits[b]) {
      TwoNamesTwoResults(t, skip, hits, a, b);
    } else {
      forall i, j | 0 <= i < j < |results| ensures results[i].fragment.id != results[j].fragment.id {
        ResultKeysDiffer(t, skip, hits, i, j);
        var a := ResultIsNamed(t, skip, hits, i);
        var b := ResultIsNamed(t, skip, hits, j);
        assert !SameFragment(t, skip, hits[a], hits[b]);
      }
    }
  }

  /** A fragment is among the results if and only if a wanted key names it; leaving out one key is not enough. */
  lemma FragmentIsThere(t: Table, skip: string, hits: seq<Hit>, id: string)
    ensures (exists i | 0 <= i < |Deduplicated(t, skip, hits)| :: Deduplicated(t, skip, hits)[i].fragment.id == id)
            <==> exists k | 0 <= k < |hits| :: Wanted(t, skip, hits[k]) && t(Key(hits[k])).value.id == id
  {
    var results := Deduplicated(t, skip, hits);
    if i: nat :| i < |results| && results[i].fragment.id == id {
      var k := ResultIsNamed(t, skip, hits, i);
      assert Wanted(t, skip, hits[k]) && t(Key(hits[k])).value.id == id;
    }
    if k: nat :| k < |hits| && Wanted(t, skip, hits[k]) && t(Key(hits[k])).value.id == id {
      EveryWantedKeyIsThere(t, skip, hits, k);
      var i: nat :| i < |results| && results[i].key == Key(hits[k]);
      var l := ResultIsNamed(t, skip, hits, i);
      assert results[i].fragment.id == id;
    }
  }

  /** One fragment under its own ID and an alias: it comes twice, and it comes back when its ID is left out. */
  lemma AliasesRepeat()
    ensures var t: Table := key => if key == "f" || key == "g" then Some(Fragment("f", "s")) else None;
            var hits := [Hit("f", None, ""), Hit("g", None, "")];
            && !EachOnce(Deduplicated(t, "", hits))
            && |Deduplicated(t, "f", hits)| == 1 && Deduplicated(t, "f", hits)[0].fragment.id == "f"
  {
    var t: Table := key => if key == "f" || key == "g" then Some(Fragment("f", "s")) else None;
    var f, g := Hit("f", None, ""), Hit("g", None, "");
    assert [f, g][..1] == [f] && [f][..0] == [] && Key(f) == "f" && Key(g) == "g";
    TwoNamesTwoResults(t, "", [f, g], 0, 1);
    assert Deduplicated(t, "f", [f]) == [];
  }
}
