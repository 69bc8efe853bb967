/**
 What a stage's selection means: it depends on the sessions and not on their order, takes the least of
 each stratum, adds up, and composes: selecting twice is selecting the sum.
 */
module SelectionProperties {
  import opened Sorting
  import opened Selection

  ghost predicate DistinctIds(ws: seq<Work>) {
    forall i, j | 0 <= i < j < |ws| :: ws[i].id != ws[j].id
  }

  lemma StageOrders(newest: bool, hash: string -> int, ws: seq<Work>)
    requires Injective(hash) && DistinctIds(ws)
    ensures Orders(ByStage(newest, hash), Members(ws))
  {
    forall a, b | a in Members(ws) && b in Members(ws) && a != b
      ensures ByStage(newest, hash)(a, b) || ByStage(newest, hash)(b, a)
    {
      var i :| 0 <= i < |ws| && ws[i] == a;
      var j :| 0 <= j < |ws| && ws[j] == b;
      assert a.id != b.id;
      assert hash(a.id) != hash(b.id);
    }
  }

  // ---- Groups ----

  lemma {:induction false} GroupCounts(ws: seq<Work>, key: string, w: Work)
    ensures multiset(Group(ws, key))[w] == if w.stratum == key then multiset(ws)[w] else 0
  {
    if ws != [] {
      GroupCounts(ws[..|ws| - 1], key, w);
      assert ws == ws[..|ws| - 1] + [ws[|ws| - 1]];
    }
  }

  lemma GroupMembers(ws: seq<Work>, key: string)
    ensures forall w :: w in Group(ws, key) <==> w in ws && w.stratum == key
  {
    forall w
      ensures w in Group(ws, key) <==> w in ws && w.stratum == key
    {
      GroupCounts(ws, key, w);
      assert w in Group(ws, key) <==> w in multiset(Group(ws, key));
      assert w in ws <==> w in multiset(ws);
    }
  }

  lemma GroupsAgree(ws: seq<Work>, vs: seq<Work>, key: string)
    requires multiset(ws) == multiset(vs)
    ensures multiset(Group(ws, key)) == multiset(Group(vs, key)) && |Group(ws, key)| == |Group(vs, key)|
  {
    forall w
      ensures multiset(Group(ws, key))[w] == multiset(Group(vs, key))[w]
    {
      GroupCounts(ws, key, w);
      GroupCounts(vs, key, w);
    }
    SameElements(Group(ws, key), Group(vs, key));
  }

  lemma {:induction false} GroupDistinct(ws: seq<Work>, key: string)
    requires DistinctIds(ws)
    ensures DistinctIds(Group(ws, key)) && Distinct(Group(ws, key))
  {
    if ws != [] {
      GroupDistinct(ws[..|ws| - 1], key);
      GroupMembers(ws[..|ws| - 1], key);
      var rest := Group(ws[..|ws| - 1], key);
      forall i | 0 <= i < |rest|
        ensures rest[i].id != ws[|ws| - 1].id
      {
        assert rest[i] in rest;
        var j :| 0 <= j < |ws| - 1 && ws[j] == rest[i];
      }
    }
  }

  /** A member that is not in a prefix is after it. */
  lemma FindAfter<T>(s: seq<T>, n: nat, x: T) returns (j: nat)
    requires n <= |s| && x in s && x !in s[..n]
    ensures n <= j < |s| && s[j] == x
  {
    assert s == s[..n] + s[n..];
    var k :| 0 <= k < |s[n..]| && s[n..][k] == x;
    j := n + k;
  }

  /** A stratum's ranking: all its sessions, in order. */
  lemma RankedInOrder(o: Options, hash: string -> int, ws: seq<Work>, key: string)
    requires Injective(hash) && DistinctIds(ws)
    ensures Orders(ByStage(o.newest, hash), Members(Group(ws, key)))
    ensures InOrder(ByStage(o.newest, hash), Ranked(o, hash, ws, key))
    ensures Members(Ranked(o, hash, ws, key)) == Members(Group(ws, key))
  {
    GroupDistinct(ws, key);
    StageOrders(o.newest, hash, Group(ws, key));
    SortInOrder(ByStage(o.newest, hash), Group(ws, key), Members(Group(ws, key)));
    SameElements(Ranked(o, hash, ws, key), Group(ws, key));
  }

  /**
   Each stratum gives as many sessions as its quota says, all its own, and none it keeps back comes
   before one it gives.
   */
  lemma PicksAreLeast(o: Options, hash: string -> int, ws: seq<Work>, key: string)
    requires Injective(hash) && DistinctIds(ws)
    ensures |Picked(o, hash, ws, key)| == Quota(o, key, |Group(ws, key)|)
    ensures forall p | p in Picked(o, hash, ws, key) :: p in ws && p.stratum == key
    ensures forall p, q | p in Picked(o, hash, ws, key)
              && q in ws && q.stratum == key && q !in Picked(o, hash, ws, key) ::
              Before(o.newest, hash, p, q)
  {
    var ranked, picked := Ranked(o, hash, ws, key), Picked(o, hash, ws, key);
    RankedInOrder(o, hash, ws, key);
    RankedSize(o, hash, ws, key);
    GroupMembers(ws, key);
    forall p | p in picked
      ensures p in ws && p.stratum == key
    {
      assert p in Members(ranked);
    }
    forall p, q | p in picked && q in ws && q.stratum == key && q !in picked
      ensures Before(o.newest, hash, p, q)
    {
      assert q in Members(Group(ws, key));
      assert q in Members(ranked);
      PrefixIsBefore(ByStage(o.newest, hash), ranked, |picked|, p, q);
    }
  }

  /**
   By times and hashes: with newest first, the later of two sessions comes first, and of two at one time the
   one with the lesser hash; otherwise times play no part and the lesser hash comes first.
   */
  predicate Leads(newest: bool, hash: string -> int, a: Work, b: Work) {
    if newest then a.time > b.time || (a.time == b.time && hash(a.id) < hash(b.id))
    else hash(a.id) < hash(b.id)
  }

  /** Each session leads the ones after it. */
  ghost predicate Led(newest: bool, hash: string -> int, s: seq<Work>) {
    forall i, j | 0 <= i < j < |s| :: Leads(newest, hash, s[i], s[j])
  }

  /** Every session that is kept leads every one of `all` that is not. */
  ghost predicate Kept(newest: bool, hash: string -> int, kept: seq<Work>, all: seq<Work>) {
    forall w, v | w in kept && v in all && v !in kept :: Leads(newest, hash, w, v)
  }

  lemma LedIfInOrder(newest: bool, hash: string -> int, s: seq<Work>)
    requires InOrder(ByStage(newest, hash), s)
    ensures Led(newest, hash, s)
  {
    forall i, j | 0 <= i < j < |s|
      ensures Leads(newest, hash, s[i], s[j])
    {
      assert ByStage(newest, hash)(s[i], s[j]);
    }
  }

  lemma LedPrefix(newest: bool, hash: string -> int, s: seq<Work>, n: nat)
    requires n <= |s| && Led(newest, hash, s)
    ensures Led(newest, hash, s[..n]) && Kept(newest, hash, s[..n], s)
  {
    forall w, v | w in s[..n] && v in s && v !in s[..n]
      ensures Leads(newest, hash, w, v)
    {
      var i :| 0 <= i < n && s[..n][i] == w;
      var j := FindAfter(s, n, v);
    }
  }

  /**
   Main result, by times and hashes: a stratum gives sessions of its own, in the order of the stage, and
   every one it gives leads every one it keeps back.
   */
  lemma PicksLead(o: Options, hash: string -> int, ws: seq<Work>, key: string)
    requires Injective(hash) && DistinctIds(ws)
    ensures Led(o.newest, hash, Picked(o, hash, ws, key))
    ensures forall p | p in Picked(o, hash, ws, key) :: p in ws && p.stratum == key
    ensures forall p, q | p in Picked(o, hash, ws, key)
              && q in ws && q.stratum == key && q !in Picked(o, hash, ws, key) ::
              Leads(o.newest, hash, p, q)
  {
    var ranked := Ranked(o, hash, ws, key);
    RankedInOrder(o, hash, ws, key);
    LedIfInOrder(o.newest, hash, ranked);
    PicksAreRanked(o, hash, ws, key, ranked);
    GroupMembers(ws, key);
    assert forall w :: w in ranked <==> w in Members(ranked);
    assert forall w :: w in Group(ws, key) <==> w in Members(Group(ws, key));
  }

  lemma PicksAreRanked(o: Options, hash: string -> int, ws: seq<Work>, key: string, ranked: seq<Work>)
    requires ranked == Ranked(o, hash, ws, key) && Led(o.newest, hash, ranked)
    ensures Led(o.newest, hash, Picked(o, hash, ws, key)) && Kept(o.newest, hash, Picked(o, hash, ws, key), ranked)
    ensures forall p | p in Picked(o, hash, ws, key) :: p in ranked
  {
    RankedSize(o, hash, ws, key);
    LedPrefix(o.newest, hash, ranked, |Picked(o, hash, ws, key)|);
  }

  /**
   Main result: how many a stratum gives. Without an allocation, every session; one the allocation does not
   name, none; one it names, that many, or all it has when it has fewer.
   */
  lemma PicksFill(o: Options, hash: string -> int, ws: seq<Work>, key: string, n: nat)
    requires Injective(hash) && DistinctIds(ws) && n == |Group(ws, key)|
    ensures o.allocation == map[] ==> |Picked(o, hash, ws, key)| == n
    ensures o.allocation != map[] && key !in o.allocation ==> Picked(o, hash, ws, key) == []
    ensures key in o.allocation ==>
              |Picked(o, hash, ws, key)| == (if o.allocation[key] <= n then o.allocation[key] else n)
    ensures |Picked(o, hash, ws, key)| == n ==> forall w | w in ws && w.stratum == key :: w in Picked(o, hash, ws, key)
  {
    var ranked := Ranked(o, hash, ws, key);
    RankedSize(o, hash, ws, key);
    RankedInOrder(o, hash, ws, key);
    GroupMembers(ws, key);
    if |Picked(o, hash, ws, key)| == n {
      assert Picked(o, hash, ws, key) == ranked;
      assert forall w | w in ws && w.stratum == key :: w in Members(ranked);
    }
  }

  /** Where in `ws` the sessions of a stratum are. */
  function Places(ws: seq<Work>, key: string): set<nat> {
    set i: nat | i < |ws| && ws[i].stratum == key
  }

  /** A report's row: how many pending sessions the stratum has, and how many it gives. */
  lemma RowCounts(o: Options, hash: string -> int, ws: seq<Work>, report: seq<Stratum>, row: Stratum)
    requires IsReport(o, ws, report) && row in report
    ensures row.available == |Places(ws, row.key)| && row.selected == |Picked(o, hash, ws, row.key)|
  {
    RankedSize(o, hash, ws, row.key);
    GroupSize(ws, row.key);
  }

  lemma {:induction false} GroupSize(ws: seq<Work>, key: string)
    ensures |Group(ws, key)| == |Places(ws, key)|
  {
    if ws != [] {
      var n := |ws| - 1;
      GroupSize(ws[..n], key);
      assert Places(ws, key) == Places(ws[..n], key) + (if ws[n].stratum == key then {n} else {});
    }
  }

  // ---- The order of the input does not matter ----

  lemma RankedAgree(o: Options, hash: string -> int, ws: seq<Work>, vs: seq<Work>, key: string)
    requires Injective(hash) && DistinctIds(ws) && multiset(ws) == multiset(vs)
    ensures Picked(o, hash, ws, key) == Picked(o, hash, vs, key)
  {
    GroupsAgree(ws, vs, key);
    GroupDistinct(ws, key);
    StageOrders(o.newest, hash, Group(ws, key));
    SortIgnoresOrder(ByStage(o.newest, hash), Group(ws, key), Group(vs, key));
  }

  lemma {:induction false} ChosenAgree(o: Options, hash: string -> int, ws: seq<Work>, vs: seq<Work>, keys: seq<string>)
    requires Injective(hash) && DistinctIds(ws) && multiset(ws) == multiset(vs)
    ensures Chosen(o, hash, ws, keys) == Chosen(o, hash, vs, keys)
  {
    if keys != [] {
      ChosenAgree(o, hash, ws, vs, keys[..|keys| - 1]);
      RankedAgree(o, hash, ws, vs, keys[|keys| - 1]);
    }
  }

  lemma StrataAgree(ws: seq<Work>, vs: seq<Work>)
    requires multiset(ws) == multiset(vs)
    ensures Strata(ws) == Strata(vs)
  {
    SameElements(ws, vs);
    assert forall w :: w in ws <==> w in Members(ws);
    assert forall w :: w in vs <==> w in Members(vs);
  }

  /** Main result: with distinct session IDs, the selection depends only on which sessions are pending. */
  lemma SelectionIgnoresInputOrder(o: Options, hash: string -> int, ws: seq<Work>, vs: seq<Work>, keys: seq<string>,
                                   keys': seq<string>)
    requires Injective(hash) && DistinctIds(ws) && multiset(ws) == multiset(vs)
    requires Lists(keys, Strata(ws)) && Lists(keys', Strata(vs))
    ensures Arrange(o, hash, Chosen(o, hash, ws, keys)) == Arrange(o, hash, Chosen(o, hash, vs, keys'))
  {
    StrataAgree(ws, vs);
    StringsOrdered(Strata(ws));
    SameList(ByString(), keys, keys');
    ChosenAgree(o, hash, ws, vs, keys);
  }

  /** And so does the report, which has one form. */
  lemma ReportIgnoresInputOrder(o: Options, ws: seq<Work>, vs: seq<Work>, report: seq<Stratum>, report': seq<Stratum>)
    requires multiset(ws) == multiset(vs) && IsReport(o, ws, report) && IsReport(o, vs, report')
    ensures report == report'
  {
    StrataAgree(ws, vs);
    forall key
      ensures Row(o, ws, key) == Row(o, vs, key)
    {
      GroupsAgree(ws, vs, key);
    }
    assert Members(report) == Members(report');
    RowsOrdered(report);
    SameList(ByKey(), report, report');
  }

  lemma RowsOrdered(report: seq<Stratum>)
    requires InOrder(ByKey(), report)
    ensures Orders(ByKey(), Members(report))
  {
    var keys := set row | row in Members(report) :: row.key;
    StringsOrdered(keys);
    forall a, b | a in Members(report) && b in Members(report) && a != b
      ensures ByKey()(a, b) || ByKey()(b, a)
    {
      var i :| 0 <= i < |report| && report[i] == a;
      var j :| 0 <= j < |report| && report[j] == b;
      assert i < j ==> ByKey()(report[i], report[j]);
    }
    forall a | a in Members(report)
      ensures !ByKey()(a, a)
    {
      StringIrreflexive(a.key);
    }
    forall a, b, c | a in Members(report) && b in Members(report) && c in Members(report)
                     && ByKey()(a, b) && ByKey()(b, c)
      ensures ByKey()(a, c)
    {
      StringTransitive(a.key, b.key, c.key);
    }
  }

  // ---- Sums ----

  function Sum(f: string -> nat, keys: seq<string>): nat {
    if keys == [] then 0 else Sum(f, keys[..|keys| - 1]) + f(keys[|keys| - 1])
  }

  function Sizes(ws: seq<Work>): string -> nat {
    (key: string) => |Group(ws, key)|
  }

  function Takes(o: Options, ws: seq<Work>): string -> nat {
    (key: string) => Quota(o, key, |Group(ws, key)|)
  }

  function Keys(report: seq<Stratum>): (keys: seq<string>)
    ensures |keys| == |report| && forall i | 0 <= i < |keys| :: keys[i] == report[i].key
  {
    if report == [] then [] else Keys(report[..|report| - 1]) + [report[|report| - 1].key]
  }

  function TotalAvailable(report: seq<Stratum>): nat {
    if report == [] then 0 else TotalAvailable(report[..|report| - 1]) + report[|report| - 1].available
  }

  function TotalSelected(report: seq<Stratum>): nat {
    if report == [] then 0 else TotalSelected(report[..|report| - 1]) + report[|report| - 1].selected
  }

  /** One key counts one more. */
  lemma {:induction false} SumBump(f: string -> nat, g: string -> nat, keys: seq<string>, x: string)
    requires Distinct(keys) && g(x) == f(x) + 1 && forall key | key != x :: g(key) == f(key)
    ensures Sum(g, keys) == Sum(f, keys) + (if x in keys then 1 else 0)
  {
    if keys != [] {
      SumBump(f, g, keys[..|keys| - 1], x);
    }
  }

  lemma {:induction false} SumZero(f: string -> nat, keys: seq<string>)
    requires forall key :: f(key) == 0
    ensures Sum(f, keys) == 0
  {
    if keys != [] {
      SumZero(f, keys[..|keys| - 1]);
    }
  }

  /** Every session is in exactly one stratum. */
  lemma {:induction false} GroupsPartition(ws: seq<Work>, keys: seq<string>)
    requires Distinct(keys) && forall w | w in ws :: w.stratum in keys
    ensures Sum(Sizes(ws), keys) == |ws|
  {
    if ws == [] {
      SumZero(Sizes(ws), keys);
    } else {
      var init := ws[..|ws| - 1];
      GroupsPartition(init, keys);
      SumBump(Sizes(init), Sizes(ws), keys, ws[|ws| - 1].stratum);
    }
  }

  lemma {:induction false} SumSplit(f: string -> nat, a: seq<string>, x: string, b: seq<string>)
    ensures Sum(f, a + [x] + b) == Sum(f, a + b) + f(x)
  {
    if b == [] {
      assert a + [x] + b == a + [x] && a + b == a;
    } else {
      assert (a + [x] + b)[..|a + [x] + b| - 1] == a + [x] + b[..|b| - 1];
      assert (a + b)[..|a + b| - 1] == a + b[..|b| - 1];
      SumSplit(f, a, x, b[..|b| - 1]);
    }
  }

  lemma NoMembers(a: seq<string>)
    ensures a != [] ==> Members(a) != {}
  {
    if a != [] {
      assert a[0] in Members(a);
    }
  }

  ghost predicate ZeroOutside(f: string -> nat, a: seq<string>, b: seq<string>) {
    forall key | key in b && key !in a :: f(key) == 0
  }

  /** `a` without the last of `b`, if it is there. */
  lemma DropLast(f: string -> nat, a: seq<string>, b: seq<string>) returns (rest: seq<string>)
    requires Distinct(a) && Distinct(b) && Members(a) <= Members(b) && ZeroOutside(f, a, b) && b != []
    ensures Distinct(rest) && Members(rest) <= Members(b[..|b| - 1]) && ZeroOutside(f, rest, b[..|b| - 1])
    ensures Sum(f, a) == Sum(f, rest) + f(b[|b| - 1])
  {
    var x := b[|b| - 1];
    if x in a {
      var i :| 0 <= i < |a| && a[i] == x;
      rest := a[..i] + a[i + 1..];
      Without(a, i, b);
      assert a == a[..i] + [x] + a[i + 1..];
      SumSplit(f, a[..i], x, a[i + 1..]);
    } else {
      rest := a;
      Shrink(a, b);
    }
  }

  /** Keys that count nothing may be left out, and order does not matter. */
  lemma {:induction false} SumSame(f: string -> nat, a: seq<string>, b: seq<string>)
    requires Distinct(a) && Distinct(b) && Members(a) <= Members(b) && ZeroOutside(f, a, b)
    ensures Sum(f, a) == Sum(f, b)
    decreases |b|
  {
    if b == [] {
      NoMembers(a);
      assert Members(b) == {};
    } else {
      var rest := DropLast(f, a, b);
      SumSame(f, rest, b[..|b| - 1]);
    }
  }

  lemma Without(a: seq<string>, i: nat, b: seq<string>)
    requires Distinct(a) && Distinct(b) && Members(a) <= Members(b) && i < |a| && b != [] && a[i] == b[|b| - 1]
    ensures var rest := a[..i] + a[i + 1..];
            && Distinct(rest) && Members(rest) <= Members(b[..|b| - 1])
            && forall key | key in b[..|b| - 1] && key !in rest :: key !in a
  {
    var rest := a[..i] + a[i + 1..];
    forall k | 0 <= k < |rest|
      ensures rest[k] in b[..|b| - 1] && rest[k] != a[i]
    {
      assert rest[k] in Members(a);
    }
  }

  lemma Shrink(a: seq<string>, b: seq<string>)
    requires Distinct(b) && Members(a) <= Members(b) && b != [] && b[|b| - 1] !in a
    ensures Members(a) <= Members(b[..|b| - 1])
  {
    forall key | key in Members(a)
      ensures key in b[..|b| - 1]
    {
      assert key in Members(b);
    }
  }

  lemma {:induction false} TotalsAreSums(o: Options, ws: seq<Work>, report: seq<Stratum>)
    requires forall row | row in report :: row == Row(o, ws, row.key)
    ensures TotalAvailable(report) == Sum(Sizes(ws), Keys(report))
    ensures TotalSelected(report) == Sum(Takes(o, ws), Keys(report))
  {
    if report != [] {
      TotalsAreSums(o, ws, report[..|report| - 1]);
      assert report[|report| - 1] in report;
      assert Keys(report)[..|report| - 1] == Keys(report[..|report| - 1]);
    }
  }

  lemma {:induction false} ChosenSize(o: Options, hash: string -> int, ws: seq<Work>, keys: seq<string>)
    ensures |Chosen(o, hash, ws, keys)| == Sum(Takes(o, ws), keys)
  {
    if keys != [] {
      ChosenSize(o, hash, ws, keys[..|keys| - 1]);
      RankedSize(o, hash, ws, keys[|keys| - 1]);
    }
  }

  lemma ReportKeys(o: Options, ws: seq<Work>, report: seq<Stratum>, keys: seq<string>)
    requires IsReport(o, ws, report) && Lists(keys, Strata(ws))
    ensures Distinct(keys) && Distinct(Keys(report)) && Members(keys) <= Members(Keys(report))
    ensures forall w | w in ws :: w.stratum in Keys(report)
    ensures forall key | key in Keys(report) && key !in keys :: Group(ws, key) == []
  {
    StringsOrdered(Strata(ws));
    InOrderDistinct(ByString(), keys, Strata(ws));
    forall i, j | 0 <= i < j < |report|
      ensures report[i].key != report[j].key
    {
      assert ByKey()(report[i], report[j]);
      StringIrreflexive(report[i].key);
    }
    forall key | key in Strata(ws)
      ensures key in Keys(report)
    {
      assert Row(o, ws, key) in report;
      var i :| 0 <= i < |report| && report[i] == Row(o, ws, key);
      assert Keys(report)[i] == key;
    }
    forall key | key in Keys(report) && key !in keys
      ensures Group(ws, key) == []
    {
      assert key !in Members(keys);
      GroupOfAbsent(ws, key);
    }
  }

  /** Main result: the report accounts for every pending session, and for every one selected before the limit. */
  lemma ReportAddsUp(o: Options, hash: string -> int, ws: seq<Work>, report: seq<Stratum>, keys: seq<string>)
    requires IsReport(o, ws, report) && Lists(keys, Strata(ws))
    ensures TotalAvailable(report) == |ws|
    ensures TotalSelected(report) == |Chosen(o, hash, ws, keys)|
  {
    ReportKeys(o, ws, report, keys);
    TotalsAreSums(o, ws, report);
    GroupsPartition(ws, Keys(report));
    ChosenSize(o, hash, ws, keys);
    SumSame(Takes(o, ws), keys, Keys(report));
  }

  // ---- Selecting twice ----

  /** The sessions still pending after a stage took `taken`. */
  function Remaining(ws: seq<Work>, taken: seq<Work>): seq<Work> {
    if ws == [] then []
    else
      var rest := Remaining(ws[..|ws| - 1], taken);
      if ws[|ws| - 1] in taken then rest else rest + [ws[|ws| - 1]]
  }

  lemma {:induction false} RemainingCounts(ws: seq<Work>, taken: seq<Work>, w: Work)
    ensures multiset(Remaining(ws, taken))[w] == if w in taken then 0 else multiset(ws)[w]
  {
    if ws != [] {
      RemainingCounts(ws[..|ws| - 1], taken, w);
      assert ws == ws[..|ws| - 1] + [ws[|ws| - 1]];
    }
  }

  lemma {:induction false} InChosen(o: Options, hash: string -> int, ws: seq<Work>, keys: seq<string>, w: Work)
    requires Injective(hash) && DistinctIds(ws)
    ensures w in Chosen(o, hash, ws, keys) <==> w.stratum in keys && w in Picked(o, hash, ws, w.stratum)
  {
    if keys != [] {
      var key := keys[|keys| - 1];
      InChosen(o, hash, ws, keys[..|keys| - 1], w);
      PicksAreLeast(o, hash, ws, key);
    }
  }

  lemma SuffixCounts(s: seq<Work>, n: nat, w: Work)
    requires Distinct(s) && n <= |s|
    ensures multiset(s[n..])[w] == multiset(s)[w] - (if w in s[..n] then 1 else 0)
  {
    assert s == s[..n] + s[n..];
    OnceEach(s[..n], w);
  }

  lemma RestCounts(o: Options, hash: string -> int, ws: seq<Work>, keys: seq<string>, key: string, w: Work)
    requires Injective(hash) && DistinctIds(ws) && Lists(keys, Strata(ws)) && Distinct(Ranked(o, hash, ws, key))
    ensures |Picked(o, hash, ws, key)| <= |Ranked(o, hash, ws, key)|
    ensures multiset(Group(Remaining(ws, Chosen(o, hash, ws, keys)), key))[w]
         == multiset(Ranked(o, hash, ws, key)[|Picked(o, hash, ws, key)|..])[w]
  {
    var taken := Chosen(o, hash, ws, keys);
    GroupCounts(Remaining(ws, taken), key, w);
    RemainingCounts(ws, taken, w);
    GroupCounts(ws, key, w);
    RankedSize(o, hash, ws, key);
    SuffixCounts(Ranked(o, hash, ws, key), |Picked(o, hash, ws, key)|, w);
    OnceEach(Ranked(o, hash, ws, key), w);
    if w.stratum == key {
      InChosen(o, hash, ws, keys, w);
      assert w in ws ==> w.stratum in Members(keys);
      assert w in ws <==> w in multiset(ws);
      PicksAreLeast(o, hash, ws, key);
    } else {
      PicksAreLeast(o, hash, ws, key);
    }
  }

  /** What a stage leaves of a stratum, in the stage's order, is the end of the stratum's ranking. */
  lemma RestOfRanking(o: Options, p: Options, hash: string -> int, ws: seq<Work>, keys: seq<string>, key: string)
    requires Injective(hash) && DistinctIds(ws) && Lists(keys, Strata(ws)) && p.newest == o.newest
    ensures var n := |Picked(o, hash, ws, key)|;
            && n <= |Ranked(o, hash, ws, key)|
            && Ranked(p, hash, Remaining(ws, Chosen(o, hash, ws, keys)), key) == Ranked(o, hash, ws, key)[n..]
  {
    var less, ranked := ByStage(o.newest, hash), Ranked(o, hash, ws, key);
    var rest := Group(Remaining(ws, Chosen(o, hash, ws, keys)), key);
    RankedInOrder(o, hash, ws, key);
    RankedSize(o, hash, ws, key);
    InOrderDistinct(less, ranked, Members(ranked));
    var suffix := ranked[|Picked(o, hash, ws, key)|..];
    assert multiset(rest) == multiset(suffix) by {
      forall w
        ensures multiset(rest)[w] == multiset(suffix)[w]
      {
        RestCounts(o, hash, ws, keys, key, w);
      }
    }
    OrderIsUniqueSorted(less, rest, suffix, Members(ranked));
  }

  /** Sorting gives the one list in order with the same elements. */
  lemma OrderIsUniqueSorted<T>(less: (T, T) -> bool, a: seq<T>, b: seq<T>, all: set<T>)
    requires InOrder(less, b) && multiset(a) == multiset(b) && Members(b) <= all && Orders(less, all)
    ensures SortBy(less, a) == b
  {
    InOrderDistinct(less, b, all);
    DistinctIfPermuted(b, a);
    SameElements(a, b);
    SortInOrder(less, a, all);
    SameElements(SortBy(less, a), a);
    OrderIsUnique(less, SortBy(less, a), b, all);
  }

  /**
   Main result: taking `n` of each stratum and then `m` of what is left is taking `n + m` at once, in the
   same order, whatever the numbers are for each stratum.
   */
  lemma SelectionComposes(first: Options, second: Options, both: Options, hash: string -> int, ws: seq<Work>,
                          keys: seq<string>, key: string)
    requires Injective(hash) && DistinctIds(ws) && Lists(keys, Strata(ws))
    requires first.newest == second.newest == both.newest
    requires key in first.allocation && key in second.allocation && key in both.allocation
    requires both.allocation[key] == first.allocation[key] + second.allocation[key]
    ensures Picked(both, hash, ws, key)
         == Picked(first, hash, ws, key) + Picked(second, hash, Remaining(ws, Chosen(first, hash, ws, keys)), key)
  {
    var rest := Remaining(ws, Chosen(first, hash, ws, keys));
    var ranked, size := Ranked(first, hash, ws, key), |Group(ws, key)|;
    RankedSize(first, hash, ws, key);
    RankedSize(second, hash, rest, key);
    RestOfRanking(first, second, hash, ws, keys, key);
    var n := Quota(first, key, size);
    var m := Quota(second, key, size - n);
    assert Picked(first, hash, ws, key) == ranked[..n];
    assert |Group(rest, key)| == size - n;
    assert Picked(second, hash, rest, key) == ranked[n..][..m];
    assert Picked(both, hash, ws, key) == ranked[..n + m];
    PrefixJoin(ranked, n, m);
  }

  lemma PrefixJoin<T>(s: seq<T>, n: nat, m: nat)
    requires n + m <= |s|
    ensures s[..n + m] == s[..n] + s[n..][..m]
  {
  }

  // ---- The whole selection ----

  /** The final order and the limit keep what was chosen, or the first of it in the stage's order. */
  lemma NewestKept(o: Options, hash: string -> int, chosen: seq<Work>)
    requires Injective(hash) && DistinctIds(chosen) && o.newest
    ensures var selected := Arrange(o, hash, chosen);
            && InOrder(ByStage(true, hash), selected)
            && |selected| == (if o.limit > 0 && |chosen| > o.limit then o.limit else |chosen|)
            && (forall w | w in selected :: w in chosen)
            && (forall w, v | w in selected && v in chosen && v !in selected :: Before(true, hash, w, v))
  {
    var less := ByStage(true, hash);
    var sorted, selected := SortBy(less, chosen), Arrange(o, hash, chosen);
    StageOrders(true, hash, chosen);
    SortInOrder(less, chosen, Members(chosen));
    SameElements(sorted, chosen);
    assert forall w | w in selected :: w in Members(sorted);
    forall w, v | w in selected && v in chosen && v !in selected
      ensures Before(true, hash, w, v)
    {
      assert v in Members(sorted);
      PrefixIsBefore(less, sorted, |selected|, w, v);
    }
  }

  /**
   Main result, by times and hashes: newest first, the final selection is what was chosen, or as many of it
   as the limit says, in the order of the stage, and every session kept leads every one left out.
   */
  lemma NewestLead(o: Options, hash: string -> int, chosen: seq<Work>)
    requires Injective(hash) && DistinctIds(chosen) && o.newest
    ensures Led(true, hash, Arrange(o, hash, chosen)) && Kept(true, hash, Arrange(o, hash, chosen), chosen)
    ensures |Arrange(o, hash, chosen)| == (if o.limit > 0 && |chosen| > o.limit then o.limit else |chosen|)
    ensures forall w | w in Arrange(o, hash, chosen) :: w in chosen
  {
    NewestKept(o, hash, chosen);
    LedIfInOrder(true, hash, Arrange(o, hash, chosen));
    KeptIfBefore(true, hash, Arrange(o, hash, chosen), chosen);
  }

  lemma KeptIfBefore(newest: bool, hash: string -> int, kept: seq<Work>, all: seq<Work>)
    requires forall w, v | w in kept && v in all && v !in kept :: Before(newest, hash, w, v)
    ensures Kept(newest, hash, kept, all)
  {
  }

  /** Main result: otherwise the final selection is what was chosen, in the order of the choosing, cut at the limit. */
  lemma ChosenStand(o: Options, hash: string -> int, chosen: seq<Work>)
    requires !o.newest
    ensures Arrange(o, hash, chosen) <= chosen
    ensures |Arrange(o, hash, chosen)| == (if o.limit > 0 && |chosen| > o.limit then o.limit else |chosen|)
  {
  }

  /** One session after the other, in the order of the strata. */
  lemma {:induction false} ChosenByStratum(o: Options, hash: string -> int, ws: seq<Work>, keys: seq<string>, i: nat,
                                           j: nat)
    requires Injective(hash) && DistinctIds(ws) && InOrder(ByString(), keys) && i < j < |Chosen(o, hash, ws, keys)|
    ensures var chosen := Chosen(o, hash, ws, keys);
            && chosen[i].stratum in keys && chosen[j].stratum in keys
            && (chosen[i].stratum != chosen[j].stratum ==> StringLess(chosen[i].stratum, chosen[j].stratum))
  {
    var init, key := keys[..|keys| - 1], keys[|keys| - 1];
    var before, picked := Chosen(o, hash, ws, init), Picked(o, hash, ws, key);
    PicksAreLeast(o, hash, ws, key);
    if j < |before| {
      ChosenByStratum(o, hash, ws, init, i, j);
    } else {
      assert picked[j - |before|] in picked;
      if i < |before| {
        StratumOf(o, hash, ws, init, i);
        var k :| 0 <= k < |init| && init[k] == before[i].stratum;
        assert ByString()(keys[k], keys[|keys| - 1]);
      } else {
        assert picked[i - |before|] in picked;
      }
    }
  }

  lemma StratumOf(o: Options, hash: string -> int, ws: seq<Work>, keys: seq<string>, i: nat)
    requires Injective(hash) && DistinctIds(ws) && i < |Chosen(o, hash, ws, keys)|
    ensures Chosen(o, hash, ws, keys)[i].stratum in keys
  {
    InChosen(o, hash, ws, keys, Chosen(o, hash, ws, keys)[i]);
  }

  lemma PrefixIsBefore<T>(less: (T, T) -> bool, s: seq<T>, n: nat, w: T, v: T)
    requires InOrder(less, s) && n <= |s| && w in s[..n] && v in s && v !in s[..n]
    ensures less(w, v)
  {
    var i :| 0 <= i < n && s[..n][i] == w;
    var j := FindAfter(s, n, v);
  }
}
