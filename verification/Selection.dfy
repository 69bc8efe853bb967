/**
 Staged selection (internal/enrich/stage.go: selectWork).

 A stage groups the pending sessions by stratum, ranks each group (by a hash of the session ID, or
 newest first), takes what an allocation says from each in the order of the strata's keys, reports what
 was available and taken, and then applies the overall order and the limit. `SelectWork` is the source's
 sequence of loops; `Chosen` and `Arrange` say what it selects, and `IsReport` what it reports. The hash
 is an injective function here, times are integers, and a session's stratum comes with it.
 */
module Selection {
  import opened Sorting

  datatype Work = Work(id: string, stratum: string, time: int)

  /** An empty allocation takes everything; a limit of zero or less is off. Validation rules out negative quotas. */
  datatype Options = Options(newest: bool, allocation: map<string, nat>, limit: int)

  datatype Stratum = Stratum(key: string, available: nat, selected: nat)

  ghost predicate Injective(hash: string -> int) {
    forall a, b :: hash(a) == hash(b) ==> a == b
  }

  predicate Before(newest: bool, hash: string -> int, a: Work, b: Work) {
    if newest && a.time != b.time then a.time > b.time else hash(a.id) < hash(b.id)
  }

  /** The order of a stage as a value. */
  function ByStage(newest: bool, hash: string -> int): (Work, Work) -> bool {
    (a: Work, b: Work) => Before(newest, hash, a, b)
  }

  function ByKey(): (Stratum, Stratum) -> bool {
    (a: Stratum, b: Stratum) => StringLess(a.key, b.key)
  }

  function Group(ws: seq<Work>, key: string): seq<Work> {
    if ws == [] then []
    else
      var rest := Group(ws[..|ws| - 1], key);
      if ws[|ws| - 1].stratum == key then rest + [ws[|ws| - 1]] else rest
  }

  function Min(a: nat, b: nat): nat {
    if a < b then a else b
  }

  /** How many of the `available` sessions of a stratum a stage takes. */
  function Quota(o: Options, key: string, available: nat): nat {
    if o.allocation == map[] then available
    else if key in o.allocation then Min(o.allocation[key], available)
    else 0
  }

  /** A stratum's sessions in the order of the stage. */
  function Ranked(o: Options, hash: string -> int, ws: seq<Work>, key: string): seq<Work> {
    SortBy(ByStage(o.newest, hash), Group(ws, key))
  }

  lemma RankedSize(o: Options, hash: string -> int, ws: seq<Work>, key: string)
    ensures |Ranked(o, hash, ws, key)| == |Group(ws, key)|
  {
    SameElements(Ranked(o, hash, ws, key), Group(ws, key));
  }

  function Picked(o: Options, hash: string -> int, ws: seq<Work>, key: string): seq<Work> {
    var n := Quota(o, key, |Group(ws, key)|);
    RankedSize(o, hash, ws, key);
    Ranked(o, hash, ws, key)[..n]
  }

  /** What the strata give, in the order of `keys`. */
  function Chosen(o: Options, hash: string -> int, ws: seq<Work>, keys: seq<string>): seq<Work> {
    if keys == [] then []
    else Chosen(o, hash, ws, keys[..|keys| - 1]) + Picked(o, hash, ws, keys[|keys| - 1])
  }

  /** The overall order and the limit. */
  function Arrange(o: Options, hash: string -> int, chosen: seq<Work>): seq<Work> {
    var ordered := if o.newest then SortBy(ByStage(true, hash), chosen) else chosen;
    if o.limit > 0 && |ordered| > o.limit then ordered[..o.limit] else ordered
  }

  ghost function Strata(ws: seq<Work>): set<string> {
    set w | w in ws :: w.stratum
  }

  function Row(o: Options, ws: seq<Work>, key: string): Stratum {
    Stratum(key, |Group(ws, key)|, Quota(o, key, |Group(ws, key)|))
  }

  /** The strata a report names: those with sessions, and those an allocation asks for. */
  ghost predicate Reported(o: Options, ws: seq<Work>, key: string) {
    key in Strata(ws) || (key in o.allocation && o.allocation[key] > 0)
  }

  ghost predicate IsReport(o: Options, ws: seq<Work>, report: seq<Stratum>) {
    && InOrder(ByKey(), report)
    && (forall row | row in report :: Reported(o, ws, row.key) && row == Row(o, ws, row.key))
    && (forall key | Reported(o, ws, key) :: Row(o, ws, key) in report)
  }

  // ---- selectWork ----

  method GroupByStratum(ws: seq<Work>) returns (groups: map<string, seq<Work>>)
    ensures groups.Keys == Strata(ws)
    ensures forall key | key in groups :: groups[key] == Group(ws, key)
  {
    groups := map[];
    var i := 0;
    while i < |ws|
      invariant i <= |ws|
      invariant groups.Keys == Strata(ws[..i])
      invariant forall key :: (if key in groups then groups[key] else []) == Group(ws[..i], key)
    {
      var w := ws[i];
      assert ws[..i + 1][..i] == ws[..i];
      assert ws[..i + 1] == ws[..i] + [w];
      var group := if w.stratum in groups then groups[w.stratum] else [];
      groups := groups[w.stratum := group + [w]];
      i := i + 1;
    }
    assert ws[..|ws|] == ws;
  }

  /** Rows that are determined by their keys, each key once. */
  ghost predicate RowsOf(o: Options, ws: seq<Work>, report: seq<Stratum>) {
    && (forall row | row in report :: Reported(o, ws, row.key) && row == Row(o, ws, row.key))
    && (forall i, j | 0 <= i < j < |report| :: report[i].key != report[j].key)
  }

  lemma SortedRowsReport(o: Options, ws: seq<Work>, report: seq<Stratum>)
    requires RowsOf(o, ws, report) && forall key | Reported(o, ws, key) :: Row(o, ws, key) in report
    ensures IsReport(o, ws, SortBy(ByKey(), report))
  {
    var all := Members(report);
    var keys := set row | row in all :: row.key;
    StringsOrdered(keys);
    assert Orders(ByKey(), all) by {
      forall a, b | a in all && b in all && a != b
        ensures ByKey()(a, b) || ByKey()(b, a)
      {
        assert a.key in keys && b.key in keys;
        assert ByString()(a.key, b.key) || ByString()(b.key, a.key);
      }
      forall a | a in all
        ensures !ByKey()(a, a)
      {
        assert !ByString()(a.key, a.key);
      }
      forall a, b, c | a in all && b in all && c in all && ByKey()(a, b) && ByKey()(b, c)
        ensures ByKey()(a, c)
      {
        assert ByString()(a.key, b.key) && ByString()(b.key, c.key);
        assert ByString()(a.key, c.key);
      }
    }
    SortInOrder(ByKey(), report, all);
    SameElements(SortBy(ByKey(), report), report);
    assert forall row :: row in SortBy(ByKey(), report) <==> row in all;
  }

  lemma GroupOfAbsent(ws: seq<Work>, key: string)
    requires key !in Strata(ws)
    ensures Group(ws, key) == []
  {
    if ws != [] {
      assert ws[|ws| - 1].stratum in Strata(ws);
      assert Strata(ws[..|ws| - 1]) <= Strata(ws);
      GroupOfAbsent(ws[..|ws| - 1], key);
    }
  }

  /** Adds the strata an allocation asks for that have nothing pending. */
  method ReportEmpty(o: Options, ws: seq<Work>, groups: map<string, seq<Work>>, rows: seq<Stratum>)
    returns (report: seq<Stratum>)
    requires groups.Keys == Strata(ws) && RowsOf(o, ws, rows)
    requires forall row | row in rows :: row.key in Strata(ws)
    requires forall key | key in Strata(ws) :: Row(o, ws, key) in rows
    ensures RowsOf(o, ws, report) && forall key | Reported(o, ws, key) :: Row(o, ws, key) in report
  {
    report := rows;
    var rest := o.allocation.Keys;
    while rest != {}
      invariant rest <= o.allocation.Keys && RowsOf(o, ws, report)
      invariant rows <= report
      invariant forall row | row in report :: row.key in Strata(ws) || row.key in o.allocation.Keys - rest
      invariant forall key | Reported(o, ws, key) && key !in rest :: Row(o, ws, key) in report
      decreases |rest|
    {
      var key :| key in rest;
      rest := rest - {key};
      if key !in groups && o.allocation[key] > 0 {
        GroupOfAbsent(ws, key);
        report := report + [Stratum(key, 0, 0)];
        assert report[|report| - 1] == Row(o, ws, key);
      }
    }
  }

  /** One stratum's share, and its row in the report. */
  method TakeStratum(o: Options, hash: string -> int, ghost ws: seq<Work>, key: string, group: seq<Work>)
    returns (row: Stratum, picked: seq<Work>)
    requires group == Group(ws, key)
    ensures row == Row(o, ws, key) && picked == Picked(o, hash, ws, key)
  {
    var g := SortBy(ByStage(o.newest, hash), group);
    RankedSize(o, hash, ws, key);
    var take := |g|;
    if o.allocation != map[] {
      take := if key in o.allocation then o.allocation[key] else 0;
      if take > |g| {
        take := |g|;
      }
    }
    return Stratum(key, |g|, take), g[..take];
  }

  function Rows(o: Options, ws: seq<Work>, keys: seq<string>): (rows: seq<Stratum>)
    ensures |rows| == |keys| && forall j | 0 <= j < |keys| :: rows[j] == Row(o, ws, keys[j])
  {
    if keys == [] then [] else Rows(o, ws, keys[..|keys| - 1]) + [Row(o, ws, keys[|keys| - 1])]
  }

  lemma ChosenMore(o: Options, hash: string -> int, ws: seq<Work>, keys: seq<string>, i: nat)
    requires i < |keys|
    ensures Rows(o, ws, keys[..i + 1]) == Rows(o, ws, keys[..i]) + [Row(o, ws, keys[i])]
    ensures Chosen(o, hash, ws, keys[..i + 1]) == Chosen(o, hash, ws, keys[..i]) + Picked(o, hash, ws, keys[i])
  {
    assert keys[..i + 1][..i] == keys[..i];
  }

  method TakeStrata(o: Options, hash: string -> int, ghost ws: seq<Work>, groups: map<string, seq<Work>>,
                    keys: seq<string>)
    returns (rows: seq<Stratum>, chosen: seq<Work>)
    requires forall key | key in keys :: key in groups && groups[key] == Group(ws, key)
    ensures chosen == Chosen(o, hash, ws, keys) && rows == Rows(o, ws, keys)
  {
    rows, chosen := [], [];
    var i := 0;
    while i < |keys|
      invariant i <= |keys| && chosen == Chosen(o, hash, ws, keys[..i]) && rows == Rows(o, ws, keys[..i])
    {
      var row, picked := TakeStratum(o, hash, ws, keys[i], groups[keys[i]]);
      ChosenMore(o, hash, ws, keys, i);
      rows := rows + [row];
      chosen := chosen + picked;
      i := i + 1;
    }
    assert keys[..|keys|] == keys;
  }

  method SelectWork(o: Options, hash: string -> int, ws: seq<Work>)
    returns (selected: seq<Work>, report: seq<Stratum>, ghost keys: seq<string>)
    ensures Lists(keys, Strata(ws)) && selected == Arrange(o, hash, Chosen(o, hash, ws, keys))
    ensures IsReport(o, ws, report)
  {
    var groups := GroupByStratum(ws);
    var sorted := SortedKeys(groups.Keys);
    keys := sorted;
    assert forall key | key in sorted :: key in Members(sorted);
    report, selected := TakeStrata(o, hash, ws, groups, sorted);
    RowsListed(o, ws, sorted, report);
    report := ReportEmpty(o, ws, groups, report);
    SortedRowsReport(o, ws, report);
    report := SortBy(ByKey(), report);
    if o.newest {
      selected := SortBy(ByStage(o.newest, hash), selected);
    }
    if o.limit > 0 && |selected| > o.limit {
      selected := selected[..o.limit];
    }
  }

  lemma RowsListed(o: Options, ws: seq<Work>, keys: seq<string>, report: seq<Stratum>)
    requires Lists(keys, Strata(ws)) && report == Rows(o, ws, keys)
    ensures RowsOf(o, ws, report) && forall key | key in Strata(ws) :: Row(o, ws, key) in report
    ensures forall row | row in report :: row.key in Strata(ws)
  {
    StringsOrdered(Strata(ws));
    assert forall j | 0 <= j < |keys| :: keys[j] in Members(keys);
    forall key | key in Strata(ws)
      ensures Row(o, ws, key) in report
    {
      var j :| 0 <= j < |keys| && keys[j] == key;
      assert report[j] == Row(o, ws, key);
    }
  }
}
