/**
 What completing a capture computes: the loop over the bindings decides each of them from the state
 before the call, exactly as the stored bytes and the client's report demand, and the order in which
 the client lists its outcomes does not matter.
 */
module CaptureCompletion {
  import opened Wrappers
  import opened Text
  import opened Digest
  import opened Media
  import opened CaptureProtocol

  // ---- What settling the bindings computes ----

  /** What a completion decides for one binding, read off the state before it. */
  function Decide(db: Db, capture: string, now: int, reported: map<string, Item>, b: Binding): Result<Settled, Error>
    requires b.variant in db.variants
  {
    Settle(now, b, db.variants[b.variant], Get(reported, b.client), Get(db.outcomes, (capture, b.client)))
  }

  /** Two variants tables that agree on which bytes are verified, and on what those bytes are. */
  ghost predicate SameBytes(before: map<string, Variant>, after: map<string, Variant>) {
    && before.Keys == after.Keys
    && forall id | id in before ::
         && (Verified(before[id]) <==> Verified(after[id]))
         && before[id].digest == after[id].digest && before[id].size == after[id].size
  }

  ghost predicate Pinned(db: Db, bs: seq<Binding>) {
    && DistinctClients(bs)
    && forall k | 0 <= k < |bs| :: bs[k].variant in db.variants
  }

  /** The clients of the first `n` bindings. */
  function Clients(bs: seq<Binding>, n: nat): set<string>
    requires n <= |bs|
  {
    set k | 0 <= k < n :: bs[k].client
  }

  /** One round of the loop, in terms of the state before the call. */
  lemma SettleNextDecides(db: Db, capture: string, now: int, reported: map<string, Item>, bs: seq<Binding>, n: nat,
                          q: Progress, p: Progress)
    requires 0 < n <= |bs| && Pinned(db, bs)
    requires SameBytes(db.variants, q.variants) && q.unused == reported - Clients(bs, n - 1)
    requires SettleNext(capture, now, db.outcomes, bs[n - 1], q) == Ok(p)
    ensures SameBytes(db.variants, p.variants)
    ensures var d := Decide(db, capture, now, reported, bs[n - 1]);
            && d.Ok?
            && p.outcomes == q.outcomes[(capture, bs[n - 1].client) := d.value.row]
            && p.partial == (q.partial || d.value.partial)
    ensures p.unused == reported - Clients(bs, n)
  {
    var b := bs[n - 1];
    assert b.client !in Clients(bs, n - 1);
    assert Get(q.unused, b.client) == Get(reported, b.client);
    var s := Settle(now, b, q.variants[b.variant], Get(q.unused, b.client), Get(db.outcomes, (capture, b.client)));
    assert s == Decide(db, capture, now, reported, b);
    UnusedShrinks(reported, bs, n);
    if s.value.failure.Some? {
      assert !Verified(q.variants[b.variant]);
    }
  }

  lemma UnusedShrinks(reported: map<string, Item>, bs: seq<Binding>, n: nat)
    requires 0 < n <= |bs|
    ensures reported - Clients(bs, n - 1) - {bs[n - 1].client} == reported - Clients(bs, n)
  {
    assert Clients(bs, n) == Clients(bs, n - 1) + {bs[n - 1].client};
  }

  function WriteRows(outcomes: map<(string, string), Row>, capture: string, bs: seq<Binding>, ds: seq<Settled>)
    : map<(string, string), Row>
    requires |ds| <= |bs|
  {
    if ds == [] then outcomes
    else
      var n := |ds| - 1;
      WriteRows(outcomes, capture, bs, ds[..n])[(capture, bs[n].client) := ds[n].row]
  }

  /** Written rows: one for each binding so far, and nothing else changes. */
  lemma {:induction false} WrittenRows(outcomes: map<(string, string), Row>, capture: string, bs: seq<Binding>,
                                       ds: seq<Settled>)
    requires |ds| <= |bs| && DistinctClients(bs)
    ensures var r := WriteRows(outcomes, capture, bs, ds);
            && (forall k | 0 <= k < |ds| :: (capture, bs[k].client) in r && r[(capture, bs[k].client)] == ds[k].row)
            && (forall key: (string, string) | key.0 != capture || forall k | 0 <= k < |ds| :: key.1 != bs[k].client ::
                  Get(r, key) == Get(outcomes, key))
  {
    if ds != [] {
      WrittenRows(outcomes, capture, bs, ds[..|ds| - 1]);
    }
  }

  /** What the loop over the first bindings has done, given the decision for each of them. */
  ghost predicate Reflects(db: Db, capture: string, now: int, reported: map<string, Item>, bs: seq<Binding>,
                           ds: seq<Settled>, p: Progress)
    requires |ds| <= |bs|
  {
    && SameBytes(db.variants, p.variants) && p.unused == reported - Clients(bs, |ds|)
    && p.outcomes == WriteRows(db.outcomes, capture, bs, ds)
    && (p.partial <==> exists k | 0 <= k < |ds| :: ds[k].partial)
  }

  lemma ReflectsNext(db: Db, capture: string, now: int, reported: map<string, Item>, bs: seq<Binding>,
                     ds: seq<Settled>, q: Progress, p: Progress)
    returns (d: Settled)
    requires |ds| < |bs| && Pinned(db, bs) && Reflects(db, capture, now, reported, bs, ds, q)
    requires SettleNext(capture, now, db.outcomes, bs[|ds|], q) == Ok(p)
    ensures Decide(db, capture, now, reported, bs[|ds|]) == Ok(d)
    ensures Reflects(db, capture, now, reported, bs, ds + [d], p)
  {
    var n := |ds| + 1;
    SettleNextDecides(db, capture, now, reported, bs, n, q, p);
    d := Decide(db, capture, now, reported, bs[n - 1]).value;
    assert (ds + [d])[..n - 1] == ds;
    assert p.partial <==> exists k | 0 <= k < n :: (ds + [d])[k].partial by {
      if p.partial && d.partial { assert (ds + [d])[n - 1].partial; }
      if k :| 0 <= k < n - 1 && ds[k].partial { assert (ds + [d])[k].partial; }
    }
  }

  /** `ds` are the decisions for the first bindings. */
  ghost predicate Decided(db: Db, capture: string, now: int, reported: map<string, Item>, bs: seq<Binding>,
                          ds: seq<Settled>)
    requires |ds| <= |bs| && Pinned(db, bs)
  {
    forall k | 0 <= k < |ds| :: Decide(db, capture, now, reported, bs[k]) == Ok(ds[k])
  }

  lemma DecidedNext(db: Db, capture: string, now: int, reported: map<string, Item>, bs: seq<Binding>,
                    ds: seq<Settled>, d: Settled)
    requires |ds| < |bs| && Pinned(db, bs) && Decided(db, capture, now, reported, bs, ds)
    requires Decide(db, capture, now, reported, bs[|ds|]) == Ok(d)
    ensures Decided(db, capture, now, reported, bs, ds + [d])
  {
  }

  lemma ReflectsStart(db: Db, capture: string, now: int, reported: map<string, Item>, bs: seq<Binding>, p: Progress)
    requires p == Progress(db.outcomes, db.variants, reported, false)
    ensures Reflects(db, capture, now, reported, bs, [], p)
  {
    assert reported - Clients(bs, 0) == reported;
  }

  /** The loop over the first `n` bindings ends well, with `p`. */
  ghost predicate Ends(db: Db, capture: string, now: int, reported: map<string, Item>, bs: seq<Binding>, n: nat,
                       p: Progress)
    requires n <= |bs|
  {
    SettleAll(db, capture, now, reported, bs, n) == Ok(p)
  }

  /** A loop that ends well was well one binding earlier. */
  lemma EndedBefore(db: Db, capture: string, now: int, reported: map<string, Item>, bs: seq<Binding>, n: nat,
                    p: Progress)
    returns (q: Progress)
    requires 0 < n <= |bs| && Ends(db, capture, now, reported, bs, n, p)
    ensures Ends(db, capture, now, reported, bs, n - 1, q)
  {
    q := SettleAll(db, capture, now, reported, bs, n - 1).value;
  }

  lemma OneMoreDecided(db: Db, capture: string, now: int, reported: map<string, Item>, bs: seq<Binding>, n: nat,
                       front: seq<Settled>, q: Progress, p: Progress)
    returns (ds: seq<Settled>)
    requires 0 < n <= |bs| && Pinned(db, bs) && |front| == n - 1
    requires Ends(db, capture, now, reported, bs, n, p) && Ends(db, capture, now, reported, bs, n - 1, q)
    requires Reflects(db, capture, now, reported, bs, front, q) && Decided(db, capture, now, reported, bs, front)
    ensures |ds| == n && Reflects(db, capture, now, reported, bs, ds, p) && Decided(db, capture, now, reported, bs, ds)
  {
    var d := ReflectsNext(db, capture, now, reported, bs, front, q, p);
    ds := front + [d];
    DecidedNext(db, capture, now, reported, bs, front, d);
  }

  /**
   The loop over the bindings: each row is decided from the state before the call alone, the capture
   becomes partial exactly when some binding was decided so, and verified bytes are not touched.
   */
  lemma {:induction false} SettleAllDecides(db: Db, capture: string, now: int, reported: map<string, Item>,
                                            bs: seq<Binding>, n: nat, p: Progress)
    returns (ds: seq<Settled>)
    requires n <= |bs| && Pinned(db, bs) && Ends(db, capture, now, reported, bs, n, p)
    ensures |ds| == n && Reflects(db, capture, now, reported, bs, ds, p)
    ensures Decided(db, capture, now, reported, bs, ds)
    decreases n
  {
    if n == 0 {
      ds := [];
      ReflectsStart(db, capture, now, reported, bs, p);
    } else {
      var q := EndedBefore(db, capture, now, reported, bs, n, p);
      var front := SettleAllDecides(db, capture, now, reported, bs, n - 1, q);
      ds := OneMoreDecided(db, capture, now, reported, bs, n, front, q, p);
    }
  }

  // ---- The completion loop is exact ----

  lemma HexIsTrimmed(v: string)
    requires forall c | c in v :: '0' <= c <= '9' || 'a' <= c <= 'f'
    ensures TrimLeft(v) == v && TrimRight(v) == v && ToLower(v) == v
  {
    assert forall i | 0 <= i < |v| :: v[i] in v;
    assert forall i | 0 <= i < |v| :: !IsSpace(v[i]) && LowerChar(v[i]) == v[i];
  }

  lemma Sha256Normalized(v: string)
    requires IsHexDigest(v)
    ensures !Sha256(v).Empty() && Sha256(v).Normalized() == Some(v)
  {
    HexIsTrimmed(v);
    assert v[0] in v;
    var name := "sha256";
    assert TrimLeft(name) == name && TrimRight(name) == name && ToLower(name) == name;
    assert name[0] in name;
  }

  /** One binding's final outcome says exactly what is stored for it, whatever was reported. */
  lemma SettleExact(now: int, b: Binding, v: Variant, supplied: Option<Item>, prior: Option<Row>, s: Settled)
    requires Settle(now, b, v, supplied, prior) == Ok(s) && (v.digest == "" || IsHexDigest(v.digest))
    ensures ClaimsBytes(s.row.outcome) <==> Verified(v)
    ensures Verified(v) ==>
              && s.row.digest == v.digest && s.row.size == v.size && s.row.reason == "" && !s.row.retryable
              && (s.row.outcome == Uploaded <==> prior.Some? && prior.value.outcome == Uploaded)
    ensures !Verified(v) && supplied.Some? ==> s.row.outcome == supplied.value.outcome
    ensures s.partial <==> !(Verified(v) || b.action == ReferenceByLink || b.action == ServerAcquire
                             || (b.action == ReuseBlob && supplied.Some?))
    ensures s.row.updatedAt == now
  {
    if Verified(v) {
      Sha256Normalized(v.digest);
    }
  }

  lemma {:induction false} FoundBinding(bs: seq<Binding>, k: nat)
    requires DistinctClients(bs) && k < |bs|
    ensures FindBinding(bs, bs[k].client) == Some(bs[k])
  {
    if k > 0 {
      FoundBinding(bs[1..], k - 1);
    }
  }

  lemma {:induction false} BindingFound(bs: seq<Binding>, client: string) returns (k: nat)
    requires FindBinding(bs, client).Some?
    ensures k < |bs| && FindBinding(bs, client) == Some(bs[k]) && bs[k].client == client
  {
    if bs[0].client == client {
      k := 0;
    } else {
      k := BindingFound(bs[1..], client);
      k := k + 1;
    }
  }

  /** The items of a completion are collected exactly: each under its client, and no other. */
  lemma {:induction false} CollectExact(w: Write, n: nat, m: map<string, Item>)
    requires n <= |w.items| && Collect(w, n) == Ok(m)
    ensures forall i | 0 <= i < n :: w.items[i].client in m && m[w.items[i].client] == w.items[i]
    ensures forall client | client in m :: m[client] in w.items[..n] && m[client].client == client
  {
    if n > 0 {
      CollectExact(w, n - 1, Collect(w, n - 1).value);
      assert w.items[..n] == w.items[..n - 1] + [w.items[n - 1]];
    }
  }

  /** Items that are collected name this capture or none, and no client twice. */
  lemma {:induction false} CollectValid(w: Write, n: nat, m: map<string, Item>)
    requires n <= |w.items| && Collect(w, n) == Ok(m)
    ensures forall i | 0 <= i < n :: w.items[i].capture == "" || w.items[i].capture == w.capture
    ensures forall i, j | 0 <= i < j < n :: w.items[i].client != w.items[j].client
  {
    if n > 0 {
      CollectValid(w, n - 1, Collect(w, n - 1).value);
      CollectExact(w, n - 1, Collect(w, n - 1).value);
    }
  }

  /** The clients a completion request reports on. */
  function ReportedClients(w: Write): set<string> {
    set item | item in w.items :: item.client
  }

  /** A completion that succeeds, taken apart. */
  lemma CompletionSettles(db: Db, w: Write) returns (reported: map<string, Item>, ds: seq<Settled>, p: Progress)
    requires WellFormed(db) && CompleteStep(db, w).1.Completed?
    ensures w.capture in db.attempts && !Terminal(db.attempts[w.capture].completion)
    ensures Judge(db.reports, w) == NoReport
    ensures var bs, after := db.bindings[w.capture], CompleteStep(db, w).0;
            && Collect(w, |w.items|) == Ok(reported)
            && |ds| == |bs| && Pinned(db, bs)
            && Reflects(db, w.capture, w.now, reported, bs, ds, p) && p.unused == map[]
            && (forall k | 0 <= k < |bs| :: Decide(db, w.capture, w.now, reported, bs[k]) == Ok(ds[k]))
            && after == Close(db, w, p).0 && after.outcomes == p.outcomes && after.variants == p.variants
            && CompleteStep(db, w).1.completion == after.attempts[w.capture].completion
            && after.attempts[w.capture].completion == if p.partial then Partial else Complete
  {
    var bs := db.bindings[w.capture];
    reported := Collect(w, |w.items|).value;
    p := SettleAll(db, w.capture, w.now, reported, bs, |bs|).value;
    ds := SettleAllDecides(db, w.capture, w.now, reported, bs, |bs|, p);
  }

  /** Main result: every binding of a completed capture has the one outcome its stored state calls for. */
  lemma CompletionExact(db: Db, w: Write, k: nat)
    requires WellFormed(db) && CompleteStep(db, w).1.Completed? && k < |db.bindings[w.capture]|
    ensures var b, after := db.bindings[w.capture][k], CompleteStep(db, w).0;
            var key := (w.capture, b.client);
            && b.variant in db.variants && b.variant in after.variants && key in after.outcomes
            && var v, row := db.variants[b.variant], after.outcomes[key];
               && (Verified(after.variants[b.variant]) <==> Verified(v))
               && (ClaimsBytes(row.outcome) <==> Verified(v))
               && (Verified(v) ==> row.digest == v.digest && row.size == v.size)
               && (!Verified(v) && b.client in ReportedClients(w) ==>
                     exists item | item in w.items :: item.client == b.client && item.outcome == row.outcome)
               && row.updatedAt == w.now
  {
    var reported, ds, p := CompletionSettles(db, w);
    var bs := db.bindings[w.capture];
    var b := bs[k];
    WrittenRows(db.outcomes, w.capture, bs, ds);
    SettleExact(w.now, b, db.variants[b.variant], Get(reported, b.client),
                Get(db.outcomes, (w.capture, b.client)), ds[k]);
    CollectExact(w, |w.items|, reported);
  }

  /** What lets a binding end well: verified bytes, no client bytes expected, or a reuse reported on. */
  ghost predicate EndsWell(db: Db, w: Write, b: Binding)
    requires b.variant in db.variants
  {
    || Verified(db.variants[b.variant])
    || b.action == ReferenceByLink || b.action == ServerAcquire
    || (b.action == ReuseBlob && b.client in ReportedClients(w))
  }

  lemma PartialExactly(db: Db, w: Write, reported: map<string, Item>, b: Binding, d: Settled)
    requires b.variant in db.variants && StoredWell(db.variants) && Collect(w, |w.items|) == Ok(reported)
    requires Decide(db, w.capture, w.now, reported, b) == Ok(d)
    ensures d.partial <==> !EndsWell(db, w, b)
  {
    CollectExact(w, |w.items|, reported);
    SettleExact(w.now, b, db.variants[b.variant], Get(reported, b.client), Get(db.outcomes, (w.capture, b.client)), d);
  }

  /**
   Main result: a capture ends complete exactly when each of its bindings is backed by verified bytes,
   or never expected the client's bytes, or is a reuse the client reported on.
   */
  lemma CompleteExactly(db: Db, w: Write)
    requires WellFormed(db) && CompleteStep(db, w).1.Completed?
    ensures CompleteStep(db, w).1.completion == Complete
            <==> forall b | b in db.bindings[w.capture] :: b.variant in db.variants && EndsWell(db, w, b)
    ensures CompleteStep(db, w).1.completion == Complete || CompleteStep(db, w).1.completion == Partial
  {
    var reported, ds, p := CompletionSettles(db, w);
    var bs := db.bindings[w.capture];
    forall k | 0 <= k < |bs| ensures ds[k].partial <==> !EndsWell(db, w, bs[k]) {
      PartialExactly(db, w, reported, bs[k], ds[k]);
    }
    if k :| 0 <= k < |bs| && ds[k].partial {
      assert bs[k] in bs;
    }
  }

  // ---- The order of the reported outcomes does not matter ----

  /** The requests are the same but for the order of their items. */
  ghost predicate Reordered(w: Write, w': Write) {
    multiset(w.items) == multiset(w'.items) && w' == w.(items := w'.items)
  }

  lemma {:induction false} TwoPositions<T>(s: seq<T>, x: T) returns (i: nat, j: nat)
    requires multiset(s)[x] >= 2
    ensures i < j < |s| && s[i] == x == s[j]
  {
    var front, last := s[..|s| - 1], s[|s| - 1];
    assert s == front + [last];
    if last == x {
      assert x in front;
      i :| 0 <= i < |front| && front[i] == x;
      j := |front|;
    } else {
      i, j := TwoPositions(front, x);
    }
  }

  lemma {:induction false} PairCounted<T>(s: seq<T>, i: nat, j: nat)
    requires i < j < |s| && s[i] == s[j]
    ensures multiset(s)[s[i]] >= 2
  {
    var front, last := s[..|s| - 1], s[|s| - 1];
    assert s == front + [last];
    if j < |front| {
      PairCounted(front, i, j);
    } else {
      assert front[i] in multiset(front);
    }
  }

  /** A client named once in every order of the items is named once in each. */
  lemma OneItemPerClient(w: Write, w': Write, i: nat, j: nat)
    requires Reordered(w, w') && i < j < |w'.items| && w'.items[i].client == w'.items[j].client
    ensures exists k, l | 0 <= k < l < |w.items| :: w.items[k].client == w.items[l].client
  {
    var x, y := w'.items[i], w'.items[j];
    if x == y {
      PairCounted(w'.items, i, j);
      var k, l := TwoPositions(w.items, x);
    } else {
      assert x in multiset(w'.items) && y in multiset(w'.items);
      var k :| 0 <= k < |w.items| && w.items[k] == x;
      var l :| 0 <= l < |w.items| && w.items[l] == y;
      if k < l {
        assert w.items[k].client == w.items[l].client;
      } else {
        assert w.items[l].client == w.items[k].client;
      }
    }
  }

  /** Items that name each client once, and no foreign capture, are collected. */
  lemma {:induction false} CollectSucceeds(w: Write, n: nat)
    requires n <= |w.items|
    requires forall i | 0 <= i < n :: w.items[i].capture == "" || w.items[i].capture == w.capture
    requires forall i, j | 0 <= i < j < n :: w.items[i].client != w.items[j].client
    ensures Collect(w, n).Ok?
  {
    if n > 0 {
      CollectSucceeds(w, n - 1);
      CollectExact(w, n - 1, Collect(w, n - 1).value);
    }
  }

  lemma CollectReordered(w: Write, w': Write)
    requires Reordered(w, w') && Collect(w, |w.items|).Ok?
    ensures Collect(w', |w'.items|) == Collect(w, |w.items|)
  {
    CollectAlsoSucceeds(w, w');
    var m, m' := Collect(w, |w.items|).value, Collect(w', |w'.items|).value;
    CollectExact(w, |w.items|, m);
    CollectExact(w', |w'.items|, m');
    SameItems(w, w');
    forall client | client in m ensures client in m' && m'[client] == m[client] {
      assert m[client] in w.items[..|w.items|];
      assert m[client] in w'.items;
    }
    forall client | client in m' ensures client in m {
      assert m'[client] in w'.items[..|w'.items|];
      assert m'[client] in w.items;
    }
    assert m == m';
  }

  lemma SameItems(w: Write, w': Write)
    requires Reordered(w, w')
    ensures forall item :: item in w.items <==> item in w'.items
  {
    forall item ensures item in w.items <==> item in w'.items {
      assert item in w.items <==> item in multiset(w.items);
      assert item in w'.items <==> item in multiset(w'.items);
    }
  }

  lemma CollectAlsoSucceeds(w: Write, w': Write)
    requires Reordered(w, w') && Collect(w, |w.items|).Ok?
    ensures Collect(w', |w'.items|).Ok?
  {
    CollectValid(w, |w.items|, Collect(w, |w.items|).value);
    SameItems(w, w');
    forall i | 0 <= i < |w'.items| ensures w'.items[i].capture == "" || w'.items[i].capture == w'.capture {
      assert w'.items[i] in w.items;
    }
    forall i, j | 0 <= i < j < |w'.items| ensures w'.items[i].client != w'.items[j].client {
      if w'.items[i].client == w'.items[j].client {
        OneItemPerClient(w, w', i, j);
      }
    }
    CollectSucceeds(w', |w'.items|);
  }

  /** Main result: reordering the reported outcomes changes neither the committed state nor success. */
  lemma OrderDoesNotMatter(db: Db, w: Write, w': Write)
    requires Reordered(w, w')
    ensures CompleteStep(db, w).0 == CompleteStep(db, w').0
    ensures CompleteStep(db, w) == CompleteStep(db, w')
            || (CompleteStep(db, w).1.Refused? && CompleteStep(db, w').1.Refused?)
  {
    assert Judge(db.reports, w) == Judge(db.reports, w') by {
      assert forall c, r | c in db.reports && r == db.reports[c] :: Matches(c, r, w) == Matches(c, r, w');
    }
    if Collect(w, |w.items|).Ok? {
      CollectReordered(w, w');
    } else if Collect(w', |w'.items|).Ok? {
      CollectReordered(w', w);
    }
  }
}
