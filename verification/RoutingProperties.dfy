/**
 What fan-out guarantees for every list of matching routes: one log entry for each, callbacks never
 called inline, the last publisher's paths, every overwritten claim recorded, and a fragment that is
 either routed or still in the inbox.
 */
module RoutingProperties {
  import opened Wrappers
  import opened Sorting
  import opened Routing

  // ---- Which routes match ----

  /** The matches are the routes that match, in route order. */
  lemma {:induction false} MatchingKeepsOrder(routes: seq<Route>, f: Fragment, entities: seq<Entity>)
    ensures forall r :: r in Matching(routes, f, entities) <==> r in routes && Matches(r, f, entities)
    ensures UniqueIds(routes) ==> UniqueIds(Matching(routes, f, entities))
  {
    if routes != [] {
      var init, last := routes[..|routes| - 1], routes[|routes| - 1];
      MatchingKeepsOrder(init, f, entities);
      assert routes == init + [last];
      if UniqueIds(routes) {
        assert forall r | r in Matching(init, f, entities) :: r in init && r.id != last.id;
      }
    }
  }

  /**
   A route matches when its source and type are the fragment's, or not given, and one entity has both the
   kind and the value it asks for; if it asks for neither, no entity is needed.
   */
  lemma MatchesExactly(r: Route, f: Fragment, entities: seq<Entity>)
    ensures Matches(r, f, entities) <==>
              && r.matchSource in {"", f.source} && r.matchType in {"", f.sourceType}
              && (r.matchKind + r.matchValue == "" || exists i | 0 <= i < |entities| ::
                    r.matchKind in {"", entities[i].kind} && r.matchValue in {"", entities[i].value})
  {
    if i :| 0 <= i < |entities| && r.matchKind in {"", entities[i].kind} && r.matchValue in {"", entities[i].value} {
      assert entities[i] in entities && EntityMatches(r, entities[i]);
    }
    if e :| e in entities && EntityMatches(r, e) {
      var i :| 0 <= i < |entities| && entities[i] == e;
    }
    assert r.matchKind + r.matchValue == "" <==> r.matchKind == "" && r.matchValue == "";
  }

  /** Of two routes that match, the earlier one has its turn first. */
  lemma {:induction false} MatchesInTurn(routes: seq<Route>, f: Fragment, entities: seq<Entity>, a: nat, b: nat)
    returns (i: nat, j: nat)
    requires a < b < |routes| && Matches(routes[a], f, entities) && Matches(routes[b], f, entities)
    ensures i < j < |Matching(routes, f, entities)|
    ensures Matching(routes, f, entities)[i] == routes[a] && Matching(routes, f, entities)[j] == routes[b]
  {
    var init := routes[..|routes| - 1];
    if b < |init| {
      i, j := MatchesInTurn(init, f, entities, a, b);
    } else {
      MatchingKeepsOrder(init, f, entities);
      assert init[a] in Matching(init, f, entities);
      i :| 0 <= i < |Matching(init, f, entities)| && Matching(init, f, entities)[i] == routes[a];
      j := |Matching(init, f, entities)|;
    }
  }

  predicate UniqueIds(routes: seq<Route>) {
    forall i, j | 0 <= i < j < |routes| :: routes[i].id != routes[j].id
  }

  // ---- What one match amounts to ----

  predicate Known(env: Environment, r: Route) {
    r.auto ==> r.destination in env.kinds
  }

  /** Matches that are delivered inline: automatic, and not a callback. */
  predicate IsInline(env: Environment, r: Route) {
    r.auto && r.destination in env.kinds && env.kinds[r.destination] != "callback"
  }

  predicate Delivers(env: Environment, r: Route) {
    IsInline(env, r) && env.deliver(r.id).Delivered?
  }

  predicate IsCallback(env: Environment, r: Route) {
    r.auto && r.destination in env.kinds && env.kinds[r.destination] == "callback"
  }

  /** Matches whose delivery the queue takes over: callbacks, and inline deliveries that failed. */
  predicate IsQueued(env: Environment, r: Route) {
    (IsCallback(env, r) || (IsInline(env, r) && !Delivers(env, r))) && Queues(env, r.id)
  }

  predicate Publishes(env: Environment, r: Route, a: string) {
    Delivers(env, r) && a in env.deliver(r.id).published
  }

  predicate AllKnown(env: Environment, matches: seq<Route>) {
    forall r | r in matches :: Known(env, r)
  }

  /** The leading matches whose destinations are known. */
  function KnownPrefix(env: Environment, matches: seq<Route>): (n: nat)
    ensures n <= |matches|
  {
    if matches == [] then 0
    else
      var n := KnownPrefix(env, matches[..|matches| - 1]);
      if n == |matches| - 1 && Known(env, matches[n]) then n + 1 else n
  }

  lemma RunAllStep(env: Environment, f: Fragment, p: Pass, matches: seq<Route>)
    requires matches != []
    ensures var (q, ok) := RunAll(env, f, p, matches[..|matches| - 1]);
            var known := Known(env, matches[|matches| - 1]);
            && RunAll(env, f, p, matches).1 == (ok && known)
            && (!ok || !known ==> RunAll(env, f, p, matches).0 == q)
  {
  }

  /** A pass does exactly the leading matches with known destinations, and succeeds when that is all of them. */
  lemma {:induction false} StopsAtUnknown(env: Environment, f: Fragment, p: Pass, matches: seq<Route>)
    ensures var n := KnownPrefix(env, matches);
            && RunAll(env, f, p, matches).0 == RunAll(env, f, p, matches[..n]).0
            && (RunAll(env, f, p, matches).1 <==> AllKnown(env, matches))
            && AllKnown(env, matches[..n]) && RunAll(env, f, p, matches[..n]).1
            && (n < |matches| ==> !Known(env, matches[n]))
  {
    if matches != [] {
      var init, last := matches[..|matches| - 1], matches[|matches| - 1];
      StopsAtUnknown(env, f, p, init);
      RunAllStep(env, f, p, matches);
      var n := KnownPrefix(env, matches);
      assert matches == init + [last];
      if n == |matches| {
        assert matches[..n] == matches;
        assert init[..n - 1] == init;
      } else {
        assert init[..n] == matches[..n];
        if n < |init| {
          assert init[n] == matches[n];
        }
      }
    }
  }

  lemma AllKnownInit(env: Environment, f: Fragment, p: Pass, matches: seq<Route>)
    requires AllKnown(env, matches) && matches != []
    ensures var init, last := matches[..|matches| - 1], matches[|matches| - 1];
            var before := RunAll(env, f, p, init).0;
            && AllKnown(env, init) && Known(env, last) && OneMatch(env, f, before, last).Some?
            && RunAll(env, f, p, matches) == (OneMatch(env, f, before, last).value, true)
  {
    StopsAtUnknown(env, f, p, matches[..|matches| - 1]);
    assert matches[|matches| - 1] in matches;
  }

  // ---- The log ----

  /** The queue is there and takes the delivery. */
  predicate Accepts(env: Environment, id: string) {
    env.queue.Some? && env.queue.value(id)
  }

  /** The entry is the route's own, and says what became of it. */
  predicate Describes(env: Environment, f: Fragment, r: Route, e: Entry) {
    && e.fragment == f.id && e.route == r.id && e.destination == r.destination
    && e.decision == (if Delivers(env, r) then "auto_route" else "inbox")
    && (e.reason == ManualReview <==> !r.auto)
    && (e.reason == QueueUnavailable <==> IsCallback(env, r) && env.queue.None?)
    && (e.reason == QueuedByDesign("callback") <==> IsCallback(env, r) && Accepts(env, r.id))
    && (e.reason == EnqueueError <==> IsCallback(env, r) && env.queue.Some? && !env.queue.value(r.id))
    && (IsInline(env, r) ==> DescribesDelivery(env.deliver(r.id), Accepts(env, r.id), e.reason))
  }

  /** The reason has the attempts and the result of the delivery, and says whether it was queued for later. */
  predicate DescribesDelivery(d: Delivery, queued: bool, reason: Reason) {
    match d
    case Failed(attempts, error) =>
      reason == if queued then DeliveryQueued(attempts, error) else DestinationError(attempts, error)
    case Delivered(attempts, ref, _) => reason.AutoRoute? && reason.attempts == attempts && reason.ref == ref
  }

  lemma OneEntry(env: Environment, f: Fragment, p: Pass, r: Route)
    requires Known(env, r)
    ensures OneMatch(env, f, p, r).Some?
    ensures var q := OneMatch(env, f, p, r).value;
            |q.log| == |p.log| + 1 && q.log[..|p.log|] == p.log && Describes(env, f, r, q.log[|p.log|])
  {
    if IsCallback(env, r) {
      CallbackEntry(env, f, p, r);
    } else if IsInline(env, r) {
      InlineEntry(env, f, p, r);
    }
  }

  lemma CallbackEntry(env: Environment, f: Fragment, p: Pass, r: Route)
    requires IsCallback(env, r)
    ensures var q := Callback(env, f, p, r);
            |q.log| == |p.log| + 1 && q.log[..|p.log|] == p.log && Describes(env, f, r, q.log[|p.log|])
  {
  }

  lemma InlineEntry(env: Environment, f: Fragment, p: Pass, r: Route)
    requires IsInline(env, r)
    ensures var q := Inline(env, f, p, r);
            |q.log| == |p.log| + 1 && q.log[..|p.log|] == p.log && Describes(env, f, r, q.log[|p.log|])
  {
  }

  /** The log has one more entry for each of the first `n` matches, in their order, which describes it. */
  ghost predicate LoggedEach(env: Environment, f: Fragment, matches: seq<Route>, n: nat, before: seq<Entry>,
                             after: seq<Entry>)
    requires n <= |matches|
  {
    && |after| == |before| + n && before <= after
    && forall i | 0 <= i < n :: Describes(env, f, matches[i], after[|before| + i])
  }

  lemma LoggedMore(env: Environment, f: Fragment, matches: seq<Route>, before: seq<Entry>, mid: seq<Entry>,
                   after: seq<Entry>)
    requires matches != [] && |after| == |mid| + 1 && after[..|mid|] == mid
    requires LoggedEach(env, f, matches[..|matches| - 1], |matches| - 1, before, mid)
    requires Describes(env, f, matches[|matches| - 1], after[|mid|])
    ensures LoggedEach(env, f, matches, |matches|, before, after)
  {
    forall i | 0 <= i < |matches|
      ensures Describes(env, f, matches[i], after[|before| + i])
    {
      if i < |matches| - 1 {
        assert after[..|mid|][|before| + i] == mid[|before| + i];
        assert matches[..|matches| - 1][i] == matches[i];
      }
    }
  }

  /**
   Main result: a pass over known destinations leaves exactly one log entry for each match, in route
   order, and an entry says `auto_route` exactly when its route delivered at once.
   */
  lemma {:induction false} OneEntryEach(env: Environment, f: Fragment, p: Pass, matches: seq<Route>)
    requires AllKnown(env, matches)
    ensures LoggedEach(env, f, matches, |matches|, p.log, RunAll(env, f, p, matches).0.log)
  {
    if matches != [] {
      var init, last := matches[..|matches| - 1], matches[|matches| - 1];
      AllKnownInit(env, f, p, matches);
      OneEntryEach(env, f, p, init);
      var before := RunAll(env, f, p, init).0;
      OneEntry(env, f, before, last);
      LoggedMore(env, f, matches, p.log, before.log, RunAll(env, f, p, matches).0.log);
    }
  }

  // ---- Inline deliveries ----

  function InlineIds(env: Environment, matches: seq<Route>): seq<string> {
    if matches == [] then []
    else
      var rest, last := InlineIds(env, matches[..|matches| - 1]), matches[|matches| - 1];
      if IsInline(env, last) then rest + [last.id] else rest
  }

  function QueuedIds(env: Environment, matches: seq<Route>): seq<string> {
    if matches == [] then []
    else
      var rest, last := QueuedIds(env, matches[..|matches| - 1]), matches[|matches| - 1];
      if IsQueued(env, last) then rest + [last.id] else rest
  }

  lemma OneInline(env: Environment, f: Fragment, p: Pass, r: Route)
    requires Known(env, r)
    ensures OneMatch(env, f, p, r).Some?
    ensures OneMatch(env, f, p, r).value.executed == p.executed + (if IsInline(env, r) then [r.id] else [])
    ensures OneMatch(env, f, p, r).value.queued == p.queued + (if IsQueued(env, r) then [r.id] else [])
    ensures OneMatch(env, f, p, r).value.delivered == (p.delivered || Delivers(env, r))
  {
  }

  /**
   Exactly the automatic matches that are not callbacks are delivered inline, and exactly the callbacks
   and the failed deliveries that the queue accepts are queued, once each and in order; and something
   was delivered exactly when an inline delivery succeeded.
   */
  lemma {:induction false} InlineExactly(env: Environment, f: Fragment, p: Pass, matches: seq<Route>)
    requires AllKnown(env, matches)
    ensures var q := RunAll(env, f, p, matches).0;
            && q.executed == p.executed + InlineIds(env, matches)
            && q.queued == p.queued + QueuedIds(env, matches)
            && (q.delivered <==> p.delivered || exists r | r in matches :: Delivers(env, r))
  {
    if matches != [] {
      var init, last := matches[..|matches| - 1], matches[|matches| - 1];
      AllKnownInit(env, f, p, matches);
      InlineExactly(env, f, p, init);
      OneInline(env, f, RunAll(env, f, p, init).0, last);
      assert matches == init + [last];
    }
  }

  /** No callback is ever called inline. */
  lemma {:induction false} CallbacksOnlyQueued(env: Environment, f: Fragment, p: Pass, matches: seq<Route>, r: Route)
    requires UniqueIds(matches) && r in matches && r.destination in env.kinds && env.kinds[r.destination] == "callback"
    requires r.id !in p.executed
    ensures r.id !in RunAll(env, f, p, matches).0.executed
  {
    var n := KnownPrefix(env, matches);
    StopsAtUnknown(env, f, p, matches);
    InlineExactly(env, f, p, matches[..n]);
    InlineIdsAre(env, matches[..n]);
    var i :| 0 <= i < |matches| && matches[i] == r;
    forall k | 0 <= k < n && matches[k].id == r.id
      ensures k == i
    {
    }
  }

  lemma {:induction false} InlineIdsAre(env: Environment, matches: seq<Route>)
    ensures forall id | id in InlineIds(env, matches) ::
              exists k | 0 <= k < |matches| :: matches[k].id == id && IsInline(env, matches[k])
  {
    if matches != [] {
      InlineIdsAre(env, matches[..|matches| - 1]);
      forall id | id in InlineIds(env, matches)
        ensures exists k | 0 <= k < |matches| :: matches[k].id == id && IsInline(env, matches[k])
      {
        if id in InlineIds(env, matches[..|matches| - 1]) {
          var k :| 0 <= k < |matches| - 1 && matches[..|matches| - 1][k].id == id
                   && IsInline(env, matches[..|matches| - 1][k]);
          assert matches[k].id == id && IsInline(env, matches[k]);
        } else {
          assert matches[|matches| - 1].id == id && IsInline(env, matches[|matches| - 1]);
        }
      }
    }
  }

  // ---- Published paths ----

  /** The last of the matches that published an attachment. */
  function LastPublisher(env: Environment, matches: seq<Route>, a: string): Option<Route> {
    if matches == [] then None
    else if Publishes(env, matches[|matches| - 1], a) then Some(matches[|matches| - 1])
    else LastPublisher(env, matches[..|matches| - 1], a)
  }

  lemma {:induction false} LastPublisherPublishes(env: Environment, matches: seq<Route>, a: string)
    ensures var r := LastPublisher(env, matches, a);
            if r.None? then forall m | m in matches :: !Publishes(env, m, a)
            else r.value in matches && Publishes(env, r.value, a)
  {
    if matches != [] {
      LastPublisherPublishes(env, matches[..|matches| - 1], a);
      assert matches == matches[..|matches| - 1] + [matches[|matches| - 1]];
    }
  }

  lemma OneClaim(env: Environment, f: Fragment, p: Pass, r: Route, a: string)
    requires Known(env, r)
    ensures OneMatch(env, f, p, r).Some?
    ensures var q := OneMatch(env, f, p, r).value;
            && (a in q.winners <==> a in p.winners || Publishes(env, r, a))
            && (a in q.winners ==> q.winners[a] == if Publishes(env, r, a) then r.id else p.winners[a])
            && (a in q.paths <==> a in p.paths)
            && (a in q.paths ==>
                  q.paths[a] == if Publishes(env, r, a) then env.deliver(r.id).published[a] else p.paths[a])
  {
  }

  /**
   Main result: after a pass, each attachment's path is the one its last successful publisher gave it,
   and is unchanged when it had none; that publisher is the one on record as having claimed it.
   */
  lemma {:induction false} LastPublisherWins(env: Environment, f: Fragment, p: Pass, matches: seq<Route>, a: string)
    requires AllKnown(env, matches) && p.winners == map[]
    ensures var q := RunAll(env, f, p, matches).0;
            var r := LastPublisher(env, matches, a);
            && (a in q.winners <==> r.Some?) && (r.Some? ==> q.winners[a] == r.value.id)
            && (a in q.paths <==> a in p.paths)
            && (r.Some? ==> Publishes(env, r.value, a))
            && (a in q.paths ==> q.paths[a] == if r.Some? then env.deliver(r.value.id).published[a] else p.paths[a])
  {
    if matches != [] {
      var init, last := matches[..|matches| - 1], matches[|matches| - 1];
      AllKnownInit(env, f, p, matches);
      LastPublisherWins(env, f, p, init, a);
      OneClaim(env, f, RunAll(env, f, p, init).0, last, a);
    }
  }

  // ---- Collisions ----

  lemma OneReason(env: Environment, f: Fragment, p: Pass, r: Route)
    requires Delivers(env, r)
    ensures OneMatch(env, f, p, r).Some?
    ensures var q := OneMatch(env, f, p, r).value;
            && |q.log| == |p.log| + 1 && q.log[|p.log|].reason.AutoRoute?
            && AreCollisions(q.log[|p.log|].reason.collisions, p.winners, env.deliver(r.id).published, r.id)
  {
  }

  lemma LogSize(env: Environment, f: Fragment, p: Pass, matches: seq<Route>)
    requires AllKnown(env, matches)
    ensures |RunAll(env, f, p, matches).0.log| == |p.log| + |matches|
  {
    OneEntryEach(env, f, p, matches);
  }

  /** The log entries of the first `n` matches stay as they are. */
  lemma {:induction false} LogGrows(env: Environment, f: Fragment, p: Pass, matches: seq<Route>, n: nat)
    requires AllKnown(env, matches) && n <= |matches|
    ensures RunAll(env, f, p, matches[..n]).0.log <= RunAll(env, f, p, matches).0.log
    decreases |matches|
  {
    if n == |matches| {
      assert matches[..n] == matches;
    } else {
      var init, last := matches[..|matches| - 1], matches[|matches| - 1];
      AllKnownInit(env, f, p, matches);
      LogGrows(env, f, p, init, n);
      assert init[..n] == matches[..n];
      OneEntry(env, f, RunAll(env, f, p, init).0, last);
    }
  }

  /**
   Main result: the collisions on record form exactly the chain of earlier publishers. A match that
   delivered lists an attachment, with a previous route, exactly when it published the attachment and
   that route is the last that had published it before.
   */
  lemma CollisionsAreTheChain(env: Environment, f: Fragment, p: Pass, matches: seq<Route>, i: nat, c: Collision)
    requires AllKnown(env, matches) && UniqueIds(matches) && p.winners == map[]
    requires i < |matches| && Delivers(env, matches[i])
    ensures var q := RunAll(env, f, p, matches).0;
            && |p.log| + i < |q.log| && q.log[|p.log| + i].reason.AutoRoute?
            && var collisions := q.log[|p.log| + i].reason.collisions;
               var previous := LastPublisher(env, matches[..i], c.attachment);
               && InOrder(ByAttachment(), collisions)
               && (c in collisions <==>
                     Publishes(env, matches[i], c.attachment) && previous.Some? && previous.value.id == c.previous)
  {
    var upTo := matches[..i + 1];
    assert upTo[..i] == matches[..i] && upTo[i] == matches[i];
    assert forall r | r in upTo :: r in matches;
    AllKnownInit(env, f, p, upTo);
    LogSize(env, f, p, matches[..i]);
    LogGrows(env, f, p, matches, i + 1);
    OneReason(env, f, RunAll(env, f, p, matches[..i]).0, matches[i]);
    LastPublisherWins(env, f, p, matches[..i], c.attachment);
    LastPublisherPublishes(env, matches[..i], c.attachment);
    var previous := LastPublisher(env, matches[..i], c.attachment);
    if previous.Some? {
      var k :| 0 <= k < i && matches[k] == previous.value;
    }
  }

  // ---- The fragment ----

  /** Without a match there is exactly one new entry, which says so; a skipped fragment has none. */
  lemma NoMatchIsLogged(env: Environment, f: Fragment, skipped: bool, matches: seq<Route>, before: World,
                        after: World, r: Result<Fragment, string>)
    requires Routes(env, f, skipped, matches, before, after, r) && (skipped || matches == [])
    ensures r == Ok(f) && after == before.(pass := before.pass.(log := after.pass.log))
    ensures after.pass.log == before.pass.log + (if skipped then [] else [Entry(f.id, "", "", "inbox", NoRouteMatch)])
  {
  }

  lemma PassIsLogged(env: Environment, f: Fragment, p: Pass, matches: seq<Route>)
    ensures LoggedEach(env, f, matches, KnownPrefix(env, matches), p.log, RunAll(env, f, p, matches).0.log)
    ensures RunAll(env, f, p, matches).1 <==> KnownPrefix(env, matches) == |matches|
  {
    var n := KnownPrefix(env, matches);
    StopsAtUnknown(env, f, p, matches);
    PrefixIsLogged(env, f, p, matches, n);
    AllKnownPrefix(env, matches);
  }

  lemma PrefixIsLogged(env: Environment, f: Fragment, p: Pass, matches: seq<Route>, n: nat)
    requires n <= |matches| && AllKnown(env, matches[..n])
    ensures LoggedEach(env, f, matches, n, p.log, RunAll(env, f, p, matches[..n]).0.log)
  {
    OneEntryEach(env, f, p, matches[..n]);
    LoggedPrefix(env, f, matches, n, p.log, RunAll(env, f, p, matches[..n]).0.log);
  }

  lemma LoggedPrefix(env: Environment, f: Fragment, matches: seq<Route>, n: nat, before: seq<Entry>, after: seq<Entry>)
    requires n <= |matches| && LoggedEach(env, f, matches[..n], n, before, after)
    ensures LoggedEach(env, f, matches, n, before, after)
  {
    forall i | 0 <= i < n
      ensures Describes(env, f, matches[i], after[|before| + i])
    {
      assert matches[..n][i] == matches[i];
    }
  }

  /**
   Main result: otherwise there is one new entry for each match, up to the first whose destination is not
   known, and that one fails the pass.
   */
  lemma EveryMatchIsLogged(env: Environment, f: Fragment, matches: seq<Route>, before: World, after: World,
                           r: Result<Fragment, string>)
    requires Routes(env, f, false, matches, before, after, r) && matches != []
    ensures LoggedEach(env, f, matches, KnownPrefix(env, matches), before.pass.log, after.pass.log)
    ensures r == Err("destination") <==> KnownPrefix(env, matches) < |matches|
  {
    PassIsLogged(env, f, before.pass, matches);
  }

  lemma AllKnownPrefix(env: Environment, matches: seq<Route>)
    requires AllKnown(env, matches[..KnownPrefix(env, matches)])
    requires KnownPrefix(env, matches) < |matches| ==> !Known(env, matches[KnownPrefix(env, matches)])
    ensures AllKnown(env, matches) <==> KnownPrefix(env, matches) == |matches|
  {
    var n := KnownPrefix(env, matches);
    if n == |matches| {
      assert matches[..n] == matches;
    } else {
      assert matches[n] in matches;
    }
  }

  /**
   Main result: a fragment that awaits routing leaves the two stages routed and out of the inbox exactly
   when some match delivered at once, and otherwise unrouted and in the inbox; a fragment that was
   skipped is left alone.
   */
  lemma RoutedOrStaged(env: Environment, f: Fragment, skipped: bool, matches: seq<Route>, before: World, after: World,
                       r: Result<Fragment, string>)
    requires Routes(env, f, skipped, matches, before, after, r) && r.Ok?
    requires f.status == Inbox && f.id in before.statuses && before.statuses[f.id] == Inbox
    requires !before.pass.delivered
    ensures var inbox := Staged(after.inbox, r.value, skipped);
            && after.statuses.Keys == before.statuses.Keys
            && (forall id | id in before.statuses && id != f.id :: after.statuses[id] == before.statuses[id])
            && (forall id | id != f.id :: id in inbox <==> id in before.inbox)
            && if skipped then after == before && inbox == before.inbox
               else if exists m | m in matches :: Delivers(env, m) then after.statuses[f.id] == Routed && f.id !in inbox
               else after.statuses[f.id] == Inbox && f.id in inbox
  {
    if !skipped && matches != [] {
      StopsAtUnknown(env, f, before.pass, matches);
      InlineExactly(env, f, before.pass, matches);
    }
  }
}
