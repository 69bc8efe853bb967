/**
 Routing a fragment to every destination that wants it (internal/ingest/pipeline.go: RouteStage.Run,
 runMatch, enqueueCallbackDelivery, routeMatches, InboxStage.Run).

 `Environment` stands for the destinations table, for what each inline delivery leads to, and for the
 delivery queue. `RouteStage` holds the tables one pass writes; `RunAll` is the pass as a function.
 */
module Routing {
  import opened Wrappers
  import opened Sorting

  datatype Status = Inbox | Routed | Archived

  datatype Fragment = Fragment(id: string, source: string, sourceType: string, status: Status)

  datatype Entity = Entity(kind: string, value: string)

  /** An empty criterion matches everything. */
  datatype Route = Route(id: string, auto: bool, destination: string, matchSource: string, matchType: string,
                         matchKind: string, matchValue: string)

  datatype Delivery =
    | Failed(attempts: nat, error: string)
    | Delivered(attempts: nat, ref: string, published: map<string, string>)

  /**
   The kind of each known destination, the result of delivering inline for a route, and whether the
   queue (if there is one) accepts a route's delivery.
   */
  datatype Environment = Environment(kinds: map<string, string>, deliver: string -> Delivery,
                                     queue: Option<string -> bool>)

  datatype Collision = Collision(attachment: string, previous: string)

  datatype Reason =
    | NoRouteMatch
    | ManualReview
    | QueueUnavailable
    | EnqueueError
    | QueuedByDesign(kind: string)
    | DestinationError(attempts: nat, error: string)
    | DeliveryQueued(attempts: nat, error: string)
    | AutoRoute(attempts: nat, ref: string, collisions: seq<Collision>)

  datatype Entry = Entry(fragment: string, route: string, destination: string, decision: string, reason: Reason)

  // ---- routeMatches ----

  predicate EntityMatches(r: Route, e: Entity) {
    (r.matchKind == "" || r.matchKind == e.kind) && (r.matchValue == "" || r.matchValue == e.value)
  }

  predicate Matches(r: Route, f: Fragment, entities: seq<Entity>) {
    && (r.matchSource == "" || r.matchSource == f.source)
    && (r.matchType == "" || r.matchType == f.sourceType)
    && ((r.matchKind == "" && r.matchValue == "") || exists e | e in entities :: EntityMatches(r, e))
  }

  method RouteMatches(r: Route, f: Fragment, entities: seq<Entity>) returns (matched: bool)
    ensures matched == Matches(r, f, entities)
  {
    if r.matchSource != "" && r.matchSource != f.source {
      return false;
    }
    if r.matchType != "" && r.matchType != f.sourceType {
      return false;
    }
    if r.matchKind != "" || r.matchValue != "" {
      for i := 0 to |entities|
        invariant forall k | 0 <= k < i :: !EntityMatches(r, entities[k])
      {
        if r.matchKind != "" && r.matchKind != entities[i].kind {
          continue;
        }
        if r.matchValue != "" && r.matchValue != entities[i].value {
          continue;
        }
        assert entities[i] in entities && EntityMatches(r, entities[i]);
        return true;
      }
      return false;
    }
    return true;
  }

  function Matching(routes: seq<Route>, f: Fragment, entities: seq<Entity>): seq<Route> {
    if routes == [] then []
    else
      var rest, last := Matching(routes[..|routes| - 1], f, entities), routes[|routes| - 1];
      if Matches(last, f, entities) then rest + [last] else rest
  }

  // ---- Collisions ----

  function ByAttachment(): (Collision, Collision) -> bool {
    (a: Collision, b: Collision) => StringLess(a.attachment, b.attachment)
  }

  predicate Clashes(winners: map<string, string>, published: map<string, string>, id: string, c: Collision) {
    c.attachment in published && c.attachment in winners && winners[c.attachment] == c.previous && c.previous != id
  }

  /** The attachments this match takes from an earlier one, sorted. */
  ghost predicate AreCollisions(cs: seq<Collision>, winners: map<string, string>, published: map<string, string>,
                                id: string)
  {
    && InOrder(ByAttachment(), cs)
    && forall c :: c in cs <==> Clashes(winners, published, id, c)
  }

  lemma CollisionsOrdered(all: set<Collision>)
    requires forall a, b | a in all && b in all && a.attachment == b.attachment :: a == b
    ensures Orders(ByAttachment(), all)
  {
    forall a | a in all
      ensures !ByAttachment()(a, a)
    {
      StringIrreflexive(a.attachment);
    }
    forall a, b | a in all && b in all && a != b
      ensures ByAttachment()(a, b) || ByAttachment()(b, a)
    {
      StringConnected(a.attachment, b.attachment);
    }
    forall a, b, c | a in all && b in all && c in all && ByAttachment()(a, b) && ByAttachment()(b, c)
      ensures ByAttachment()(a, c)
    {
      StringTransitive(a.attachment, b.attachment, c.attachment);
    }
  }

  /** The winners after a match: it claims whatever it published. */
  function Claim(winners: map<string, string>, published: map<string, string>, id: string): map<string, string> {
    winners + map a | a in published :: id
  }

  /** The claims made but for `rest`. */
  ghost predicate Claiming(winners: map<string, string>, published: map<string, string>, id: string, rest: set<string>,
                           claimed: map<string, string>, collisions: seq<Collision>) {
    && rest <= published.Keys
    && claimed == winners + (map a | a in published && a !in rest :: id)
    && Distinct(collisions)
    && forall c :: c in collisions <==> Clashes(winners, published, id, c) && c.attachment !in rest
  }

  /** One round, for attachment `a`. */
  method ClaimOne(ghost winners: map<string, string>, ghost published: map<string, string>, id: string,
                  rest: set<string>, a: string, claimed: map<string, string>, collisions: seq<Collision>)
    returns (claimed': map<string, string>, collisions': seq<Collision>)
    requires Claiming(winners, published, id, rest, claimed, collisions) && a in rest
    ensures Claiming(winners, published, id, rest - {a}, claimed', collisions')
  {
    collisions' := collisions;
    if a in claimed && claimed[a] != id {
      assert Collision(a, claimed[a]) !in collisions;
      collisions' := collisions + [Collision(a, claimed[a])];
    }
    claimed' := claimed[a := id];
  }

  /** Claims what a match published, and lists what it took from earlier matches. */
  method ClaimAttachments(winners: map<string, string>, published: map<string, string>, id: string)
    returns (claimed: map<string, string>, collisions: seq<Collision>)
    ensures claimed == Claim(winners, published, id) && AreCollisions(collisions, winners, published, id)
  {
    claimed, collisions := winners, [];
    var rest := published.Keys;
    while rest != {}
      invariant Claiming(winners, published, id, rest, claimed, collisions)
      decreases |rest|
    {
      var a :| a in rest;
      claimed, collisions := ClaimOne(winners, published, id, rest, a, claimed, collisions);
      rest := rest - {a};
    }
    ClaimingDone(winners, published, id, claimed, collisions);
    collisions := SortBy(ByAttachment(), collisions);
  }

  lemma ClaimingDone(winners: map<string, string>, published: map<string, string>, id: string,
                     claimed: map<string, string>, collisions: seq<Collision>)
    requires Claiming(winners, published, id, {}, claimed, collisions)
    ensures claimed == Claim(winners, published, id)
    ensures AreCollisions(SortBy(ByAttachment(), collisions), winners, published, id)
  {
    SortedCollisions(collisions, winners, published, id);
  }

  lemma SortedCollisions(cs: seq<Collision>, winners: map<string, string>, published: map<string, string>, id: string)
    requires Distinct(cs) && forall c :: c in cs <==> Clashes(winners, published, id, c)
    ensures AreCollisions(SortBy(ByAttachment(), cs), winners, published, id)
  {
    assert forall c :: c in cs <==> c in Members(cs);
    CollisionsOrdered(Members(cs));
    SortInOrder(ByAttachment(), cs, Members(cs));
    var sorted := SortBy(ByAttachment(), cs);
    SameElements(sorted, cs);
    assert forall c :: c in sorted <==> c in Members(sorted);
  }

  lemma CollisionsExist(winners: map<string, string>, published: map<string, string>, id: string)
    ensures exists cs :: AreCollisions(cs, winners, published, id)
  {
    var all := set a | a in published && a in winners && winners[a] != id :: Collision(a, winners[a]);
    var cs := Enumerate(all);
    assert forall c :: c in cs <==> c in Members(cs);
    SortedCollisions(cs, winners, published, id);
    assert AreCollisions(SortBy(ByAttachment(), cs), winners, published, id);
  }

  /** The one list of what a match takes from earlier ones. */
  ghost function CollisionList(winners: map<string, string>, published: map<string, string>, id: string)
    : (cs: seq<Collision>)
    ensures AreCollisions(cs, winners, published, id)
  {
    CollisionsExist(winners, published, id);
    var cs :| AreCollisions(cs, winners, published, id);
    cs
  }

  lemma CollisionsUnique(a: seq<Collision>, winners: map<string, string>, published: map<string, string>, id: string)
    requires AreCollisions(a, winners, published, id)
    ensures a == CollisionList(winners, published, id)
  {
    var b := CollisionList(winners, published, id);
    assert forall c :: c in a <==> c in Members(a);
    assert forall c :: c in b <==> c in Members(b);
    CollisionsOrdered(Members(a));
    SameList(ByAttachment(), a, b);
  }

  // ---- One match ----

  /**
   What one pass over the matches has done: log entries, published paths, routes delivered inline and
   queued, who last claimed each attachment, and whether anything was delivered.
   */
  datatype Pass = Pass(log: seq<Entry>, paths: map<string, string>, executed: seq<string>, queued: seq<string>,
                       winners: map<string, string>, delivered: bool)

  function Logged(p: Pass, f: Fragment, r: Route, decision: string, reason: Reason): Pass {
    p.(log := p.log + [Entry(f.id, r.id, r.destination, decision, reason)])
  }

  predicate Queues(env: Environment, id: string) {
    env.queue.Some? && env.queue.value(id)
  }

  function Enqueued(env: Environment, p: Pass, id: string): Pass {
    if Queues(env, id) then p.(queued := p.queued + [id]) else p
  }

  /** A callback is only ever queued. */
  function Callback(env: Environment, f: Fragment, p: Pass, r: Route): Pass
    requires r.destination in env.kinds
  {
    Logged(Enqueued(env, p, r.id), f, r, "inbox",
           if env.queue.None? then QueueUnavailable
           else if Queues(env, r.id) then QueuedByDesign(env.kinds[r.destination])
           else EnqueueError)
  }

  /** Only attachments the fragment has get the path. */
  function Published(paths: map<string, string>, published: map<string, string>): map<string, string> {
    map a | a in paths :: if a in published then published[a] else paths[a]
  }

  ghost function Inline(env: Environment, f: Fragment, p: Pass, r: Route): Pass {
    var q := p.(executed := p.executed + [r.id]);
    match env.deliver(r.id)
    case Failed(attempts, error) =>
      Logged(Enqueued(env, q, r.id), f, r, "inbox",
             if Queues(env, r.id) then DeliveryQueued(attempts, error) else DestinationError(attempts, error))
    case Delivered(attempts, ref, published) =>
      var collisions := CollisionList(p.winners, published, r.id);
      Logged(q.(paths := Published(p.paths, published), winners := Claim(p.winners, published, r.id),
                delivered := true),
             f, r, "auto_route", AutoRoute(attempts, ref, collisions))
  }

  /** One match; nothing when its destination is not known, which ends the pass with an error. */
  ghost function OneMatch(env: Environment, f: Fragment, p: Pass, r: Route): Option<Pass> {
    if !r.auto then Some(Logged(p, f, r, "inbox", ManualReview))
    else if r.destination !in env.kinds then None
    else if env.kinds[r.destination] == "callback" then Some(Callback(env, f, p, r))
    else Some(Inline(env, f, p, r))
  }

  /** The matches in order, up to one whose destination is not known. */
  ghost function RunAll(env: Environment, f: Fragment, p: Pass, matches: seq<Route>): (Pass, bool) {
    if matches == [] then (p, true)
    else
      var (q, ok) := RunAll(env, f, p, matches[..|matches| - 1]);
      if !ok then (q, false)
      else
        var next := OneMatch(env, f, q, matches[|matches| - 1]);
        if next.None? then (q, false) else (next.value, true)
  }

  /** The inbox after the stage that follows routing. */
  function Staged(inbox: set<string>, f: Fragment, skipped: bool): set<string> {
    if !skipped && f.status == Inbox then inbox + {f.id} else inbox
  }

  class RouteStage {
    const env: Environment
    var log: seq<Entry>
    var paths: map<string, string>
    var executed: seq<string>
    var queued: seq<string>
    var statuses: map<string, Status>
    var inbox: set<string>

    constructor (env: Environment, paths: map<string, string>, statuses: map<string, Status>, inbox: set<string>)
      ensures this.env == env && this.paths == paths && this.statuses == statuses && this.inbox == inbox
      ensures log == [] && executed == [] && queued == []
    {
      this.env, this.paths, this.statuses, this.inbox := env, paths, statuses, inbox;
      log, executed, queued := [], [], [];
    }

    ghost function Done(winners: map<string, string>, delivered: bool): Pass
      reads this
    {
      Pass(log, paths, executed, queued, winners, delivered)
    }

    method LogDecision(f: Fragment, r: Route, decision: string, reason: Reason)
      modifies this`log
      ensures log == old(log) + [Entry(f.id, r.id, r.destination, decision, reason)]
    {
      log := log + [Entry(f.id, r.id, r.destination, decision, reason)];
    }

    method EnqueueRetry(id: string) returns (ok: bool)
      requires env.queue.Some?
      modifies this`queued
      ensures ok == Queues(env, id) && queued == if ok then old(queued) + [id] else old(queued)
    {
      ok := env.queue.value(id);
      if ok {
        queued := queued + [id];
      }
    }

    method EnqueueCallbackDelivery(f: Fragment, r: Route, ghost winners: map<string, string>, ghost delivered: bool)
      requires r.destination in env.kinds
      modifies this`log, this`queued
      ensures Done(winners, delivered) == Callback(env, f, old(Done(winners, delivered)), r)
    {
      if env.queue.None? {
        LogDecision(f, r, "inbox", QueueUnavailable);
        return;
      }
      var ok := EnqueueRetry(r.id);
      LogDecision(f, r, "inbox", if ok then QueuedByDesign(env.kinds[r.destination]) else EnqueueError);
    }

    /** Delivers inline, or queues the delivery when that fails. */
    method DeliverInline(f: Fragment, r: Route, winners: map<string, string>, ghost delivered: bool)
      returns (ok: bool, claimed: map<string, string>)
      modifies this`log, this`queued, this`executed, this`paths
      ensures Done(claimed, delivered || ok) == Inline(env, f, old(Done(winners, delivered)), r)
      ensures ok == env.deliver(r.id).Delivered?
    {
      executed := executed + [r.id];
      var delivery := env.deliver(r.id);
      if delivery.Failed? {
        var reason := DestinationError(delivery.attempts, delivery.error);
        if env.queue.Some? {
          var queuedOk := EnqueueRetry(r.id);
          if queuedOk {
            reason := DeliveryQueued(delivery.attempts, delivery.error);
          }
        }
        LogDecision(f, r, "inbox", reason);
        return false, winners;
      }
      var collisions;
      claimed, collisions := ClaimAttachments(winners, delivery.published, r.id);
      CollisionsUnique(collisions, winners, delivery.published, r.id);
      paths := map a | a in paths :: if a in delivery.published then delivery.published[a] else paths[a];
      LogDecision(f, r, "auto_route", AutoRoute(delivery.attempts, delivery.ref, collisions));
      return true, claimed;
    }

    /** One match: whether it delivered at once, or nothing when its destination is not known. */
    method RunMatch(f: Fragment, r: Route, winners: map<string, string>, ghost delivered: bool)
      returns (result: Option<bool>, claimed: map<string, string>)
      modifies this`log, this`queued, this`executed, this`paths
      ensures var next := OneMatch(env, f, old(Done(winners, delivered)), r);
              if next.None? then result.None? && Done(winners, delivered) == old(Done(winners, delivered))
              else result.Some? && Done(claimed, delivered || result.value) == next.value
    {
      claimed := winners;
      if !r.auto {
        LogDecision(f, r, "inbox", ManualReview);
        return Some(false), claimed;
      }
      if r.destination !in env.kinds {
        return None, claimed;
      }
      if env.kinds[r.destination] == "callback" {
        EnqueueCallbackDelivery(f, r, winners, delivered);
        return Some(false), claimed;
      }
      var ok;
      ok, claimed := DeliverInline(f, r, winners, delivered);
      return Some(ok), claimed;
    }

    /** Every matching route gets its turn; the fragment is routed once any of them delivered at once. */
    method Run(f: Fragment, skipped: bool, routes: seq<Route>, entities: seq<Entity>)
      returns (r: Result<Fragment, string>)
      modifies this
      ensures Routes(env, f, skipped, Matching(routes, f, entities), old(Contents()), Contents(), r)
    {
      if skipped {
        return Ok(f);
      }
      var matches := [];
      var i := 0;
      while i < |routes|
        invariant i <= |routes| && matches == Matching(routes[..i], f, entities)
        invariant Contents() == old(Contents())
      {
        assert routes[..i + 1][..i] == routes[..i];
        var matched := RouteMatches(routes[i], f, entities);
        if matched {
          matches := matches + [routes[i]];
        }
        i := i + 1;
      }
      assert routes[..|routes|] == routes;
      if |matches| == 0 {
        log := log + [Entry(f.id, "", "", "inbox", NoRouteMatch)];
        return Ok(f);
      }
      var ok, delivered := RunMatches(f, matches);
      if !ok {
        return Err("destination");
      }
      if !delivered {
        return Ok(f);
      }
      statuses := statuses[f.id := Routed];
      inbox := inbox - {f.id};
      return Ok(f.(status := Routed));
    }

    method RunMatches(f: Fragment, matches: seq<Route>) returns (ok: bool, delivered: bool)
      modifies this`log, this`queued, this`executed, this`paths
      ensures var (p, all) := RunAll(env, f, old(Done(map[], false)), matches);
              ok == all && Done(p.winners, p.delivered) == p && (ok ==> delivered == p.delivered)
    {
      var winners := map[];
      delivered := false;
      var i := 0;
      while i < |matches|
        invariant i <= |matches|
        invariant RunAll(env, f, old(Done(map[], false)), matches[..i]) == (Done(winners, delivered), true)
      {
        NextMatch(env, f, old(Done(map[], false)), matches, i);
        var result, claimed := RunMatch(f, matches[i], winners, delivered);
        if result.None? {
          StopsThere(env, f, old(Done(map[], false)), matches, i + 1);
          return false, delivered;
        }
        winners := claimed;
        if result.value {
          delivered := true;
        }
        i := i + 1;
      }
      assert matches[..|matches|] == matches;
      return true, delivered;
    }

    ghost function Contents(): World
      reads this
    {
      World(Pass(log, paths, executed, queued, map[], false), statuses, inbox)
    }

    /** The stage after routing: an unrouted fragment that awaits routing is staged. */
    method RunInboxStage(f: Fragment, skipped: bool)
      modifies this`inbox
      ensures inbox == Staged(old(inbox), f, skipped)
    {
      if skipped {
        return;
      }
      if f.status != Inbox {
        return;
      }
      inbox := inbox + {f.id};
    }
  }

  datatype World = World(pass: Pass, statuses: map<string, Status>, inbox: set<string>)

  /** What a whole pass over the matches does to the tables, and the fragment it hands on. */
  ghost predicate Routes(env: Environment, f: Fragment, skipped: bool, matches: seq<Route>, before: World, after: World,
                         r: Result<Fragment, string>) {
    if skipped then after == before && r == Ok(f)
    else if matches == [] then
      && r == Ok(f)
      && after == before.(pass := before.pass.(log := before.pass.log + [Entry(f.id, "", "", "inbox", NoRouteMatch)]))
    else
      var (p, ok) := RunAll(env, f, before.pass, matches);
      && after.pass == p.(winners := map[], delivered := false)
      && (if ok && p.delivered then
            r == Ok(f.(status := Routed)) && after.statuses == before.statuses[f.id := Routed]
            && after.inbox == before.inbox - {f.id}
          else
            && r == (if ok then Ok(f) else Err("destination"))
            && after.statuses == before.statuses && after.inbox == before.inbox)
  }

  lemma NextMatch(env: Environment, f: Fragment, p: Pass, matches: seq<Route>, i: nat)
    requires i < |matches|
    ensures var (q, ok) := RunAll(env, f, p, matches[..i]);
            var next := OneMatch(env, f, q, matches[i]);
            ok ==> RunAll(env, f, p, matches[..i + 1]) == if next.None? then (q, false) else (next.value, true)
  {
    assert matches[..i + 1][..i] == matches[..i];
  }

  lemma {:induction false} StopsThere(env: Environment, f: Fragment, p: Pass, matches: seq<Route>, n: nat)
    requires n <= |matches| && !RunAll(env, f, p, matches[..n]).1
    ensures RunAll(env, f, p, matches) == RunAll(env, f, p, matches[..n])
    decreases |matches| - n
  {
    if n == |matches| {
      assert matches[..n] == matches;
    } else {
      assert matches[..n + 1][..n] == matches[..n];
      StopsThere(env, f, p, matches, n + 1);
    }
  }
}
