/**
 What every interleaving of an enrichment run keeps: the caps bound what is spent, the ledger and the
 gap account for every dollar, the counters add up, and a stop is final.
 */
module EnrichRunProperties {
  import opened Wrappers
  import opened EnrichSession
  import opened EnrichRun

  // ---- Sums over the workers ----

  function WrittenBy(workers: map<nat, Worker>, i: nat): real {
    if i in workers && workers[i].Running? then workers[i].written else 0.0
  }

  /** What the running sessions below `n` have written to the ledger but not yet accounted for. */
  function Written(workers: map<nat, Worker>, n: nat): real {
    if n == 0 then 0.0 else Written(workers, n - 1) + WrittenBy(workers, n - 1)
  }

  function IsRunning(workers: map<nat, Worker>, i: nat): nat {
    if i in workers && workers[i].Running? then 1 else 0
  }

  function RunningBelow(workers: map<nat, Worker>, n: nat): nat {
    if n == 0 then 0 else RunningBelow(workers, n - 1) + IsRunning(workers, n - 1)
  }

  lemma {:induction false} OneChanged(a: map<nat, Worker>, b: map<nat, Worker>, i: nat, n: nat)
    requires forall k: nat | k != i :: WrittenBy(a, k) == WrittenBy(b, k) && IsRunning(a, k) == IsRunning(b, k)
    ensures Written(b, n) == Written(a, n) + (if i < n then WrittenBy(b, i) - WrittenBy(a, i) else 0.0)
    ensures RunningBelow(b, n) == RunningBelow(a, n) + (if i < n then IsRunning(b, i) - IsRunning(a, i) else 0)
  {
    if n > 0 {
      OneChanged(a, b, i, n - 1);
    }
  }

  lemma {:induction false} NoneRunning(workers: map<nat, Worker>, n: nat)
    requires forall i | i in workers :: workers[i].Accounted?
    ensures Written(workers, n) == 0.0 && RunningBelow(workers, n) == 0
  {
    if n > 0 {
      NoneRunning(workers, n - 1);
    }
  }

  function RunningSet(workers: map<nat, Worker>, n: nat): set<nat> {
    set i | i in workers && i < n && workers[i].Running?
  }

  lemma {:induction false} RunningCounted(workers: map<nat, Worker>, n: nat)
    ensures RunningBelow(workers, n) == |RunningSet(workers, n)|
  {
    if n > 0 {
      RunningCounted(workers, n - 1);
      if IsRunning(workers, n - 1) == 1 {
        assert RunningSet(workers, n) == RunningSet(workers, n - 1) + {n - 1};
      } else {
        assert RunningSet(workers, n) == RunningSet(workers, n - 1);
      }
    }
  }

  lemma SubsetSize<T>(a: set<T>, b: set<T>)
    requires a <= b
    ensures |a| <= |b|
  {
    assert b == a + (b - a);
  }

  lemma RunningAtMost(workers: map<nat, Worker>, n: nat)
    ensures RunningBelow(workers, n) <= |workers|
  {
    RunningCounted(workers, n);
    SubsetSize(RunningSet(workers, n), workers.Keys);
  }

  // ---- Invariants ----

  function NextIndex(s: State, sessions: nat): nat {
    if s.dispatcher.Ended? then sessions else s.dispatcher.next
  }

  /** Every slot is held by the dispatcher or by a worker, and there are no more than configured. */
  ghost predicate SlotsHeld(o: Options, sessions: nat, s: State) {
    && s.slots == |s.workers| + (if s.dispatcher.Holding? || s.dispatcher.Decided? then 1 else 0)
    && s.slots <= o.concurrency
    && NextIndex(s, sessions) <= sessions
    && (s.dispatcher.Holding? || s.dispatcher.Decided? ==> s.dispatcher.next < sessions)
    && forall i | i in s.workers :: i < NextIndex(s, sessions)
  }

  /** The ledger holds what was accounted for, less the gap, plus what running sessions have written. */
  ghost predicate LedgerBalances(sessions: nat, s: State) {
    s.ledger + s.shared.sum.ledgerGap == s.shared.sum.cost + Written(s.workers, sessions)
  }

  predicate IsOk(r: Outcome) { r.fatal.None? && r.reason == "" }

  predicate IsFailed(r: Outcome) { r.fatal.None? && r.reason != "" }

  predicate IsFatal(r: Outcome) { r.fatal.Some? }

  function CountWhere(history: seq<Outcome>, p: Outcome -> bool): nat {
    if history == [] then 0
    else CountWhere(history[..|history| - 1], p) + (if p(history[|history| - 1]) then 1 else 0)
  }

  function FailedWith(history: seq<Outcome>, reason: string): nat {
    if history == [] then 0
    else
      var last := history[|history| - 1];
      FailedWith(history[..|history| - 1], reason) + (if IsFailed(last) && last.reason == reason then 1 else 0)
  }

  ghost function Total(m: map<string, nat>): nat
    decreases |m|
  {
    if m == map[] then 0 else var k :| k in m; m[k] + Total(m - {k})
  }

  /** The counters count the sessions accounted for, and the error counts are exact per class. */
  ghost predicate CountersAgree(s: State) {
    var sum := s.shared.sum;
    && sum.attempted == |s.history|
    && sum.ok == CountWhere(s.history, IsOk)
    && sum.failed == CountWhere(s.history, IsFailed)
    && sum.attempted == sum.ok + sum.failed + CountWhere(s.history, IsFatal)
    && (forall reason :: CountOf(sum.errors, reason) == FailedWith(s.history, reason))
    && Total(sum.errors) == sum.failed
  }

  /** A fatal error always comes with a reason to stop. */
  ghost predicate FatalStops(s: State) {
    s.shared.fatal.Some? ==> s.shared.sum.stoppedBy != ""
  }

  ghost predicate Inv(o: Options, sessions: nat, s: State) {
    SlotsHeld(o, sessions, s) && LedgerBalances(sessions, s) && CountersAgree(s) && FatalStops(s)
  }

  lemma {:induction false} TotalRemove(m: map<string, nat>, k: string)
    requires k in m
    ensures Total(m) == m[k] + Total(m - {k})
    decreases |m|
  {
    var j :| j in m && Total(m) == m[j] + Total(m - {j});
    if j != k {
      TotalRemove(m - {j}, k);
      TotalRemove(m - {k}, j);
      assert m - {j} - {k} == m - {k} - {j};
    }
  }

  lemma TotalIncrement(m: map<string, nat>, k: string)
    ensures Total(m[k := CountOf(m, k) + 1]) == Total(m) + 1
  {
    var after := m[k := CountOf(m, k) + 1];
    TotalRemove(after, k);
    if k in m {
      TotalRemove(m, k);
      assert after - {k} == m - {k};
    } else {
      assert after - {k} == m;
    }
  }

  lemma FinishCounts(o: Options, s: State, i: nat, res: Outcome, after: State)
    requires CountersAgree(s) && after.history == s.history + [res]
    requires after.shared == AccountFor(o, s.shared, i, res)
    ensures CountersAgree(after)
  {
    var h := after.history;
    assert h[..|h| - 1] == s.history && h[|h| - 1] == res;
    if IsFailed(res) {
      TotalIncrement(s.shared.sum.errors, res.reason);
    }
  }

  lemma FinishBalances(o: Options, sessions: nat, s: State, i: nat, res: Outcome)
    requires SlotsHeld(o, sessions, s) && LedgerBalances(sessions, s) && Enabled(o, sessions, s, Finish(i, res))
    ensures LedgerBalances(sessions, Next(o, sessions, s, Finish(i, res)))
  {
    OneChanged(s.workers, s.workers[i := Accounted], i, sessions);
  }

  lemma WriteBalances(o: Options, sessions: nat, s: State, i: nat, cost: real)
    requires SlotsHeld(o, sessions, s) && LedgerBalances(sessions, s) && Enabled(o, sessions, s, WriteSpend(i, cost))
    ensures LedgerBalances(sessions, Next(o, sessions, s, WriteSpend(i, cost)))
  {
    OneChanged(s.workers, s.workers[i := Running(s.workers[i].written + cost)], i, sessions);
  }

  lemma StepBalances(o: Options, sessions: nat, s: State, e: Action)
    requires SlotsHeld(o, sessions, s) && LedgerBalances(sessions, s) && Enabled(o, sessions, s, e)
    ensures LedgerBalances(sessions, Next(o, sessions, s, e))
  {
    match e
    case Finish(i, res) => FinishBalances(o, sessions, s, i, res);
    case WriteSpend(i, cost) => WriteBalances(o, sessions, s, i, cost);
    case Launch(cancelled) =>
      var i := s.dispatcher.next;
      OneChanged(s.workers, s.workers[i := Running(0.0)], i, sessions);
    case Release(i) =>
      OneChanged(s.workers, s.workers - {i}, i, sessions);
    case _ =>
  }

  lemma StepSlots(o: Options, sessions: nat, s: State, e: Action)
    requires SlotsHeld(o, sessions, s) && Enabled(o, sessions, s, e)
    ensures SlotsHeld(o, sessions, Next(o, sessions, s, e))
  {
    var after := Next(o, sessions, s, e);
    match e
    case Launch(_) =>
      assert after.workers.Keys == s.workers.Keys || after.workers.Keys == s.workers.Keys + {s.dispatcher.next};
      assert |after.workers| == |after.workers.Keys| && |s.workers| == |s.workers.Keys|;
    case Release(i) =>
      assert after.workers.Keys == s.workers.Keys - {i};
      assert |after.workers| == |after.workers.Keys| && |s.workers| == |s.workers.Keys|;
    case Finish(i, _) =>
      assert after.workers.Keys == s.workers.Keys;
      assert |after.workers| == |after.workers.Keys| && |s.workers| == |s.workers.Keys|;
    case WriteSpend(i, _) =>
      assert after.workers.Keys == s.workers.Keys;
      assert |after.workers| == |after.workers.Keys| && |s.workers| == |s.workers.Keys|;
    case _ =>
  }

  /** Deciding touches only the reason to stop. */
  lemma DecideCounts(o: Options, s: State, after: State)
    requires CountersAgree(s) && FatalStops(s)
    requires after.history == s.history && after.shared == Decide(o, s.shared).0
    ensures CountersAgree(after) && FatalStops(after)
  {
  }

  lemma StepCounts(o: Options, sessions: nat, s: State, e: Action)
    requires CountersAgree(s) && FatalStops(s) && Enabled(o, sessions, s, e)
    ensures CountersAgree(Next(o, sessions, s, e)) && FatalStops(Next(o, sessions, s, e))
  {
    if e.Finish? {
      FinishCounts(o, s, e.i, e.res, Next(o, sessions, s, e));
    } else if e.DecideUnderLock? {
      DecideCounts(o, s, Next(o, sessions, s, e));
    } else {
      SameCounts(s, Next(o, sessions, s, e));
    }
  }

  lemma SameCounts(s: State, after: State)
    requires CountersAgree(s) && after.history == s.history && after.shared == s.shared
    ensures CountersAgree(after)
  {
  }

  lemma StepKeeps(o: Options, sessions: nat, s: State, e: Action)
    requires Inv(o, sessions, s) && Enabled(o, sessions, s, e)
    ensures Inv(o, sessions, Next(o, sessions, s, e))
  {
    var after := Next(o, sessions, s, e);
    assert SlotsHeld(o, sessions, after) by { StepSlots(o, sessions, s, e); }
    assert LedgerBalances(sessions, after) by { StepBalances(o, sessions, s, e); }
    assert CountersAgree(after) && FatalStops(after) by { StepCounts(o, sessions, s, e); }
  }

  lemma {:induction false} RunKeeps(o: Options, sessions: nat, s: State, events: seq<Action>)
    requires Inv(o, sessions, s) && Possible(o, sessions, s, events)
    ensures Inv(o, sessions, Run(o, sessions, s, events))
    decreases |events|
  {
    if events != [] {
      StepKeeps(o, sessions, s, events[0]);
      RunKeeps(o, sessions, Next(o, sessions, s, events[0]), events[1..]);
    }
  }

  lemma StartHolds(o: Options, sessions: nat, prior: real)
    ensures Inv(o, sessions, Start(prior))
  {
    NoneRunning(map[], sessions);
  }

  /**
   Main result: when a run is over, the spend rows it wrote plus the ledger gap are its cost; every
   attempted session is counted once, as a success, a failure or a fatal error; and the error counts
   are exact for each class and sum to the failures.
   */
  lemma LedgerConserved(o: Options, sessions: nat, prior: real, events: seq<Action>)
    requires Possible(o, sessions, Start(prior), events) && Finished(Run(o, sessions, Start(prior), events))
    ensures var end := Run(o, sessions, Start(prior), events);
            && end.ledger + end.shared.sum.ledgerGap == end.shared.sum.cost
            && CountersAgree(end)
  {
    StartHolds(o, sessions, prior);
    RunKeeps(o, sessions, Start(prior), events);
    NoneRunning(map[], sessions);
  }

  // ---- Spending ----

  /** Sessions that are running, or about to: the dispatcher has decided to go on. */
  function InFlight(s: State, sessions: nat): nat {
    RunningBelow(s.workers, sessions) + (if s.dispatcher.Decided? && s.dispatcher.go then 1 else 0)
  }

  lemma InFlightStep(o: Options, sessions: nat, s: State, e: Action)
    requires SlotsHeld(o, sessions, s) && Enabled(o, sessions, s, e)
    ensures var after := Next(o, sessions, s, e);
            if e.Finish? then InFlight(after, sessions) + 1 == InFlight(s, sessions) <= o.concurrency
            else if e.DecideUnderLock? then
              InFlight(after, sessions)
              == InFlight(s, sessions) + (if after.dispatcher.go then 1 else 0) <= o.concurrency
            else InFlight(after, sessions) <= InFlight(s, sessions)
  {
    RunningAtMost(s.workers, sessions);
    match e
    case Finish(i, res) => OneChanged(s.workers, s.workers[i := Accounted], i, sessions);
    case WriteSpend(i, cost) =>
      OneChanged(s.workers, s.workers[i := Running(s.workers[i].written + cost)], i, sessions);
    case Launch(_) => OneChanged(s.workers, s.workers[s.dispatcher.next := Running(0.0)], s.dispatcher.next, sessions);
    case Release(i) => OneChanged(s.workers, s.workers - {i}, i, sessions);
    case _ =>
  }

  /** The two limits on spending: this run's budget, and the cap on everything spent so far. */
  datatype Limit = Budget | TotalCap

  function CapOf(o: Options, limit: Limit): real {
    if limit == Budget then o.maxCost else o.totalCap
  }

  function SpentOf(s: State, limit: Limit): real {
    if limit == Budget then s.shared.sum.cost else s.shared.sum.prior + s.shared.sum.cost
  }

  /** No session costs more than `most`. */
  predicate CostsAtMost(e: Action, most: real) {
    e.Finish? ==> e.res.account.cost <= most
  }

  /** What is spent, with `most` for each session in flight, stays below the cap and `most` for each slot. */
  ghost predicate Within(o: Options, sessions: nat, s: State, limit: Limit, most: real) {
    SpentOf(s, limit) + Times(InFlight(s, sessions), most) < CapOf(o, limit) + Times(o.concurrency, most)
  }

  /** Only accounting adds to what is spent, and only what the session cost. */
  lemma SpentStep(o: Options, sessions: nat, s: State, e: Action, limit: Limit)
    requires Enabled(o, sessions, s, e)
    ensures var after := Next(o, sessions, s, e);
            && SpentOf(after, limit) == SpentOf(s, limit) + (if e.Finish? then e.res.account.cost else 0.0)
            && (e.DecideUnderLock? && after.dispatcher.go && CapOf(o, limit) > 0.0 ==>
                  SpentOf(s, limit) < CapOf(o, limit))
  {
  }

  lemma StepWithin(o: Options, sessions: nat, s: State, e: Action, limit: Limit, most: real)
    requires SlotsHeld(o, sessions, s) && Enabled(o, sessions, s, e) && CostsAtMost(e, most)
    requires CapOf(o, limit) > 0.0 && most >= 0.0 && Within(o, sessions, s, limit, most)
    ensures Within(o, sessions, Next(o, sessions, s, e), limit, most)
  {
    var after := Next(o, sessions, s, e);
    InFlightStep(o, sessions, s, e);
    SpentStep(o, sessions, s, e, limit);
    var n, m := InFlight(s, sessions), InFlight(after, sessions);
    if m <= n {
      TimesMonotone(m, n, most);
    } else {
      TimesMonotone(m, o.concurrency, most);
    }
  }

  lemma {:induction false} RunWithin(o: Options, sessions: nat, s: State, events: seq<Action>, limit: Limit, most: real)
    requires Inv(o, sessions, s) && Possible(o, sessions, s, events)
    requires forall e | e in events :: CostsAtMost(e, most)
    requires CapOf(o, limit) > 0.0 && most >= 0.0 && Within(o, sessions, s, limit, most)
    ensures Within(o, sessions, Run(o, sessions, s, events), limit, most)
    decreases |events|
  {
    if events != [] {
      StepKeeps(o, sessions, s, events[0]);
      StepWithin(o, sessions, s, events[0], limit, most);
      RunWithin(o, sessions, Next(o, sessions, s, events[0]), events[1..], limit, most);
    }
  }

  lemma StaysWithin(o: Options, sessions: nat, prior: real, events: seq<Action>, limit: Limit, most: real)
    requires Possible(o, sessions, Start(prior), events) && forall e | e in events :: CostsAtMost(e, most)
    requires most >= 0.0 && CapOf(o, limit) > 0.0 && SpentOf(Start(prior), limit) < CapOf(o, limit)
    ensures SpentOf(Run(o, sessions, Start(prior), events), limit) < CapOf(o, limit) + Times(o.concurrency, most)
  {
    StartHolds(o, sessions, prior);
    NoneRunning(map[], sessions);
    TimesMonotone(0, o.concurrency, most);
    RunWithin(o, sessions, Start(prior), events, limit, most);
    TimesMonotone(0, InFlight(Run(o, sessions, Start(prior), events), sessions), most);
  }

  /**
   Main result: at every moment of every interleaving, if no session costs more than `most`, a limit
   that had room at the start is overrun by less than `most` for each worker.
   */
  lemma SpendBounded(o: Options, sessions: nat, prior: real, events: seq<Action>, limit: Limit, most: real)
    requires Possible(o, sessions, Start(prior), events) && forall e | e in events :: CostsAtMost(e, most)
    requires most >= 0.0 && CapOf(o, limit) > 0.0 && SpentOf(Start(prior), limit) < CapOf(o, limit)
    ensures SpentOf(Run(o, sessions, Start(prior), events), limit) < CapOf(o, limit) + (o.concurrency as real) * most
  {
    StaysWithin(o, sessions, prior, events, limit, most);
    TimesMultiplies(o.concurrency, most);
  }

  /** A session as it is run: what its calls lead to from where on, its parts, and whether it can be saved. */
  datatype Work = Work(script: Script, start: nat, parts: nat, saved: bool)

  /** A worker reports what its session came to. */
  ghost predicate Reports(works: seq<Work>, e: Action) {
    e.Finish? ==>
      e.i < |works| && var w := works[e.i]; e.res == EnrichOne(w.script, w.start, w.parts, w.saved).1
  }

  /** No reply costs more than `dearest`, and there are at most `prompts` prompts. */
  ghost predicate Priced(w: Work, prompts: nat, dearest: real) {
    Prompts(w.parts) <= prompts && forall k: nat | w.script(k).Reply? :: 0.0 <= w.script(k).cost <= dearest
  }

  lemma WorkCosts(w: Work, prompts: nat, dearest: real)
    requires dearest >= 0.0 && Priced(w, prompts, dearest)
    ensures EnrichOne(w.script, w.start, w.parts, w.saved).1.account.cost <= Times(MAX_REPLIES * prompts, dearest)
  {
    SessionCostTimes(w.script, w.start, w.parts, w.saved, dearest);
    TimesMonotone(MAX_REPLIES * Prompts(w.parts), MAX_REPLIES * prompts, dearest);
  }

  /**
   Main result: a limit that had room at the start is overrun by less than what the workers' sessions
   can cost, which is two replies at the dearest price for each prompt.
   */
  lemma SpendBoundedByReplies(o: Options, works: seq<Work>, prior: real, events: seq<Action>, limit: Limit,
                              prompts: nat, dearest: real, replies: nat)
    requires Possible(o, |works|, Start(prior), events) && forall e | e in events :: Reports(works, e)
    requires dearest >= 0.0 && forall w | w in works :: Priced(w, prompts, dearest)
    requires CapOf(o, limit) > 0.0 && SpentOf(Start(prior), limit) < CapOf(o, limit)
    requires replies == MAX_REPLIES * prompts
    ensures SpentOf(Run(o, |works|, Start(prior), events), limit)
          < CapOf(o, limit) + (o.concurrency as real) * ((replies as real) * dearest)
  {
    TimesMultiplies(replies, dearest);
    TimesMonotone(0, replies, dearest);
    forall e | e in events ensures CostsAtMost(e, Times(replies, dearest)) {
      assert Reports(works, e);
      if e.Finish? {
        WorkCosts(works[e.i], prompts, dearest);
      }
    }
    SpendBounded(o, |works|, prior, events, limit, Times(replies, dearest));
  }

  /** Nothing has been started, and nothing will be. */
  predicate Idle(s: State) {
    && s.history == [] && s.workers == map[] && s.shared.sum.cost == 0.0
    && (s.dispatcher.Decided? ==> !s.dispatcher.go)
  }

  /** A cap that earlier runs have used up lets no session start. */
  lemma {:induction false} NothingStarts(o: Options, sessions: nat, s: State, events: seq<Action>)
    requires o.totalCap > 0.0 && s.shared.sum.prior >= o.totalCap && Idle(s) && Possible(o, sessions, s, events)
    ensures Idle(Run(o, sessions, s, events))
    decreases |events|
  {
    if events != [] {
      assert Idle(Next(o, sessions, s, events[0]));
      NothingStarts(o, sessions, Next(o, sessions, s, events[0]), events[1..]);
    }
  }

  // ---- Stopping ----

  /** The failures since the last success. */
  function Streak(history: seq<Outcome>): nat {
    if history == [] || IsOk(history[|history| - 1]) then 0
    else Streak(history[..|history| - 1]) + (if IsFailed(history[|history| - 1]) then 1 else 0)
  }

  /** The counter of consecutive failures is that, and a run that goes on has not reached its limit. */
  ghost predicate StreakBelow(o: Options, s: State) {
    && s.shared.consecutive == Streak(s.history)
    && (o.stopAfterFailures > 0 && !Halted(s) ==> Streak(s.history) < o.stopAfterFailures)
  }

  lemma FinishStreak(o: Options, s: State, i: nat, res: Outcome, after: State)
    requires StreakBelow(o, s) && after.history == s.history + [res]
    requires after.shared == AccountFor(o, s.shared, i, res)
    ensures StreakBelow(o, after)
  {
    assert after.history[..|after.history| - 1] == s.history;
  }

  lemma StepStreak(o: Options, sessions: nat, s: State, e: Action)
    requires StreakBelow(o, s) && Enabled(o, sessions, s, e)
    ensures StreakBelow(o, Next(o, sessions, s, e))
  {
    if e.Finish? {
      FinishStreak(o, s, e.i, e.res, Next(o, sessions, s, e));
    }
  }

  /** Over every interleaving, a run stops as soon as its sessions have failed too often in a row. */
  lemma {:induction false} StreakStops(o: Options, sessions: nat, s: State, events: seq<Action>)
    requires StreakBelow(o, s) && Possible(o, sessions, s, events)
    ensures StreakBelow(o, Run(o, sessions, s, events))
    decreases |events|
  {
    if events != [] {
      StepStreak(o, sessions, s, events[0]);
      StreakStops(o, sessions, Next(o, sessions, s, events[0]), events[1..]);
    }
  }

  /** A failed session stops a run that was going on exactly when it is one too many in a row, or by rate. */
  lemma FailureStopsExactly(o: Options, sessions: nat, s: State, i: nat, res: Outcome)
    requires CountersAgree(s) && StreakBelow(o, s) && !Halted(s)
    requires Enabled(o, sessions, s, Finish(i, res)) && IsFailed(res)
    ensures var after := Next(o, sessions, s, Finish(i, res));
            Halted(after) <==>
              || (o.stopAfterFailures > 0 && Streak(after.history) >= o.stopAfterFailures)
              || (o.maxFailureRate > 0.0 && |after.history| >= o.minAttempts
                  && (CountWhere(after.history, IsFailed) as real) / (|after.history| as real) > o.maxFailureRate)
  {
    var after := Next(o, sessions, s, Finish(i, res));
    assert after.history[..|after.history| - 1] == s.history;
  }

  predicate Halted(s: State) {
    s.shared.sum.stoppedBy != ""
  }

  /** The reason to stop once `reason` has come up: an earlier one stays. */
  predicate Gives(before: string, reason: string, after: string) {
    if before == "" then after == reason else after == before
  }

  /** What the dispatcher finds over a limit: its own spend before the spend of all runs. */
  predicate OverBudget(o: Options, s: Shared) {
    o.maxCost > 0.0 && s.sum.cost >= o.maxCost
  }

  predicate OverTotal(o: Options, s: Shared) {
    o.totalCap > 0.0 && s.sum.prior + s.sum.cost >= o.totalCap
  }

  /**
   Main result: the dispatcher goes on exactly when no reason to stop and no fatal error is there and
   neither limit is reached; the budget stops a run as "budget", and else the total cap as "total_cap".
   */
  lemma DecidesExactly(o: Options, s: Shared)
    ensures var (after, go) := Decide(o, s);
            && (go <==> s.sum.stoppedBy == "" && s.fatal.None? && !OverBudget(o, s) && !OverTotal(o, s))
            && (OverBudget(o, s) ==> Gives(s.sum.stoppedBy, "budget", after.sum.stoppedBy))
            && (!OverBudget(o, s) && OverTotal(o, s) ==> Gives(s.sum.stoppedBy, "total_cap", after.sum.stoppedBy))
            && (!OverBudget(o, s) && !OverTotal(o, s) ==> after.sum.stoppedBy == s.sum.stoppedBy)
            && after.(sum := after.sum.(stoppedBy := s.sum.stoppedBy)) == s
  {
  }

  /** Counters that every finished session moves in the same way, or not at all. */
  ghost predicate Attempts(before: Summary, after: Summary, res: Outcome) {
    && after.attempted == before.attempted + 1 && after.cost == before.cost + res.account.cost
    && after.prior == before.prior
    && (res.fatal != Some(WriteError) ==>
          after.storeFailures == before.storeFailures && after.ledgerGap == before.ledgerGap)
    && (res.fatal.Some? ==>
          && after.ok == before.ok && after.failed == before.failed && after.firstTry == before.firstTry
          && after.errors == before.errors)
  }

  /** Main result: a session with a fatal error stops the run, as a store failure or under its gateway class. */
  lemma FatalAccounted(o: Options, s: Shared, i: nat, res: Outcome)
    requires res.fatal.Some?
    ensures var after := AccountFor(o, s, i, res);
            && Attempts(s.sum, after.sum, res) && after.fatal == res.fatal && after.consecutive == s.consecutive
            && (res.fatal == Some(WriteError) ==>
                  && Gives(s.sum.stoppedBy, "store_write", after.sum.stoppedBy)
                  && after.sum.storeFailures == s.sum.storeFailures + [i]
                  && after.sum.ledgerGap == s.sum.ledgerGap + res.account.ledgerGap)
            && (res.fatal == Some(GatewayFatal) ==>
                  Gives(s.sum.stoppedBy, "gateway_" + res.reason, after.sum.stoppedBy))
  {
  }

  /** A session that succeeds is counted, as a first try if nothing was retried, and ends a row of failures. */
  lemma SuccessAccounted(o: Options, s: Shared, i: nat, res: Outcome)
    requires res.fatal.None? && res.reason == ""
    ensures var after := AccountFor(o, s, i, res);
            && Attempts(s.sum, after.sum, res) && after.fatal == s.fatal && after.consecutive == 0
            && after.sum.ok == s.sum.ok + 1 && after.sum.failed == s.sum.failed
            && after.sum.firstTry == (if res.account.retries == 0 then s.sum.firstTry + 1 else s.sum.firstTry)
            && after.sum.errors == s.sum.errors && after.sum.stoppedBy == s.sum.stoppedBy
  {
  }

  /** A row of failures that is as long as allowed. */
  predicate RowFull(o: Options, consecutive: nat) {
    o.stopAfterFailures > 0 && consecutive >= o.stopAfterFailures
  }

  /** More than the allowed share of the sessions failed, of enough of them. */
  predicate RateExceeded(o: Options, failed: nat, attempted: nat) {
    && o.maxFailureRate > 0.0 && attempted >= o.minAttempts && attempted > 0
    && (failed as real) > o.maxFailureRate * (attempted as real)
  }

  /** Main result: a failed session is counted under its class, and stops the run by the row or by the rate. */
  lemma FailureAccounted(o: Options, s: Shared, i: nat, res: Outcome)
    requires res.fatal.None? && res.reason != ""
    ensures var after := AccountFor(o, s, i, res);
            && Attempts(s.sum, after.sum, res) && after.fatal == s.fatal && after.consecutive == s.consecutive + 1
            && after.sum.failed == s.sum.failed + 1 && after.sum.ok == s.sum.ok
            && after.sum.firstTry == s.sum.firstTry
            && after.sum.errors.Keys == s.sum.errors.Keys + {res.reason}
            && after.sum.errors[res.reason]
            == (if res.reason in s.sum.errors then s.sum.errors[res.reason] + 1 else 1)
            && (forall other | other in s.sum.errors && other != res.reason ::
                  after.sum.errors[other] == s.sum.errors[other])
  {
  }

  lemma FailureStops(o: Options, s: Shared, i: nat, res: Outcome)
    requires res.fatal.None? && res.reason != ""
    ensures var after := AccountFor(o, s, i, res);
            var full := RowFull(o, s.consecutive + 1);
            var exceeded := RateExceeded(o, s.sum.failed + 1, s.sum.attempted + 1);
            && (full ==> Gives(s.sum.stoppedBy, "consecutive_failures", after.sum.stoppedBy))
            && (!full && exceeded ==> Gives(s.sum.stoppedBy, "failure_rate", after.sum.stoppedBy))
            && (!full && !exceeded ==> after.sum.stoppedBy == s.sum.stoppedBy)
  {
    ShareExceeds(s.sum.failed + 1, s.sum.attempted + 1, o.maxFailureRate);
  }

  lemma ShareExceeds(failed: nat, attempted: nat, rate: real)
    requires attempted > 0
    ensures (failed as real) / (attempted as real) > rate <==> (failed as real) > rate * (attempted as real)
  {
    var x, n := failed as real, attempted as real;
    assert x == x / n * n;
    if x / n > rate {
      assert (x / n - rate) * n > 0.0;
    } else {
      assert (rate - x / n) * n >= 0.0;
    }
  }

  /** Once there is a reason to stop it stays, and each session accounted for was already in flight. */
  lemma HaltedStep(o: Options, sessions: nat, s: State, e: Action)
    requires SlotsHeld(o, sessions, s) && Halted(s) && Enabled(o, sessions, s, e)
    ensures var after := Next(o, sessions, s, e);
            && after.shared.sum.stoppedBy == s.shared.sum.stoppedBy
            && |after.history| + InFlight(after, sessions) <= |s.history| + InFlight(s, sessions)
  {
    InFlightStep(o, sessions, s, e);
    var after := Next(o, sessions, s, e);
    if e.Finish? {
      AccountKeepsReason(o, s.shared, e.i, e.res);
    }
  }

  lemma AccountKeepsReason(o: Options, s: Shared, i: nat, res: Outcome)
    requires s.sum.stoppedBy != ""
    ensures AccountFor(o, s, i, res).sum.stoppedBy == s.sum.stoppedBy
  {
  }

  lemma {:induction false} HaltedRun(o: Options, sessions: nat, s: State, events: seq<Action>)
    requires Inv(o, sessions, s) && Halted(s) && Possible(o, sessions, s, events)
    ensures var end := Run(o, sessions, s, events);
            && end.shared.sum.stoppedBy == s.shared.sum.stoppedBy
            && |end.history| + InFlight(end, sessions) <= |s.history| + InFlight(s, sessions)
    decreases |events|
  {
    if events != [] {
      StepKeeps(o, sessions, s, events[0]);
      HaltedStep(o, sessions, s, events[0]);
      HaltedRun(o, sessions, Next(o, sessions, s, events[0]), events[1..]);
    }
  }

  /** The step that stops the run leaves a slot with no session in flight. */
  lemma StoppingStep(o: Options, sessions: nat, s: State, e: Action)
    requires Inv(o, sessions, s) && !Halted(s) && Enabled(o, sessions, s, e) && Halted(Next(o, sessions, s, e))
    ensures InFlight(Next(o, sessions, s, e), sessions) < o.concurrency
  {
    var after := Next(o, sessions, s, e);
    StepSlots(o, sessions, s, e);
    RunningAtMost(after.workers, sessions);
    if e.Finish? {
      RunningCounted(after.workers, sessions);
      SubsetSize(RunningSet(after.workers, sessions), after.workers.Keys - {e.i});
      assert |after.workers.Keys - {e.i}| == |after.workers.Keys| - 1;
      assert |after.workers| == |after.workers.Keys|;
    }
  }

  // ---- Sessions started after a stop ----

  /** The sessions started so far: those accounted for and those running. */
  function Started(s: State, sessions: nat): nat {
    |s.history| + RunningBelow(s.workers, sessions)
  }

  /** The dispatcher has left its critical section with leave to go on, and has not yet acted on it. */
  predicate LetThrough(s: State) {
    s.dispatcher.Decided? && s.dispatcher.go
  }

  /** A session starts exactly when the dispatcher launches one it was let through with. */
  lemma StartedStep(o: Options, sessions: nat, s: State, e: Action)
    requires SlotsHeld(o, sessions, s) && Enabled(o, sessions, s, e)
    ensures Started(Next(o, sessions, s, e), sessions)
         == Started(s, sessions) + (if LetThrough(s) && e == Launch(false) then 1 else 0)
  {
    match e
    case Finish(i, res) => OneChanged(s.workers, s.workers[i := Accounted], i, sessions);
    case WriteSpend(i, cost) =>
      OneChanged(s.workers, s.workers[i := Running(s.workers[i].written + cost)], i, sessions);
    case Launch(_) => OneChanged(s.workers, s.workers[s.dispatcher.next := Running(0.0)], s.dispatcher.next, sessions);
    case Release(i) => OneChanged(s.workers, s.workers - {i}, i, sessions);
    case _ =>
  }

  /** Under a stop the dispatcher is let through only if it was already, and only until it launches. */
  lemma LetThroughStep(o: Options, sessions: nat, s: State, e: Action)
    requires Halted(s) && Enabled(o, sessions, s, e)
    ensures LetThrough(Next(o, sessions, s, e)) <==> LetThrough(s) && !e.Launch?
  {
  }

  lemma {:induction false} EndedLaunchesNothing(o: Options, sessions: nat, s: State, events: seq<Action>)
    requires s.dispatcher.Ended? && Possible(o, sessions, s, events)
    ensures Launch(false) !in events
    decreases |events|
  {
    if events != [] {
      EndedLaunchesNothing(o, sessions, Next(o, sessions, s, events[0]), events[1..]);
    }
  }

  /** From a stop on: one session starts if the dispatcher was already let through and launches it, else none. */
  lemma {:induction false} StartsAfterStop(o: Options, sessions: nat, s: State, events: seq<Action>)
    requires Inv(o, sessions, s) && Halted(s) && Possible(o, sessions, s, events)
    ensures Started(Run(o, sessions, s, events), sessions)
         == Started(s, sessions) + (if LetThrough(s) && Launch(false) in events then 1 else 0)
    decreases |events|
  {
    if events != [] {
      var e := events[0];
      var after := Next(o, sessions, s, e);
      StepKeeps(o, sessions, s, e);
      HaltedStep(o, sessions, s, e);
      StartedStep(o, sessions, s, e);
      LetThroughStep(o, sessions, s, e);
      StartsAfterStop(o, sessions, after, events[1..]);
      if LetThrough(s) && e == Launch(true) {
        EndedLaunchesNothing(o, sessions, after, events[1..]);
      }
    }
  }

  /**
   Main result: the first reason to stop is the one the run reports; after the step that gave it fewer
   further sessions are accounted for than there are workers; and a further session starts if and only
   if the dispatcher had been let through before the stop and launches, uncancelled, after it.
   */
  lemma StopIsFinal(o: Options, sessions: nat, prior: real, before: seq<Action>, e: Action, later: seq<Action>)
    requires Possible(o, sessions, Start(prior), before)
    requires var s := Run(o, sessions, Start(prior), before);
             && !Halted(s) && Enabled(o, sessions, s, e) && Halted(Next(o, sessions, s, e))
             && Possible(o, sessions, Next(o, sessions, s, e), later)
    ensures var stopped := Next(o, sessions, Run(o, sessions, Start(prior), before), e);
            var end := Run(o, sessions, stopped, later);
            && end.shared.sum.stoppedBy == stopped.shared.sum.stoppedBy
            && |end.history| < |stopped.history| + o.concurrency
            && Started(end, sessions)
            == Started(stopped, sessions) + (if LetThrough(stopped) && Launch(false) in later then 1 else 0)
  {
    StartHolds(o, sessions, prior);
    RunKeeps(o, sessions, Start(prior), before);
    var s := Run(o, sessions, Start(prior), before);
    StepKeeps(o, sessions, s, e);
    StoppingStep(o, sessions, s, e);
    HaltedRun(o, sessions, Next(o, sessions, s, e), later);
    StartsAfterStop(o, sessions, Next(o, sessions, s, e), later);
  }

  /** Two workers, two sessions, no limits: the first session's ledger write fails. */
  const TWO_WORKERS := Options(2, 0.0, 0.0, 0, 0.0, 0)
  const WRITE_FAILED := Outcome(OPENED.(storeFailed := true), "store_write", Some(WriteError))

  /** The dispatcher is let through with the second session, and then the first one fails. */
  const RACE: seq<Action> :=
    [TakeSlot, DecideUnderLock, Launch(false), TakeSlot, DecideUnderLock, Finish(0, WRITE_FAILED)]

  const STOPPED := State(Shared(Summary(1, 0, 0, 0, 0.0, 0.0, map[], "store_write", [0], 0.0), Some(WriteError), 0),
                         Decided(1, true), map[0 := Accounted], 2, 0.0, [WRITE_FAILED])

  predicate Reaches(o: Options, sessions: nat, s: State, events: seq<Action>, end: State) {
    Possible(o, sessions, s, events) && Run(o, sessions, s, events) == end
  }

  /** A step in front of the steps of a run. */
  lemma StepThenRun(o: Options, sessions: nat, s: State, e: Action, events: seq<Action>, end: State)
    requires Enabled(o, sessions, s, e) && Reaches(o, sessions, Next(o, sessions, s, e), events, end)
    ensures Reaches(o, sessions, s, [e] + events, end)
  {
    assert ([e] + events)[1..] == events;
  }

  /** The second half of the race: the dispatcher is let through once more, and the session fails. */
  lemma RaceEnds(s: State)
    requires s == Start(0.0).(dispatcher := Looping(1), workers := map[0 := Running(0.0)], slots := 1)
    ensures Reaches(TWO_WORKERS, 2, s, RACE[3..], STOPPED)
  {
    var o := TWO_WORKERS;
    var s1 := Next(o, 2, s, TakeSlot);
    var s2 := Next(o, 2, s1, DecideUnderLock);
    assert Next(o, 2, s2, Finish(0, WRITE_FAILED)) == STOPPED;
    StepThenRun(o, 2, s2, RACE[5], [], STOPPED);
    StepThenRun(o, 2, s1, RACE[4], RACE[5..], STOPPED);
    StepThenRun(o, 2, s, RACE[3], RACE[4..], STOPPED);
    assert RACE[5..] == [RACE[5]] + [] && RACE[4..] == [RACE[4]] + RACE[5..] && RACE[3..] == [RACE[3]] + RACE[4..];
  }

  /** A session does start after a stop: a run in which the dispatcher had been let through just before. */
  lemma OneMoreStarts()
    ensures Reaches(TWO_WORKERS, 2, Start(0.0), RACE, STOPPED) && Halted(STOPPED) && Started(STOPPED, 2) == 1
    ensures Enabled(TWO_WORKERS, 2, STOPPED, Launch(false))
    ensures Started(Next(TWO_WORKERS, 2, STOPPED, Launch(false)), 2) == 2
  {
    var o := TWO_WORKERS;
    var s1 := Next(o, 2, Start(0.0), TakeSlot);
    var s2 := Next(o, 2, s1, DecideUnderLock);
    var s3 := Next(o, 2, s2, Launch(false));
    RaceEnds(s3);
    StepThenRun(o, 2, s2, RACE[2], RACE[3..], STOPPED);
    StepThenRun(o, 2, s1, RACE[1], RACE[2..], STOPPED);
    StepThenRun(o, 2, Start(0.0), RACE[0], RACE[1..], STOPPED);
    assert RACE[2..] == [RACE[2]] + RACE[3..] && RACE[1..] == [RACE[1]] + RACE[2..] && RACE == [RACE[0]] + RACE[1..];
    assert RunningBelow(STOPPED.workers, 0) == 0 && RunningBelow(STOPPED.workers, 1) == 0;
    StartedStep(o, 2, STOPPED, Launch(false));
  }

  /** Every outcome of a session meets what a finishing worker is taken to report. */
  lemma SessionsBalance(script: Script, t: nat, parts: nat, saved: bool)
    ensures var out := EnrichOne(script, t, parts, saved).1; Balanced(out, out.account.ledger)
  {
    EnrichOneBooks(script, t, parts, saved);
    if EnrichOne(script, t, parts, saved).1.fatal != Some(WriteError) {
      GapIsFatal(script, t, parts, saved);
    }
  }
}
