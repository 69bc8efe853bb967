/**
 The dispatcher and its workers (internal/enrich/runner.go, execute).

 The dispatcher takes a worker slot, decides under the lock whether to go on, and starts a session;
 each worker runs its session, accounts for it under the lock, and only then gives its slot back. A
 run is any interleaving of these steps. `RunState` holds the shared fields and the two critical
 sections.
 */
module EnrichRun {
  import opened Wrappers
  import opened EnrichSession

  /** A limit of zero or less is off. */
  datatype Options = Options(concurrency: nat, maxCost: real, totalCap: real,
                             stopAfterFailures: int, maxFailureRate: real, minAttempts: int)

  datatype Summary = Summary(attempted: nat, ok: nat, failed: nat, firstTry: nat, cost: real, prior: real,
                             errors: map<string, nat>, stoppedBy: string, storeFailures: seq<nat>, ledgerGap: real)

  datatype Shared = Shared(sum: Summary, fatal: Option<Fatal>, consecutive: nat)

  /** The first reason to stop is kept. */
  function Stopped(sum: Summary, reason: string): Summary {
    if sum.stoppedBy == "" then sum.(stoppedBy := reason) else sum
  }

  /** The dispatcher's critical section: the shared state after it, and whether it may go on. */
  function Decide(o: Options, s: Shared): (Shared, bool) {
    var halted := s.sum.stoppedBy != "" || s.fatal.Some?;
    if o.maxCost > 0.0 && s.sum.cost >= o.maxCost then (s.(sum := Stopped(s.sum, "budget")), false)
    else if o.totalCap > 0.0 && s.sum.prior + s.sum.cost >= o.totalCap then
      (s.(sum := Stopped(s.sum, "total_cap")), false)
    else (s, !halted)
  }

  function CountOf(errors: map<string, nat>, reason: string): nat {
    if reason in errors then errors[reason] else 0
  }

  /** A failed session: counted under its class, and perhaps one failure too many. */
  function AccountFailure(o: Options, s: Shared, reason: string): Shared {
    var sum := s.sum.(failed := s.sum.failed + 1,
                      errors := s.sum.errors[reason := CountOf(s.sum.errors, reason) + 1]);
    var consecutive := s.consecutive + 1;
    var afterRow := if o.stopAfterFailures > 0 && consecutive >= o.stopAfterFailures
                    then Stopped(sum, "consecutive_failures") else sum;
    var afterRate := if o.maxFailureRate > 0.0 && sum.attempted >= o.minAttempts && sum.attempted > 0
                        && (sum.failed as real) / (sum.attempted as real) > o.maxFailureRate
                     then Stopped(afterRow, "failure_rate") else afterRow;
    Shared(afterRate, s.fatal, consecutive)
  }

  /** The worker's critical section for session `i`. */
  function AccountFor(o: Options, s: Shared, i: nat, res: Outcome): Shared {
    var sum := s.sum.(attempted := s.sum.attempted + 1, cost := s.sum.cost + res.account.cost);
    if res.fatal == Some(WriteError) then
      Shared(Stopped(sum, "store_write").(storeFailures := sum.storeFailures + [i],
                                          ledgerGap := sum.ledgerGap + res.account.ledgerGap),
             res.fatal, s.consecutive)
    else if res.fatal.Some? then
      Shared(Stopped(sum, "gateway_" + res.reason), res.fatal, s.consecutive)
    else if res.reason != "" then AccountFailure(o, s.(sum := sum), res.reason)
    else
      Shared(sum.(ok := sum.ok + 1, firstTry := sum.firstTry + (if res.account.retries == 0 then 1 else 0)), s.fatal, 0)
  }

  class RunState {
    var sum: Summary
    var fatal: Option<Fatal>
    var consecutive: nat

    ghost function Contents(): Shared
      reads this
    {
      Shared(sum, fatal, consecutive)
    }

    method Stop(reason: string)
      modifies this`sum
      ensures sum == Stopped(old(sum), reason)
    {
      if sum.stoppedBy == "" {
        sum := sum.(stoppedBy := reason);
      }
    }

    method DecideNext(o: Options) returns (go: bool)
      modifies this`sum
      ensures (Contents(), go) == Decide(o, old(Contents()))
    {
      var halted := sum.stoppedBy != "" || fatal.Some?;
      var over := o.maxCost > 0.0 && sum.cost >= o.maxCost;
      if over {
        Stop("budget");
      }
      if !over && o.totalCap > 0.0 && sum.prior + sum.cost >= o.totalCap {
        over := true;
        Stop("total_cap");
      }
      go := !halted && !over;
    }

    method AccountSession(o: Options, i: nat, res: Outcome)
      modifies this
      ensures Contents() == AccountFor(o, old(Contents()), i, res)
    {
      sum := sum.(attempted := sum.attempted + 1, cost := sum.cost + res.account.cost);
      if res.fatal.Some? {
        fatal := res.fatal;
        if res.fatal.value == WriteError {
          Stop("store_write");
          sum := sum.(storeFailures := sum.storeFailures + [i], ledgerGap := sum.ledgerGap + res.account.ledgerGap);
        } else {
          Stop("gateway_" + res.reason);
        }
      } else if res.reason != "" {
        sum := sum.(failed := sum.failed + 1, errors := sum.errors[res.reason := CountOf(sum.errors, res.reason) + 1]);
        consecutive := consecutive + 1;
        if o.stopAfterFailures > 0 && consecutive >= o.stopAfterFailures {
          Stop("consecutive_failures");
        }
        if o.maxFailureRate > 0.0 && sum.attempted >= o.minAttempts
           && (sum.failed as real) / (sum.attempted as real) > o.maxFailureRate {
          Stop("failure_rate");
        }
      } else {
        sum := sum.(ok := sum.ok + 1);
        consecutive := 0;
        if res.account.retries == 0 {
          sum := sum.(firstTry := sum.firstTry + 1);
        }
      }
    }
  }

  // ---- Interleavings ----

  datatype Dispatcher = Looping(next: nat) | Holding(next: nat) | Decided(next: nat, go: bool) | Ended

  /** A worker that holds its slot: still running, with what it has written to the ledger, or accounted. */
  datatype Worker = Running(written: real) | Accounted

  datatype State = State(shared: Shared, dispatcher: Dispatcher, workers: map<nat, Worker>, slots: nat,
                         ledger: real, history: seq<Outcome>)

  datatype Action =
    | TakeSlot
    | DecideUnderLock
    | Launch(cancelled: bool)
    | EndLoop
    | WriteSpend(i: nat, cost: real)
    | Finish(i: nat, res: Outcome)
    | Release(i: nat)

  /** A finished session's books, as `EnrichSession` proves them. */
  predicate Balanced(res: Outcome, written: real) {
    && res.account.ledger == written
    && res.account.cost == written + res.account.ledgerGap
    && (res.fatal != Some(WriteError) ==> res.account.ledgerGap == 0.0)
  }

  predicate Enabled(o: Options, sessions: nat, s: State, e: Action) {
    match e
    case TakeSlot => s.dispatcher.Looping? && s.dispatcher.next < sessions && s.slots < o.concurrency
    case DecideUnderLock => s.dispatcher.Holding?
    case Launch(_) => s.dispatcher.Decided? && s.slots > 0
    case EndLoop => s.dispatcher.Looping? && s.dispatcher.next == sessions
    case WriteSpend(i, _) => i in s.workers && s.workers[i].Running?
    case Finish(i, res) => i in s.workers && s.workers[i].Running? && Balanced(res, s.workers[i].written)
    case Release(i) => i in s.workers && s.workers[i].Accounted? && s.slots > 0
  }

  function Next(o: Options, sessions: nat, s: State, e: Action): State
    requires Enabled(o, sessions, s, e)
  {
    match e
    case TakeSlot => s.(dispatcher := Holding(s.dispatcher.next), slots := s.slots + 1)
    case DecideUnderLock =>
      var (shared, go) := Decide(o, s.shared);
      s.(shared := shared, dispatcher := Decided(s.dispatcher.next, go))
    case Launch(cancelled) =>
      var i := s.dispatcher.next;
      if s.dispatcher.go && !cancelled then s.(dispatcher := Looping(i + 1), workers := s.workers[i := Running(0.0)])
      else s.(dispatcher := Ended, slots := s.slots - 1)
    case EndLoop => s.(dispatcher := Ended)
    case WriteSpend(i, cost) =>
      s.(workers := s.workers[i := Running(s.workers[i].written + cost)], ledger := s.ledger + cost)
    case Finish(i, res) =>
      s.(workers := s.workers[i := Accounted], shared := AccountFor(o, s.shared, i, res), history := s.history + [res])
    case Release(i) => s.(workers := s.workers - {i}, slots := s.slots - 1)
  }

  predicate Possible(o: Options, sessions: nat, s: State, events: seq<Action>)
    decreases |events|
  {
    events != [] ==>
      Enabled(o, sessions, s, events[0]) && Possible(o, sessions, Next(o, sessions, s, events[0]), events[1..])
  }

  function Run(o: Options, sessions: nat, s: State, events: seq<Action>): State
    requires Possible(o, sessions, s, events)
    decreases |events|
  {
    if events == [] then s else Run(o, sessions, Next(o, sessions, s, events[0]), events[1..])
  }

  function Start(prior: real): State {
    State(Shared(Summary(0, 0, 0, 0, 0.0, prior, map[], "", [], 0.0), None, 0), Looping(0), map[], 0, 0.0, [])
  }

  predicate Finished(s: State) {
    s.dispatcher.Ended? && s.workers == map[]
  }
}
