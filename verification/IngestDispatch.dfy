/**
 Scheduled ingest (internal/repository/ingest_fires.go, internal/app/ingest_dispatch.go): a slot becomes
 a fire by a compare-and-swap, and a fire becomes one run behind a durable fence.

 A transaction works on a copy of the tables that replaces them when it commits; a fault at any of its
 statements leaves them as they were. Times are integers.
 */
module IngestDispatch {
  import opened Wrappers

  datatype Schedule = Schedule(enabled: bool, nextRun: int, lastRun: Option<int>)

  datatype Fire = Fire(schedule: string, scheduledAt: int, status: string)

  datatype IngestRun = IngestRun(name: string, kind: string, status: string)

  datatype Envelope = Envelope(run: nat, name: string)

  /**
   `lastRun` is the highest run ID ever given out, which an AUTOINCREMENT key never reuses. `pushed` is
   not a table: it is every envelope ever put on the queue, in order.
   */
  datatype Tables = Tables(schedules: map<string, Schedule>, fires: map<string, Fire>,
                           dispatches: map<string, Option<nat>>, runs: map<nat, IngestRun>, lastRun: nat,
                           jobs: seq<Envelope>, pushed: seq<Envelope>)

  datatype FireCreation = FireCreation(schedule: string, id: string, scheduledAt: int, status: string,
                                       expectedNext: int, nextRun: int)

  datatype Error = StoreFault | NoFireIdentity | DuplicateJob

  /** The statement of a transaction that fails, counted from its start, if one does. */
  type Fault = Option<nat>

  // ---- The transactions ----

  predicate SlotOpen(t: Tables, c: FireCreation) {
    && c.schedule in t.schedules
    && t.schedules[c.schedule].enabled
    && t.schedules[c.schedule].nextRun == c.expectedNext
  }

  function WithFire(t: Tables, c: FireCreation, now: int): Tables
    requires SlotOpen(t, c)
  {
    t.(schedules := t.schedules[c.schedule := t.schedules[c.schedule].(lastRun := Some(now), nextRun := c.nextRun)],
       fires := t.fires[c.id := Fire(c.schedule, c.scheduledAt, c.status)])
  }

  /** Creating a fire: statement 0 begins, 1 claims the slot, 2 inserts the fire, 3 commits. */
  function Create(t: Tables, c: FireCreation, now: int, fault: Fault): (Tables, Result<bool, Error>) {
    if fault == Some(0) || fault == Some(1) then (t, Err(StoreFault))
    else if !SlotOpen(t, c) then (t, Ok(false))
    else if fault == Some(2) then (t, Err(StoreFault))
    else if c.id in t.fires then (t, Ok(false))
    else if fault == Some(3) then (t, Err(StoreFault))
    else (WithFire(t, c, now), Ok(true))
  }

  function WithRun(t: Tables, name: string, kind: string): Tables {
    t.(runs := t.runs[t.lastRun + 1 := IngestRun(name, kind, "queued")], lastRun := t.lastRun + 1)
  }

  function WithEnvelope(t: Tables, e: Envelope): Tables {
    t.(jobs := t.jobs + [e], pushed := t.pushed + [e])
  }

  function WithDispatch(t: Tables, fire: string, name: string, kind: string): Tables {
    var run := t.lastRun + 1;
    WithEnvelope(WithRun(t, name, kind).(dispatches := t.dispatches[fire := Some(run)]), Envelope(run, name))
  }

  /**
   Enqueueing a fire's run: statement 0 begins, 1 takes the fence, 2 inserts the run, 3 records it in the
   fence, 4 pushes the envelope, 5 commits.
   */
  function Enqueue(t: Tables, fire: string, name: string, kind: string, fault: Fault): (Tables, Result<nat, Error>) {
    if fire == "" then (t, Err(NoFireIdentity))
    else if fault == Some(0) || fault == Some(1) then (t, Err(StoreFault))
    else if fire in t.dispatches then (t, Err(DuplicateJob))
    else if fault.Some? && fault.value <= 5 then (t, Err(StoreFault))
    else (WithDispatch(t, fire, name, kind), Ok(t.lastRun + 1))
  }

  class DispatchStore {
    var tables: Tables

    method CreateFire(c: FireCreation, now: int, fault: Fault) returns (r: Result<bool, Error>)
      modifies this
      ensures (tables, r) == Create(old(tables), c, now, fault)
    {
      if fault == Some(0) {
        return Err(StoreFault);
      }
      var tx := tables;
      if fault == Some(1) {
        return Err(StoreFault);
      }
      var affected := 0;
      if c.schedule in tx.schedules {
        var s := tx.schedules[c.schedule];
        if s.enabled && s.nextRun == c.expectedNext {
          tx := tx.(schedules := tx.schedules[c.schedule := s.(lastRun := Some(now), nextRun := c.nextRun)]);
          affected := 1;
        }
      }
      if affected != 1 {
        return Ok(false);
      }
      if fault == Some(2) {
        return Err(StoreFault);
      }
      affected := 0;
      if c.id !in tx.fires {
        tx := tx.(fires := tx.fires[c.id := Fire(c.schedule, c.scheduledAt, c.status)]);
        affected := 1;
      }
      if affected != 1 {
        return Ok(false);
      }
      if fault == Some(3) {
        return Err(StoreFault);
      }
      tables := tx;
      return Ok(true);
    }

    method EnqueueScheduledIngest(fire: string, name: string, kind: string, fault: Fault)
      returns (r: Result<nat, Error>)
      modifies this
      ensures (tables, r) == Enqueue(old(tables), fire, name, kind, fault)
    {
      if fire == "" {
        return Err(NoFireIdentity);
      }
      if fault == Some(0) {
        return Err(StoreFault);
      }
      var tx := tables;
      if fault == Some(1) {
        return Err(StoreFault);
      }
      if fire in tx.dispatches {
        return Err(DuplicateJob);
      }
      tx := tx.(dispatches := tx.dispatches[fire := None]);
      if fault == Some(2) {
        return Err(StoreFault);
      }
      tx := WithRun(tx, name, kind);
      var id := tx.lastRun;
      if fault == Some(3) {
        return Err(StoreFault);
      }
      tx := tx.(dispatches := tx.dispatches[fire := Some(id)]);
      if fault == Some(4) {
        return Err(StoreFault);
      }
      tx := WithEnvelope(tx, Envelope(id, name));
      if fault == Some(5) {
        return Err(StoreFault);
      }
      assert old(tables).dispatches[fire := None][fire := Some(id)] == old(tables).dispatches[fire := Some(id)];
      tables := tx;
      return Ok(id);
    }
  }

  // ---- Runs of the system ----

  /**
   The two transactions, and what goes on beside them: runs that no fire asked for, a worker removing
   an envelope or updating a run, a fire changing status, and edits to a schedule.
   */
  datatype Op =
    | CreateOp(c: FireCreation, now: int, fault: Fault)
    | EnqueueOp(fire: string, name: string, kind: string, fault: Fault)
    | OtherRun(name: string, kind: string)
    | TakeEnvelope(k: nat)
    | UpdateRun(run: nat, status: string)
    | TransitionFire(id: string, status: string)
    | EditSchedule(id: string, schedule: Schedule)

  function Step(t: Tables, op: Op): Tables {
    match op
    case CreateOp(c, now, fault) => Create(t, c, now, fault).0
    case EnqueueOp(fire, name, kind, fault) => Enqueue(t, fire, name, kind, fault).0
    case OtherRun(name, kind) => WithEnvelope(WithRun(t, name, kind), Envelope(t.lastRun + 1, name))
    case TakeEnvelope(k) => if k < |t.jobs| then t.(jobs := t.jobs[..k] + t.jobs[k + 1..]) else t
    case UpdateRun(run, status) =>
      if run in t.runs then t.(runs := t.runs[run := t.runs[run].(status := status)]) else t
    case TransitionFire(id, status) =>
      if id in t.fires then t.(fires := t.fires[id := t.fires[id].(status := status)]) else t
    case EditSchedule(id, schedule) => t.(schedules := t.schedules[id := schedule])
  }

  function Run(t: Tables, ops: seq<Op>): Tables {
    if ops == [] then t else Step(Run(t, ops[..|ops| - 1]), ops[|ops| - 1])
  }

  /** How many envelopes were ever pushed for a run. */
  function Pushes(pushed: seq<Envelope>, run: nat): nat {
    if pushed == [] then 0
    else Pushes(pushed[..|pushed| - 1], run) + (if pushed[|pushed| - 1].run == run then 1 else 0)
  }

  ghost predicate IdsUsed(t: Tables) {
    && (forall r | r in t.runs :: r <= t.lastRun)
    && (forall e | e in t.pushed :: e.run <= t.lastRun)
  }

  /** The fence: every committed fire has a run, no two fires share one, and it was pushed exactly once. */
  ghost predicate Fenced(t: Tables) {
    && "" !in t.dispatches
    && (forall f | f in t.dispatches ::
          t.dispatches[f].Some? && t.dispatches[f].value in t.runs && Pushes(t.pushed, t.dispatches[f].value) == 1)
    && (forall f, g | f in t.dispatches && g in t.dispatches && t.dispatches[f] == t.dispatches[g] :: f == g)
  }

  ghost predicate Inv(t: Tables) {
    IdsUsed(t) && Fenced(t) && multiset(t.jobs) <= multiset(t.pushed)
  }

  lemma {:induction false} NeverPushed(pushed: seq<Envelope>, run: nat)
    requires forall e | e in pushed :: e.run != run
    ensures Pushes(pushed, run) == 0
  {
    if pushed != [] {
      NeverPushed(pushed[..|pushed| - 1], run);
    }
  }

  lemma PushOne(t: Tables, e: Envelope, run: nat)
    ensures Pushes(WithEnvelope(t, e).pushed, run) == Pushes(t.pushed, run) + (if e.run == run then 1 else 0)
  {
    var after := t.pushed + [e];
    assert after[..|after| - 1] == t.pushed;
  }

  /** A run with a fresh ID, its envelope, and perhaps a fire that asked for it. */
  lemma NewRunKeeps(t: Tables, after: Tables, fire: Option<string>, name: string, kind: string)
    requires Inv(t) && (fire.Some? ==> fire.value != "" && fire.value !in t.dispatches)
    requires after == if fire.Some? then WithDispatch(t, fire.value, name, kind)
                      else WithEnvelope(WithRun(t, name, kind), Envelope(t.lastRun + 1, name))
    ensures Inv(after)
  {
    var run := t.lastRun + 1;
    assert after.pushed == t.pushed + [Envelope(run, name)] && after.jobs == t.jobs + [Envelope(run, name)];
    NeverPushed(t.pushed, run);
    forall f | f in after.dispatches
      ensures after.dispatches[f].Some? && after.dispatches[f].value in after.runs
           && Pushes(after.pushed, after.dispatches[f].value) == 1
    {
      PushOne(t, Envelope(run, name), after.dispatches[f].value);
    }
  }

  lemma TakeKeeps(t: Tables, k: nat)
    requires Inv(t) && k < |t.jobs|
    ensures Inv(t.(jobs := t.jobs[..k] + t.jobs[k + 1..]))
  {
    assert t.jobs == t.jobs[..k] + [t.jobs[k]] + t.jobs[k + 1..];
  }

  lemma EnqueueKeeps(t: Tables, fire: string, name: string, kind: string, fault: Fault)
    requires Inv(t)
    ensures Inv(Enqueue(t, fire, name, kind, fault).0)
  {
    if Enqueue(t, fire, name, kind, fault).1.Ok? {
      NewRunKeeps(t, Enqueue(t, fire, name, kind, fault).0, Some(fire), name, kind);
    }
  }

  lemma StepKeeps(t: Tables, op: Op)
    requires Inv(t)
    ensures Inv(Step(t, op))
  {
    if op.EnqueueOp? {
      EnqueueKeeps(t, op.fire, op.name, op.kind, op.fault);
    } else if op.OtherRun? {
      NewRunKeeps(t, Step(t, op), None, op.name, op.kind);
    } else if op.TakeEnvelope? {
      if op.k < |t.jobs| {
        TakeKeeps(t, op.k);
      }
    } else {
      FenceUntouched(t, op);
      SameFence(t, Step(t, op));
    }
  }

  lemma FenceUntouched(t: Tables, op: Op)
    requires op.CreateOp? || op.UpdateRun? || op.TransitionFire? || op.EditSchedule?
    ensures var after := Step(t, op);
            && after.dispatches == t.dispatches && after.runs.Keys == t.runs.Keys && after.lastRun == t.lastRun
            && after.jobs == t.jobs && after.pushed == t.pushed
  {
  }

  /** Schedules, fires and what a run's row says have no part in the fence. */
  lemma SameFence(t: Tables, after: Tables)
    requires Inv(t) && after.dispatches == t.dispatches && after.runs.Keys == t.runs.Keys && after.lastRun == t.lastRun
    requires after.jobs == t.jobs && after.pushed == t.pushed
    ensures Inv(after)
  {
  }

  lemma {:induction false} RunKeeps(t: Tables, ops: seq<Op>)
    requires Inv(t)
    ensures Inv(Run(t, ops))
  {
    if ops != [] {
      RunKeeps(t, ops[..|ops| - 1]);
      StepKeeps(Run(t, ops[..|ops| - 1]), ops[|ops| - 1]);
    }
  }

  // ---- At most once ----

  /** How many enqueues of this fire the callers were told had succeeded. */
  function Accepted(t: Tables, ops: seq<Op>, fire: string): nat {
    if ops == [] then 0
    else
      var op := ops[|ops| - 1];
      Accepted(t, ops[..|ops| - 1], fire)
      + (if op.EnqueueOp? && op.fire == fire
            && Enqueue(Run(t, ops[..|ops| - 1]), op.fire, op.name, op.kind, op.fault).1.Ok? then 1 else 0)
  }

  /**
   Main result: over any run, however often a fire is retried and wherever a transaction fails, at most
   one enqueue of it succeeds, and one did exactly when the fence has come to hold it.
   */
  lemma {:induction false} AcceptedOnce(t: Tables, ops: seq<Op>, fire: string)
    ensures Accepted(t, ops, fire) == (if fire in Run(t, ops).dispatches && fire !in t.dispatches then 1 else 0)
    ensures fire in t.dispatches ==> fire in Run(t, ops).dispatches
  {
    if ops != [] {
      AcceptedOnce(t, ops[..|ops| - 1], fire);
    }
  }

  /** A fire's run never changes: not by retries, and not after its envelope is gone. */
  lemma {:induction false} DispatchIsPermanent(t: Tables, ops: seq<Op>, fire: string)
    requires fire in t.dispatches
    ensures fire in Run(t, ops).dispatches && Run(t, ops).dispatches[fire] == t.dispatches[fire]
  {
    if ops != [] {
      DispatchIsPermanent(t, ops[..|ops| - 1], fire);
    }
  }

  /**
   Enqueueing succeeds exactly for a named fire that is new, when nothing fails, and then adds one run, one
   envelope for it and the fire's fence to the tables; otherwise nothing changes, and the answer says why.
   */
  lemma EnqueueExactly(t: Tables, fire: string, name: string, kind: string, fault: Fault)
    requires Inv(t)
    ensures var (after, r) := Enqueue(t, fire, name, kind, fault);
            && (r.Ok? <==> fire != "" && fire !in t.dispatches && (fault.Some? ==> fault.value > 5))
            && (r.Err? ==> after == t)
            && (r == Err(NoFireIdentity) <==> fire == "")
            && (r == Err(DuplicateJob)
                <==> fire != "" && fire in t.dispatches && (fault.Some? ==> fault.value > 1))
            && (r.Ok? ==> r.value !in t.runs && after.dispatches == t.dispatches[fire := Some(r.value)]
                          && after.runs == t.runs[r.value := IngestRun(name, kind, "queued")]
                          && after.lastRun == r.value > t.lastRun
                          && after.pushed == t.pushed + [Envelope(r.value, name)]
                          && after.jobs == t.jobs + [Envelope(r.value, name)]
                          && after.schedules == t.schedules && after.fires == t.fires)
  {
  }

  /** There is such a schedule, it is enabled, and its next run is the one the caller expects. */
  predicate Due(t: Tables, c: FireCreation) {
    c.schedule in t.schedules && t.schedules[c.schedule].enabled && t.schedules[c.schedule].nextRun == c.expectedNext
  }

  /**
   A fire is created exactly when its schedule is enabled and due as expected, its ID is new and nothing
   fails; then the schedule moves on and the fire is stored. Otherwise nothing changes.
   */
  lemma CreateExactly(t: Tables, c: FireCreation, now: int, fault: Fault)
    ensures var (after, r) := Create(t, c, now, fault);
            && (r == Ok(true) <==> Due(t, c) && c.id !in t.fires && (fault.Some? ==> fault.value > 3))
            && (r.Err? <==> || fault == Some(0) || fault == Some(1) || (fault == Some(2) && Due(t, c))
                            || (fault == Some(3) && Due(t, c) && c.id !in t.fires))
            && (r != Ok(true) ==> after == t)
            && (r == Ok(true) ==> CreatedAs(t, c, now, after))
  {
  }

  ghost predicate CreatedAs(t: Tables, c: FireCreation, now: int, after: Tables) {
    && after.fires == t.fires[c.id := Fire(c.schedule, c.scheduledAt, c.status)]
    && after.schedules == t.schedules[c.schedule := Schedule(true, c.nextRun, Some(now))]
    && after.dispatches == t.dispatches && after.runs == t.runs && after.lastRun == t.lastRun
    && after.jobs == t.jobs && after.pushed == t.pushed
  }

  /** So a disabled schedule never fires, whatever else happens. */
  lemma DisabledNeverFires(t: Tables, c: FireCreation, now: int, fault: Fault)
    requires c.schedule in t.schedules && !t.schedules[c.schedule].enabled
    ensures Create(t, c, now, fault).0 == t && Create(t, c, now, fault).1 != Ok(true)
  {
  }

  function CreatedWith(t: Tables, ops: seq<Op>, p: FireCreation -> bool): nat {
    if ops == [] then 0
    else
      var op := ops[|ops| - 1];
      CreatedWith(t, ops[..|ops| - 1], p)
      + (if op.CreateOp? && p(op.c) && Create(Run(t, ops[..|ops| - 1]), op.c, op.now, op.fault).1 == Ok(true)
         then 1 else 0)
  }

  /** A fire ID is created at most once in any run, even after the fire has ended. */
  lemma {:induction false} FireCreatedOnce(t: Tables, ops: seq<Op>, id: string)
    ensures CreatedWith(t, ops, (c: FireCreation) => c.id == id)
         == (if id in Run(t, ops).fires && id !in t.fires then 1 else 0)
    ensures id in t.fires ==> id in Run(t, ops).fires
  {
    if ops != [] {
      FireCreatedOnce(t, ops[..|ops| - 1], id);
    }
  }

  /**
   Why retention is refused: a fire that was created is refused under its ID from then on, but with its
   row deleted the same ID is created a second time, for the schedule's next slot.
   */
  lemma PruningWouldRepeat(t: Tables, c: FireCreation, now: int)
    requires Create(t, c, now, None).1 == Ok(true)
    ensures var done, again := Create(t, c, now, None).0, c.(expectedNext := c.nextRun);
            && Create(done, again, now, None) == (done, Ok(false))
            && Create(done.(fires := done.fires - {c.id}), again, now, None).1 == Ok(true)
  {
  }

  // ---- Slots ----

  /** The caller moves a schedule on, and nobody edits it back. */
  predicate MovesOn(t: Tables, op: Op) {
    match op
    case CreateOp(c, _, _) => c.nextRun > c.expectedNext
    case EditSchedule(id, s) => id in t.schedules ==> s.nextRun >= t.schedules[id].nextRun
    case _ => true
  }

  predicate AllMoveOn(t: Tables, ops: seq<Op>) {
    ops == [] || (AllMoveOn(t, ops[..|ops| - 1]) && MovesOn(Run(t, ops[..|ops| - 1]), ops[|ops| - 1]))
  }

  predicate Passed(t: Tables, schedule: string, slot: int) {
    schedule in t.schedules && t.schedules[schedule].nextRun > slot
  }

  lemma PassedStays(t: Tables, op: Op, schedule: string, slot: int)
    requires MovesOn(t, op) && Passed(t, schedule, slot)
    ensures Passed(Step(t, op), schedule, slot)
  {
  }

  /** Of all the creators that expect one slot of a schedule, at most one succeeds in any run. */
  lemma {:induction false} SlotFiresOnce(t: Tables, ops: seq<Op>, schedule: string, slot: int)
    requires AllMoveOn(t, ops)
    ensures var n := CreatedWith(t, ops, (c: FireCreation) => c.schedule == schedule && c.expectedNext == slot);
            n <= 1 && (n == 1 ==> Passed(Run(t, ops), schedule, slot))
  {
    if ops != [] {
      SlotFiresOnce(t, ops[..|ops| - 1], schedule, slot);
      if Passed(Run(t, ops[..|ops| - 1]), schedule, slot) {
        PassedStays(Run(t, ops[..|ops| - 1]), ops[|ops| - 1], schedule, slot);
      }
    }
  }

  /**
   Two creators that expect the same slot, one right after the other: the second succeeds exactly when
   the slot is its own next slot, its ID is new, and no statement fails.
   */
  lemma RivalsExclude(t: Tables, a: FireCreation, b: FireCreation, now: int, later: int, fault: Fault, fault': Fault)
    requires a.schedule == b.schedule && a.expectedNext == b.expectedNext
    requires Create(t, a, now, fault).1 == Ok(true)
    ensures var done := Create(t, a, now, fault).0;
            Create(done, b, later, fault').1 == Ok(true)
            <==> a.nextRun == a.expectedNext && b.id !in done.fires && (fault'.Some? ==> fault'.value > 3)
  {
  }
}
