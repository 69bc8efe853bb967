/**
 What the capture protocol guarantees over all runs: uploads, completions, new captures and other
 media work, in any order and on any number of captures.
 */
module CaptureRuns {
  import opened Wrappers
  import opened Text
  import opened Digest
  import opened Media
  import opened CaptureProtocol
  import opened CaptureCompletion

  /**
   One transaction. `Accept` stands for manifest acceptance, which adds one open capture under a
   fresh identity; `Store` for bytes attached to a variant outside any capture, `Fail` for a failure
   recorded there, and `NewVariant` for a variant discovered. `AdvanceTo` moves an attempt on by itself.
   */
  datatype Op =
    | UploadOp(u: Upload)
    | CompleteOp(w: Write)
    | Accept(capture: string, bs: seq<Binding>, now: int)
    | Store(variant: string, digest: string, size: int)
    | Fail(variant: string, failure: Failure)
    | NewVariant(variant: string, v: Variant)
    | AdvanceTo(capture: string, next: Completion, warnings: string, now: int)

  predicate ValidTransition(current: Completion, next: Completion) {
    || (current == Accepting && (next == Transferring || Terminal(next)))
    || (current == Transferring && Terminal(next))
  }

  /** `AdvanceCompletion`: the attempt alone, with no report. */
  function AdvanceCompletion(db: Db, capture: string, next: Completion, warnings: string, now: int): Db {
    if IsBlank(capture) || now == 0 || capture !in db.attempts then db
    else
      var a := db.attempts[capture];
      if a.completion == next || !ValidTransition(a.completion, next) || now < a.updatedAt then db
      else
        db.(attempts := db.attempts[capture := Attempt(next, if IsBlank(warnings) then a.warnings else warnings, now)])
  }

  function AcceptManifest(db: Db, capture: string, bs: seq<Binding>, now: int): Db {
    if capture in db.attempts || !DistinctClients(bs)
       || exists k | 0 <= k < |bs| :: bs[k].variant !in db.variants || IsBlank(bs[k].client) then db
    else db.(attempts := db.attempts[capture := Attempt(Accepting, "[]", now)],
             bindings := db.bindings[capture := bs])
  }

  function StoreBytes(db: Db, id: string, digest: string, size: int): Db {
    if id !in db.variants || !IsHexDigest(digest) || size < 0 then db
    else
      var r := AttachBlob(db.variants, db.blobs, id, digest, size, RetentionFor(db.variants[id].custody));
      if r.Err? then db else db.(variants := r.value.0, blobs := r.value.1)
  }

  function FailVariant(db: Db, id: string, failure: Failure): Db {
    var r := MarkFailed(db.variants, id, failure);
    if r.Err? then db else db.(variants := r.value)
  }

  function AddVariant(db: Db, id: string, v: Variant): Db {
    if id in db.variants || !(v.digest == "" || IsHexDigest(v.digest)) || v.size < 0 then db
    else db.(variants := db.variants[id := v])
  }

  function Step(db: Db, op: Op): Db {
    match op
    case UploadOp(u) => UploadStep(db, u).0
    case CompleteOp(w) => CompleteStep(db, w).0
    case Accept(capture, bs, now) => AcceptManifest(db, capture, bs, now)
    case Store(id, digest, size) => StoreBytes(db, id, digest, size)
    case Fail(id, failure) => FailVariant(db, id, failure)
    case NewVariant(id, v) => AddVariant(db, id, v)
    case AdvanceTo(capture, next, warnings, now) => AdvanceCompletion(db, capture, next, warnings, now)
  }

  function Run(db: Db, ops: seq<Op>): Db
    decreases |ops|
  {
    if ops == [] then db else Run(Step(db, ops[0]), ops[1..])
  }

  predicate Done(c: Completion) {
    c == Complete || c == Partial
  }

  /** A reported capture is a completed one, with the completion its report states. */
  ghost predicate ReportsAgree(reports: map<string, Report>, attempts: map<string, Attempt>) {
    forall c | c in reports ::
      c in attempts && reports[c].completion == attempts[c].completion && Done(reports[c].completion)
  }

  /** Every completed capture is a reported one. */
  ghost predicate AllReported(db: Db) {
    forall c | c in db.attempts && Done(db.attempts[c].completion) :: c in db.reports
  }

  /** A capture that a step completes gets its report in that step. */
  ghost predicate Reports(before: Db, after: Db) {
    forall c | c in after.attempts && Done(after.attempts[c].completion) ::
      c in after.reports || (c in before.attempts && Done(before.attempts[c].completion))
  }

  /** An outcome belongs to a binding, and stands for bytes only where there are verified bytes. */
  ghost predicate Backed(key: (string, string), row: Row, bindings: map<string, seq<Binding>>,
                         variants: map<string, Variant>) {
    && key.0 in bindings && FindBinding(bindings[key.0], key.1).Some?
    && var b := FindBinding(bindings[key.0], key.1).value;
       && b.variant in variants
       && (ClaimsBytes(row.outcome) ==> Verified(variants[b.variant]) && row.digest == variants[b.variant].digest)
  }

  ghost predicate OutcomesBacked(outcomes: map<(string, string), Row>, bindings: map<string, seq<Binding>>,
                                 variants: map<string, Variant>) {
    forall key | key in outcomes :: Backed(key, outcomes[key], bindings, variants)
  }

  ghost predicate Inv(db: Db) {
    && WellFormed(db) && ReportsAgree(db.reports, db.attempts)
    && OutcomesBacked(db.outcomes, db.bindings, db.variants)
  }

  function Rank(c: Completion): nat {
    match c case Accepting => 0 case Transferring => 1 case _ => 2
  }

  /** Nothing of a capture changes but what its variants hold. */
  ghost predicate Stands(before: Db, after: Db, c: string)
    requires c in before.attempts && c in after.attempts
  {
    && after.attempts[c] == before.attempts[c] && Get(after.reports, c) == Get(before.reports, c)
    && forall client :: Get(after.outcomes, (c, client)) == Get(before.outcomes, (c, client))
  }

  /** A capture keeps its bindings and moves on, or stands still if it is terminal. */
  ghost predicate MovesOn(before: Db, after: Db, c: string)
    requires c in before.attempts
  {
    && c in after.attempts && c in after.bindings
    && Rank(before.attempts[c].completion) <= Rank(after.attempts[c].completion)
    && (c in before.bindings ==> after.bindings[c] == before.bindings[c])
    && (Terminal(before.attempts[c].completion) ==> Stands(before, after, c))
  }

  ghost predicate ReportsStand(before: map<string, Report>, after: map<string, Report>) {
    forall c | c in before :: c in after && after[c] == before[c]
  }

  /** What every step keeps: terminal captures stand still, open ones only move on. */
  ghost predicate Advances(before: Db, after: Db) {
    && KeepsVerified(before.variants, after.variants) && ReportsStand(before.reports, after.reports)
    && forall c | c in before.attempts :: MovesOn(before, after, c)
  }

  // ---- Variants ----

  lemma BackedStays(key: (string, string), row: Row, bindings: map<string, seq<Binding>>,
                    before: map<string, Variant>, after: map<string, Variant>)
    requires Backed(key, row, bindings, before) && KeepsVerified(before, after)
    ensures Backed(key, row, bindings, after)
  {
  }

  lemma BindingsStay(bindings: map<string, seq<Binding>>, before: map<string, Variant>, after: map<string, Variant>)
    requires AllBind(bindings, before) && KeepsVerified(before, after)
    ensures AllBind(bindings, after)
  {
    forall c | c in bindings ensures BindsVariants(bindings[c], after) {
      assert BindsVariants(bindings[c], before);
    }
  }

  lemma OutcomesStay(outcomes: map<(string, string), Row>, bindings: map<string, seq<Binding>>,
                     before: map<string, Variant>, after: map<string, Variant>)
    requires OutcomesBacked(outcomes, bindings, before) && KeepsVerified(before, after)
    ensures OutcomesBacked(outcomes, bindings, after)
  {
    forall key | key in outcomes ensures Backed(key, outcomes[key], bindings, after) {
      BackedStays(key, outcomes[key], bindings, before, after);
    }
  }

  lemma SameCaptures(db: Db, after: Db)
    requires db.bindings.Keys == db.attempts.Keys && KeepsVerified(db.variants, after.variants)
    requires after == db.(variants := after.variants, blobs := after.blobs)
    ensures Advances(db, after) && Reports(db, after)
  {
    forall c | c in db.attempts ensures MovesOn(db, after, c) {
      assert Stands(db, after, c);
    }
  }

  /** A step that touches variants only, and keeps verified bytes, keeps everything. */
  lemma VariantsKeep(db: Db, after: Db)
    requires Inv(db) && KeepsVerified(db.variants, after.variants) && StoredWell(after.variants)
    requires after == db.(variants := after.variants, blobs := after.blobs)
    ensures Inv(after) && Advances(db, after) && Reports(db, after)
  {
    BindingsStay(db.bindings, db.variants, after.variants);
    OutcomesStay(db.outcomes, db.bindings, db.variants, after.variants);
    SameCaptures(db, after);
  }

  /** Attaching bytes keeps all verified bytes and every reference, and verifies the variant. */
  lemma AttachKeeps(variants: map<string, Variant>, blobs: map<string, Blob>, id: string, digest: string, size: int,
                    retention: Retention, variants': map<string, Variant>, blobs': map<string, Blob>)
    requires StoredWell(variants) && IsHexDigest(digest) && size >= 0
    requires AttachBlob(variants, blobs, id, digest, size, retention) == Ok((variants', blobs'))
    ensures KeepsVerified(variants, variants') && variants'.Keys == variants.Keys && StoredWell(variants')
    ensures Verified(variants'[id]) && variants'[id].digest == digest && variants'[id].size == size
  {
  }

  lemma StoreKeeps(db: Db, id: string, digest: string, size: int)
    requires Inv(db)
    ensures var after := StoreBytes(db, id, digest, size); Inv(after) && Advances(db, after) && Reports(db, after)
  {
    var after := StoreBytes(db, id, digest, size);
    if after != db {
      AttachKeeps(db.variants, db.blobs, id, digest, size, RetentionFor(db.variants[id].custody), after.variants,
                  after.blobs);
    }
    VariantsKeep(db, after);
  }

  lemma FailureKeepsBytes(variants: map<string, Variant>, id: string, failure: Failure, after: map<string, Variant>)
    requires StoredWell(variants) && MarkFailed(variants, id, failure) == Ok(after)
    ensures KeepsVerified(variants, after) && StoredWell(after)
  {
  }

  lemma FailKeeps(db: Db, id: string, failure: Failure)
    requires Inv(db)
    ensures var after := FailVariant(db, id, failure); Inv(after) && Advances(db, after) && Reports(db, after)
  {
    var r := MarkFailed(db.variants, id, failure);
    if r.Err? {
      Unmoved(db, FailVariant(db, id, failure));
    } else {
      FailureKeepsBytes(db.variants, id, failure, r.value);
      VariantsKeep(db, FailVariant(db, id, failure));
    }
  }

  lemma AdditionKeepsBytes(variants: map<string, Variant>, id: string, v: Variant)
    requires StoredWell(variants) && id !in variants && (v.digest == "" || IsHexDigest(v.digest)) && v.size >= 0
    ensures KeepsVerified(variants, variants[id := v]) && StoredWell(variants[id := v])
  {
  }

  lemma NewVariantKeeps(db: Db, id: string, v: Variant)
    requires Inv(db)
    ensures var after := AddVariant(db, id, v); Inv(after) && Advances(db, after) && Reports(db, after)
  {
    var after := AddVariant(db, id, v);
    if after == db {
      Unmoved(db, after);
    } else {
      AdditionKeepsBytes(db.variants, id, v);
      VariantsKeep(db, after);
    }
  }

  // ---- One capture ----

  /** Two states that differ, but for what variants hold, in one capture's attempt, rows and report only. */
  ghost predicate TouchesOnly(db: Db, after: Db, capture: string) {
    && after.bindings == db.bindings && capture in after.attempts
    && after.attempts == db.attempts[capture := after.attempts[capture]]
    && (forall c | c != capture :: Get(after.reports, c) == Get(db.reports, c))
    && (forall key: (string, string) | key.0 != capture :: Get(after.outcomes, key) == Get(db.outcomes, key))
  }

  lemma OthersStand(db: Db, after: Db, capture: string, c: string)
    requires TouchesOnly(db, after, capture) && c in db.attempts && c != capture && c in db.bindings
    ensures MovesOn(db, after, c)
  {
    assert Stands(db, after, c);
  }

  lemma TouchingAdvances(db: Db, after: Db, capture: string)
    requires db.bindings.Keys == db.attempts.Keys && TouchesOnly(db, after, capture)
    requires KeepsVerified(db.variants, after.variants) && capture in db.attempts && capture !in db.reports
    requires !Terminal(db.attempts[capture].completion)
    requires Rank(db.attempts[capture].completion) <= Rank(after.attempts[capture].completion)
    ensures Advances(db, after)
    ensures (Done(after.attempts[capture].completion) ==> capture in after.reports) ==> Reports(db, after)
  {
    forall c | c in db.attempts ensures MovesOn(db, after, c) {
      if c != capture {
        OthersStand(db, after, capture, c);
      }
    }
    forall c | c in db.reports ensures c in after.reports && after.reports[c] == db.reports[c] {
      assert Get(after.reports, c) == Get(db.reports, c);
    }
  }

  lemma Unmoved(db: Db, after: Db)
    requires Inv(db) && after == db
    ensures Inv(after) && Advances(db, after) && Reports(db, after)
  {
    SameCaptures(db, after);
  }

  lemma OpenHasNoReport(db: Db, capture: string, a: Attempt)
    requires Inv(db) && capture in db.attempts && !Terminal(db.attempts[capture].completion)
    ensures capture !in db.reports && ReportsAgree(db.reports, db.attempts[capture := a])
  {
  }

  lemma RowBacked(db: Db, capture: string, b: Binding, row: Row)
    requires OutcomesBacked(db.outcomes, db.bindings, db.variants) && capture in db.bindings
    requires FindBinding(db.bindings[capture], b.client) == Some(b) && b.variant in db.variants
    requires Verified(db.variants[b.variant]) && row.digest == db.variants[b.variant].digest
    ensures OutcomesBacked(db.outcomes[(capture, b.client) := row], db.bindings, db.variants)
  {
    assert Backed((capture, b.client), row, db.bindings, db.variants);
  }

  /** What recording an uploaded outcome changes, field by field. */
  lemma Recorded(db: Db, capture: string, client: string, v: Variant, now: int, after: Db)
    returns (row: Row, a: Attempt)
    requires IsHexDigest(v.digest) && RecordUploaded(db, capture, client, v, now) == Ok(after)
    ensures capture in db.attempts && Verified(v) && row.digest == v.digest
    ensures after == db.(outcomes := db.outcomes[(capture, client) := row], attempts := db.attempts[capture := a])
    ensures db.attempts[capture].completion == Accepting ==> a.completion == Transferring
    ensures db.attempts[capture].completion != Accepting ==> a.completion == db.attempts[capture].completion
  {
    Sha256Normalized(v.digest);
    row, a := after.outcomes[(capture, client)], after.attempts[capture];
  }

  lemma RecordKeeps(db: Db, capture: string, b: Binding, now: int, after: Db)
    requires Inv(db) && capture in db.attempts && !Terminal(db.attempts[capture].completion)
    requires FindBinding(db.bindings[capture], b.client) == Some(b) && b.variant in db.variants
    requires IsHexDigest(db.variants[b.variant].digest)
    requires RecordUploaded(db, capture, b.client, db.variants[b.variant], now) == Ok(after)
    ensures Inv(after) && TouchesOnly(db, after, capture) && after.reports == db.reports
    ensures after.variants == db.variants && after.attempts[capture].completion == Transferring
  {
    var row, a := Recorded(db, capture, b.client, db.variants[b.variant], now, after);
    RowBacked(db, capture, b, row);
    OpenHasNoReport(db, capture, a);
    assert after.bindings.Keys == after.attempts.Keys;
  }

  lemma UploadAttaches(db: Db, u: Upload, capture: string, b: Binding) returns (mid: Db)
    requires Inv(db) && capture in db.attempts && b.variant in db.variants && UploadBytes(db, u, capture, b).Ok?
    ensures Inv(mid) && mid == db.(variants := mid.variants, blobs := mid.blobs) && b.variant in mid.variants
    ensures KeepsVerified(db.variants, mid.variants) && IsHexDigest(mid.variants[b.variant].digest)
    ensures RecordUploaded(mid, capture, b.client, mid.variants[b.variant], u.now) == UploadBytes(db, u, capture, b)
  {
    var retention := RetentionFor(db.variants[b.variant].custody);
    var (variants, blobs) := AttachBlob(db.variants, db.blobs, b.variant, u.actual, u.size, retention).value;
    AttachKeeps(db.variants, db.blobs, b.variant, u.actual, u.size, retention, variants, blobs);
    mid := db.(variants := variants, blobs := blobs);
    VariantsKeep(db, mid);
  }

  lemma UploadKeeps(db: Db, u: Upload)
    requires Inv(db)
    ensures Inv(UploadStep(db, u).0) && Advances(db, UploadStep(db, u).0) && Reports(db, UploadStep(db, u).0)
  {
    var after := UploadStep(db, u).0;
    if UploadStep(db, u).1.None? {
      var capture := Trim(u.capture);
      var b := LookupBinding(db, capture, Trim(u.client)).value;
      var k := BindingFound(db.bindings[capture], Trim(u.client));
      var mid := UploadAttaches(db, u, capture, b);
      RecordKeeps(mid, capture, b, u.now, after);
      OpenHasNoReport(db, capture, after.attempts[capture]);
      TouchingAdvances(db, after, capture);
    } else {
      Unmoved(db, after);
    }
  }

  // ---- Completion ----

  lemma SettledRowBacked(db: Db, w: Write, reported: map<string, Item>, d: Settled, k: nat,
                         after: map<string, Variant>)
    requires Inv(db) && w.capture in db.attempts && k < |db.bindings[w.capture]| && SameBytes(db.variants, after)
    requires Pinned(db, db.bindings[w.capture])
    requires Decide(db, w.capture, w.now, reported, db.bindings[w.capture][k]) == Ok(d)
    ensures Backed((w.capture, db.bindings[w.capture][k].client), d.row, db.bindings, after)
  {
    var b := db.bindings[w.capture][k];
    FoundBinding(db.bindings[w.capture], k);
    SettleExact(w.now, b, db.variants[b.variant], Get(reported, b.client), Get(db.outcomes, (w.capture, b.client)), d);
  }

  /** Outcomes after a completion: the capture's own are rewritten, every other stands. */
  lemma CompletedOutcomes(db: Db, w: Write, reported: map<string, Item>, ds: seq<Settled>, p: Progress)
    requires Inv(db) && w.capture in db.attempts && Pinned(db, db.bindings[w.capture])
    requires |ds| == |db.bindings[w.capture]|
    requires Reflects(db, w.capture, w.now, reported, db.bindings[w.capture], ds, p)
    requires Decided(db, w.capture, w.now, reported, db.bindings[w.capture], ds)
    ensures OutcomesBacked(p.outcomes, db.bindings, p.variants)
    ensures forall key: (string, string) | key.0 != w.capture :: Get(p.outcomes, key) == Get(db.outcomes, key)
  {
    var bs := db.bindings[w.capture];
    WrittenRows(db.outcomes, w.capture, bs, ds);
    forall key | key in p.outcomes ensures Backed(key, p.outcomes[key], db.bindings, p.variants) {
      if key.0 == w.capture && exists k | 0 <= k < |bs| :: key.1 == bs[k].client {
        var k :| 0 <= k < |bs| && key.1 == bs[k].client;
        SettledRowBacked(db, w, reported, ds[k], k, p.variants);
      } else {
        assert Get(p.outcomes, key) == Get(db.outcomes, key);
        BackedStays(key, db.outcomes[key], db.bindings, db.variants, p.variants);
      }
    }
  }

  /** A report is added only under a key no other report has. */
  lemma ReportAdded(db: Db, w: Write, report: Report)
    requires Inv(db) && Judge(db.reports, w) == NoReport && report.key == w.key && Done(report.completion)
    ensures w.capture !in db.reports && KeysUnique(db.reports[w.capture := report])
    ensures forall a: Attempt | a.completion == report.completion ::
              ReportsAgree(db.reports[w.capture := report], db.attempts[w.capture := a])
  {
    assert forall c | c in db.reports :: !Matches(c, db.reports[c], w);
    var after := db.reports[w.capture := report];
    forall c, d | c in after && d in after && after[c].key == after[d].key ensures c == d {
      assert c != w.capture ==> !Matches(c, db.reports[c], w);
      assert d != w.capture ==> !Matches(d, db.reports[d], w);
    }
  }

  /** What a completion commits, field by field. */
  lemma Closed(db: Db, w: Write, p: Progress, after: Db) returns (report: Report)
    requires w.capture in db.attempts && Close(db, w, p).1.Completed? && after == Close(db, w, p).0
    ensures report.key == w.key && Done(report.completion)
    ensures after == db.(outcomes := p.outcomes, variants := p.variants,
                         attempts := db.attempts[w.capture := Attempt(report.completion, w.warnings, w.now)],
                         reports := db.reports[w.capture := report])
  {
    report := after.reports[w.capture];
  }

  lemma ClosedKeeps(db: Db, w: Write, p: Progress, report: Report, after: Db)
    requires Inv(db) && w.capture in db.attempts && Judge(db.reports, w) == NoReport
    requires report.key == w.key && Done(report.completion) && SameBytes(db.variants, p.variants)
    requires OutcomesBacked(p.outcomes, db.bindings, p.variants)
    requires after == db.(outcomes := p.outcomes, variants := p.variants,
                          attempts := db.attempts[w.capture := Attempt(report.completion, w.warnings, w.now)],
                          reports := db.reports[w.capture := report])
    ensures Inv(after) && w.capture !in db.reports
  {
    ReportAdded(db, w, report);
    BindingsStay(db.bindings, db.variants, p.variants);
    assert StoredWell(p.variants);
    assert after.bindings.Keys == after.attempts.Keys;
  }

  /** A completion that succeeds: what it commits, and what that rests on. */
  lemma CompletionCommits(db: Db, w: Write, after: Db) returns (p: Progress, report: Report)
    requires Inv(db) && CompleteStep(db, w).1.Completed? && after == CompleteStep(db, w).0
    ensures w.capture in db.attempts && !Terminal(db.attempts[w.capture].completion)
    ensures Judge(db.reports, w) == NoReport && report.key == w.key && Done(report.completion)
    ensures SameBytes(db.variants, p.variants) && OutcomesBacked(p.outcomes, db.bindings, p.variants)
    ensures forall key: (string, string) | key.0 != w.capture :: Get(p.outcomes, key) == Get(db.outcomes, key)
    ensures after == db.(outcomes := p.outcomes, variants := p.variants,
                         attempts := db.attempts[w.capture := Attempt(report.completion, w.warnings, w.now)],
                         reports := db.reports[w.capture := report])
  {
    var reported, ds;
    reported, ds, p := CompletionSettles(db, w);
    CompletedOutcomes(db, w, reported, ds, p);
    report := Closed(db, w, p, after);
  }

  /** What a completion that succeeds leaves. */
  lemma Completed(db: Db, w: Write, after: Db)
    requires Inv(db) && CompleteStep(db, w).1.Completed? && after == CompleteStep(db, w).0
    ensures Inv(after) && TouchesOnly(db, after, w.capture) && KeepsVerified(db.variants, after.variants)
    ensures w.capture in db.attempts && !Terminal(db.attempts[w.capture].completion) && w.capture !in db.reports
    ensures Done(after.attempts[w.capture].completion) && w.capture in after.reports
  {
    var p, report := CompletionCommits(db, w, after);
    ClosedKeeps(db, w, p, report, after);
  }

  lemma CompleteKeeps(db: Db, w: Write)
    requires Inv(db)
    ensures Inv(CompleteStep(db, w).0) && Advances(db, CompleteStep(db, w).0) && Reports(db, CompleteStep(db, w).0)
  {
    var after := CompleteStep(db, w).0;
    if CompleteStep(db, w).1.Completed? {
      Completed(db, w, after);
      TouchingAdvances(db, after, w.capture);
    } else {
      Unmoved(db, after);
    }
  }

  // ---- New captures, and attempts moved on by themselves ----

  lemma BindingsAdded(db: Db, capture: string, bs: seq<Binding>)
    requires Inv(db) && capture !in db.bindings && BindsVariants(bs, db.variants)
    ensures AllBind(db.bindings[capture := bs], db.variants)
    ensures OutcomesBacked(db.outcomes, db.bindings[capture := bs], db.variants)
  {
    forall key | key in db.outcomes
      ensures Backed(key, db.outcomes[key], db.bindings[capture := bs], db.variants)
    {
      assert Backed(key, db.outcomes[key], db.bindings, db.variants);
    }
  }

  lemma AcceptedKeeps(db: Db, capture: string, bs: seq<Binding>, a: Attempt, after: Db)
    requires Inv(db) && capture !in db.attempts && a.completion == Accepting && BindsVariants(bs, db.variants)
    requires after == db.(attempts := db.attempts[capture := a], bindings := db.bindings[capture := bs])
    ensures Inv(after) && Advances(db, after) && Reports(db, after)
  {
    BindingsAdded(db, capture, bs);
    assert after.bindings.Keys == after.attempts.Keys && ReportsAgree(after.reports, after.attempts);
    forall c | c in db.attempts ensures MovesOn(db, after, c) {
      assert Stands(db, after, c);
    }
  }

  lemma AcceptKeeps(db: Db, capture: string, bs: seq<Binding>, now: int)
    requires Inv(db)
    ensures var after := AcceptManifest(db, capture, bs, now); Inv(after) && Advances(db, after) && Reports(db, after)
  {
    var after := AcceptManifest(db, capture, bs, now);
    if after == db {
      Unmoved(db, after);
    } else {
      AcceptedKeeps(db, capture, bs, Attempt(Accepting, "[]", now), after);
    }
  }

  /** Moving an attempt on by itself: only a completion without a report is not as it should be. */
  lemma AdvanceKeeps(db: Db, capture: string, next: Completion, warnings: string, now: int)
    requires Inv(db)
    ensures var after := AdvanceCompletion(db, capture, next, warnings, now);
            Inv(after) && Advances(db, after) && (!Done(next) ==> Reports(db, after))
  {
    var after := AdvanceCompletion(db, capture, next, warnings, now);
    if after == db {
      Unmoved(db, after);
    } else {
      OpenHasNoReport(db, capture, after.attempts[capture]);
      assert after.bindings.Keys == after.attempts.Keys;
      TouchingAdvances(db, after, capture);
    }
  }

  /** A step other than a completion that bypasses the report. */
  predicate ByReport(op: Op) {
    op.AdvanceTo? ==> !Done(op.next)
  }

  /** Every transaction keeps the invariant and only moves captures forward. */
  lemma StepKeeps(db: Db, op: Op)
    requires Inv(db)
    ensures Inv(Step(db, op)) && Advances(db, Step(db, op)) && (ByReport(op) ==> Reports(db, Step(db, op)))
  {
    match op
    case UploadOp(u) => UploadKeeps(db, u);
    case CompleteOp(w) => CompleteKeeps(db, w);
    case Accept(capture, bs, now) => AcceptKeeps(db, capture, bs, now);
    case Store(id, digest, size) => StoreKeeps(db, id, digest, size);
    case Fail(id, failure) => FailKeeps(db, id, failure);
    case NewVariant(id, v) => NewVariantKeeps(db, id, v);
    case AdvanceTo(capture, next, warnings, now) => AdvanceKeeps(db, capture, next, warnings, now);
  }

  lemma ReportsKeepAll(db: Db, after: Db)
    requires AllReported(db) && Reports(db, after) && Advances(db, after)
    ensures AllReported(after)
  {
  }

  /** Exactly when an advance leaves every completed capture reported. */
  lemma AdvanceReportedExactly(db: Db, capture: string, next: Completion, warnings: string, now: int)
    requires Inv(db) && AllReported(db)
    ensures var after := AdvanceCompletion(db, capture, next, warnings, now);
            AllReported(after) <==> after == db || !Done(next)
  {
    var after := AdvanceCompletion(db, capture, next, warnings, now);
    if after != db {
      assert capture !in db.reports && after.attempts[capture].completion == next;
      assert forall c | c in db.attempts && c != capture :: after.attempts[c] == db.attempts[c];
    }
  }

  /** An open capture moved to complete by itself: no report says so. */
  lemma AdvanceWithoutReport()
    ensures var db := Db(map["c" := Attempt(Accepting, "[]", 1)], map["c" := []], map[], map[], map[], map[]);
            Inv(db) && AllReported(db) && !AllReported(AdvanceCompletion(db, "c", Complete, "", 2))
  {
    var db := Db(map["c" := Attempt(Accepting, "[]", 1)], map["c" := []], map[], map[], map[], map[]);
    assert "c"[0] in "c" && BindsVariants([], db.variants);
    AdvanceReportedExactly(db, "c", Complete, "", 2);
  }

  lemma MovesOnOn(a: Db, b: Db, c: Db, capture: string)
    requires capture in a.attempts && capture in a.bindings && MovesOn(a, b, capture) && MovesOn(b, c, capture)
    ensures MovesOn(a, c, capture)
  {
    if Terminal(a.attempts[capture].completion) {
      assert Stands(a, b, capture) && Stands(b, c, capture);
      assert Stands(a, c, capture);
    }
  }

  lemma AdvancesOn(a: Db, b: Db, c: Db)
    requires a.bindings.Keys == a.attempts.Keys && Advances(a, b) && Advances(b, c)
    ensures Advances(a, c)
  {
    forall k | k in a.attempts ensures MovesOn(a, c, k) {
      assert MovesOn(a, b, k) && MovesOn(b, c, k);
      MovesOnOn(a, b, c, k);
    }
  }

  /**
   Main result: over every run the invariant holds and captures only move forward; and as long as no
   attempt is moved to a completion by itself, every completed capture has its report.
   */
  lemma {:induction false} RunKeeps(db: Db, ops: seq<Op>)
    requires Inv(db)
    ensures Inv(Run(db, ops)) && Advances(db, Run(db, ops))
    ensures AllReported(db) && (forall op | op in ops :: ByReport(op)) ==> AllReported(Run(db, ops))
    decreases |ops|
  {
    if ops != [] {
      assert ops[0] in ops;
      StepKeeps(db, ops[0]);
      RunKeeps(Step(db, ops[0]), ops[1..]);
      AdvancesOn(db, Step(db, ops[0]), Run(db, ops));
      if AllReported(db) && ByReport(ops[0]) {
        ReportsKeepAll(db, Step(db, ops[0]));
      }
    }
  }

  /** Main result: once a capture is terminal, no run changes its attempt, its outcomes or its report. */
  lemma TerminalIsFrozen(db: Db, ops: seq<Op>, c: string)
    requires Inv(db) && c in db.attempts && Terminal(db.attempts[c].completion)
    ensures var after := Run(db, ops);
            && c in after.attempts && after.attempts[c] == db.attempts[c]
            && Get(after.reports, c) == Get(db.reports, c)
            && forall client :: Get(after.outcomes, (c, client)) == Get(db.outcomes, (c, client))
  {
    RunKeeps(db, ops);
  }

  /** A request that meets a stored report of its capture or its key is settled by that report. */
  lemma MeetsReport(db: Db, c: string, w: Write)
    requires WellFormed(db) && c in db.reports && Matches(c, db.reports[c], w) && w.capture in db.attempts
    requires !IsBlank(w.capture) && !IsBlank(w.key) && !IsBlank(w.digest) && w.now != 0
    ensures CompleteStep(db, w)
         == (db, if SameRequest(c, db.reports[c], w) then Replayed(db.reports[c].status) else Refused(ReportConflict))
  {
    AnyMatchDecides(db.reports, w, c);
  }

  /**
   Main result: after a completion and any further run, the identical request is answered with the
   stored status, and a request that reuses the capture or its idempotency key with anything else
   changed is a conflict. Neither changes anything.
   */
  lemma CompletionIsIdempotent(db: Db, w: Write, ops: seq<Op>, w': Write)
    requires Inv(db) && CompleteStep(db, w).1.Completed?
    requires w'.capture == w.capture || w'.key == w.key
    requires !IsBlank(w'.capture) && !IsBlank(w'.key) && !IsBlank(w'.digest) && w'.now != 0
    requires w'.capture in Run(CompleteStep(db, w).0, ops).attempts
    ensures var later := Run(CompleteStep(db, w).0, ops);
            var status := if w.snapshot.Builds? then w.snapshot.json else "{}";
            CompleteStep(later, w')
            == (later, if w'.capture == w.capture && w'.key == w.key && w'.digest == w.digest
                       then Replayed(status) else Refused(ReportConflict))
  {
    var done := CompleteStep(db, w).0;
    var reported, ds, p := CompletionSettles(db, w);
    CompleteKeeps(db, w);
    RunKeeps(done, ops);
    var later := Run(done, ops);
    assert w.capture in done.reports && later.reports[w.capture] == done.reports[w.capture];
    MeetsReport(later, w.capture, w');
  }

  // ---- The unguarded entry point ----

  /** `RecordUploadedOutcome` looks the binding up but never asks whether the attempt is terminal. */
  function RecordUploadedOutcome(db: Db, capture: string, client: string, now: int): Result<Db, Error> {
    match LookupBinding(db, Trim(capture), Trim(client))
    case None => Err(NoSuchBinding)
    case Some(b) => RecordUploaded(db, Trim(capture), b.client, db.variants[b.variant], now)
  }

  /** What the call writes, for an attempt that is terminal or not. */
  lemma RecordWrites(db: Db, capture: string, client: string, now: int) returns (b: Binding, a: Attempt)
    requires Inv(db) && RecordUploadedOutcome(db, capture, client, now).Ok?
    ensures var c := Trim(capture);
            && LookupBinding(db, c, Trim(client)) == Some(b) && b.variant in db.variants && c in db.attempts
            && a.updatedAt == (if db.attempts[c].updatedAt < now then now else db.attempts[c].updatedAt)
            && a.warnings == db.attempts[c].warnings
            && a.completion == (if db.attempts[c].completion == Accepting then Transferring
                                else db.attempts[c].completion)
            && RecordUploadedOutcome(db, capture, client, now).value
            == db.(outcomes := db.outcomes[(c, b.client) := Row(Uploaded, db.variants[b.variant].digest,
                                                               db.variants[b.variant].size, "", false, now)],
                   attempts := db.attempts[c := a])
  {
    b := LookupBinding(db, Trim(capture), Trim(client)).value;
    a := RecordUploadedOutcome(db, capture, client, now).value.attempts[Trim(capture)];
    Sha256Normalized(db.variants[b.variant].digest);
  }

  lemma SameUpdate<K, V>(m: map<K, V>, k: K, v: V)
    ensures m[k := v] == m <==> Get(m, k) == Some(v)
  {
    if m[k := v] == m {
      assert k in m[k := v];
    }
  }

  /**
   So it keeps a terminal capture as it was exactly when it would write the row that is already
   there, at a time no later than the last update.
   */
  lemma UnguardedRecordFreezes(db: Db, capture: string, client: string, now: int)
    requires Inv(db) && Trim(capture) in db.attempts && Terminal(db.attempts[Trim(capture)].completion)
    requires RecordUploadedOutcome(db, capture, client, now).Ok?
    ensures var c, b := Trim(capture), LookupBinding(db, Trim(capture), Trim(client)).value;
            var v := db.variants[b.variant];
            RecordUploadedOutcome(db, capture, client, now).value == db
            <==> Get(db.outcomes, (c, b.client)) == Some(Row(Uploaded, v.digest, v.size, "", false, now))
                 && now <= db.attempts[c].updatedAt
  {
    var b, a := RecordWrites(db, capture, client, now);
    var v := db.variants[b.variant];
    SameUpdate(db.outcomes, (Trim(capture), b.client), Row(Uploaded, v.digest, v.size, "", false, now));
    SameUpdate(db.attempts, Trim(capture), a);
  }

  const DIGEST: string := seq(64, _ => 'a')

  /** A capture completed at time 1: its one variant's bytes were already there, and were reported so. */
  const DONE := Db(
    map["c" := Attempt(Complete, "[]", 1)],
    map["c" := [Binding("m", "v", ReuseBlob, "")]],
    map[("c", "m") := Row(AlreadyAvailable, DIGEST, 0, "", false, 1)],
    map["c" := Report("k", "d", "{}", "{}", Complete, 1)],
    map["v" := Variant("a", "m", "image", Mirror, Available, Indefinite, DIGEST, DIGEST, DIGEST, 0, None, 1)],
    map[DIGEST := Blob(0, Indefinite)])

  lemma DoneIsWellFormed()
    ensures WellFormed(DONE)
  {
    assert "m"[0] in "m";
    assert IsHexDigest(DIGEST);
  }

  lemma DoneHolds()
    ensures Inv(DONE) && Terminal(DONE.attempts["c"].completion)
  {
    DoneIsWellFormed();
    assert OutcomesBacked(DONE.outcomes, DONE.bindings, DONE.variants) by {
      assert FindBinding(DONE.bindings["c"], "m") == Some(Binding("m", "v", ReuseBlob, ""));
    }
  }

  lemma DoneRecords()
    ensures Trim("c") == "c" && Trim("m") == "m" && LookupBinding(DONE, "c", "m") == Some(DONE.bindings["c"][0])
    ensures RecordUploadedOutcome(DONE, "c", "m", 2).Ok?
  {
    assert "m"[0] in "m";
    Sha256Normalized(DIGEST);
  }

  /** Recording an upload at time 2 rewrites the outcome and the time of that completed capture. */
  lemma UnguardedRecordRewrites()
    ensures Inv(DONE) && Terminal(DONE.attempts["c"].completion)
    ensures var r := RecordUploadedOutcome(DONE, "c", "m", 2);
            && r.Ok? && ("c", "m") in r.value.outcomes && "c" in r.value.attempts
            && DONE.outcomes[("c", "m")].outcome == AlreadyAvailable
            && r.value.outcomes[("c", "m")].outcome == Uploaded
            && DONE.attempts["c"].updatedAt == 1 && r.value.attempts["c"].updatedAt == 2
  {
    DoneHolds();
    DoneRecords();
    var b, a := RecordWrites(DONE, "c", "m", 2);
  }
}
