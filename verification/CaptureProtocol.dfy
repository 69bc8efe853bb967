/**
 The capture protocol (internal/repository/capture_protocol.go, internal/domain/capture.go).

 A manifest pins client variants to a capture; guarded uploads and one completion report then race. Each
 call is one transaction: `UploadStep` and `CompleteStep` give the step, and `CaptureStore` carries it
 out on copies of the tables that are written back only when the call commits.
 */
module CaptureProtocol {
  import opened Wrappers
  import opened Text
  import opened Digest
  import opened Media

  datatype Completion = Accepting | Transferring | Complete | Partial | CaptureFailed

  predicate Terminal(c: Completion) {
    c == Complete || c == Partial || c == CaptureFailed
  }

  datatype Action = RequestUpload | ReuseBlob | ServerAcquire | ReferenceByLink | Rejected

  /** `Unrecognised` is any other text a client may send. */
  datatype Outcome = Uploaded | AlreadyAvailable | NotAvailable | Failed | Deferred | Unrecognised(text: string)

  predicate ClaimsBytes(o: Outcome) {
    o == Uploaded || o == AlreadyAvailable
  }

  datatype Attempt = Attempt(completion: Completion, warnings: string, updatedAt: int)

  datatype Binding = Binding(client: string, variant: string, action: Action, reason: string)

  datatype Row = Row(outcome: Outcome, digest: string, size: int, reason: string, retryable: bool,
                     updatedAt: int)

  datatype Report = Report(key: string, digest: string, body: string, status: string,
                           completion: Completion, createdAt: int)

  /** One reported client outcome, as decoded from the request. */
  datatype Item = Item(capture: string, client: string, outcome: Outcome, digest: ContentDigest,
                       size: int, reason: string, retryable: bool)

  /** What the caller's snapshot builder does when it is run; `NoBuilder` when there is none. */
  datatype Snapshot = NoBuilder | BuilderFails | Builds(json: string)

  datatype Write = Write(capture: string, key: string, digest: string, body: string, warnings: string,
                         items: seq<Item>, now: int, snapshot: Snapshot)

  /** An upload: the digest the client announced, and what the stored bytes turned out to be. */
  datatype Upload = Upload(capture: string, client: string, announced: ContentDigest,
                           actual: string, size: int, now: int)

  datatype Db = Db(
    attempts: map<string, Attempt>,
    bindings: map<string, seq<Binding>>,
    outcomes: map<(string, string), Row>,
    reports: map<string, Report>,
    variants: map<string, Variant>,
    blobs: map<string, Blob>)

  datatype Error = MissingFields | NoSuchCapture | ReportConflict | AlreadyTerminal | ForeignCapture
    | DuplicateClient | UnknownClient | DigestConflict | SizeConflict | UnverifiedClaim
    | InvalidOutcome | ReasonRequired | InvalidRow | InvalidDigest | SnapshotFailed | NoSuchBinding
    | ActionTakesNoBytes | DigestMismatch | MediaRefused(error: MediaError)

  datatype Reply = Completed(completion: Completion, status: string) | Replayed(status: string)
    | Refused(error: Error)

  predicate DistinctClients(bs: seq<Binding>) {
    forall i, j | 0 <= i < j < |bs| :: bs[i].client != bs[j].client
  }

  ghost predicate KeysUnique(reports: map<string, Report>) {
    forall c, d | c in reports && d in reports && reports[c].key == reports[d].key :: c == d
  }

  /** Bindings of one capture: each client once, on a variant there is. */
  ghost predicate BindsVariants(bs: seq<Binding>, variants: map<string, Variant>) {
    DistinctClients(bs) && forall k | 0 <= k < |bs| :: bs[k].variant in variants && !IsBlank(bs[k].client)
  }

  ghost predicate AllBind(bindings: map<string, seq<Binding>>, variants: map<string, Variant>) {
    forall c | c in bindings :: BindsVariants(bindings[c], variants)
  }

  ghost predicate StoredWell(variants: map<string, Variant>) {
    forall id | id in variants ::
      (variants[id].digest == "" || IsHexDigest(variants[id].digest)) && variants[id].size >= 0
  }

  /** The constraints of the schema: keys that are unique, and references that resolve. */
  ghost predicate WellFormed(db: Db) {
    && KeysUnique(db.reports) && (forall c | c in db.reports :: c in db.attempts)
    && db.bindings.Keys == db.attempts.Keys && AllBind(db.bindings, db.variants) && StoredWell(db.variants)
  }

  // ---- Guarded upload ----

  function FindBinding(bs: seq<Binding>, client: string): Option<Binding> {
    if bs == [] then None
    else if bs[0].client == client then Some(bs[0])
    else FindBinding(bs[1..], client)
  }

  /** The row as it is stored, or nothing when a required part is missing. */
  function Stored(client: string, outcome: Outcome, digest: ContentDigest, size: int, reason: string,
                  retryable: bool, now: int): Option<Row>
  {
    if outcome.Unrecognised? || IsBlank(client) || now == 0 || size < 0 then None
    else if digest.Empty() then Some(Row(outcome, "", size, reason, retryable, now))
    else
      match digest.Normalized()
      case None => None
      case Some(value) => Some(Row(outcome, value, size, reason, retryable, now))
  }

  function Sha256(value: string): ContentDigest {
    if value == "" then ContentDigest("", "") else ContentDigest("sha256", value)
  }

  function LookupBinding(db: Db, capture: string, client: string): Option<Binding> {
    if capture !in db.attempts || capture !in db.bindings then None
    else
      match FindBinding(db.bindings[capture], client)
      case None => None
      case Some(b) => if b.variant in db.variants then Some(b) else None
  }

  /** Whether an upload may still write through a binding: the attempt is open, the action takes bytes. */
  function ValidateUpload(db: Db, capture: string, b: Binding): Option<Error>
    requires capture in db.attempts
  {
    if Terminal(db.attempts[capture].completion) then Some(ReportConflict)
    else if b.action != RequestUpload && b.action != ReuseBlob then Some(ActionTakesNoBytes)
    else None
  }

  /** Records an uploaded outcome; by itself this does not ask whether the attempt is terminal. */
  function RecordUploaded(db: Db, capture: string, client: string, v: Variant, now: int): Result<Db, Error> {
    if !Verified(v) then Err(MediaRefused(NoSuchVariant))
    else
      match Stored(client, Uploaded, Sha256(v.digest), v.size, "", false, now)
      case None => Err(InvalidRow)
      case Some(row) =>
        if capture !in db.attempts then Err(NoSuchCapture)
        else
          var a := db.attempts[capture];
          Ok(db.(outcomes := db.outcomes[(capture, client) := row],
                 attempts := db.attempts[capture := a.(
                     completion := if a.completion == Accepting then Transferring else a.completion,
                     updatedAt := if a.updatedAt < now then now else a.updatedAt)]))
  }

  /** The digest the bytes must have, from the request and the manifest; "" when neither says. */
  function ExpectedDigest(announced: ContentDigest, v: Variant): Result<string, Error> {
    if announced.Empty() then Ok(v.expected)
    else
      match announced.Normalized()
      case None => Err(InvalidDigest)
      case Some(d) => if v.expected != "" && v.expected != d then Err(DigestConflict) else Ok(d)
  }

  /** Attaches verified bytes and records the outcome, in one transaction. */
  function UploadBytes(db: Db, u: Upload, capture: string, b: Binding): Result<Db, Error>
    requires b.variant in db.variants
  {
    var v := db.variants[b.variant];
    match ExpectedDigest(u.announced, v)
    case Err(e) => Err(e)
    case Ok(expected) =>
      if !IsHexDigest(u.actual) || u.size < 0 || (expected != "" && expected != u.actual) then Err(DigestMismatch)
      else
        match AttachBlob(db.variants, db.blobs, b.variant, u.actual, u.size, RetentionFor(v.custody))
        case Err(e) => Err(MediaRefused(e))
        case Ok((variants, blobs)) =>
          RecordUploaded(db.(variants := variants, blobs := blobs), capture, b.client, variants[b.variant], u.now)
  }

  function UploadStep(db: Db, u: Upload): (Db, Option<Error>) {
    var capture := Trim(u.capture);
    match LookupBinding(db, capture, Trim(u.client))
    case None => (db, Some(NoSuchBinding))
    case Some(b) =>
      if db.variants[b.variant].custody == Reference then (db, Some(MediaRefused(ReferenceCustody)))
      else
        match ValidateUpload(db, capture, b)
        case Some(e) => (db, Some(e))
        case None =>
          match UploadBytes(db, u, capture, b)
          case Err(e) => (db, Some(e))
          case Ok(next) => (next, None)
  }

  // ---- Completion ----

  datatype Verdict = NoReport | Replay(status: string) | Conflict

  predicate Matches(c: string, r: Report, w: Write) {
    c == w.capture || r.key == w.key
  }

  predicate SameRequest(c: string, r: Report, w: Write) {
    c == w.capture && r.key == w.key && r.digest == w.digest
  }

  /** What the stored reports say about a request. */
  function Judge(reports: map<string, Report>, w: Write): Verdict {
    if w.capture in reports && SameRequest(w.capture, reports[w.capture], w) then
      Replay(reports[w.capture].status)
    else if exists c | c in reports :: Matches(c, reports[c], w) then Conflict
    else NoReport
  }

  /** The reported outcomes by client variant. */
  function Collect(w: Write, n: nat): Result<map<string, Item>, Error>
    requires n <= |w.items|
  {
    if n == 0 then Ok(map[])
    else
      match Collect(w, n - 1)
      case Err(e) => Err(e)
      case Ok(m) =>
        var item := w.items[n - 1];
        if item.capture != "" && item.capture != w.capture then Err(ForeignCapture)
        else if item.client in m then Err(DuplicateClient)
        else Ok(m[item.client := item])
  }

  /** An outcome before it is checked and stored. */
  datatype Draft = Draft(outcome: Outcome, digest: ContentDigest, size: int, reason: string, retryable: bool,
                         partial: bool, failure: Option<Failure>)

  /** The final outcome of one binding, from what is stored and what was reported for it. */
  function DraftOutcome(b: Binding, v: Variant, supplied: Option<Item>, prior: Option<Row>): Result<Draft, Error> {
    if Verified(v) then
      if supplied.Some? && ClaimsBytes(supplied.value.outcome)
         && !supplied.value.digest.Empty() && supplied.value.digest.value != v.digest then Err(DigestConflict)
      else if supplied.Some? && ClaimsBytes(supplied.value.outcome)
         && supplied.value.size != 0 && supplied.value.size != v.size then Err(SizeConflict)
      else
        var kept := prior.Some? && prior.value.outcome == Uploaded;
        Ok(Draft(if kept then Uploaded else AlreadyAvailable, Sha256(v.digest), v.size, "", false, false, None))
    else if supplied.None? then
      if b.action == ReferenceByLink || b.action == ServerAcquire then
        Ok(Draft(Deferred, Sha256(""), 0, "", false, false, None))
      else
        var reason := if b.action == Rejected then b.reason else "client did not report a final transfer outcome";
        Ok(Draft(NotAvailable, Sha256(""), 0, reason, false, true, None))
    else
      var item := supplied.value;
      var lost := item.outcome == NotAvailable || item.outcome == Failed;
      if ClaimsBytes(item.outcome) then Err(UnverifiedClaim)
      else if item.outcome.Unrecognised? then Err(InvalidOutcome)
      else if lost && IsBlank(item.reason) then Err(ReasonRequired)
      else
        var code := if item.outcome == Failed then "client.failed" else "client.not_available";
        Ok(Draft(item.outcome, item.digest, item.size, item.reason, item.retryable,
                 b.action == RequestUpload || b.action == Rejected,
                 if lost && b.action == RequestUpload then Some(Failure(code, item.reason, item.retryable)) else None))
  }

  datatype Settled = Settled(row: Row, partial: bool, failure: Option<Failure>)

  function Settle(now: int, b: Binding, v: Variant, supplied: Option<Item>, prior: Option<Row>)
    : Result<Settled, Error>
  {
    match DraftOutcome(b, v, supplied, prior)
    case Err(e) => Err(e)
    case Ok(d) =>
      match Stored(b.client, d.outcome, d.digest, d.size, d.reason, d.retryable, now)
      case None => Err(InvalidRow)
      case Some(row) => Ok(Settled(row, d.partial, d.failure))
  }

  /** The tables a completion is building up, and the reports not yet used. */
  datatype Progress = Progress(outcomes: map<(string, string), Row>, variants: map<string, Variant>,
                               unused: map<string, Item>, partial: bool)

  function Get<K, V>(m: map<K, V>, k: K): Option<V> {
    if k in m then Some(m[k]) else None
  }

  function SettleNext(capture: string, now: int, existing: map<(string, string), Row>, b: Binding, p: Progress)
    : Result<Progress, Error>
  {
    if b.variant !in p.variants then Err(MediaRefused(NoSuchVariant))
    else
      match Settle(now, b, p.variants[b.variant], Get(p.unused, b.client), Get(existing, (capture, b.client)))
      case Err(e) => Err(e)
      case Ok(s) =>
        var next := Progress(p.outcomes[(capture, b.client) := s.row], p.variants,
                             p.unused - {b.client}, p.partial || s.partial);
        match s.failure
        case None => Ok(next)
        case Some(f) =>
          match MarkFailed(p.variants, b.variant, f)
          case Err(e) => Err(MediaRefused(e))
          case Ok(variants) => Ok(next.(variants := variants))
  }

  /** The first `n` bindings of the capture, settled in order. */
  function SettleAll(db: Db, capture: string, now: int, reported: map<string, Item>, bs: seq<Binding>, n: nat)
    : Result<Progress, Error>
    requires n <= |bs|
  {
    if n == 0 then Ok(Progress(db.outcomes, db.variants, reported, false))
    else
      match SettleAll(db, capture, now, reported, bs, n - 1)
      case Err(e) => Err(e)
      case Ok(p) => SettleNext(capture, now, db.outcomes, bs[n - 1], p)
  }

  /** The state a settled completion commits, unless its snapshot cannot be built. */
  function Close(db: Db, w: Write, p: Progress): (Db, Reply)
    requires w.capture in db.attempts
  {
    if p.unused != map[] then (db, Refused(UnknownClient))
    else if w.snapshot == BuilderFails || (w.snapshot.Builds? && IsBlank(w.snapshot.json)) then
      (db, Refused(SnapshotFailed))
    else
      var completion := if p.partial then Partial else Complete;
      var status := if w.snapshot.Builds? then w.snapshot.json else "{}";
      (db.(outcomes := p.outcomes, variants := p.variants,
           attempts := db.attempts[w.capture := Attempt(completion, w.warnings, w.now)],
           reports := db.reports[w.capture := Report(w.key, w.digest, w.body, status, completion, w.now)]),
       Completed(completion, if w.snapshot.Builds? then status else ""))
  }

  function CompleteStep(db: Db, w: Write): (Db, Reply) {
    if IsBlank(w.capture) || IsBlank(w.key) || IsBlank(w.digest) || w.now == 0 then (db, Refused(MissingFields))
    else if w.capture !in db.attempts || w.capture !in db.bindings then (db, Refused(NoSuchCapture))
    else
      match Judge(db.reports, w)
      case Replay(status) => (db, Replayed(status))
      case Conflict => (db, Refused(ReportConflict))
      case NoReport =>
        if Terminal(db.attempts[w.capture].completion) then (db, Refused(AlreadyTerminal))
        else
          match Collect(w, |w.items|)
          case Err(e) => (db, Refused(e))
          case Ok(reported) =>
            var bs := db.bindings[w.capture];
            match SettleAll(db, w.capture, w.now, reported, bs, |bs|)
            case Err(e) => (db, Refused(e))
            case Ok(p) => Close(db, w, p)
  }

  // ---- The store ----

  class CaptureStore {
    var attempts: map<string, Attempt>
    var bindings: map<string, seq<Binding>>
    var outcomes: map<(string, string), Row>
    var reports: map<string, Report>
    var variants: map<string, Variant>
    var blobs: map<string, Blob>

    ghost function Contents(): Db
      reads this
    {
      Db(attempts, bindings, outcomes, reports, variants, blobs)
    }

    method CompleteCapture(w: Write) returns (reply: Reply)
      requires WellFormed(Contents())
      modifies this
      ensures (Contents(), reply) == CompleteStep(old(Contents()), w)
    {
      if IsBlank(w.capture) || IsBlank(w.key) || IsBlank(w.digest) || w.now == 0 {
        return Refused(MissingFields);
      }
      if w.capture !in attempts || w.capture !in bindings {
        return Refused(NoSuchCapture);
      }
      var verdict := JudgeReports(w);
      if verdict.Replay? {
        return Replayed(verdict.status);
      }
      if verdict.Conflict? {
        return Refused(ReportConflict);
      }
      if Terminal(attempts[w.capture].completion) {
        return Refused(AlreadyTerminal);
      }
      var collected := CollectItems(w);
      if collected.Err? {
        return Refused(collected.error);
      }
      var settled := SettleBindings(Db(attempts, bindings, outcomes, reports, variants, blobs), w, collected.value);
      if settled.Err? {
        return Refused(settled.error);
      }
      reply := Commit(w, settled.value);
    }

    /** The lookup by capture or by key; it returns whichever matching row comes first. */
    method JudgeReports(w: Write) returns (v: Verdict)
      requires WellFormed(Contents())
      ensures v == Judge(reports, w)
    {
      if c :| c in reports && Matches(c, reports[c], w) {
        AnyMatchDecides(reports, w, c);
        return if SameRequest(c, reports[c], w) then Replay(reports[c].status) else Conflict;
      }
      return NoReport;
    }

    /** Writes a settled completion back, unless a report was left over or the snapshot fails. */
    method Commit(w: Write, p: Progress) returns (reply: Reply)
      requires w.capture in attempts
      modifies this
      ensures (Contents(), reply) == Close(old(Contents()), w, p)
    {
      if p.unused != map[] {
        return Refused(UnknownClient);
      }
      if w.snapshot == BuilderFails || (w.snapshot.Builds? && IsBlank(w.snapshot.json)) {
        return Refused(SnapshotFailed);
      }
      var completion := if p.partial then Partial else Complete;
      var status := if w.snapshot.Builds? then w.snapshot.json else "{}";
      outcomes, variants := p.outcomes, p.variants;
      reports := reports[w.capture := Report(w.key, w.digest, w.body, status, completion, w.now)];
      attempts := attempts[w.capture := Attempt(completion, w.warnings, w.now)];
      reply := Completed(completion, if w.snapshot.Builds? then status else "");
    }

    method StoreAssetContent(u: Upload) returns (error: Option<Error>)
      modifies this
      ensures (Contents(), error) == UploadStep(old(Contents()), u)
    {
      var capture := Trim(u.capture);
      if capture !in attempts || capture !in bindings {
        return Some(NoSuchBinding);
      }
      var found := FindBinding(bindings[capture], Trim(u.client));
      if found.None? || found.value.variant !in variants {
        return Some(NoSuchBinding);
      }
      var b := found.value;
      if variants[b.variant].custody == Reference {
        return Some(MediaRefused(ReferenceCustody));
      }
      if Terminal(attempts[capture].completion) {
        return Some(ReportConflict);
      }
      if b.action != RequestUpload && b.action != ReuseBlob {
        return Some(ActionTakesNoBytes);
      }
      var expected := ExpectedDigest(u.announced, variants[b.variant]);
      if expected.Err? {
        return Some(expected.error);
      }
      if !IsHexDigest(u.actual) || u.size < 0 || (expected.value != "" && expected.value != u.actual) {
        return Some(DigestMismatch);
      }
      var attached := AttachBlob(variants, blobs, b.variant, u.actual, u.size,
                                 RetentionFor(variants[b.variant].custody));
      if attached.Err? {
        return Some(MediaRefused(attached.error));
      }
      var v := attached.value.0[b.variant];
      var row := Stored(b.client, Uploaded, Sha256(v.digest), v.size, "", false, u.now);
      if !Verified(v) {
        return Some(MediaRefused(NoSuchVariant));
      }
      if row.None? {
        return Some(InvalidRow);
      }
      variants, blobs := attached.value.0, attached.value.1;
      outcomes := outcomes[(capture, b.client) := row.value];
      var a := attempts[capture];
      attempts := attempts[capture := a.(
                    completion := if a.completion == Accepting then Transferring else a.completion,
                    updatedAt := if a.updatedAt < u.now then u.now else a.updatedAt)];
      return None;
    }
  }

  /** The loop over the bindings; it builds up the new tables without writing them. */
  method SettleBindings(db: Db, w: Write, reported: map<string, Item>) returns (r: Result<Progress, Error>)
    requires w.capture in db.bindings
    ensures r == SettleAll(db, w.capture, w.now, reported, db.bindings[w.capture], |db.bindings[w.capture]|)
  {
    var bs := db.bindings[w.capture];
    r := Ok(Progress(db.outcomes, db.variants, reported, false));
    var i := 0;
    while i < |bs| && r.Ok?
      invariant i <= |bs| && r == SettleAll(db, w.capture, w.now, reported, bs, i)
    {
      r := SettleNext(w.capture, w.now, db.outcomes, bs[i], r.value);
      i := i + 1;
    }
    if r.Err? {
      SettleAllStops(db, w.capture, w.now, reported, bs, i, r.error);
    }
  }

  method CollectItems(w: Write) returns (r: Result<map<string, Item>, Error>)
    ensures r == Collect(w, |w.items|)
  {
    var m: map<string, Item> := map[];
    var i := 0;
    while i < |w.items|
      invariant i <= |w.items| && Collect(w, i) == Ok(m)
    {
      var item := w.items[i];
      if item.capture != "" && item.capture != w.capture {
        CollectStops(w, i + 1, |w.items|);
        return Err(ForeignCapture);
      }
      if item.client in m {
        CollectStops(w, i + 1, |w.items|);
        return Err(DuplicateClient);
      }
      m := m[item.client := item];
      i := i + 1;
    }
    return Ok(m);
  }

  lemma {:induction false} CollectStops(w: Write, n: nat, all: nat)
    requires n <= all <= |w.items| && Collect(w, n).Err?
    ensures Collect(w, all) == Collect(w, n)
    decreases all
  {
    if n < all {
      CollectStops(w, n, all - 1);
    }
  }

  lemma ErrorStays(db: Db, capture: string, now: int, reported: map<string, Item>, bs: seq<Binding>, n: nat, e: Error)
    requires n < |bs| && SettleAll(db, capture, now, reported, bs, n) == Err(e)
    ensures SettleAll(db, capture, now, reported, bs, n + 1) == Err(e)
  {
  }

  lemma {:induction false} SettleAllStops(db: Db, capture: string, now: int, reported: map<string, Item>,
                                          bs: seq<Binding>, n: nat, e: Error)
    requires n <= |bs| && SettleAll(db, capture, now, reported, bs, n) == Err(e)
    ensures SettleAll(db, capture, now, reported, bs, |bs|) == Err(e)
    decreases |bs| - n
  {
    if n < |bs| {
      ErrorStays(db, capture, now, reported, bs, n, e);
      SettleAllStops(db, capture, now, reported, bs, n + 1, e);
    }
  }

  /**
   The lookup by capture or by idempotency key may match two reports. Whichever it returns decides
   alike: the request is replayed exactly when that row is the same request.
   */
  lemma AnyMatchDecides(reports: map<string, Report>, w: Write, c: string)
    requires c in reports && Matches(c, reports[c], w)
    requires forall d, e | d in reports && e in reports && reports[d].key == reports[e].key :: d == e
    ensures Judge(reports, w) == if SameRequest(c, reports[c], w) then Replay(reports[c].status) else Conflict
  {
  }
}
