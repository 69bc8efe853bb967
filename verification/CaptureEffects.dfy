/**
 When a completion or an upload succeeds, and all it changes, in terms of the stored state, the request
 and the bindings alone.
 */
module CaptureEffects {
  import opened Wrappers
  import opened Text
  import opened Digest
  import opened Media
  import opened CaptureProtocol
  import opened CaptureCompletion

  /** A row is stored exactly for a known outcome with a client, a time, a size and a digest in form, if any. */
  lemma StoredExactly(client: string, outcome: Outcome, digest: ContentDigest, size: int, reason: string,
                      retryable: bool, now: int)
    ensures var row := Stored(client, outcome, digest, size, reason, retryable, now);
            && (row.Some? <==>
                  && !outcome.Unrecognised? && !IsBlank(client) && now != 0 && size >= 0
                  && (Given(digest) ==> digest.Normalized().Some?))
            && (row.Some? ==>
                  && row.value.outcome == outcome && row.value.size == size && row.value.reason == reason
                  && row.value.retryable == retryable && row.value.updatedAt == now
                  && if Given(digest) then digest.Normalized() == Some(row.value.digest) else row.value.digest == "")
  {
  }

  // ---- One binding ----

  /** Bytes of a known digest are there. */
  predicate InStore(v: Variant) {
    v.state == Available && v.digest != ""
  }

  predicate Claims(item: Item) {
    item.outcome == Uploaded || item.outcome == AlreadyAvailable
  }

  predicate Lost(item: Item) {
    item.outcome == NotAvailable || item.outcome == Failed
  }

  /** What a client may report for a binding whose bytes are verified: nothing that differs from them. */
  predicate AgreesWith(item: Item, v: Variant) {
    Claims(item) ==> (Given(item.digest) ==> item.digest.value == v.digest) && (item.size != 0 ==> item.size == v.size)
  }

  /** What it may report for one whose bytes are not: no bytes, a known outcome, and a reason for a loss. */
  predicate Admissible(item: Item) {
    && !Claims(item) && !item.outcome.Unrecognised? && (Lost(item) ==> !IsBlank(item.reason))
    && item.size >= 0 && (Given(item.digest) ==> item.digest.Normalized().Some?)
  }

  /** A loss that marks the variant: bytes were asked for, none are there, and the client says why. */
  predicate Fails(b: Binding, v: Variant, supplied: Option<Item>) {
    !InStore(v) && supplied.Some? && Lost(supplied.value) && b.action == RequestUpload
  }

  function FailureOf(item: Item): Failure {
    Failure(if item.outcome == Failed then "client.failed" else "client.not_available", item.reason, item.retryable)
  }

  predicate Acceptable(b: Binding, v: Variant, supplied: Option<Item>) {
    && (supplied.Some? && InStore(v) ==> AgreesWith(supplied.value, v))
    && (supplied.Some? && !InStore(v) ==> Admissible(supplied.value))
    && (Fails(b, v, supplied) ==> v.state != Available)
  }

  /** The row of a binding, when its outcome is accepted. */
  ghost predicate RowIs(b: Binding, v: Variant, supplied: Option<Item>, prior: Option<Row>, now: int, row: Row) {
    && (InStore(v) ==>
          row == Row(if prior.Some? && prior.value.outcome == Uploaded then Uploaded else AlreadyAvailable,
                     v.digest, v.size, "", false, now))
    && (!InStore(v) && supplied.None? && (b.action == ReferenceByLink || b.action == ServerAcquire) ==>
          row == Row(Deferred, "", 0, "", false, now))
    && (!InStore(v) && supplied.None? && b.action == Rejected ==>
          row == Row(NotAvailable, "", 0, b.reason, false, now))
    && (!InStore(v) && supplied.None? && (b.action == RequestUpload || b.action == ReuseBlob) ==>
          row == Row(NotAvailable, "", 0, "client did not report a final transfer outcome", false, now))
    && (!InStore(v) && supplied.Some? ==> Echoes(supplied.value, now, row))
  }

  /** The row repeats what the client reported, with its digest in normal form. */
  ghost predicate Echoes(item: Item, now: int, row: Row) {
    && row.outcome == item.outcome && row.size == item.size && row.reason == item.reason
    && row.retryable == item.retryable && row.updatedAt == now
    && (if Given(item.digest) then item.digest.Normalized() == Some(row.digest) else row.digest == "")
  }

  predicate Sound(v: Variant) {
    (v.digest == "" || IsHexDigest(v.digest)) && v.size >= 0
  }

  /** Why a final outcome is refused. */
  ghost predicate RefusedAs(b: Binding, v: Variant, supplied: Option<Item>, e: Error) {
    supplied.Some? &&
    var item := supplied.value;
    if InStore(v) then
      && Claims(item)
      && (if Given(item.digest) && item.digest.value != v.digest then e == DigestConflict
          else item.size != 0 && item.size != v.size && e == SizeConflict)
    else if Claims(item) then e == UnverifiedClaim
    else if item.outcome.Unrecognised? then e == InvalidOutcome
    else if Lost(item) && IsBlank(item.reason) then e == ReasonRequired
    else if item.size < 0 || (Given(item.digest) && item.digest.Normalized().None?) then e == InvalidRow
    else Fails(b, v, supplied) && v.state == Available && e == MediaRefused(AvailableCannotFail)
  }

  lemma SettleAccepts(now: int, b: Binding, v: Variant, supplied: Option<Item>, prior: Option<Row>)
    requires Sound(v) && now != 0 && !IsBlank(b.client)
    ensures Settle(now, b, v, supplied, prior).Ok? && (Fails(b, v, supplied) ==> v.state != Available)
            <==> Acceptable(b, v, supplied)
  {
    if Verified(v) {
      VerifiedAccepts(now, b, v, supplied, prior);
    }
  }

  lemma VerifiedAccepts(now: int, b: Binding, v: Variant, supplied: Option<Item>, prior: Option<Row>)
    requires Sound(v) && now != 0 && !IsBlank(b.client) && Verified(v)
    ensures Settle(now, b, v, supplied, prior).Ok? <==> supplied.None? || AgreesWith(supplied.value, v)
  {
    Sha256Normalized(v.digest);
  }

  /** The error a final outcome is refused with. */
  lemma SettleRefuses(now: int, b: Binding, v: Variant, supplied: Option<Item>, prior: Option<Row>, e: Error)
    requires Sound(v) && now != 0 && !IsBlank(b.client) && Settle(now, b, v, supplied, prior) == Err(e)
    ensures RefusedAs(b, v, supplied, e)
  {
    if Verified(v) {
      Sha256Normalized(v.digest);
    }
  }

  /** What is stored for a final outcome that is accepted, and the failure it marks the variant with. */
  lemma SettleStores(now: int, b: Binding, v: Variant, supplied: Option<Item>, prior: Option<Row>, s: Settled)
    requires Sound(v) && Settle(now, b, v, supplied, prior) == Ok(s)
    ensures RowIs(b, v, supplied, prior, now, s.row)
    ensures s.failure == if Fails(b, v, supplied) then Some(FailureOf(supplied.value)) else None
  {
    if Verified(v) {
      Sha256Normalized(v.digest);
    }
  }

  // ---- All bindings ----

  /** What the client reported for a binding, and the variant as it was before the call. */
  predicate AcceptableAt(db: Db, reported: map<string, Item>, b: Binding) {
    b.variant in db.variants && Acceptable(b, db.variants[b.variant], Get(reported, b.client))
  }

  predicate LosesAt(db: Db, reported: map<string, Item>, bs: seq<Binding>, k: nat, id: string) {
    k < |bs| && bs[k].variant == id && id in db.variants && Fails(bs[k], db.variants[id], Get(reported, bs[k].client))
  }

  /** Binding `k` is the last of the first `n` that marks the variant. */
  ghost predicate LastLoss(db: Db, reported: map<string, Item>, bs: seq<Binding>, n: nat, id: string, k: nat) {
    k < n && LosesAt(db, reported, bs, k, id) && forall j: nat | k < j < n :: !LosesAt(db, reported, bs, j, id)
  }

  ghost predicate Lossless(db: Db, reported: map<string, Item>, bs: seq<Binding>, n: nat, id: string) {
    forall j: nat | j < n :: !LosesAt(db, reported, bs, j, id)
  }

  /** A variant after the first `n` bindings: failed as the last loss on it says, or as it was. */
  ghost predicate MarkedBy(db: Db, reported: map<string, Item>, bs: seq<Binding>, n: nat, id: string, after: Variant)
    requires id in db.variants
  {
    && (Lossless(db, reported, bs, n, id) ==> after == db.variants[id])
    && (forall k: nat | LastLoss(db, reported, bs, n, id, k) && bs[k].client in reported ::
          after == db.variants[id].(state := AcquisitionFailed, failure := Some(FailureOf(reported[bs[k].client]))))
  }

  ghost predicate Marks(db: Db, reported: map<string, Item>, bs: seq<Binding>, n: nat, after: map<string, Variant>) {
    after.Keys == db.variants.Keys
    && forall id | id in db.variants ::
         MarkedBy(db, reported, bs, n, id, after[id]) && Alike(db.variants[id], after[id])
  }

  /** What a mark leaves alone, and that it is never put on available bytes. */
  predicate Alike(before: Variant, after: Variant) {
    && after.digest == before.digest && after.size == before.size
    && (after.state == Available <==> before.state == Available)
    && (after != before ==> after.(state := before.state, failure := before.failure) == before)
  }

  lemma LastLossEarlier(db: Db, reported: map<string, Item>, bs: seq<Binding>, n: nat, id: string, k: nat)
    requires LastLoss(db, reported, bs, n + 1, id, k) && !LosesAt(db, reported, bs, n, id)
    ensures LastLoss(db, reported, bs, n, id, k)
  {
  }

  lemma LosslessEarlier(db: Db, reported: map<string, Item>, bs: seq<Binding>, n: nat, id: string)
    requires Lossless(db, reported, bs, n + 1, id)
    ensures Lossless(db, reported, bs, n, id)
  {
  }

  lemma MarkedAlready(db: Db, reported: map<string, Item>, bs: seq<Binding>, n: nat, id: string, after: Variant)
    requires n < |bs| && id in db.variants && MarkedBy(db, reported, bs, n, id, after)
    requires !LosesAt(db, reported, bs, n, id)
    ensures MarkedBy(db, reported, bs, n + 1, id, after)
  {
    if Lossless(db, reported, bs, n + 1, id) {
      LosslessEarlier(db, reported, bs, n, id);
    }
    forall k: nat | LastLoss(db, reported, bs, n + 1, id, k) && bs[k].client in reported
      ensures LastLoss(db, reported, bs, n, id, k)
    {
      LastLossEarlier(db, reported, bs, n, id, k);
    }
  }

  lemma MarkedNow(db: Db, reported: map<string, Item>, bs: seq<Binding>, n: nat, id: string, item: Item)
    requires n < |bs| && id in db.variants && LosesAt(db, reported, bs, n, id)
    requires Get(reported, bs[n].client) == Some(item)
    ensures MarkedBy(db, reported, bs, n + 1, id,
                     db.variants[id].(state := AcquisitionFailed, failure := Some(FailureOf(item))))
  {
  }

  lemma MarksNext(db: Db, reported: map<string, Item>, bs: seq<Binding>, n: nat, before: map<string, Variant>,
                  after: map<string, Variant>)
    requires n < |bs| && bs[n].variant in db.variants && Marks(db, reported, bs, n, before)
    requires var id, supplied := bs[n].variant, Get(reported, bs[n].client);
             if Fails(bs[n], db.variants[id], supplied)
             then db.variants[id].state != Available
                  && after == before[id := before[id].(state := AcquisitionFailed,
                                                       failure := Some(FailureOf(supplied.value)))]
             else after == before
    ensures Marks(db, reported, bs, n + 1, after)
  {
    forall id | id in db.variants
      ensures MarkedBy(db, reported, bs, n + 1, id, after[id]) && Alike(db.variants[id], after[id])
    {
      if LosesAt(db, reported, bs, n, id) {
        MarkedNow(db, reported, bs, n, id, reported[bs[n].client]);
      } else {
        MarkedAlready(db, reported, bs, n, id, after[id]);
      }
    }
  }

  lemma SettleAlike(now: int, b: Binding, v: Variant, after: Variant, supplied: Option<Item>, prior: Option<Row>)
    requires Alike(v, after)
    ensures Settle(now, b, after, supplied, prior) == Settle(now, b, v, supplied, prior)
  {
  }

  /** Everything the loop relies on: variants there are, clients with names, stored sizes and digests. */
  ghost predicate Ready(db: Db, now: int, bs: seq<Binding>) {
    BindsVariants(bs, db.variants) && StoredWell(db.variants) && now != 0
  }

  /** The loop before binding `n`. */
  ghost predicate Reached(db: Db, reported: map<string, Item>, bs: seq<Binding>, n: nat, q: Progress)
    requires n <= |bs|
  {
    Marks(db, reported, bs, n, q.variants) && q.unused == reported - Clients(bs, n)
  }

  /** One round, told by the state before the call. */
  lemma NextSettles(db: Db, capture: string, now: int, reported: map<string, Item>, bs: seq<Binding>, n: nat,
                    q: Progress)
    returns (s: Result<Settled, Error>)
    requires n < |bs| && Ready(db, now, bs) && Reached(db, reported, bs, n, q)
    ensures s == Settle(now, bs[n], db.variants[bs[n].variant], Get(reported, bs[n].client),
                        Get(db.outcomes, (capture, bs[n].client)))
    ensures var r := SettleNext(capture, now, db.outcomes, bs[n], q);
            if s.Err? then r == Err(s.error)
            else if s.value.failure.None? then r.Ok? && r.value.variants == q.variants
            else (match MarkFailed(q.variants, bs[n].variant, s.value.failure.value)
                  case Err(e) => r == Err(MediaRefused(e))
                  case Ok(after) => r.Ok? && r.value.variants == after)
    ensures var r := SettleNext(capture, now, db.outcomes, bs[n], q);
            r.Ok? ==> r.value.unused == q.unused - {bs[n].client}
  {
    var b := bs[n];
    assert b.client !in Clients(bs, n);
    assert Get(q.unused, b.client) == Get(reported, b.client);
    var prior := Get(db.outcomes, (capture, b.client));
    SettleAlike(now, b, db.variants[b.variant], q.variants[b.variant], Get(reported, b.client), prior);
    s := Settle(now, b, q.variants[b.variant], Get(q.unused, b.client), prior);
  }

  lemma FailureIsComplete(item: Item)
    requires !IsBlank(item.reason)
    ensures !IsBlank(FailureOf(item).code) && !IsBlank(FailureOf(item).message)
  {
    var code := FailureOf(item).code;
    assert code == "client.failed" || code == "client.not_available";
    assert code[0] in code && !IsSpace(code[0]);
  }

  lemma LossHasReason(now: int, b: Binding, v: Variant, supplied: Option<Item>, prior: Option<Row>)
    requires Settle(now, b, v, supplied, prior).Ok? && Fails(b, v, supplied)
    ensures !IsBlank(supplied.value.reason)
  {
  }

  /** How one round ends for a binding with this variant and this report. */
  ghost predicate RoundEnds(db: Db, reported: map<string, Item>, bs: seq<Binding>, n: nat, r: Result<Progress, Error>)
    requires n < |bs|
  {
    match r
    case Ok(p) => AcceptableAt(db, reported, bs[n]) && Reached(db, reported, bs, n + 1, p)
    case Err(e) => RefusedAt(db, reported, bs[n], e)
  }

  ghost predicate RefusedAt(db: Db, reported: map<string, Item>, b: Binding, e: Error) {
    b.variant in db.variants && !AcceptableAt(db, reported, b)
    && RefusedAs(b, db.variants[b.variant], Get(reported, b.client), e)
  }

  lemma NextAccepts(db: Db, capture: string, now: int, reported: map<string, Item>, bs: seq<Binding>, n: nat,
                    q: Progress)
    requires n < |bs| && Ready(db, now, bs) && Reached(db, reported, bs, n, q)
    ensures RoundEnds(db, reported, bs, n, SettleNext(capture, now, db.outcomes, bs[n], q))
  {
    var b := bs[n];
    var v, supplied, prior := db.variants[b.variant], Get(reported, b.client), Get(db.outcomes, (capture, b.client));
    var s := NextSettles(db, capture, now, reported, bs, n, q);
    SettleAccepts(now, b, v, supplied, prior);
    if s.Err? {
      SettleRefuses(now, b, v, supplied, prior, s.error);
    } else {
      SettleStores(now, b, v, supplied, prior, s.value);
      UnusedShrinks(reported, bs, n + 1);
      if Fails(b, v, supplied) {
        LossHasReason(now, b, v, supplied, prior);
        FailureIsComplete(supplied.value);
        LossMarks(db, reported, bs, n, q.variants, supplied.value);
      } else {
        MarksNext(db, reported, bs, n, q.variants, q.variants);
      }
    }
  }

  lemma LossMarks(db: Db, reported: map<string, Item>, bs: seq<Binding>, n: nat, before: map<string, Variant>,
                  item: Item)
    requires n < |bs| && bs[n].variant in db.variants && Marks(db, reported, bs, n, before)
    requires Get(reported, bs[n].client) == Some(item) && Fails(bs[n], db.variants[bs[n].variant], Some(item))
    requires !IsBlank(item.reason) && !IsBlank(FailureOf(item).code)
    ensures match MarkFailed(before, bs[n].variant, FailureOf(item))
            case Err(e) => e == AvailableCannotFail && db.variants[bs[n].variant].state == Available
            case Ok(after) => db.variants[bs[n].variant].state != Available && Marks(db, reported, bs, n + 1, after)
  {
    var id := bs[n].variant;
    assert Alike(db.variants[id], before[id]);
    var r := MarkFailed(before, id, FailureOf(item));
    if r.Ok? {
      MarksNext(db, reported, bs, n, before, r.value);
    }
  }

  /** Binding `k` is the first of the first `n` whose outcome is refused, and `e` says why. */
  ghost predicate FirstRefused(db: Db, reported: map<string, Item>, bs: seq<Binding>, n: nat, k: nat, e: Error)
    requires n <= |bs|
  {
    k < n && AllAcceptable(db, reported, bs, k) && RefusedAt(db, reported, bs[k], e)
  }

  ghost predicate AllAcceptable(db: Db, reported: map<string, Item>, bs: seq<Binding>, n: nat)
    requires n <= |bs|
  {
    forall k | 0 <= k < n :: AcceptableAt(db, reported, bs[k])
  }

  /** How the loop over the first `n` bindings ends. */
  ghost predicate LoopEnds(db: Db, reported: map<string, Item>, bs: seq<Binding>, n: nat, r: Result<Progress, Error>)
    requires n <= |bs|
  {
    match r
    case Ok(p) => AllAcceptable(db, reported, bs, n) && Reached(db, reported, bs, n, p)
    case Err(e) => exists k: nat :: FirstRefused(db, reported, bs, n, k, e)
  }

  lemma LoopMore(db: Db, reported: map<string, Item>, bs: seq<Binding>, n: nat, before: Result<Progress, Error>,
                 r: Result<Progress, Error>)
    requires n < |bs| && LoopEnds(db, reported, bs, n, before)
    requires if before.Err? then r == before else RoundEnds(db, reported, bs, n, r)
    ensures LoopEnds(db, reported, bs, n + 1, r)
  {
    if before.Err? {
      var k: nat :| FirstRefused(db, reported, bs, n, k, before.error);
      assert FirstRefused(db, reported, bs, n + 1, k, r.error);
    } else if r.Err? {
      assert FirstRefused(db, reported, bs, n + 1, n, r.error);
    }
  }

  /** The loop over the first `n` bindings ends as it should. */
  ghost predicate LoopHolds(db: Db, capture: string, now: int, reported: map<string, Item>, bs: seq<Binding>, n: nat)
    requires n <= |bs|
  {
    LoopEnds(db, reported, bs, n, SettleAll(db, capture, now, reported, bs, n))
  }

  lemma LoopStarts(db: Db, capture: string, now: int, reported: map<string, Item>, bs: seq<Binding>)
    ensures LoopHolds(db, capture, now, reported, bs, 0)
  {
    assert reported - Clients(bs, 0) == reported;
  }

  lemma LoopNext(db: Db, capture: string, now: int, reported: map<string, Item>, bs: seq<Binding>, n: nat,
                 before: Result<Progress, Error>, after: Result<Progress, Error>)
    requires 0 < n <= |bs| && Ready(db, now, bs) && LoopEnds(db, reported, bs, n - 1, before)
    requires after == if before.Err? then before else SettleNext(capture, now, db.outcomes, bs[n - 1], before.value)
    ensures LoopEnds(db, reported, bs, n, after)
  {
    if before.Ok? {
      NextAccepts(db, capture, now, reported, bs, n - 1, before.value);
    }
    LoopMore(db, reported, bs, n - 1, before, after);
  }

  /** The loop over the bindings goes through exactly when every final outcome is accepted. */
  lemma {:induction false} LoopAccepts(db: Db, capture: string, now: int, reported: map<string, Item>,
                                       bs: seq<Binding>, n: nat)
    requires n <= |bs| && Ready(db, now, bs)
    ensures LoopHolds(db, capture, now, reported, bs, n)
    decreases n
  {
    if n == 0 {
      LoopStarts(db, capture, now, reported, bs);
    } else {
      LoopAccepts(db, capture, now, reported, bs, n - 1);
      LoopNext(db, capture, now, reported, bs, n, SettleAll(db, capture, now, reported, bs, n - 1),
               SettleAll(db, capture, now, reported, bs, n));
    }
  }

  // ---- The reported items ----

  /** The first item on a client. */
  function ReportOn(items: seq<Item>, client: string): Option<Item> {
    if items == [] then None
    else if items[0].client == client then Some(items[0])
    else ReportOn(items[1..], client)
  }

  lemma {:induction false} ReportFound(items: seq<Item>, client: string)
    ensures var r := ReportOn(items, client);
            && (r.None? <==> forall i | 0 <= i < |items| :: items[i].client != client)
            && (r.Some? ==> r.value in items && r.value.client == client)
  {
    if items != [] {
      ReportFound(items[1..], client);
      assert forall i | 0 < i < |items| :: items[i] == items[1..][i - 1];
    }
  }

  predicate Foreign(w: Write, i: nat)
    requires i < |w.items|
  {
    w.items[i].capture != "" && w.items[i].capture != w.capture
  }

  predicate Repeats(w: Write, i: nat)
    requires i < |w.items|
  {
    exists j | 0 <= j < i :: w.items[j].client == w.items[i].client
  }

  /** The first `n` items are on this capture and on a client each. */
  ghost predicate ItemsValid(w: Write, n: nat)
    requires n <= |w.items|
  {
    forall i: nat | i < n :: !Foreign(w, i) && !Repeats(w, i)
  }

  lemma ItemsCollect(w: Write, n: nat)
    requires n <= |w.items|
    ensures Collect(w, n).Ok? <==> ItemsValid(w, n)
  {
    if Collect(w, n).Ok? {
      CollectValid(w, n, Collect(w, n).value);
    } else if ItemsValid(w, n) {
      forall i, j | 0 <= i < j < n
        ensures w.items[i].client != w.items[j].client
      {
        assert !Repeats(w, j);
      }
      forall i | 0 <= i < n
        ensures w.items[i].capture == "" || w.items[i].capture == w.capture
      {
        assert !Foreign(w, i);
      }
      CollectSucceeds(w, n);
    }
  }

  /** The first item that is not valid decides. */
  lemma FirstItemRefused(w: Write, n: nat)
    requires n < |w.items| && ItemsValid(w, n) && (Foreign(w, n) || Repeats(w, n))
    ensures Collect(w, |w.items|) == Err(if Foreign(w, n) then ForeignCapture else DuplicateClient)
  {
    ItemsCollect(w, n);
    CollectExact(w, n, Collect(w, n).value);
    if Foreign(w, n) {
      CollectStops(w, n + 1, |w.items|);
    } else {
      var j :| 0 <= j < n && w.items[j].client == w.items[n].client;
      CollectStops(w, n + 1, |w.items|);
    }
  }

  lemma CollectedReport(w: Write, reported: map<string, Item>, client: string)
    requires Collect(w, |w.items|) == Ok(reported)
    ensures Get(reported, client) == ReportOn(w.items, client)
  {
    CollectExact(w, |w.items|, reported);
    ReportFound(w.items, client);
    assert w.items[..|w.items|] == w.items;
    assert forall item | item in w.items :: item.client in reported && reported[item.client] == item;
  }

  // ---- A whole completion ----

  predicate FieldsMissing(w: Write) {
    IsBlank(w.capture) || IsBlank(w.key) || IsBlank(w.digest) || w.now == 0
  }

  /** A complete request on a capture that is there, for which no report is stored, nor one under its key. */
  ghost predicate Fresh(db: Db, w: Write) {
    && !FieldsMissing(w) && w.capture in db.attempts && w.capture in db.bindings
    && forall c | c in db.reports :: c != w.capture && db.reports[c].key != w.key
  }

  predicate OpenCapture(db: Db, capture: string)
    requires capture in db.attempts
  {
    db.attempts[capture].completion == Accepting || db.attempts[capture].completion == Transferring
  }

  ghost predicate AllAccepted(db: Db, w: Write, bs: seq<Binding>) {
    forall b | b in bs ::
      b.variant in db.variants && Acceptable(b, db.variants[b.variant], ReportOn(w.items, b.client))
  }

  ghost predicate AllKnown(w: Write, bs: seq<Binding>) {
    forall item | item in w.items :: exists b | b in bs :: b.client == item.client
  }

  predicate SnapshotReady(w: Write) {
    w.snapshot.NoBuilder? || (w.snapshot.Builds? && !IsBlank(w.snapshot.json))
  }

  /** What a completion needs to succeed. */
  ghost predicate Completes(db: Db, w: Write) {
    && Fresh(db, w) && OpenCapture(db, w.capture) && ItemsValid(w, |w.items|)
    && AllAccepted(db, w, db.bindings[w.capture]) && AllKnown(w, db.bindings[w.capture]) && SnapshotReady(w)
  }

  lemma FreshExactly(db: Db, w: Write)
    requires !FieldsMissing(w) && w.capture in db.attempts && w.capture in db.bindings
    ensures Fresh(db, w) <==> Judge(db.reports, w) == NoReport
  {
    if Judge(db.reports, w) == NoReport {
      forall c | c in db.reports
        ensures c != w.capture && db.reports[c].key != w.key
      {
        assert !Matches(c, db.reports[c], w);
      }
    }
  }

  lemma AcceptedExactly(db: Db, w: Write, reported: map<string, Item>, bs: seq<Binding>)
    requires Collect(w, |w.items|) == Ok(reported)
    ensures AllAccepted(db, w, bs) <==> AllAcceptable(db, reported, bs, |bs|)
  {
    forall k | 0 <= k < |bs|
      ensures bs[k] in bs && Get(reported, bs[k].client) == ReportOn(w.items, bs[k].client)
    {
      CollectedReport(w, reported, bs[k].client);
    }
    if AllAcceptable(db, reported, bs, |bs|) {
      forall b | b in bs
        ensures b.variant in db.variants && Acceptable(b, db.variants[b.variant], ReportOn(w.items, b.client))
      {
        var k :| 0 <= k < |bs| && bs[k] == b;
        assert AcceptableAt(db, reported, bs[k]);
      }
    }
  }

  lemma ClientsNamed(bs: seq<Binding>, client: string)
    ensures client in Clients(bs, |bs|) <==> exists b | b in bs :: b.client == client
  {
    assert forall k | 0 <= k < |bs| :: bs[k] in bs;
  }

  lemma KnownExactly(w: Write, reported: map<string, Item>, bs: seq<Binding>)
    requires Collect(w, |w.items|) == Ok(reported)
    ensures AllKnown(w, bs) <==> reported - Clients(bs, |bs|) == map[]
  {
    CollectExact(w, |w.items|, reported);
    assert w.items[..|w.items|] == w.items;
    forall item | item in w.items
      ensures item.client in reported
      ensures item.client in Clients(bs, |bs|) <==> exists b | b in bs :: b.client == item.client
    {
      var i :| 0 <= i < |w.items| && w.items[i] == item;
      ClientsNamed(bs, item.client);
    }
    var unused := reported - Clients(bs, |bs|);
    assert unused == map[] <==> forall client | client in reported :: client in Clients(bs, |bs|) by {
      assert forall client :: client in unused <==> client in reported && client !in Clients(bs, |bs|);
    }
    assert forall client | client in reported :: reported[client] in w.items && reported[client].client == client;
  }

  /** Whatever comes after the loop depends on the loop and the snapshot only. */
  lemma ClosesExactly(db: Db, w: Write, p: Progress)
    requires w.capture in db.attempts
    ensures Close(db, w, p).1.Completed? <==> p.unused == map[] && SnapshotReady(w)
    ensures p.unused != map[] ==> Close(db, w, p) == (db, Refused(UnknownClient))
    ensures p.unused == map[] && !SnapshotReady(w) ==> Close(db, w, p) == (db, Refused(SnapshotFailed))
  {
  }

  lemma ReadyBindings(db: Db, w: Write)
    requires WellFormed(db) && Fresh(db, w)
    ensures Ready(db, w.now, db.bindings[w.capture])
  {
  }

  /** A request whose items are collected, on an open capture: the bindings, the rest and the snapshot decide. */
  lemma SettledReply(db: Db, w: Write, reported: map<string, Item>)
    requires WellFormed(db) && Fresh(db, w) && OpenCapture(db, w.capture) && Collect(w, |w.items|) == Ok(reported)
    ensures var bs := db.bindings[w.capture];
            var r := SettleAll(db, w.capture, w.now, reported, bs, |bs|);
            && LoopEnds(db, reported, bs, |bs|, r)
            && CompleteStep(db, w) == if r.Err? then (db, Refused(r.error)) else Close(db, w, r.value)
  {
    ReadyBindings(db, w);
    FreshExactly(db, w);
    LoopAccepts(db, w.capture, w.now, reported, db.bindings[w.capture], |db.bindings[w.capture]|);
  }

  /**
   Main result: a completion succeeds if and only if its fields are there, its capture is there and open,
   no report is stored for it or under its key, its items are valid and on its own bindings, every binding's
   final outcome is acceptable, and the snapshot can be built.
   */
  lemma CompletesExactly(db: Db, w: Write)
    requires WellFormed(db)
    ensures CompleteStep(db, w).1.Completed? <==> Completes(db, w)
    ensures !Completes(db, w) ==> CompleteStep(db, w).0 == db
  {
    if !FieldsMissing(w) && w.capture in db.attempts {
      FreshExactly(db, w);
      ItemsCollect(w, |w.items|);
      if Fresh(db, w) && OpenCapture(db, w.capture) && ItemsValid(w, |w.items|) {
        SettledExactly(db, w, Collect(w, |w.items|).value);
      }
    }
  }

  lemma SettledExactly(db: Db, w: Write, reported: map<string, Item>)
    requires WellFormed(db) && Fresh(db, w) && OpenCapture(db, w.capture) && Collect(w, |w.items|) == Ok(reported)
    ensures CompleteStep(db, w).1.Completed? <==>
              AllAccepted(db, w, db.bindings[w.capture]) && AllKnown(w, db.bindings[w.capture]) && SnapshotReady(w)
    ensures !CompleteStep(db, w).1.Completed? ==> CompleteStep(db, w).0 == db
  {
    var bs := db.bindings[w.capture];
    var r := SettleAll(db, w.capture, w.now, reported, bs, |bs|);
    SettledReply(db, w, reported);
    AcceptedExactly(db, w, reported, bs);
    KnownExactly(w, reported, bs);
    if r.Ok? {
      ClosesExactly(db, w, r.value);
    } else {
      var k: nat :| FirstRefused(db, reported, bs, |bs|, k, r.error);
    }
  }

  /** Main result: how a completion that cannot succeed is answered, in the order in which it is checked. */
  lemma RefusedExactly(db: Db, w: Write)
    requires WellFormed(db)
    ensures FieldsMissing(w) ==> CompleteStep(db, w).1 == Refused(MissingFields)
    ensures !FieldsMissing(w) && w.capture !in db.attempts ==> CompleteStep(db, w).1 == Refused(NoSuchCapture)
    ensures Fresh(db, w) && !OpenCapture(db, w.capture) ==> CompleteStep(db, w).1 == Refused(AlreadyTerminal)
  {
    if !FieldsMissing(w) && w.capture in db.attempts {
      FreshExactly(db, w);
    }
  }

  lemma ItemRefused(db: Db, w: Write, n: nat)
    requires WellFormed(db) && Fresh(db, w) && OpenCapture(db, w.capture)
    requires n < |w.items| && ItemsValid(w, n) && (Foreign(w, n) || Repeats(w, n))
    ensures CompleteStep(db, w).1 == Refused(if Foreign(w, n) then ForeignCapture else DuplicateClient)
  {
    FreshExactly(db, w);
    FirstItemRefused(w, n);
  }

  /** The first binding whose final outcome is not acceptable says why; then come unknown clients, and the snapshot. */
  lemma OutcomeRefused(db: Db, w: Write)
    requires WellFormed(db) && Fresh(db, w) && OpenCapture(db, w.capture) && ItemsValid(w, |w.items|)
    ensures var bs, reply := db.bindings[w.capture], CompleteStep(db, w).1;
            && (!AllAccepted(db, w, bs) ==>
                  exists k: nat, e :: reply == Refused(e) && FirstUnacceptable(db, w, bs, k, e))
            && (AllAccepted(db, w, bs) && !AllKnown(w, bs) ==> reply == Refused(UnknownClient))
            && (AllAccepted(db, w, bs) && AllKnown(w, bs) && !SnapshotReady(w) ==> reply == Refused(SnapshotFailed))
  {
    ItemsCollect(w, |w.items|);
    var bs, reported := db.bindings[w.capture], Collect(w, |w.items|).value;
    var r := SettleAll(db, w.capture, w.now, reported, bs, |bs|);
    SettledReply(db, w, reported);
    AcceptedExactly(db, w, reported, bs);
    KnownExactly(w, reported, bs);
    if r.Ok? {
      ClosesExactly(db, w, r.value);
    } else {
      var k: nat :| FirstRefused(db, reported, bs, |bs|, k, r.error);
      FirstRefusedItems(db, w, reported, bs, k, r.error);
    }
  }

  ghost predicate FirstUnacceptable(db: Db, w: Write, bs: seq<Binding>, k: nat, e: Error) {
    && k < |bs| && AllAccepted(db, w, bs[..k]) && bs[k].variant in db.variants
    && RefusedAs(bs[k], db.variants[bs[k].variant], ReportOn(w.items, bs[k].client), e)
  }

  lemma FirstRefusedItems(db: Db, w: Write, reported: map<string, Item>, bs: seq<Binding>, k: nat, e: Error)
    requires Collect(w, |w.items|) == Ok(reported) && FirstRefused(db, reported, bs, |bs|, k, e)
    ensures FirstUnacceptable(db, w, bs, k, e)
  {
    AcceptedExactly(db, w, reported, bs[..k]);
    CollectedReport(w, reported, bs[k].client);
  }

  // ---- What a completion changes ----

  /** What closing writes besides the rows and variants the loop has settled. */
  ghost predicate Closed(db: Db, w: Write, completion: Completion, after: Db, reply: Reply) {
    var status := if w.snapshot.Builds? then w.snapshot.json else "{}";
    && (completion == Complete || completion == Partial)
    && reply == Completed(completion, if w.snapshot.Builds? then w.snapshot.json else "")
    && after.attempts == db.attempts[w.capture := Attempt(completion, w.warnings, w.now)]
    && after.reports == db.reports[w.capture := Report(w.key, w.digest, w.body, status, completion, w.now)]
    && after.bindings == db.bindings && after.blobs == db.blobs
  }

  lemma CloseWrites(db: Db, w: Write, p: Progress)
    requires w.capture in db.attempts && p.unused == map[] && SnapshotReady(w)
    ensures var (after, reply) := Close(db, w, p);
            && Closed(db, w, if p.partial then Partial else Complete, after, reply)
            && after.outcomes == p.outcomes && after.variants == p.variants
  {
  }

  /** A completion that succeeds, taken apart: its items, and the loop. */
  lemma CompletionLoops(db: Db, w: Write) returns (reported: map<string, Item>, p: Progress)
    requires WellFormed(db) && Completes(db, w)
    ensures Collect(w, |w.items|) == Ok(reported)
    ensures Ends(db, w.capture, w.now, reported, db.bindings[w.capture], |db.bindings[w.capture]|, p)
    ensures Reached(db, reported, db.bindings[w.capture], |db.bindings[w.capture]|, p)
    ensures p.unused == map[] && CompleteStep(db, w) == Close(db, w, p)
  {
    ItemsCollect(w, |w.items|);
    reported := Collect(w, |w.items|).value;
    CompletesExactly(db, w);
    SettledReply(db, w, reported);
    KnownExactly(w, reported, db.bindings[w.capture]);
    p := SettleAll(db, w.capture, w.now, reported, db.bindings[w.capture], |db.bindings[w.capture]|).value;
  }

  /** Main result: the attempt and the report after a completion, and the reply to it. */
  lemma ReportStored(db: Db, w: Write) returns (completion: Completion)
    requires WellFormed(db) && Completes(db, w)
    ensures Closed(db, w, completion, CompleteStep(db, w).0, CompleteStep(db, w).1)
  {
    var reported, p := CompletionLoops(db, w);
    CloseWrites(db, w, p);
    completion := if p.partial then Partial else Complete;
  }

  ghost predicate RowStored(db: Db, w: Write, b: Binding, outcomes: map<(string, string), Row>) {
    && b.variant in db.variants && (w.capture, b.client) in outcomes
    && RowIs(b, db.variants[b.variant], ReportOn(w.items, b.client), Get(db.outcomes, (w.capture, b.client)),
             w.now, outcomes[(w.capture, b.client)])
  }

  lemma DecisionStored(db: Db, w: Write, reported: map<string, Item>, b: Binding, d: Settled,
                       outcomes: map<(string, string), Row>)
    requires b.variant in db.variants && StoredWell(db.variants) && Collect(w, |w.items|) == Ok(reported)
    requires Decide(db, w.capture, w.now, reported, b) == Ok(d)
    requires (w.capture, b.client) in outcomes && outcomes[(w.capture, b.client)] == d.row
    ensures RowStored(db, w, b, outcomes)
  {
    CollectedReport(w, reported, b.client);
    SettleStores(w.now, b, db.variants[b.variant], Get(reported, b.client), Get(db.outcomes, (w.capture, b.client)), d);
  }

  lemma DecisionsStored(db: Db, w: Write, reported: map<string, Item>, bs: seq<Binding>, ds: seq<Settled>)
    requires |ds| == |bs| && Pinned(db, bs) && StoredWell(db.variants) && Collect(w, |w.items|) == Ok(reported)
    requires Decided(db, w.capture, w.now, reported, bs, ds)
    ensures forall b | b in bs :: RowStored(db, w, b, WriteRows(db.outcomes, w.capture, bs, ds))
  {
    WrittenRows(db.outcomes, w.capture, bs, ds);
    forall k | 0 <= k < |bs|
      ensures RowStored(db, w, bs[k], WriteRows(db.outcomes, w.capture, bs, ds))
    {
      DecisionStored(db, w, reported, bs[k], ds[k], WriteRows(db.outcomes, w.capture, bs, ds));
    }
  }

  lemma OtherRowsStay(db: Db, capture: string, bs: seq<Binding>, ds: seq<Settled>, key: (string, string))
    requires |ds| == |bs| && DistinctClients(bs) && (key.0 != capture || forall b | b in bs :: b.client != key.1)
    ensures Get(WriteRows(db.outcomes, capture, bs, ds), key) == Get(db.outcomes, key)
  {
    WrittenRows(db.outcomes, capture, bs, ds);
    assert forall k | 0 <= k < |bs| :: bs[k] in bs;
  }

  /** The rows the loop has written. */
  lemma RowsWritten(db: Db, w: Write) returns (reported: map<string, Item>, ds: seq<Settled>)
    requires WellFormed(db) && Completes(db, w)
    ensures Collect(w, |w.items|) == Ok(reported) && |ds| == |db.bindings[w.capture]|
    ensures Pinned(db, db.bindings[w.capture]) && Decided(db, w.capture, w.now, reported, db.bindings[w.capture], ds)
    ensures CompleteStep(db, w).0.outcomes == WriteRows(db.outcomes, w.capture, db.bindings[w.capture], ds)
  {
    var bs, p := db.bindings[w.capture], Progress(db.outcomes, db.variants, map[], false);
    reported, p := CompletionLoops(db, w);
    CloseWrites(db, w, p);
    ds := SettleAllDecides(db, w.capture, w.now, reported, bs, |bs|, p);
  }

  /**
   Main result: a completion stores one row for each binding of its capture, which the variant's state and
   the client's report determine field by field, and touches no other row.
   */
  lemma RowsAreStored(db: Db, w: Write)
    requires WellFormed(db) && Completes(db, w)
    ensures forall b | b in db.bindings[w.capture] :: RowStored(db, w, b, CompleteStep(db, w).0.outcomes)
    ensures forall key: (string, string) |
              key.0 != w.capture || forall b | b in db.bindings[w.capture] :: b.client != key.1 ::
              Get(CompleteStep(db, w).0.outcomes, key) == Get(db.outcomes, key)
  {
    var reported, ds := RowsWritten(db, w);
    DecisionsStored(db, w, reported, db.bindings[w.capture], ds);
    forall key: (string, string) | key.0 != w.capture || forall b | b in db.bindings[w.capture] :: b.client != key.1
      ensures Get(CompleteStep(db, w).0.outcomes, key) == Get(db.outcomes, key)
    {
      OtherRowsStay(db, w.capture, db.bindings[w.capture], ds, key);
    }
  }

  /** Binding `k` is the last on the variant whose bytes the client reports lost. */
  ghost predicate LastToFail(db: Db, w: Write, bs: seq<Binding>, id: string, k: nat)
    requires id in db.variants
  {
    && ReportsLoss(db, w, bs, id, k)
    && forall j: nat | k < j < |bs| :: !ReportsLoss(db, w, bs, id, j)
  }

  predicate ReportsLoss(db: Db, w: Write, bs: seq<Binding>, id: string, k: nat)
    requires id in db.variants
  {
    k < |bs| && bs[k].variant == id && Fails(bs[k], db.variants[id], ReportOn(w.items, bs[k].client))
  }

  /** A variant after the completion of a capture with these bindings. */
  ghost predicate VariantAfter(db: Db, w: Write, bs: seq<Binding>, id: string, after: Variant)
    requires id in db.variants
  {
    && ((forall k: nat :: !ReportsLoss(db, w, bs, id, k)) ==> after == db.variants[id])
    && (forall k: nat | LastToFail(db, w, bs, id, k) ::
          var item := ReportOn(w.items, bs[k].client).value;
          after == db.variants[id].(state := AcquisitionFailed, failure := Some(FailureOf(item))))
  }

  lemma MarkedIsAfter(db: Db, w: Write, reported: map<string, Item>, bs: seq<Binding>, id: string, after: Variant)
    requires id in db.variants && Collect(w, |w.items|) == Ok(reported)
    requires MarkedBy(db, reported, bs, |bs|, id, after)
    ensures VariantAfter(db, w, bs, id, after)
  {
    forall k: nat | k < |bs|
      ensures LosesAt(db, reported, bs, k, id) <==> ReportsLoss(db, w, bs, id, k)
      ensures Get(reported, bs[k].client) == ReportOn(w.items, bs[k].client)
    {
      CollectedReport(w, reported, bs[k].client);
    }
    forall k: nat | LastToFail(db, w, bs, id, k)
      ensures LastLoss(db, reported, bs, |bs|, id, k) && bs[k].client in reported
    {
    }
  }

  /**
   Main result: a reported loss of bytes that were asked for marks the variant failed, with the code of the
   outcome, the client's reason and whether to retry; where several bindings share a variant the last one
   counts. Every other variant stays as it was.
   */
  lemma LossesMark(db: Db, w: Write, id: string)
    requires WellFormed(db) && Completes(db, w) && id in db.variants
    ensures CompleteStep(db, w).0.variants.Keys == db.variants.Keys
    ensures VariantAfter(db, w, db.bindings[w.capture], id, CompleteStep(db, w).0.variants[id])
  {
    var reported, p := CompletionLoops(db, w);
    CloseWrites(db, w, p);
    MarkedIsAfter(db, w, reported, db.bindings[w.capture], id, p.variants[id]);
  }

  // ---- Uploads ----

  /** What an upload through a binding needs. */
  ghost predicate UploadsThrough(db: Db, u: Upload, capture: string, b: Binding)
    requires capture in db.attempts
  {
    && OpenCapture(db, capture) && (b.action == RequestUpload || b.action == ReuseBlob)
    && b.variant in db.variants && db.variants[b.variant].custody != Reference
    && IsHexDigest(u.actual) && u.size >= 0 && u.now != 0
    && (Given(u.announced) ==> u.announced.Normalized() == Some(u.actual))
    && (db.variants[b.variant].expected == "" || db.variants[b.variant].expected == u.actual)
    && (db.variants[b.variant].digest == "" || db.variants[b.variant].digest == u.actual)
    && (u.actual in db.blobs ==> db.blobs[u.actual].size == u.size)
  }

  /** The state after an upload: the variant holds the bytes, and the capture is transferring. */
  ghost predicate UploadedAs(db: Db, u: Upload, capture: string, b: Binding, after: Db)
    requires capture in db.attempts && b.variant in db.variants
  {
    var v, a := db.variants[b.variant], db.attempts[capture];
    var retention := if v.custody == Cache then CacheOnly else Indefinite;
    && after.variants.Keys == db.variants.Keys && Holds(v, after.variants[b.variant], u.actual, u.size, retention)
    && (forall other | other in db.variants && other != b.variant :: after.variants[other] == db.variants[other])
    && Held(db.blobs, after.blobs, u.actual, u.size, retention)
    && after.outcomes == db.outcomes[(capture, b.client) := Row(Uploaded, u.actual, u.size, "", false, u.now)]
    && after.attempts == db.attempts[capture := Attempt(Transferring, a.warnings,
                                                        if a.updatedAt < u.now then u.now else a.updatedAt)]
    && after.bindings == db.bindings && after.reports == db.reports
  }

  lemma RecordsExactly(db: Db, capture: string, client: string, v: Variant, now: int)
    requires Verified(v) && IsHexDigest(v.digest) && v.size >= 0 && !IsBlank(client)
    requires capture in db.attempts && OpenCapture(db, capture)
    ensures RecordUploaded(db, capture, client, v, now).Ok? <==> now != 0
    ensures now != 0 ==>
              var a := db.attempts[capture];
              RecordUploaded(db, capture, client, v, now).value
              == db.(outcomes := db.outcomes[(capture, client) := Row(Uploaded, v.digest, v.size, "", false, now)],
                     attempts := db.attempts[capture := Attempt(Transferring, a.warnings,
                                                                if a.updatedAt < now then now else a.updatedAt)])
  {
    Sha256Normalized(v.digest);
  }

  lemma ExpectsExactly(announced: ContentDigest, v: Variant, actual: string)
    requires IsHexDigest(actual)
    ensures (match ExpectedDigest(announced, v) case Err(_) => false case Ok(d) => d == "" || d == actual) <==>
              && (Given(announced) ==> announced.Normalized() == Some(actual))
              && (v.expected == "" || v.expected == actual)
  {
  }

  lemma BytesExactly(db: Db, u: Upload, capture: string, b: Binding)
    requires b.variant in db.variants && capture in db.attempts && OpenCapture(db, capture) && !IsBlank(b.client)
    requires b.action == RequestUpload || b.action == ReuseBlob
    requires db.variants[b.variant].custody != Reference
    ensures UploadBytes(db, u, capture, b).Ok? <==> UploadsThrough(db, u, capture, b)
    ensures UploadBytes(db, u, capture, b).Ok? ==> UploadedAs(db, u, capture, b, UploadBytes(db, u, capture, b).value)
  {
    var v := db.variants[b.variant];
    var retention := RetentionFor(v.custody);
    if IsHexDigest(u.actual) && u.size >= 0 {
      ExpectsExactly(u.announced, v, u.actual);
      AttachesExactly(db.variants, db.blobs, b.variant, u.actual, u.size, retention);
      var attached := AttachBlob(db.variants, db.blobs, b.variant, u.actual, u.size, retention);
      if attached.Ok? {
        RecordsExactly(db.(variants := attached.value.0, blobs := attached.value.1), capture, b.client,
                       attached.value.0[b.variant], u.now);
      }
    }
  }

  /**
   Main result: an upload succeeds if and only if its client is bound in an open capture by an action that
   takes bytes, and the bytes are what the client announced, what the variant expects and what it has.
   */
  lemma UploadsExactly(db: Db, u: Upload)
    requires WellFormed(db)
    ensures UploadStep(db, u).1.None? <==>
              exists capture, b | capture in db.attempts && b in db.bindings[capture] ::
                capture == Trim(u.capture) && b.client == Trim(u.client) && UploadsThrough(db, u, capture, b)
    ensures UploadStep(db, u).1.Some? ==> UploadStep(db, u).0 == db
  {
    var capture := Trim(u.capture);
    if capture in db.attempts {
      if k :| 0 <= k < |db.bindings[capture]| && db.bindings[capture][k].client == Trim(u.client) {
        UploadThrough(db, u, capture, k);
        assert db.bindings[capture][k] in db.bindings[capture];
        OneBinding(db.bindings[capture], k);
      } else {
        NotBound(db.bindings[capture], Trim(u.client));
      }
    }
  }

  lemma OneBinding(bs: seq<Binding>, k: nat)
    requires DistinctClients(bs) && k < |bs|
    ensures forall b | b in bs && b.client == bs[k].client :: b == bs[k]
  {
    forall b | b in bs && b.client == bs[k].client
      ensures b == bs[k]
    {
      var j :| 0 <= j < |bs| && bs[j] == b;
    }
  }

  lemma NotBound(bs: seq<Binding>, client: string)
    requires forall k | 0 <= k < |bs| :: bs[k].client != client
    ensures FindBinding(bs, client).None? && forall b | b in bs :: b.client != client
  {
    if FindBinding(bs, client).Some? {
      var k := BindingFound(bs, client);
    }
  }

  /** Main result: all that an upload through a capture's binding changes, when it succeeds. */
  lemma UploadThrough(db: Db, u: Upload, capture: string, k: nat)
    requires WellFormed(db) && capture == Trim(u.capture) && capture in db.attempts
    requires k < |db.bindings[capture]| && db.bindings[capture][k].client == Trim(u.client)
    ensures UploadStep(db, u).1.None? <==> UploadsThrough(db, u, capture, db.bindings[capture][k])
    ensures UploadStep(db, u).1.None? ==> UploadedAs(db, u, capture, db.bindings[capture][k], UploadStep(db, u).0)
    ensures UploadStep(db, u).1.Some? ==> UploadStep(db, u).0 == db
  {
    var b := db.bindings[capture][k];
    FoundBinding(db.bindings[capture], k);
    assert LookupBinding(db, capture, Trim(u.client)) == Some(b);
    if db.variants[b.variant].custody != Reference && ValidateUpload(db, capture, b).None? {
      BytesExactly(db, u, capture, b);
    }
  }

  /** Why an upload through a binding is refused: the first of these that it fails. */
  ghost predicate UploadRefused(db: Db, u: Upload, capture: string, b: Binding, e: Error)
    requires capture in db.attempts && b.variant in db.variants
  {
    var v := db.variants[b.variant];
    if v.custody == Reference then e == MediaRefused(ReferenceCustody)
    else if !OpenCapture(db, capture) then e == ReportConflict
    else if b.action != RequestUpload && b.action != ReuseBlob then e == ActionTakesNoBytes
    else if Given(u.announced) && u.announced.Normalized().None? then e == InvalidDigest
    else if Given(u.announced) && v.expected != "" && u.announced.Normalized() != Some(v.expected) then
      e == DigestConflict
    else if !IsHexDigest(u.actual) || u.size < 0 then e == DigestMismatch
    else if Given(u.announced) && u.announced.Normalized() != Some(u.actual) then e == DigestMismatch
    else if v.expected != "" && v.expected != u.actual then e == DigestMismatch
    else if v.digest != "" && v.digest != u.actual then e == MediaRefused(OwnsOtherBytes)
    else if u.actual in db.blobs && db.blobs[u.actual].size != u.size then e == MediaRefused(BlobSizeConflict)
    else u.now == 0 && e == InvalidRow
  }

  lemma BytesRefused(db: Db, u: Upload, capture: string, b: Binding)
    requires b.variant in db.variants && capture in db.attempts && OpenCapture(db, capture) && !IsBlank(b.client)
    requires b.action == RequestUpload || b.action == ReuseBlob
    requires db.variants[b.variant].custody != Reference && UploadBytes(db, u, capture, b).Err?
    ensures UploadRefused(db, u, capture, b, UploadBytes(db, u, capture, b).error)
  {
    var v := db.variants[b.variant];
    var attached := AttachBlob(db.variants, db.blobs, b.variant, u.actual, u.size, RetentionFor(v.custody));
    if IsHexDigest(u.actual) && u.size >= 0 && attached.Ok? {
      RecordsExactly(db.(variants := attached.value.0, blobs := attached.value.1), capture, b.client,
                     attached.value.0[b.variant], u.now);
    }
  }

  /** Main result: an upload is refused for want of a binding, or for the first thing the binding fails. */
  lemma UploadRefusedExactly(db: Db, u: Upload)
    requires WellFormed(db) && UploadStep(db, u).1.Some?
    ensures var capture, e := Trim(u.capture), UploadStep(db, u).1.value;
            if capture in db.attempts && exists b | b in db.bindings[capture] :: b.client == Trim(u.client)
            then exists b | b in db.bindings[capture] && b.client == Trim(u.client) && b.variant in db.variants ::
                   UploadRefused(db, u, capture, b, e)
            else e == NoSuchBinding
  {
    var capture := Trim(u.capture);
    if capture in db.attempts {
      var bs := db.bindings[capture];
      if k :| 0 <= k < |bs| && bs[k].client == Trim(u.client) {
        var b := bs[k];
        FoundBinding(bs, k);
        assert LookupBinding(db, capture, Trim(u.client)) == Some(b) && b in bs;
        if db.variants[b.variant].custody != Reference && ValidateUpload(db, capture, b).None? {
          BytesRefused(db, u, capture, b);
        }
      } else {
        NotBound(bs, Trim(u.client));
      }
    }
  }
}
