/**
 What acquisition commands guarantee over all runs of commands and of the other work on variants:
 bytes attached, acquisitions failing, and further variants discovered.
 */
module AcquisitionRuns {
  import opened Wrappers
  import opened Text
  import opened Media
  import opened Acquisition

  datatype Op =
    | RequestOp(command: Command)
    | Attach(id: VariantId, digest: string, size: int, retention: Retention)
    | Fail(id: VariantId, failure: Failure)
    | Discover(id: VariantId, v: Variant)

  /** A new variant under its own identity; it may come with bytes, if their blob is stored. */
  predicate Discoverable(t: Tables, id: VariantId, v: Variant) {
    && id !in t.variants && v.asset == id.asset && v.identity == id.identity
    && (v.expected != "" && v.digest != "" ==> v.expected == v.digest)
    && (v.blob != "" ==> v.blob in t.blobs && v.digest == v.blob)
    && (v.custody == Mirror || v.custody == Adopted ==> v.retention == Indefinite)
  }

  function Step(t: Tables, op: Op): Tables {
    match op
    case RequestOp(c) => Request(t, c).0
    case Attach(id, digest, size, retention) =>
      var r := AttachBlob(t.variants, t.blobs, id, digest, size, retention);
      if digest == "" || r.Err? then t else t.(variants := r.value.0, blobs := r.value.1)
    case Fail(id, failure) =>
      var r := MarkFailed(t.variants, id, failure);
      if r.Err? then t else t.(variants := r.value)
    case Discover(id, v) =>
      if Discoverable(t, id, v) then t.(variants := t.variants[id := v], assets := t.assets + {id.asset}) else t
  }

  function Run(t: Tables, ops: seq<Op>): Tables
    decreases |ops|
  {
    if ops == [] then t else Run(Step(t, ops[0]), ops[1..])
  }

  /** No variant is discovered under the identity an acquisition would give its own. */
  predicate Ordinary(op: Op) {
    op.Discover? ==> op.id.identity != AcquisitionIdentity(op.v.kind)
  }

  // ---- Invariants ----

  /** No two receipts share a command id or an idempotency key. */
  ghost predicate UniqueReceipts(receipts: seq<Receipt>) {
    forall i, j | 0 <= i < j < |receipts| ::
      && receipts[i].command.id != receipts[j].command.id
      && receipts[i].command.key != receipts[j].command.key
  }

  /** Each receipt names a variant of its asset and kind, and still the one a command would resolve to. */
  ghost predicate ReceiptsResolve(t: Tables) {
    forall r | r in t.receipts ::
      var pick := Select(t.variants, r.command.asset, r.command.kind);
      pick == Found(r.variant) || pick == Ambiguous
  }

  /** All receipts for one asset and kind name the same variant. */
  ghost predicate ReceiptsAgree(receipts: seq<Receipt>) {
    forall r, q | r in receipts && q in receipts
               && r.command.asset == q.command.asset && r.command.kind == q.command.kind ::
      r.variant == q.variant
  }

  /** Rows are stored under their own identity, and their bytes are stored. */
  ghost predicate VariantsNamed(t: Tables) {
    forall id | id in t.variants ::
      var v := t.variants[id];
      v.asset == id.asset && v.identity == id.identity && (v.blob != "" ==> v.blob in t.blobs)
  }

  ghost predicate Inv(t: Tables) {
    UniqueReceipts(t.receipts) && VariantsNamed(t)
  }

  predicate HeldBy(v: Variant, blobs: map<string, Blob>) {
    v.blob != "" && v.blob in blobs && v.retention == Indefinite ==> blobs[v.blob].retention == Indefinite
  }

  /** The bytes of a variant held indefinitely are held indefinitely. */
  ghost predicate Held(t: Tables) {
    forall id | id in t.variants :: HeldBy(t.variants[id], t.blobs)
  }

  /** A variant discovered with bytes claims no longer retention for them than they have. */
  predicate Claims(t: Tables, op: Op) {
    op.Discover? && Discoverable(t, op.id, op.v) ==> HeldBy(op.v, t.blobs)
  }

  predicate AllClaim(t: Tables, ops: seq<Op>)
    decreases |ops|
  {
    ops != [] ==> Claims(t, ops[0]) && AllClaim(Step(t, ops[0]), ops[1..])
  }

  /** Receipts go on naming the variant that commands resolve to. */
  ghost predicate Steady(t: Tables) {
    ReceiptsResolve(t) && ReceiptsAgree(t.receipts)
  }

  /** Custody moves along a partial order. */
  lemma CustodyIsOrdered(a: Custody, b: Custody, c: Custody)
    ensures TransitionAllowed(a, a)
    ensures TransitionAllowed(a, b) && TransitionAllowed(b, a) ==> a == b
    ensures TransitionAllowed(a, b) && TransitionAllowed(b, c) ==> TransitionAllowed(a, c)
  {
  }

  /** What every step keeps: receipts are never changed, custody only rises, bytes are never lost. */
  ghost predicate Keeps(before: Tables, after: Tables) {
    && before.receipts <= after.receipts
    && KeepsVerified(before.variants, after.variants)
    && forall id | id in before.variants ::
         && id in after.variants
         && after.variants[id].asset == before.variants[id].asset
         && after.variants[id].kind == before.variants[id].kind
         && TransitionAllowed(before.variants[id].custody, after.variants[id].custody)
         && (before.variants[id].state == Available ==> after.variants[id].state == Available)
  }

  /** Selection looks only at which variants exist, of which asset and kind. */
  lemma SelectSame(a: map<VariantId, Variant>, b: map<VariantId, Variant>, asset: string, kind: string)
    requires a.Keys == b.Keys && forall id | id in a :: a[id].asset == b[id].asset && a[id].kind == b[id].kind
    ensures Select(a, asset, kind) == Select(b, asset, kind)
  {
    assert Candidates(a, asset, kind) == Candidates(b, asset, kind);
  }

  /** A further variant leaves a selection as it was or makes the kind ambiguous. */
  lemma SelectGrown(a: map<VariantId, Variant>, id: VariantId, v: Variant, asset: string, kind: string)
    requires id !in a && v.asset == id.asset && id.identity != AcquisitionIdentity(v.kind)
    requires forall i | i in a :: a[i].asset == i.asset
    requires Select(a, asset, kind) != Nothing
    ensures Select(a[id := v], asset, kind) in {Select(a, asset, kind), Ambiguous}
  {
    var before, after := Candidates(a, asset, kind), Candidates(a[id := v], asset, kind);
    if v.asset == asset && v.kind == kind {
      assert after == before + {id} && |after| == |before| + 1 >= 2;
      var own := VariantId(asset, AcquisitionIdentity(kind));
      if own in after {
        assert own in before;
        if |before| == 1 {
          Singleton(before);
        }
      }
    } else {
      assert after == before;
    }
  }

  /** A variant created because its asset had none of the kind is the one selected from then on. */
  lemma SelectCreated(a: map<VariantId, Variant>, id: VariantId, v: Variant, asset: string, kind: string)
    requires id !in a && Select(a, v.asset, v.kind) == Nothing
    ensures Select(a[id := v], asset, kind)
         == if asset == v.asset && kind == v.kind then Found(id) else Select(a, asset, kind)
  {
    var before, after := Candidates(a, asset, kind), Candidates(a[id := v], asset, kind);
    if asset == v.asset && kind == v.kind {
      assert after == {id};
    } else {
      assert after == before;
    }
  }

  // ---- What one command does ----

  /** Which variant a command is about, in terms of the variants of its asset and kind. */
  predicate OfKind(variants: map<VariantId, Variant>, id: VariantId, asset: string, kind: string) {
    id in variants && variants[id].asset == asset && variants[id].kind == kind
  }

  lemma SelectExactly(variants: map<VariantId, Variant>, asset: string, kind: string)
    ensures var pick, own := Select(variants, asset, kind), VariantId(asset, "acquisition:" + kind);
            && (pick == Nothing <==> forall id :: !OfKind(variants, id, asset, kind))
            && (forall id :: pick == Found(id) <==>
                  && OfKind(variants, id, asset, kind)
                  && (id == own || forall other | OfKind(variants, other, asset, kind) :: other == id)
                  && (OfKind(variants, own, asset, kind) ==> id == own))
            && (pick == Ambiguous <==>
                  && !OfKind(variants, own, asset, kind)
                  && exists a, b :: OfKind(variants, a, asset, kind) && OfKind(variants, b, asset, kind) && a != b)
  {
    var candidates, own := Candidates(variants, asset, kind), VariantId(asset, "acquisition:" + kind);
    assert forall id :: id in candidates <==> OfKind(variants, id, asset, kind);
    if |candidates| == 1 {
      Singleton(candidates);
    } else if candidates != {} {
      var a :| a in candidates;
      assert candidates == {a} + (candidates - {a});
      var b :| b in candidates - {a};
    }
  }

  /** An existing variant is refused exactly when its custody would leave the order. */
  lemma RefusedByCustody(t: Tables, id: VariantId, c: Command)
    requires id in t.variants && c.custody != Reference
    ensures Advance(t, id, c).Err? ==> Advance(t, id, c) == Err(CustodyRefused)
    ensures Advance(t, id, c).Err?
            <==> || (t.variants[id].custody == Mirror && c.custody != Mirror)
                 || (t.variants[id].custody == Adopted && c.custody != Adopted)
                 || (t.variants[id].custody == Cache && c.custody == Adopted)
  {
  }

  /** What a variant is once a command for it has been granted; everything not named here is as before. */
  predicate Granted(v: Variant, c: Command, available: bool) {
    && v.asset == c.asset && v.kind == c.kind && v.custody == c.custody && v.failure == None
    && v.retention == (if c.custody == Cache then CacheOnly else Indefinite)
    && v.state == (if available then Available else Pending)
  }

  /** Advancing one variant: its own row, and the retention of the bytes it has. */
  lemma AdvanceExactly(t: Tables, id: VariantId, c: Command, next: Tables)
    requires OfKind(t.variants, id, c.asset, c.kind) && c.custody != Reference && Advance(t, id, c) == Ok(next)
    ensures next.assets == t.assets && next.receipts == t.receipts && next.variants.Keys == t.variants.Keys
    ensures forall i | i in t.variants && i != id :: next.variants[i] == t.variants[i]
    ensures Granted(next.variants[id], c, t.variants[id].state == Available)
    ensures var v, w := t.variants[id], next.variants[id];
            && w.identity == v.identity && w.expected == v.expected && w.digest == v.digest && w.blob == v.blob
            && w.size == v.size && w.createdAt == v.createdAt
    ensures next.blobs.Keys == t.blobs.Keys
    ensures forall d | d in t.blobs ::
              && next.blobs[d].size == t.blobs[d].size
              && next.blobs[d].retention
              == (if d == t.variants[id].blob && d != "" && c.custody != Cache then Indefinite
                                             else t.blobs[d].retention)
  {
  }

  /**
   Main result: a recorded command's receipt carries the command as it was trimmed, and names the one
   variant it has changed: one of its asset and kind, with the custody and retention asked for, no
   failure, available if it was and else pending. A variant it had to create is the acquisition's own,
   without bytes. Nothing else changes but the retention of that variant's bytes.
   */
  lemma RecordedExactly(t: Tables, command: Command)
    requires Request(t, command).1.Recorded?
    ensures var (after, reply) := Request(t, command);
            var c, id := reply.receipt.command, reply.receipt.variant;
            && c == Trimmed(command) && after.receipts == t.receipts + [reply.receipt] && after.assets == t.assets
            && c.asset in t.assets && after.variants.Keys == t.variants.Keys + {id}
            && (forall i | i in t.variants && i != id :: after.variants[i] == t.variants[i])
            && Granted(after.variants[id], c, id in t.variants && t.variants[id].state == Available)
            && (id !in t.variants ==>
                  var v := after.variants[id];
                  && id == VariantId(c.asset, "acquisition:" + c.kind) && v.identity == id.identity
                  && v.expected == v.digest == v.blob == "" && v.size == 0 && v.createdAt == c.now
                  && after.blobs == t.blobs && forall i :: !OfKind(t.variants, i, c.asset, c.kind))
            && after.blobs.Keys == t.blobs.Keys
  {
    var c := Trimmed(command);
    SelectExactly(t.variants, c.asset, c.kind);
    SelectedExists(t.variants, c.asset, c.kind);
    var (next, id) := Resolve(t, c).value;
    if id in t.variants {
      assert Select(t.variants, c.asset, c.kind) == Found(id);
      AdvanceExactly(t, id, c, next);
    }
  }

  /** The command as it is compared: its texts without white space at their ends. */
  lemma TrimmedFields(c: Command)
    ensures var r := Trimmed(c);
            && r.id == Trim(c.id) && r.key == Trim(c.key) && r.digest == Trim(c.digest) && r.asset == Trim(c.asset)
            && r.actor == Trim(c.actor) && r.reason == Trim(c.reason)
            && r.kind == c.kind && r.custody == c.custody && r.now == c.now
  {
  }

  lemma PrecedentExists(receipts: seq<Receipt>, c: Command)
    ensures Precedent(receipts, c).Some?
            <==> exists k | 0 <= k < |receipts| :: receipts[k].command.id == c.id || receipts[k].command.key == c.key
  {
    if FindById(receipts, c.id).None? && FindByKey(receipts, c.key).None? {
      forall k | 0 <= k < |receipts| ensures receipts[k].command.id != c.id && receipts[k].command.key != c.key {
        FindByIdNone(receipts, c.id, k);
        FindByKeyNone(receipts, c.key, k);
      }
    } else if FindById(receipts, c.id).Some? {
      var k := FindIdAt(receipts, c.id);
    } else {
      var k := FindKeyAt(receipts, c.key);
    }
  }

  lemma {:induction false} FindIdAt(receipts: seq<Receipt>, id: string) returns (k: nat)
    requires FindById(receipts, id).Some?
    ensures k < |receipts| && receipts[k].command.id == id
  {
    if receipts[0].command.id == id {
      k := 0;
    } else {
      k := FindIdAt(receipts[1..], id);
      k := k + 1;
    }
  }

  lemma {:induction false} FindKeyAt(receipts: seq<Receipt>, key: string) returns (k: nat)
    requires FindByKey(receipts, key).Some?
    ensures k < |receipts| && receipts[k].command.key == key
  {
    if receipts[0].command.key == key {
      k := 0;
    } else {
      k := FindKeyAt(receipts[1..], key);
      k := k + 1;
    }
  }

  /** Two commands mean the same when they agree on everything but their time. */
  lemma SemanticsExactly(a: Command, b: Command)
    ensures SameSemantics(a, b)
            <==> && a.id == b.id && a.key == b.key && a.digest == b.digest && a.asset == b.asset && a.kind == b.kind
                 && a.custody == b.custody && a.actor == b.actor && a.reason == b.reason
  {
  }

  /** A command lacks nothing it must have. */
  predicate HasFields(c: Command) {
    && Trim(c.id) != "" && Trim(c.key) != "" && Trim(c.digest) != "" && Trim(c.asset) != "" && Trim(c.actor) != ""
    && c.now != 0
  }

  predicate NamesKind(c: Command) {
    c.kind in ["original", "preview", "thumbnail", "poster", "audio", "subtitles", "transcript"]
  }

  predicate SharesReceipt(t: Tables, c: Command) {
    exists k | 0 <= k < |t.receipts| ::
      t.receipts[k].command.id == Trim(c.id) || t.receipts[k].command.key == Trim(c.key)
  }

  /** Exactly when a command is refused before any variant is looked at, and why. */
  lemma RefusedExactly(t: Tables, c: Command)
    ensures Request(t, c).1 == Refused(MissingFields) <==> !HasFields(c)
    ensures Request(t, c).1 == Refused(InvalidKind) <==> HasFields(c) && !NamesKind(c)
    ensures Request(t, c).1 == Refused(InvalidCustody) <==> HasFields(c) && NamesKind(c) && c.custody == Reference
    ensures Request(t, c).1 == Refused(NoSuchAsset)
            <==> && HasFields(c) && NamesKind(c) && c.custody != Reference
                 && !SharesReceipt(t, c) && Trim(c.asset) !in t.assets
  {
    PrecedentExists(t.receipts, Trimmed(c));
  }

  /** A command finds a variant it may advance, or none of its kind and room for one. */
  predicate Grantable(t: Tables, c: Command) {
    match Select(t.variants, Trim(c.asset), c.kind)
    case Ambiguous => false
    case Nothing => VariantId(Trim(c.asset), "acquisition:" + c.kind) !in t.variants
    case Found(id) =>
      id in t.variants &&
      var custody := t.variants[id].custody;
      custody == Reference || custody == c.custody || (custody == Cache && c.custody == Mirror)
  }

  /** Exactly when a command is recorded. */
  lemma RecordedWhen(t: Tables, c: Command)
    ensures Request(t, c).1.Recorded?
            <==> && HasFields(c) && NamesKind(c) && c.custody != Reference
                 && !SharesReceipt(t, c) && Trim(c.asset) in t.assets && Grantable(t, c)
  {
    PrecedentExists(t.receipts, Trimmed(c));
    SelectedExists(t.variants, Trim(c.asset), c.kind);
  }

  lemma {:induction false} FindByIdNone(receipts: seq<Receipt>, id: string, k: nat)
    requires FindById(receipts, id).None? && k < |receipts|
    ensures receipts[k].command.id != id
  {
    if k > 0 {
      FindByIdNone(receipts[1..], id, k - 1);
    }
  }

  lemma {:induction false} FindByKeyNone(receipts: seq<Receipt>, key: string, k: nat)
    requires FindByKey(receipts, key).None? && k < |receipts|
    ensures receipts[k].command.key != key
  {
    if k > 0 {
      FindByKeyNone(receipts[1..], key, k - 1);
    }
  }

  /** A new receipt is unlike all others. */
  lemma NewReceiptUnique(receipts: seq<Receipt>, r: Receipt)
    requires UniqueReceipts(receipts) && Precedent(receipts, r.command).None?
    ensures UniqueReceipts(receipts + [r])
  {
    forall k | 0 <= k < |receipts|
      ensures receipts[k].command.id != r.command.id && receipts[k].command.key != r.command.key
    {
      FindByIdNone(receipts, r.command.id, k);
      FindByKeyNone(receipts, r.command.key, k);
    }
  }

  /** Granting a command on an existing variant. */
  lemma AdvanceKeeps(t: Tables, id: VariantId, c: Command, next: Tables)
    requires VariantsNamed(t) && id in t.variants && c.custody != Reference && Advance(t, id, c) == Ok(next)
    ensures VariantsNamed(next) && Keeps(t, next) && next.receipts == t.receipts && (Held(t) ==> Held(next))
    ensures forall asset, kind :: Select(next.variants, asset, kind) == Select(t.variants, asset, kind)
  {
    forall asset, kind ensures Select(next.variants, asset, kind) == Select(t.variants, asset, kind) {
      SelectSame(t.variants, next.variants, asset, kind);
    }
  }

  lemma ResolveKeeps(t: Tables, c: Command, next: Tables, id: VariantId)
    requires Inv(t) && c.custody != Reference && Resolve(t, c) == Ok((next, id))
    ensures VariantsNamed(next) && Keeps(t, next) && next.receipts == t.receipts && (Held(t) ==> Held(next))
    ensures Select(next.variants, c.asset, c.kind) == Found(id)
    ensures ReceiptsResolve(t) ==> forall r | r in t.receipts ::
              Select(next.variants, r.command.asset, r.command.kind)
              == Select(t.variants, r.command.asset, r.command.kind)
  {
    match Select(t.variants, c.asset, c.kind)
    case Found(_) =>
      SelectedExists(t.variants, c.asset, c.kind);
      AdvanceKeeps(t, id, c, next);
    case Nothing =>
      forall asset, kind
        ensures Select(next.variants, asset, kind)
             == if asset == c.asset && kind == c.kind then Found(id) else Select(t.variants, asset, kind)
      {
        SelectCreated(t.variants, id, next.variants[id], asset, kind);
      }
    case Ambiguous =>
  }

  lemma RecordKeeps(t: Tables, c: Command, next: Tables, id: VariantId)
    requires Inv(t) && c.custody != Reference && Precedent(t.receipts, c).None? && Resolve(t, c) == Ok((next, id))
    ensures Inv(next.(receipts := next.receipts + [Receipt(c, id)]))
    ensures Keeps(t, next.(receipts := next.receipts + [Receipt(c, id)]))
    ensures Held(t) ==> Held(next.(receipts := next.receipts + [Receipt(c, id)]))
  {
    ResolveKeeps(t, c, next, id);
    NewReceiptUnique(t.receipts, Receipt(c, id));
  }

  lemma RecordIsSteady(t: Tables, c: Command, next: Tables, id: VariantId)
    requires Inv(t) && Steady(t) && c.custody != Reference && Resolve(t, c) == Ok((next, id))
    ensures Steady(next.(receipts := next.receipts + [Receipt(c, id)]))
  {
    ResolveKeeps(t, c, next, id);
    forall q | q in t.receipts && q.command.asset == c.asset && q.command.kind == c.kind ensures q.variant == id {
      assert Select(next.variants, q.command.asset, q.command.kind) == Found(id);
    }
  }

  lemma RequestKeeps(t: Tables, command: Command)
    requires Inv(t)
    ensures Inv(Request(t, command).0) && Keeps(t, Request(t, command).0)
    ensures (Steady(t) ==> Steady(Request(t, command).0)) && (Held(t) ==> Held(Request(t, command).0))
  {
    var c := Trimmed(command);
    if Request(t, command).1.Recorded? {
      var (next, id) := Resolve(t, c).value;
      RecordKeeps(t, c, next, id);
      if Steady(t) {
        RecordIsSteady(t, c, next, id);
      }
    }
  }

  lemma StillResolve(t: Tables, next: Tables)
    requires next.receipts == t.receipts && next.variants.Keys == t.variants.Keys
    requires forall id | id in t.variants ::
               t.variants[id].asset == next.variants[id].asset && t.variants[id].kind == next.variants[id].kind
    ensures Steady(t) ==> Steady(next)
  {
    forall r | r in t.receipts
      ensures Select(next.variants, r.command.asset, r.command.kind)
           == Select(t.variants, r.command.asset, r.command.kind)
    {
      SelectSame(t.variants, next.variants, r.command.asset, r.command.kind);
    }
  }

  lemma AttachKeeps(t: Tables, id: VariantId, digest: string, size: int, retention: Retention)
    requires Inv(t)
    ensures var next := Step(t, Attach(id, digest, size, retention));
            Inv(next) && Keeps(t, next) && (Steady(t) ==> Steady(next)) && (Held(t) ==> Held(next))
  {
    StillResolve(t, Step(t, Attach(id, digest, size, retention)));
  }

  lemma FailKeeps(t: Tables, id: VariantId, failure: Failure)
    requires Inv(t)
    ensures var next := Step(t, Fail(id, failure));
            Inv(next) && Keeps(t, next) && (Steady(t) ==> Steady(next)) && (Held(t) ==> Held(next))
  {
    StillResolve(t, Step(t, Fail(id, failure)));
  }

  lemma DiscoverKeeps(t: Tables, id: VariantId, v: Variant)
    requires Inv(t)
    ensures Inv(Step(t, Discover(id, v))) && Keeps(t, Step(t, Discover(id, v)))
  {
  }

  lemma DiscoveryIsSteady(t: Tables, id: VariantId, v: Variant)
    requires Inv(t) && Steady(t) && Ordinary(Discover(id, v))
    ensures Steady(Step(t, Discover(id, v)))
  {
    var next := Step(t, Discover(id, v));
    if next != t {
      forall r | r in t.receipts
        ensures Select(next.variants, r.command.asset, r.command.kind)
             in {Select(t.variants, r.command.asset, r.command.kind), Ambiguous}
      {
        SelectGrown(t.variants, id, v, r.command.asset, r.command.kind);
      }
    }
  }

  lemma StepKeeps(t: Tables, op: Op)
    requires Inv(t)
    ensures Inv(Step(t, op)) && Keeps(t, Step(t, op))
    ensures Steady(t) && Ordinary(op) ==> Steady(Step(t, op))
    ensures Held(t) && Claims(t, op) ==> Held(Step(t, op))
  {
    match op
    case RequestOp(c) => RequestKeeps(t, c);
    case Attach(id, digest, size, retention) => AttachKeeps(t, id, digest, size, retention);
    case Fail(id, failure) => FailKeeps(t, id, failure);
    case Discover(id, v) =>
      DiscoverKeeps(t, id, v);
      if Steady(t) && Ordinary(op) {
        DiscoveryIsSteady(t, id, v);
      }
  }

  /**
   Main result: over every run, receipts stay unique and unchanged, custody only rises, and available
   variants stay available with their bytes. If no variant is discovered under an acquisition's own
   identity, all receipts for an asset and kind name the one variant commands resolve to; and if none is
   discovered to be held longer than its bytes, the bytes of indefinite variants stay indefinite.
   */
  lemma {:induction false} RunKeeps(t: Tables, ops: seq<Op>)
    requires Inv(t)
    ensures Inv(Run(t, ops)) && Keeps(t, Run(t, ops))
    ensures Steady(t) && (forall op | op in ops :: Ordinary(op)) ==> Steady(Run(t, ops))
    ensures Held(t) && AllClaim(t, ops) ==> Held(Run(t, ops))
    decreases |ops|
  {
    if ops != [] {
      assert ops[0] in ops;
      StepKeeps(t, ops[0]);
      RunKeeps(Step(t, ops[0]), ops[1..]);
    }
  }

  /** Exactly when a discovery leaves the bytes of indefinite variants indefinite. */
  lemma DiscoveryHeldExactly(t: Tables, id: VariantId, v: Variant)
    requires Held(t)
    ensures Held(Step(t, Discover(id, v)))
            <==> || !Discoverable(t, id, v) || v.blob == "" || v.retention != Indefinite
                 || t.blobs[v.blob].retention == Indefinite
  {
    var next := Step(t, Discover(id, v));
    if Discoverable(t, id, v) {
      assert next.variants[id] == v && next.blobs == t.blobs;
      forall i | i in t.variants ensures HeldBy(next.variants[i], next.blobs) {
        assert HeldBy(t.variants[i], t.blobs);
      }
    }
  }

  predicate Concerns(r: Receipt, v: Variant) {
    r.command.asset == v.asset && r.command.kind == v.kind
  }

  lemma OtherSelections(t: Tables, id: VariantId, v: Variant, r: Receipt)
    requires id !in t.variants && !Concerns(r, v)
    ensures Select(t.variants[id := v], r.command.asset, r.command.kind)
         == Select(t.variants, r.command.asset, r.command.kind)
  {
    assert Candidates(t.variants[id := v], r.command.asset, r.command.kind)
        == Candidates(t.variants, r.command.asset, r.command.kind);
  }

  /** An acquisition's own identity, once discovered, is selected over a variant there was before. */
  lemma ReservedIsSelected(t: Tables, id: VariantId, v: Variant)
    requires id !in t.variants && v.asset == id.asset && id.identity == AcquisitionIdentity(v.kind)
    requires Select(t.variants, v.asset, v.kind) != Nothing
    ensures Select(t.variants[id := v], v.asset, v.kind) == Found(id)
  {
    var before, after := Candidates(t.variants, v.asset, v.kind), Candidates(t.variants[id := v], v.asset, v.kind);
    assert after == before + {id} && |after| == |before| + 1 >= 2;
  }

  /** Exactly when a discovery leaves the receipts naming what commands resolve to. */
  lemma DiscoverySteadyExactly(t: Tables, id: VariantId, v: Variant)
    requires Inv(t) && Steady(t) && forall r | r in t.receipts :: r.variant in t.variants
    ensures Steady(Step(t, Discover(id, v)))
            <==> || Ordinary(Discover(id, v)) || Step(t, Discover(id, v)) == t
                 || forall r | r in t.receipts :: !Concerns(r, v)
  {
    var next := Step(t, Discover(id, v));
    if Ordinary(Discover(id, v)) {
      DiscoveryIsSteady(t, id, v);
    } else if next != t {
      if r :| r in t.receipts && Concerns(r, v) {
        ReservedIsSelected(t, id, v);
        assert r in next.receipts && r.variant != id;
      } else {
        forall r | r in t.receipts
          ensures Select(next.variants, r.command.asset, r.command.kind)
               == Select(t.variants, r.command.asset, r.command.kind)
        {
          OtherSelections(t, id, v, r);
        }
      }
    }
  }

  /** One asset with one discovered variant, and a receipt for it. */
  const FOUND := VariantId("a", "file")
  const OWN := VariantId("a", AcquisitionIdentity("original"))
  const COMMAND := Command("c", "k", "d", "a", "original", Mirror, "u", "", 1)

  function OriginalUnder(identity: string): Variant {
    Variant("a", identity, "original", Mirror, Pending, Indefinite, "", "", "", 0, None, 1)
  }

  const GRANTED := Tables({"a"}, map[FOUND := OriginalUnder("file")], map[], [Receipt(COMMAND, FOUND)])

  /** An indefinite variant discovered on bytes that are only cached. */
  lemma CachedBytesClaimed()
    ensures var t := Tables({}, map[], map["d" := Blob(1, CacheOnly)], []);
            var v := Variant("a", "file", "original", Mirror, Available, Indefinite, "d", "d", "d", 1, None, 1);
            Inv(t) && Held(t) && Discoverable(t, FOUND, v) && !Held(Step(t, Discover(FOUND, v)))
  {
    var t := Tables({}, map[], map["d" := Blob(1, CacheOnly)], []);
    var v := Variant("a", "file", "original", Mirror, Available, Indefinite, "d", "d", "d", 1, None, 1);
    DiscoveryHeldExactly(t, FOUND, v);
  }

  /** A variant discovered under an acquisition's own identity is what later commands resolve to. */
  lemma ReservedIdentityDiverts()
    ensures Inv(GRANTED) && Steady(GRANTED)
    ensures var op := Discover(OWN, OriginalUnder(AcquisitionIdentity("original")));
            !Ordinary(op) && Select(Step(GRANTED, op).variants, "a", "original") == Found(OWN)
            && !Steady(Step(GRANTED, op))
  {
    assert Candidates(GRANTED.variants, "a", "original") == {FOUND};
    var op := Discover(OWN, OriginalUnder(AcquisitionIdentity("original")));
    assert Candidates(Step(GRANTED, op).variants, "a", "original") == {FOUND, OWN};
    assert Receipt(COMMAND, FOUND) in Step(GRANTED, op).receipts;
  }

  lemma {:induction false} FoundById(receipts: seq<Receipt>, k: nat)
    requires UniqueReceipts(receipts) && k < |receipts|
    ensures FindById(receipts, receipts[k].command.id) == Some(receipts[k])
    ensures FindByKey(receipts, receipts[k].command.key) == Some(receipts[k])
  {
    if k > 0 {
      FoundById(receipts[1..], k - 1);
    }
  }

  /** A command that shares its id or its key with a stored receipt is settled by that receipt. */
  lemma PrecedentOf(receipts: seq<Receipt>, k: nat, d: Command)
    requires UniqueReceipts(receipts) && k < |receipts|
    requires d.id == receipts[k].command.id || d.key == receipts[k].command.key
    ensures Precedent(receipts, d).Some?
    ensures if SameSemantics(receipts[k].command, d) then Precedent(receipts, d).value == Replayed(receipts[k])
            else Precedent(receipts, d).value.Refused?
  {
    FoundById(receipts, k);
    if FindById(receipts, d.id).Some? {
      FoundId(receipts, d.id);
    }
  }

  lemma Answered(t: Tables, k: nat, again: Command)
    requires UniqueReceipts(t.receipts) && k < |t.receipts| && Validate(Trimmed(again)).None?
    requires Trimmed(again).id == t.receipts[k].command.id || Trimmed(again).key == t.receipts[k].command.key
    ensures Request(t, again).0 == t
    ensures if SameSemantics(t.receipts[k].command, Trimmed(again))
            then Request(t, again).1 == Replayed(t.receipts[k]) else Request(t, again).1.Refused?
  {
    PrecedentOf(t.receipts, k, Trimmed(again));
  }

  lemma AnsweredLater(t: Tables, k: nat, ops: seq<Op>, again: Command)
    requires Inv(t) && k < |t.receipts| && Validate(Trimmed(again)).None?
    requires Trimmed(again).id == t.receipts[k].command.id || Trimmed(again).key == t.receipts[k].command.key
    ensures var later := Run(t, ops);
            && Request(later, again).0 == later
            && (if SameSemantics(t.receipts[k].command, Trimmed(again))
                then Request(later, again).1 == Replayed(t.receipts[k]) else Request(later, again).1.Refused?)
  {
    RunKeeps(t, ops);
    Answered(Run(t, ops), k, again);
  }

  lemma LastRecorded(t: Tables, command: Command)
    requires Request(t, command).1.Recorded?
    ensures var recorded, receipt := Request(t, command).0, Request(t, command).1.receipt;
            && |recorded.receipts| > 0 && recorded.receipts[|recorded.receipts| - 1] == receipt
            && receipt.command == Trimmed(command)
  {
  }

  lemma {:induction false} FoundId(receipts: seq<Receipt>, id: string)
    requires FindById(receipts, id).Some?
    ensures FindById(receipts, id).value.command.id == id
  {
    if receipts[0].command.id != id {
      FoundId(receipts[1..], id);
    }
  }

  /**
   Main result: once a command is recorded, then after any run the same command is answered with the
   original receipt, whatever its time; a command that reuses its id or its key with any other
   difference is refused. Neither changes anything.
   */
  lemma RecordedIsReplayed(t: Tables, command: Command, ops: seq<Op>, again: Command)
    requires Inv(t) && Request(t, command).1.Recorded?
    requires Validate(Trimmed(again)).None?
    requires Trimmed(again).id == Trimmed(command).id || Trimmed(again).key == Trimmed(command).key
    ensures var later, receipt := Run(Request(t, command).0, ops), Request(t, command).1.receipt;
            && Request(later, again).0 == later
            && (if SameSemantics(Trimmed(command), Trimmed(again))
                then Request(later, again).1 == Replayed(receipt)
                else Request(later, again).1.Refused?)
  {
    RequestKeeps(t, command);
    LastRecorded(t, command);
    AnsweredLater(Request(t, command).0, |Request(t, command).0.receipts| - 1, ops, again);
  }
}
