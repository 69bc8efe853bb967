/**
 Revisions of a fragment (internal/repository/attachments.go: ensureAttachmentManifestRevision;
 internal/repository/fragments.go: the ingest path, which adds revisions in the same way).

 A revision's ID is an injective digest of its fragment and material digest, so the pair stands for it.
 Revision rows are kept in insertion order.
 */
module Revisions {
  import opened Wrappers
  import opened RevisionMaterial

  datatype RevisionId = RevisionId(fragment: string, digest: string)

  datatype Revision = Revision(id: RevisionId, fragment: string, ordinal: nat, digest: string, contentDigest: string,
                               body: Body, mediaDigest: string)

  datatype FragmentRow = FragmentRow(accepted: RevisionId, current: RevisionId, contentHash: string, ingestedAt: int)

  datatype Tables = Tables(fragments: map<string, FragmentRow>, revisions: seq<Revision>)

  datatype Error = NoCurrentRevision

  // ---- Queries ----

  function ById(rows: seq<Revision>, id: RevisionId): Option<Revision> {
    if rows == [] then None
    else if rows[|rows| - 1].id == id then Some(rows[|rows| - 1])
    else ById(rows[..|rows| - 1], id)
  }

  function ByDigest(rows: seq<Revision>, fragment: string, digest: string): Option<Revision> {
    if rows == [] then None
    else
      var r := rows[|rows| - 1];
      if r.fragment == fragment && r.digest == digest then Some(r) else ByDigest(rows[..|rows| - 1], fragment, digest)
  }

  function MaxOrdinal(rows: seq<Revision>, fragment: string): nat {
    if rows == [] then 0
    else
      var r, n := rows[|rows| - 1], MaxOrdinal(rows[..|rows| - 1], fragment);
      if r.fragment == fragment && r.ordinal > n then r.ordinal else n
  }

  /** The current revision of a fragment, as the join of the two tables gives it. */
  function Current(t: Tables, fragment: string): Option<Revision> {
    if fragment in t.fragments then ById(t.revisions, t.fragments[fragment].current) else None
  }

  // ---- The transactions ----

  function NewRevision(ds: Digests, rows: seq<Revision>, fragment: string, body: Body, media: seq<Descriptor>)
    : Revision
  {
    var digest := ds.material(MaterialOf(ds, body, media));
    Revision(RevisionId(fragment, digest), fragment, MaxOrdinal(rows, fragment) + 1, digest,
             ds.text(body.content), body, ds.media(media))
  }

  /** The revision with this material, found or added, is made the current one. */
  function Select(ds: Digests, t: Tables, fragment: string, body: Body, media: seq<Descriptor>, now: int)
    : (Tables, RevisionId)
  {
    var found := ByDigest(t.revisions, fragment, ds.material(MaterialOf(ds, body, media)));
    var added := NewRevision(ds, t.revisions, fragment, body, media);
    var id := if found.Some? then found.value.id else added.id;
    (Tables(t.fragments[fragment := FragmentRow(id, id, ds.text(body.content), now)],
            if found.Some? then t.revisions else t.revisions + [added]), id)
  }

  /** Replacing a fragment's attachments: nothing when the manifest is the current one. */
  function Ensure(ds: Digests, t: Tables, fragment: string, attachments: seq<Attachment>, now: int)
    : (Tables, Result<RevisionId, Error>)
  {
    var current := Current(t, fragment);
    if current.None? then (t, Err(NoCurrentRevision))
    else
      var media := DescribeAll(attachments);
      if ds.media(media) == current.value.mediaDigest then (t, Ok(current.value.id))
      else
        var (after, id) := Select(ds, t, fragment, NormalBody(current.value.body), media, now);
        (after, Ok(id))
  }

  /** Ingesting a fragment's material: nothing when it is the current revision's. */
  function Ingest(ds: Digests, t: Tables, fragment: string, body: Body, attachments: seq<Attachment>, now: int)
    : Tables
  {
    var media := DescribeAll(attachments);
    var found := ByDigest(t.revisions, fragment, ds.material(MaterialOf(ds, NormalBody(body), media)));
    if found.Some? && fragment in t.fragments && t.fragments[fragment].current == found.value.id then t
    else Select(ds, t, fragment, NormalBody(body), media, now).0
  }

  class RevisionStore {
    const ds: Digests
    var tables: Tables

    /** Makes the revision with material `m` the current one, adding it if there is none. */
    method SelectRevision(fragment: string, m: Material, now: int) returns (id: RevisionId)
      requires m.mediaDigest == ds.media(m.media)
      modifies this
      ensures (tables, id)
           == Select(ds, old(tables), fragment, Body(m.title, m.description, m.content, m.format), m.media, now)
    {
      var digest := ds.material(m);
      var found := ByDigest(tables.revisions, fragment, digest);
      if found.Some? {
        id := found.value.id;
      } else {
        var ordinal := MaxOrdinal(tables.revisions, fragment) + 1;
        id := RevisionId(fragment, digest);
        var added := Revision(id, fragment, ordinal, digest, ds.text(m.content),
                              Body(m.title, m.description, m.content, m.format), m.mediaDigest);
        tables := tables.(revisions := tables.revisions + [added]);
      }
      tables := tables.(fragments := tables.fragments[fragment := FragmentRow(id, id, ds.text(m.content), now)]);
    }

    method EnsureAttachmentManifestRevision(fragment: string, attachments: seq<Attachment>, now: int)
      returns (r: Result<RevisionId, Error>)
      modifies this
      ensures (tables, r) == Ensure(ds, old(tables), fragment, attachments, now)
    {
      var current := Current(tables, fragment);
      if current.None? {
        return Err(NoCurrentRevision);
      }
      var material := NormalizeMaterial(ds, current.value.body, attachments);
      if material.mediaDigest == current.value.mediaDigest {
        return Ok(current.value.id);
      }
      var id := SelectRevision(fragment, material, now);
      return Ok(id);
    }

    method IngestMaterial(fragment: string, body: Body, attachments: seq<Attachment>, now: int)
      modifies this
      ensures tables == Ingest(ds, old(tables), fragment, body, attachments, now)
    {
      var material := NormalizeMaterial(ds, body, attachments);
      var found := ByDigest(tables.revisions, fragment, ds.material(material));
      if found.Some? && fragment in tables.fragments && tables.fragments[fragment].current == found.value.id {
        return;
      }
      var _ := SelectRevision(fragment, material, now);
    }
  }

  // ---- What every run keeps ----

  datatype Op =
    | EnsureOp(fragment: string, attachments: seq<Attachment>, now: int)
    | IngestOp(fragment: string, body: Body, attachments: seq<Attachment>, now: int)

  function Step(ds: Digests, t: Tables, op: Op): Tables {
    match op
    case EnsureOp(fragment, attachments, now) => Ensure(ds, t, fragment, attachments, now).0
    case IngestOp(fragment, body, attachments, now) => Ingest(ds, t, fragment, body, attachments, now)
  }

  function Run(ds: Digests, t: Tables, ops: seq<Op>): Tables {
    if ops == [] then t else Step(ds, Run(ds, t, ops[..|ops| - 1]), ops[|ops| - 1])
  }

  function CountOf(rows: seq<Revision>, fragment: string): nat {
    if rows == [] then 0
    else CountOf(rows[..|rows| - 1], fragment) + (if rows[|rows| - 1].fragment == fragment then 1 else 0)
  }

  /** A row is normalized, and its digests are those of its material. */
  ghost predicate RowOk(ds: Digests, r: Revision) {
    && r.id == RevisionId(r.fragment, r.digest)
    && r.body == NormalBody(r.body) && r.contentDigest == ds.text(r.body.content)
    && exists media :: ds.media(media) == r.mediaDigest && ds.material(MaterialOf(ds, r.body, media)) == r.digest
  }

  /** Such a row is the next of its fragment, with material that no earlier one has. */
  ghost predicate NextRow(ds: Digests, rows: seq<Revision>, r: Revision) {
    RowOk(ds, r) && r.ordinal == CountOf(rows, r.fragment) + 1 && ByDigest(rows, r.fragment, r.digest).None?
  }

  ghost predicate RowsOk(ds: Digests, rows: seq<Revision>) {
    rows == [] || (RowsOk(ds, rows[..|rows| - 1]) && NextRow(ds, rows[..|rows| - 1], rows[|rows| - 1]))
  }

  /** A fragment names one of its revisions as current and as accepted. */
  ghost predicate CurrentNamed(t: Tables) {
    forall f | f in t.fragments ::
      && t.fragments[f].accepted == t.fragments[f].current && t.fragments[f].current.fragment == f
      && ByDigest(t.revisions, f, t.fragments[f].current.digest).Some?
  }

  ghost predicate Inv(ds: Digests, t: Tables) {
    RowsOk(ds, t.revisions) && CurrentNamed(t)
  }

  lemma {:induction false} MaxIsCount(ds: Digests, rows: seq<Revision>, fragment: string)
    requires RowsOk(ds, rows)
    ensures MaxOrdinal(rows, fragment) == CountOf(rows, fragment)
  {
    if rows != [] {
      MaxIsCount(ds, rows[..|rows| - 1], fragment);
    }
  }

  lemma {:induction false} FoundByDigest(ds: Digests, rows: seq<Revision>, fragment: string, digest: string)
    requires RowsOk(ds, rows)
    ensures var r := ByDigest(rows, fragment, digest);
            && (r.Some? ==>
                  r.value in rows && r.value.fragment == fragment && r.value.digest == digest && RowOk(ds, r.value))
            && ById(rows, RevisionId(fragment, digest)) == r
  {
    if rows != [] {
      FoundByDigest(ds, rows[..|rows| - 1], fragment, digest);
    }
  }

  lemma AddKeepsRows(ds: Digests, rows: seq<Revision>, r: Revision)
    requires RowsOk(ds, rows) && NextRow(ds, rows, r)
    ensures RowsOk(ds, rows + [r])
    ensures forall f, d :: ByDigest(rows + [r], f, d)
                        == if f == r.fragment && d == r.digest then Some(r) else ByDigest(rows, f, d)
  {
    assert (rows + [r])[..|rows|] == rows;
  }

  /** The row `Select` adds is the next of its fragment. */
  lemma NewRevisionIsNext(ds: Digests, rows: seq<Revision>, fragment: string, body: Body, media: seq<Descriptor>)
    requires RowsOk(ds, rows) && body == NormalBody(body)
    requires ByDigest(rows, fragment, ds.material(MaterialOf(ds, body, media))).None?
    ensures NextRow(ds, rows, NewRevision(ds, rows, fragment, body, media))
  {
    MaxIsCount(ds, rows, fragment);
    assert ds.media(media) == NewRevision(ds, rows, fragment, body, media).mediaDigest;
  }

  lemma SelectKeepsRows(ds: Digests, t: Tables, fragment: string, body: Body, media: seq<Descriptor>, now: int)
    requires RowsOk(ds, t.revisions) && body == NormalBody(body)
    ensures var (after, id) := Select(ds, t, fragment, body, media, now);
            && RowsOk(ds, after.revisions) && t.revisions <= after.revisions
            && id == RevisionId(fragment, ds.material(MaterialOf(ds, body, media)))
            && ByDigest(after.revisions, fragment, id.digest).Some?
            && forall f, d | ByDigest(t.revisions, f, d).Some? ::
                 ByDigest(after.revisions, f, d) == ByDigest(t.revisions, f, d)
  {
    var digest := ds.material(MaterialOf(ds, body, media));
    FoundByDigest(ds, t.revisions, fragment, digest);
    if ByDigest(t.revisions, fragment, digest).None? {
      NewRevisionIsNext(ds, t.revisions, fragment, body, media);
      AddKeepsRows(ds, t.revisions, NewRevision(ds, t.revisions, fragment, body, media));
    }
  }

  lemma SelectKeeps(ds: Digests, t: Tables, fragment: string, body: Body, media: seq<Descriptor>, now: int)
    requires Inv(ds, t) && body == NormalBody(body)
    ensures var (after, id) := Select(ds, t, fragment, body, media, now);
            && Inv(ds, after) && t.revisions <= after.revisions
            && id == RevisionId(fragment, ds.material(MaterialOf(ds, body, media)))
            && fragment in after.fragments && after.fragments[fragment].current == id
            && forall f | f != fragment && f in t.fragments ::
                 f in after.fragments && after.fragments[f] == t.fragments[f]
  {
    var (after, id) := Select(ds, t, fragment, body, media, now);
    SelectKeepsRows(ds, t, fragment, body, media, now);
    CurrentNamedKept(t, after, fragment, id);
  }

  lemma CurrentNamedKept(t: Tables, after: Tables, fragment: string, id: RevisionId)
    requires CurrentNamed(t) && id.fragment == fragment && ByDigest(after.revisions, fragment, id.digest).Some?
    requires forall f, d | ByDigest(t.revisions, f, d).Some? :: ByDigest(after.revisions, f, d).Some?
    requires after.fragments.Keys == t.fragments.Keys + {fragment}
    requires after.fragments[fragment].accepted == after.fragments[fragment].current == id
    requires forall f | f != fragment && f in t.fragments :: after.fragments[f] == t.fragments[f]
    ensures CurrentNamed(after)
  {
  }

  /** The current revision of a fragment exists, and is well formed. */
  lemma CurrentExists(ds: Digests, t: Tables, fragment: string)
    requires Inv(ds, t)
    ensures Current(t, fragment).Some? <==> fragment in t.fragments
    ensures Current(t, fragment).Some? ==>
      var r := Current(t, fragment).value;
      r in t.revisions && r.fragment == fragment && r.id == t.fragments[fragment].current && RowOk(ds, r)
  {
    if fragment in t.fragments {
      FoundByDigest(ds, t.revisions, fragment, t.fragments[fragment].current.digest);
    }
  }

  lemma EnsureKeeps(ds: Digests, t: Tables, fragment: string, attachments: seq<Attachment>, now: int)
    requires Inv(ds, t)
    ensures var after := Ensure(ds, t, fragment, attachments, now).0; Inv(ds, after) && t.revisions <= after.revisions
  {
    CurrentExists(ds, t, fragment);
    if Current(t, fragment).Some? {
      SelectKeeps(ds, t, fragment, Current(t, fragment).value.body, DescribeAll(attachments), now);
    }
  }

  lemma IngestKeeps(ds: Digests, t: Tables, fragment: string, body: Body, attachments: seq<Attachment>, now: int)
    requires Inv(ds, t)
    ensures var after := Ingest(ds, t, fragment, body, attachments, now);
            Inv(ds, after) && t.revisions <= after.revisions
  {
    BodyIsIdempotent(body);
    SelectKeeps(ds, t, fragment, NormalBody(body), DescribeAll(attachments), now);
  }

  lemma StepKeeps(ds: Digests, t: Tables, op: Op)
    requires Inv(ds, t)
    ensures Inv(ds, Step(ds, t, op)) && t.revisions <= Step(ds, t, op).revisions
  {
    match op
    case EnsureOp(fragment, attachments, now) => EnsureKeeps(ds, t, fragment, attachments, now);
    case IngestOp(fragment, body, attachments, now) => IngestKeeps(ds, t, fragment, body, attachments, now);
  }

  /** Main result: over any run, revisions are only ever added, and the invariants hold. */
  lemma {:induction false} RunKeeps(ds: Digests, t: Tables, ops: seq<Op>)
    requires Inv(ds, t)
    ensures Inv(ds, Run(ds, t, ops)) && t.revisions <= Run(ds, t, ops).revisions
  {
    if ops != [] {
      RunKeeps(ds, t, ops[..|ops| - 1]);
      StepKeeps(ds, Run(ds, t, ops[..|ops| - 1]), ops[|ops| - 1]);
    }
  }

  lemma {:induction false} OrdinalsBelowCount(ds: Digests, rows: seq<Revision>, fragment: string, i: nat)
    requires RowsOk(ds, rows) && i < |rows| && rows[i].fragment == fragment
    ensures 1 <= rows[i].ordinal <= CountOf(rows, fragment)
  {
    if i < |rows| - 1 {
      OrdinalsBelowCount(ds, rows[..|rows| - 1], fragment, i);
    }
  }

  lemma {:induction false} OrdinalsIncrease(ds: Digests, rows: seq<Revision>, i: nat, j: nat)
    requires RowsOk(ds, rows) && i < j < |rows| && rows[i].fragment == rows[j].fragment
    ensures rows[i].ordinal < rows[j].ordinal
  {
    var init := rows[..|rows| - 1];
    if j < |init| {
      OrdinalsIncrease(ds, init, i, j);
    } else {
      OrdinalsBelowCount(ds, init, rows[i].fragment, i);
    }
  }

  lemma {:induction false} OrdinalExists(ds: Digests, rows: seq<Revision>, fragment: string, ordinal: nat)
    returns (i: nat)
    requires RowsOk(ds, rows) && 1 <= ordinal <= CountOf(rows, fragment)
    ensures i < |rows| && rows[i].fragment == fragment && rows[i].ordinal == ordinal
  {
    var init, last := rows[..|rows| - 1], rows[|rows| - 1];
    if last.fragment == fragment && ordinal == CountOf(rows, fragment) {
      i := |rows| - 1;
    } else {
      i := OrdinalExists(ds, init, fragment, ordinal);
    }
  }

  /** A fragment's ordinals are exactly 1 to the number of its revisions: each of them, once. */
  lemma OrdinalsAreExact(ds: Digests, rows: seq<Revision>, fragment: string, ordinal: nat) returns (i: nat)
    requires RowsOk(ds, rows) && 1 <= ordinal <= CountOf(rows, fragment)
    ensures i < |rows| && rows[i].fragment == fragment && rows[i].ordinal == ordinal
    ensures forall j | 0 <= j < |rows| && rows[j].fragment == fragment && rows[j].ordinal == ordinal :: j == i
  {
    i := OrdinalExists(ds, rows, fragment, ordinal);
    forall j | 0 <= j < |rows| && rows[j].fragment == fragment && rows[j].ordinal == ordinal
      ensures j == i
    {
      if j < i {
        OrdinalsIncrease(ds, rows, j, i);
      } else if i < j {
        OrdinalsIncrease(ds, rows, i, j);
      }
    }
  }

  /** No two revisions of a fragment have the same material. */
  lemma {:induction false} MaterialIsUnique(ds: Digests, rows: seq<Revision>, i: nat, j: nat)
    requires RowsOk(ds, rows) && i < j < |rows| && rows[i].fragment == rows[j].fragment
    ensures rows[i].digest != rows[j].digest && rows[i].id != rows[j].id
  {
    var init := rows[..|rows| - 1];
    if j < |init| {
      MaterialIsUnique(ds, init, i, j);
    } else {
      EarlierIsFound(ds, init, i);
      RowAt(ds, rows, i);
    }
  }

  lemma {:induction false} RowAt(ds: Digests, rows: seq<Revision>, i: nat)
    requires RowsOk(ds, rows) && i < |rows|
    ensures RowOk(ds, rows[i])
  {
    if i < |rows| - 1 {
      RowAt(ds, rows[..|rows| - 1], i);
    }
  }

  lemma {:induction false} EarlierIsFound(ds: Digests, rows: seq<Revision>, i: nat)
    requires i < |rows|
    ensures ByDigest(rows, rows[i].fragment, rows[i].digest).Some?
  {
    if i < |rows| - 1 {
      EarlierIsFound(ds, rows[..|rows| - 1], i);
    }
  }

  // ---- Ingesting material ----

  /** The row of a fragment whose revision was selected at `now`. */
  ghost predicate PointsTo(ds: Digests, row: FragmentRow, r: Revision, now: int) {
    row.accepted == row.current == r.id && row.contentHash == ds.text(r.body.content) && row.ingestedAt == now
  }

  /** The revision says what was ingested: its text with normal line ends, its format, and its manifest. */
  ghost predicate Says(ds: Digests, r: Revision, body: Body, attachments: seq<Attachment>) {
    && r.body.title == NormalizeNewlines(body.title) && r.body.description == NormalizeNewlines(body.description)
    && r.body.content == NormalizeNewlines(body.content) && r.body.format == NormalizeFormat(body.format)
    && r.mediaDigest == ds.media(DescribeAll(attachments))
  }

  lemma SelectPoints(ds: Digests, t: Tables, fragment: string, body: Body, media: seq<Descriptor>, now: int)
    requires Injective(ds) && Inv(ds, t) && body == NormalBody(body)
    ensures var (after, id) := Select(ds, t, fragment, body, media, now);
            && Inv(ds, after) && Current(after, fragment).Some?
            && var r := Current(after, fragment).value;
               && r.id == id && r.body == body && r.mediaDigest == ds.media(media)
               && after.fragments.Keys == t.fragments.Keys + {fragment}
               && PointsTo(ds, after.fragments[fragment], r, now)
  {
    SelectKeeps(ds, t, fragment, body, media, now);
    var after := Select(ds, t, fragment, body, media, now).0;
    CurrentExists(ds, after, fragment);
    SameDigestSameBody(ds, Current(after, fragment).value, body, media);
  }

  /**
   Main result: after material was ingested for a fragment, its current revision says just that; and the
   fragment's row is written exactly when it was not current already, for then nothing changes at all.
   */
  lemma IngestSelects(ds: Digests, t: Tables, fragment: string, body: Body, attachments: seq<Attachment>, now: int)
    requires Injective(ds) && Inv(ds, t)
    ensures var after := Ingest(ds, t, fragment, body, attachments, now);
            && Inv(ds, after) && Current(after, fragment).Some?
            && var r := Current(after, fragment).value;
               && Says(ds, r, body, attachments)
               && (after == t || PointsTo(ds, after.fragments[fragment], r, now))
               && (Current(t, fragment) == Some(r) ==> after == t)
  {
    var media := DescribeAll(attachments);
    BodyIsIdempotent(body);
    var digest := ds.material(MaterialOf(ds, NormalBody(body), media));
    FoundByDigest(ds, t.revisions, fragment, digest);
    CurrentExists(ds, t, fragment);
    SelectPoints(ds, t, fragment, NormalBody(body), media, now);
    SelectKeeps(ds, t, fragment, NormalBody(body), media, now);
    var found := ByDigest(t.revisions, fragment, digest);
    if found.Some? {
      SameDigestSameBody(ds, found.value, NormalBody(body), media);
    }
  }

  /** Ingesting the same material again changes nothing, not even the time. */
  lemma RepeatedIngest(ds: Digests, t: Tables, fragment: string, body: Body, attachments: seq<Attachment>, now: int,
                       later: int)
    requires Injective(ds) && Inv(ds, t)
    ensures var after := Ingest(ds, t, fragment, body, attachments, now);
            Ingest(ds, after, fragment, body, attachments, later) == after
  {
    IngestSelects(ds, t, fragment, body, attachments, now);
    var after := Ingest(ds, t, fragment, body, attachments, now);
    var digest := ds.material(MaterialOf(ds, NormalBody(body), DescribeAll(attachments)));
    IngestedDigest(ds, t, fragment, body, attachments, now);
    FoundByDigest(ds, after.revisions, fragment, digest);
  }

  lemma IngestedDigest(ds: Digests, t: Tables, fragment: string, body: Body, attachments: seq<Attachment>, now: int)
    requires Injective(ds) && Inv(ds, t)
    ensures var after := Ingest(ds, t, fragment, body, attachments, now);
            var digest := ds.material(MaterialOf(ds, NormalBody(body), DescribeAll(attachments)));
            && fragment in after.fragments && after.fragments[fragment].current == RevisionId(fragment, digest)
            && ByDigest(after.revisions, fragment, digest).Some?
  {
    BodyIsIdempotent(body);
    var digest := ds.material(MaterialOf(ds, NormalBody(body), DescribeAll(attachments)));
    FoundByDigest(ds, t.revisions, fragment, digest);
    SelectKeeps(ds, t, fragment, NormalBody(body), DescribeAll(attachments), now);
  }

  // ---- Attachment sets ----

  /** The revision a fragment's text has with these attachments. */
  function Target(ds: Digests, fragment: string, body: Body, attachments: seq<Attachment>): RevisionId {
    RevisionId(fragment, ds.material(MaterialOf(ds, body, DescribeAll(attachments))))
  }

  /** The current manifest's revision is the one its text has with the same attachments. */
  lemma SameManifest(ds: Digests, r: Revision, attachments: seq<Attachment>)
    requires Injective(ds) && RowOk(ds, r) && ds.media(DescribeAll(attachments)) == r.mediaDigest
    ensures r.id == Target(ds, r.fragment, r.body, attachments)
  {
    var media :| ds.media(media) == r.mediaDigest && ds.material(MaterialOf(ds, r.body, media)) == r.digest;
    assert media == DescribeAll(attachments);
  }

  /** Rows with the same digest have the same text. */
  lemma SameDigestSameBody(ds: Digests, r: Revision, body: Body, media: seq<Descriptor>)
    requires Injective(ds) && RowOk(ds, r) && r.digest == ds.material(MaterialOf(ds, body, media))
    ensures r.body == body && r.mediaDigest == ds.media(media)
  {
    var m :| ds.media(m) == r.mediaDigest && ds.material(MaterialOf(ds, r.body, m)) == r.digest;
    assert MaterialOf(ds, r.body, m) == MaterialOf(ds, body, media);
  }

  /** Setting attachments selects the one revision of that text and manifest, and keeps the text. */
  lemma EnsureSelects(ds: Digests, t: Tables, fragment: string, attachments: seq<Attachment>, now: int)
    requires Injective(ds) && Inv(ds, t) && fragment in t.fragments
    ensures var (after, r) := Ensure(ds, t, fragment, attachments, now);
            && Current(t, fragment).Some? && Current(after, fragment).Some? && Inv(ds, after)
            && r == Ok(Target(ds, fragment, Current(t, fragment).value.body, attachments))
            && Current(after, fragment).value.id == r.value
            && Current(after, fragment).value.body == Current(t, fragment).value.body
            && Current(after, fragment).value.mediaDigest == ds.media(DescribeAll(attachments))
            && (forall f | f != fragment && f in t.fragments ::
                  f in after.fragments && after.fragments[f] == t.fragments[f])
  {
    CurrentExists(ds, t, fragment);
    var current, media := Current(t, fragment).value, DescribeAll(attachments);
    if ds.media(media) == current.mediaDigest {
      SameManifest(ds, current, attachments);
    } else {
      SelectKeeps(ds, t, fragment, current.body, media, now);
      var after := Select(ds, t, fragment, current.body, media, now).0;
      CurrentExists(ds, after, fragment);
      SameDigestSameBody(ds, Current(after, fragment).value, current.body, media);
    }
  }

  /** A fragment that is not there is refused; a changed manifest moves the fragment's row, and says when. */
  lemma EnsureWrites(ds: Digests, t: Tables, fragment: string, attachments: seq<Attachment>, now: int)
    requires Injective(ds) && Inv(ds, t)
    ensures var (after, r) := Ensure(ds, t, fragment, attachments, now);
            && (r == Err(NoCurrentRevision) <==> fragment !in t.fragments)
            && (r.Err? ==> after == t)
            && (r.Ok? && after != t ==>
                  Current(after, fragment).Some?
                  && PointsTo(ds, after.fragments[fragment], Current(after, fragment).value, now))
  {
    CurrentExists(ds, t, fragment);
    if fragment in t.fragments {
      SelectPoints(ds, t, fragment, Current(t, fragment).value.body, DescribeAll(attachments), now);
    }
  }

  /** Setting the same attachments again changes nothing. */
  lemma RepeatChangesNothing(ds: Digests, t: Tables, fragment: string, attachments: seq<Attachment>, now: int,
                             later: int)
    requires Injective(ds) && Inv(ds, t) && fragment in t.fragments
    ensures var (after, r) := Ensure(ds, t, fragment, attachments, now);
            Ensure(ds, after, fragment, attachments, later) == (after, r)
  {
    EnsureSelects(ds, t, fragment, attachments, now);
  }

  /** The sets of attachments that a manifest does not tell apart. */
  predicate AllAlike(as_: seq<Attachment>, bs: seq<Attachment>) {
    |as_| == |bs| && forall i | 0 <= i < |as_| :: Alike(as_[i], bs[i])
  }

  lemma SameTarget(ds: Digests, fragment: string, body: Body, as_: seq<Attachment>, bs: seq<Attachment>)
    requires Injective(ds)
    ensures Target(ds, fragment, body, as_) == Target(ds, fragment, body, bs) <==> AllAlike(as_, bs)
  {
    SameManifestExactly(as_, bs);
    var a, b := MaterialOf(ds, body, DescribeAll(as_)), MaterialOf(ds, body, DescribeAll(bs));
    assert a == b <==> DescribeAll(as_) == DescribeAll(bs);
  }

  /**
   Main result: two sets of attachments share a revision if and only if they are alike one by one, and
   setting the second after the first changes the tables if and only if they are not.
   */
  lemma SetsShareExactly(ds: Digests, t: Tables, fragment: string, as_: seq<Attachment>, bs: seq<Attachment>, now: int,
                         later: int)
    requires Injective(ds) && Inv(ds, t) && fragment in t.fragments
    ensures var (after, r) := Ensure(ds, t, fragment, as_, now);
            var (next, q) := Ensure(ds, after, fragment, bs, later);
            && r.Ok? && q.Ok? && (r == q <==> AllAlike(as_, bs)) && (next == after <==> AllAlike(as_, bs))
  {
    var (after, r) := Ensure(ds, t, fragment, as_, now);
    var (next, q) := Ensure(ds, after, fragment, bs, later);
    EnsureSelects(ds, t, fragment, as_, now);
    CurrentExists(ds, after, fragment);
    EnsureSelects(ds, after, fragment, bs, later);
    SameTarget(ds, fragment, Current(t, fragment).value.body, as_, bs);
    if AllAlike(as_, bs) {
      SameManifestExactly(as_, bs);
      RepeatChangesNothing(ds, t, fragment, as_, now, later);
    }
  }

  predicate OnlySets(ops: seq<Op>) {
    forall op | op in ops :: op.EnsureOp?
  }

  lemma {:induction false} TextStays(ds: Digests, t: Tables, fragment: string, ops: seq<Op>)
    requires Injective(ds) && Inv(ds, t) && fragment in t.fragments && OnlySets(ops)
    ensures var after := Run(ds, t, ops);
            && Inv(ds, after) && fragment in after.fragments
            && Current(t, fragment).Some? && Current(after, fragment).Some?
            && Current(after, fragment).value.body == Current(t, fragment).value.body
  {
    RunKeeps(ds, t, ops);
    if ops == [] {
      CurrentExists(ds, t, fragment);
    } else {
      var before, op := Run(ds, t, ops[..|ops| - 1]), ops[|ops| - 1];
      assert op in ops && forall x | x in ops[..|ops| - 1] :: x in ops;
      TextStays(ds, t, fragment, ops[..|ops| - 1]);
      OtherFragmentsStay(ds, before, op, fragment);
    }
  }

  lemma OtherFragmentsStay(ds: Digests, t: Tables, op: Op, fragment: string)
    requires Injective(ds) && Inv(ds, t) && fragment in t.fragments && op.EnsureOp?
    ensures var after := Step(ds, t, op);
            && fragment in after.fragments && Current(t, fragment).Some? && Current(after, fragment).Some?
            && Current(after, fragment).value.body == Current(t, fragment).value.body
  {
    StepKeeps(ds, t, op);
    var after := Step(ds, t, op);
    CurrentExists(ds, t, fragment);
    CurrentExists(ds, t, op.fragment);
    if op.fragment in t.fragments {
      EnsureSelects(ds, t, op.fragment, op.attachments, op.now);
      if op.fragment != fragment {
        CurrentExists(ds, after, fragment);
        SameRow(ds, t.revisions, after.revisions, Current(t, fragment).value, Current(after, fragment).value);
      }
    }
  }

  /** A revision is the same row before and after rows were added. */
  lemma SameRow(ds: Digests, rows: seq<Revision>, more: seq<Revision>, a: Revision, b: Revision)
    requires RowsOk(ds, more) && rows <= more && a in rows && b in more && a.id == b.id && a.fragment == b.fragment
    ensures a == b
  {
    var i :| 0 <= i < |rows| && rows[i] == a;
    var j :| 0 <= j < |more| && more[j] == b;
    if i < j {
      MaterialIsUnique(ds, more, i, j);
    } else if j < i {
      MaterialIsUnique(ds, more, j, i);
    }
  }

  /**
   Main result: while only attachments change, an attachment set always leads back to the same revision
   of the fragment, whatever was set in between: the first it was given, even long before.
   */
  lemma SetLeadsBack(ds: Digests, t: Tables, fragment: string, a: seq<Attachment>, ops: seq<Op>, now: int, later: int)
    requires Injective(ds) && Inv(ds, t) && fragment in t.fragments && OnlySets(ops)
    ensures Ensure(ds, Run(ds, Ensure(ds, t, fragment, a, now).0, ops), fragment, a, later).1
         == Ensure(ds, t, fragment, a, now).1
  {
    EnsureSelects(ds, t, fragment, a, now);
    var first := Ensure(ds, t, fragment, a, now).0;
    CurrentExists(ds, first, fragment);
    TextStays(ds, first, fragment, ops);
    EnsureSelects(ds, Run(ds, first, ops), fragment, a, later);
  }
}
