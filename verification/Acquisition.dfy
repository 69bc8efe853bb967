/**
 Asset acquisition commands (internal/repository/asset_acquisition.go).

 A command asks for custody of one representation of an asset. It leaves an immutable receipt and
 moves a single variant through the media lifecycle, in one transaction. `Request` gives that
 transaction as a step from one state of the tables to the next; `AcquisitionStore` carries it out.
 */
module Acquisition {
  import opened Wrappers
  import opened Text
  import opened Media

  /** A variant's stored id is an injective digest of its asset and its identity. */
  datatype VariantId = VariantId(asset: string, identity: string)

  datatype Command = Command(
    id: string, key: string, digest: string, asset: string, kind: string, custody: Custody,
    actor: string, reason: string, now: int)

  datatype Receipt = Receipt(command: Command, variant: VariantId)

  datatype Tables = Tables(
    assets: set<string>, variants: map<VariantId, Variant>, blobs: map<string, Blob>, receipts: seq<Receipt>)

  datatype Error = MissingFields | InvalidKind | InvalidCustody | IdentityConflict | SemanticsConflict
    | NoSuchAsset | AmbiguousKind | CustodyRefused | KindConflict

  datatype Reply = Recorded(receipt: Receipt) | Replayed(receipt: Receipt) | Refused(error: Error)

  predicate ValidKind(kind: string) {
    kind in {"original", "preview", "thumbnail", "poster", "audio", "subtitles", "transcript"}
  }

  /** The identity of the variant an acquisition creates when an asset has none of the kind. */
  function AcquisitionIdentity(kind: string): string {
    "acquisition:" + kind
  }

  /** The command as it is compared and stored. */
  function Trimmed(c: Command): Command {
    Command(Trim(c.id), Trim(c.key), Trim(c.digest), Trim(c.asset), c.kind, c.custody, Trim(c.actor),
            Trim(c.reason), c.now)
  }

  function Validate(c: Command): Option<Error> {
    if c.id == "" || c.key == "" || c.digest == "" || c.asset == "" || c.actor == "" || c.now == 0 then
      Some(MissingFields)
    else if !ValidKind(c.kind) then Some(InvalidKind)
    else if c.custody == Reference then Some(InvalidCustody)
    else None
  }

  /** Everything but the time must agree for a command to be a replay. */
  predicate SameSemantics(a: Command, b: Command) {
    a == b.(now := a.now)
  }

  function FindById(receipts: seq<Receipt>, id: string): Option<Receipt> {
    if receipts == [] then None
    else if receipts[0].command.id == id then Some(receipts[0])
    else FindById(receipts[1..], id)
  }

  function FindByKey(receipts: seq<Receipt>, key: string): Option<Receipt> {
    if receipts == [] then None
    else if receipts[0].command.key == key then Some(receipts[0])
    else FindByKey(receipts[1..], key)
  }

  /** What the stored receipts say about a command; nothing when it is new. */
  function Precedent(receipts: seq<Receipt>, c: Command): Option<Reply> {
    var byId, byKey := FindById(receipts, c.id), FindByKey(receipts, c.key);
    if byId.None? && byKey.None? then None
    else
      var existing := if byId.Some? then byId.value else byKey.value;
      if byId.Some? && byKey.Some? && byId.value.command.id != byKey.value.command.id then
        Some(Refused(IdentityConflict))
      else if !SameSemantics(existing.command, c) then Some(Refused(SemanticsConflict))
      else Some(Replayed(existing))
  }

  datatype Pick = Nothing | Found(id: VariantId) | Ambiguous

  function Candidates(variants: map<VariantId, Variant>, asset: string, kind: string): set<VariantId> {
    set id | id in variants && variants[id].asset == asset && variants[id].kind == kind
  }

  /** The variant a command is about: the only one of its kind, or the one acquisitions created. */
  function Select(variants: map<VariantId, Variant>, asset: string, kind: string): Pick {
    var candidates := Candidates(variants, asset, kind);
    if candidates == {} then Nothing
    else if |candidates| == 1 then Found(OnlyOne(candidates))
    else if VariantId(asset, AcquisitionIdentity(kind)) in candidates then
      Found(VariantId(asset, AcquisitionIdentity(kind)))
    else Ambiguous
  }

  function OnlyOne<T>(s: set<T>): T
    requires |s| == 1
  {
    Singleton(s);
    var x :| x in s; x
  }

  lemma Singleton<T>(s: set<T>)
    requires |s| == 1
    ensures forall x, y | x in s && y in s :: x == y
  {
    forall x, y | x in s && y in s ensures x == y {
      assert |s - {x}| == 0;
      assert x == y || y in s - {x};
    }
  }

  lemma SelectedExists(variants: map<VariantId, Variant>, asset: string, kind: string)
    ensures match Select(variants, asset, kind)
            case Found(id) => id in variants && variants[id].asset == asset && variants[id].kind == kind
            case _ => true
  {
  }

  /** The custody transition rule. */
  predicate TransitionAllowed(current: Custody, requested: Custody) {
    current == requested || current == Reference || (current == Cache && requested == Mirror)
  }

  /** The variant row and blob rows after a command is granted on an existing variant. */
  function Advance(t: Tables, id: VariantId, c: Command): Result<Tables, Error>
    requires id in t.variants
  {
    var v := t.variants[id];
    if !TransitionAllowed(v.custody, c.custody) then Err(CustodyRefused)
    else
      var retention := RetentionFor(c.custody);
      Ok(t.(variants := t.variants[id := v.(custody := c.custody, retention := retention, failure := None,
                                            state := if v.state == Available then Available else Pending)],
            blobs := if v.blob != "" && retention == Indefinite && v.blob in t.blobs
                     then t.blobs[v.blob := t.blobs[v.blob].(retention := Indefinite)] else t.blobs))
  }

  /** The pending variant created for an asset that has none of the kind. */
  function Create(t: Tables, c: Command): Result<(Tables, VariantId), Error> {
    var id := VariantId(c.asset, AcquisitionIdentity(c.kind));
    if id in t.variants then Err(KindConflict)
    else
      Ok((t.(variants := t.variants[id := Variant(c.asset, id.identity, c.kind, c.custody, Pending,
                                                  RetentionFor(c.custody), "", "", "", 0, None, c.now)]), id))
  }

  /** Resolves the variant a command is about and moves it on. */
  function Resolve(t: Tables, c: Command): Result<(Tables, VariantId), Error> {
    match Select(t.variants, c.asset, c.kind)
    case Nothing => Create(t, c)
    case Ambiguous => Err(AmbiguousKind)
    case Found(id) =>
      SelectedExists(t.variants, c.asset, c.kind);
      match Advance(t, id, c)
      case Err(e) => Err(e)
      case Ok(next) => Ok((next, id))
  }

  function Request(t: Tables, command: Command): (Tables, Reply) {
    var c := Trimmed(command);
    match Validate(c)
    case Some(e) => (t, Refused(e))
    case None =>
      match Precedent(t.receipts, c)
      case Some(reply) => (t, reply)
      case None =>
        if c.asset !in t.assets then (t, Refused(NoSuchAsset))
        else
          match Resolve(t, c)
          case Err(e) => (t, Refused(e))
          case Ok((next, id)) => (next.(receipts := next.receipts + [Receipt(c, id)]), Recorded(Receipt(c, id)))
  }

  class AcquisitionStore {
    var assets: set<string>
    var variants: map<VariantId, Variant>
    var blobs: map<string, Blob>
    var receipts: seq<Receipt>

    ghost function Contents(): Tables
      reads this
    {
      Tables(assets, variants, blobs, receipts)
    }

    method RequestAssetAcquisition(command: Command) returns (reply: Reply)
      modifies this
      ensures (Contents(), reply) == Request(old(Contents()), command)
    {
      var c := Trimmed(command);
      var invalid := Validate(c);
      if invalid.Some? {
        return Refused(invalid.value);
      }
      var byId, byKey := FindById(receipts, c.id), FindByKey(receipts, c.key);
      if byId.Some? || byKey.Some? {
        var existing := if byId.Some? then byId.value else byKey.value;
        if byId.Some? && byKey.Some? && byId.value.command.id != byKey.value.command.id {
          return Refused(IdentityConflict);
        }
        if !SameSemantics(existing.command, c) {
          return Refused(SemanticsConflict);
        }
        return Replayed(existing);
      }
      if c.asset !in assets {
        return Refused(NoSuchAsset);
      }
      var error, id := ResolveAcquisitionVariant(c);
      if error.Some? {
        return Refused(error.value);
      }
      receipts := receipts + [Receipt(c, id)];
      return Recorded(Receipt(c, id));
    }

    /** Selects or creates the variant of a command and writes its new lifecycle state. */
    method ResolveAcquisitionVariant(c: Command) returns (error: Option<Error>, id: VariantId)
      modifies this`variants, this`blobs
      ensures match Resolve(old(Contents()), c)
              case Err(e) => error == Some(e) && Contents() == old(Contents())
              case Ok((next, picked)) => error == None && id == picked && Contents() == next
    {
      id := VariantId(c.asset, AcquisitionIdentity(c.kind));
      SelectedExists(variants, c.asset, c.kind);
      var pick := SelectVariant(variants, c.asset, c.kind);
      match pick {
        case Ambiguous =>
          return Some(AmbiguousKind), id;
        case Nothing =>
          if id in variants {
            return Some(KindConflict), id;
          }
          variants := variants[id := Variant(c.asset, id.identity, c.kind, c.custody, Pending,
                                             RetentionFor(c.custody), "", "", "", 0, None, c.now)];
        case Found(found) =>
          id := found;
          var v := variants[id];
          if !TransitionAllowed(v.custody, c.custody) {
            return Some(CustodyRefused), id;
          }
          var nextState := v.state;
          if nextState != Available {
            nextState := Pending;
          }
          var retention := RetentionFor(c.custody);
          variants := variants[id := v.(custody := c.custody, retention := retention, failure := None,
                                        state := nextState)];
          if v.blob != "" && retention == Indefinite && v.blob in blobs {
            blobs := blobs[v.blob := blobs[v.blob].(retention := Indefinite)];
          }
      }
      return None, id;
    }
  }

  /** Looks for the acquisition's own variant when the kind has several. */
  method SelectVariant(variants: map<VariantId, Variant>, asset: string, kind: string) returns (pick: Pick)
    ensures pick == Select(variants, asset, kind)
  {
    var candidates := Candidates(variants, asset, kind);
    if candidates == {} {
      return Nothing;
    }
    if |candidates| == 1 {
      Singleton(candidates);
      var only :| only in candidates;
      return Found(only);
    }
    var own := VariantId(asset, AcquisitionIdentity(kind));
    var rest, selected: Option<VariantId> := candidates, None;
    while rest != {}
      invariant rest <= candidates
      invariant selected == if own in candidates - rest then Some(own) else None
      decreases |rest|
    {
      var item :| item in rest;
      if item == own {
        selected := Some(item);
      }
      rest := rest - {item};
    }
    return if selected.Some? then Found(selected.value) else Ambiguous;
  }
}
