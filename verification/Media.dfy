/**
 Asset variants and media blobs: the rows that the capture protocol and the acquisition commands
 share, and the two lifecycle operations both rely on (internal/repository/media.go).
 */
module Media {
  import opened Wrappers
  import opened Text

  datatype Custody = Reference | Cache | Mirror | Adopted

  datatype Acquisition = Pending | Available | ReferenceOnly | AcquisitionFailed

  datatype Retention = Indefinite | CacheOnly | External

  datatype Failure = Failure(code: string, message: string, retryable: bool)

  /** An `asset_variants` row but for its id. The empty string is an absent digest, as in the column. */
  datatype Variant = Variant(
    asset: string, identity: string, kind: string, custody: Custody, state: Acquisition,
    retention: Retention, expected: string, digest: string, blob: string, size: int,
    failure: Option<Failure>, createdAt: int)

  datatype Blob = Blob(size: int, retention: Retention)

  datatype MediaError = NoSuchVariant | ReferenceCustody | ExpectedDigestDiffers | OwnsOtherBytes
    | RetentionTooShort | BlobSizeConflict | FailureIncomplete | AvailableCannotFail

  /** Bytes that were verified and whose digest is known. */
  predicate Verified(v: Variant) {
    v.state == Available && v.digest != ""
  }

  function RetentionFor(custody: Custody): Retention {
    if custody == Cache then CacheOnly else Indefinite
  }

  /** Links verified bytes to a variant; the blob row keeps the longer of two retentions. */
  function AttachBlob<Id>(variants: map<Id, Variant>, blobs: map<string, Blob>,
                          id: Id, digest: string, size: int, retention: Retention)
    : (r: Result<(map<Id, Variant>, map<string, Blob>), MediaError>)
  {
    if id !in variants then Err(NoSuchVariant)
    else
      var v := variants[id];
      if v.expected != "" && v.expected != digest then Err(ExpectedDigestDiffers)
      else if v.digest != "" && v.digest != digest then Err(OwnsOtherBytes)
      else if v.custody == Reference then Err(ReferenceCustody)
      else if (v.custody == Mirror || v.custody == Adopted) && retention != Indefinite then
        Err(RetentionTooShort)
      else if digest in blobs && blobs[digest].size != size then Err(BlobSizeConflict)
      else
        var longer := if retention == Indefinite || (digest in blobs && blobs[digest].retention == Indefinite)
                      then Indefinite else CacheOnly;
        Ok((variants[id := v.(expected := if v.expected == "" then digest else v.expected,
                              digest := digest, blob := digest, size := size, state := Available,
                              failure := None, retention := retention)],
            blobs[digest := Blob(size, longer)]))
  }

  /** When bytes can be linked to a variant: they are its own or its first, and its custody keeps bytes so long. */
  ghost predicate Attachable<Id(!new)>(variants: map<Id, Variant>, blobs: map<string, Blob>, id: Id, digest: string,
                                       size: int, retention: Retention) {
    && id in variants
    && (variants[id].expected == "" || variants[id].expected == digest)
    && (variants[id].digest == "" || variants[id].digest == digest)
    && variants[id].custody != Reference
    && (variants[id].custody == Cache || retention == Indefinite)
    && (digest in blobs ==> blobs[digest].size == size)
  }

  /** The variant with the bytes: available, without failure, and expecting them from now on. */
  ghost predicate Holds(before: Variant, after: Variant, digest: string, size: int, retention: Retention) {
    && after.digest == after.blob == after.expected == digest && after.size == size
    && after.state == Available && after.failure == None && after.retention == retention
    && after.asset == before.asset && after.identity == before.identity && after.kind == before.kind
    && after.custody == before.custody && after.createdAt == before.createdAt
  }

  /** The blob row has the size, and stays for good if either holder keeps it for good. */
  ghost predicate Held(before: map<string, Blob>, after: map<string, Blob>, digest: string, size: int,
                       retention: Retention) {
    && after.Keys == before.Keys + {digest} && after[digest].size == size
    && (after[digest].retention == Indefinite || after[digest].retention == CacheOnly)
    && (after[digest].retention == Indefinite
        <==> retention == Indefinite || (digest in before && before[digest].retention == Indefinite))
    && forall other | other in before && other != digest :: after[other] == before[other]
  }

  /** Main result: when bytes are linked to a variant, and all that changes. */
  lemma AttachesExactly<Id(!new)>(variants: map<Id, Variant>, blobs: map<string, Blob>, id: Id, digest: string,
                                  size: int, retention: Retention)
    ensures var r := AttachBlob(variants, blobs, id, digest, size, retention);
            && (r.Ok? <==> Attachable(variants, blobs, id, digest, size, retention))
            && (r.Ok? ==>
                  && r.value.0.Keys == variants.Keys
                  && Holds(variants[id], r.value.0[id], digest, size, retention)
                  && (forall other | other in variants && other != id :: r.value.0[other] == variants[other])
                  && Held(blobs, r.value.1, digest, size, retention))
  {
  }

  /** Records a failed acquisition; verified bytes are never degraded. */
  function MarkFailed<Id>(variants: map<Id, Variant>, id: Id, failure: Failure)
    : Result<map<Id, Variant>, MediaError>
  {
    if IsBlank(failure.code) || IsBlank(failure.message) then Err(FailureIncomplete)
    else if id !in variants then Err(NoSuchVariant)
    else if variants[id].state == Available then Err(AvailableCannotFail)
    else Ok(variants[id := variants[id].(state := AcquisitionFailed, failure := Some(failure))])
  }

  /** A failure needs a code and a message, and a variant whose bytes are not available. */
  lemma FailsExactly<Id(!new)>(variants: map<Id, Variant>, id: Id, failure: Failure)
    ensures var r := MarkFailed(variants, id, failure);
            && (r.Ok? <==>
                  && !IsBlank(failure.code) && !IsBlank(failure.message)
                  && id in variants && variants[id].state != Available)
            && (r.Ok? ==>
                  && r.value.Keys == variants.Keys
                  && r.value[id].state == AcquisitionFailed && r.value[id].failure == Some(failure)
                  && r.value[id].(state := variants[id].state, failure := variants[id].failure) == variants[id]
                  && forall other | other in variants && other != id :: r.value[other] == variants[other])
  {
  }

  /** No operation takes verified bytes away from a variant, or exchanges them. */
  ghost predicate KeepsVerified<Id>(before: map<Id, Variant>, after: map<Id, Variant>) {
    forall id | id in before ::
      && id in after
      && (Verified(before[id]) ==> Verified(after[id]) && after[id].digest == before[id].digest)
  }
}
