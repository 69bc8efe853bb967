/** The digest a caller announces or expects (internal/domain/media.go: ContentDigest). */
module Digest {
  import opened Wrappers
  import opened Text

  /** A digest as a caller gives it; it may be left out by leaving both parts blank. */
  datatype ContentDigest = ContentDigest(algorithm: string, value: string) {
    predicate Empty() {
      IsBlank(algorithm) && IsBlank(value)
    }

    /** The lower-case hexadecimal value, when this is a SHA-256 digest. */
    function Normalized(): Option<string> {
      var a, v := ToLower(Trim(algorithm)), ToLower(Trim(value));
      if (a == "sha256" || a == "sha-256") && IsHexDigest(v) then Some(v) else None
    }
  }

  /** A digest is normal under either name of SHA-256, in any case and with white space around it. */
  lemma NormalizedExactly(d: ContentDigest, value: string)
    ensures d.Normalized() == Some(value) <==>
            && (ToLower(Trim(d.algorithm)) == "sha256" || ToLower(Trim(d.algorithm)) == "sha-256")
            && IsHexDigest(value) && ToLower(Trim(d.value)) == value
  {
  }

  /** A digest that is given: not blank in both of its parts. */
  predicate Given(d: ContentDigest) {
    !IsBlank(d.algorithm) || !IsBlank(d.value)
  }

  lemma GivenExactly(d: ContentDigest)
    ensures Given(d) <==> !d.Empty()
  {
  }
}
