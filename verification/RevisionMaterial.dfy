/**
 A revision's material and its normal form (internal/domain/material.go).

 A material is the text of a revision and the descriptors of its media, in order. Its normal form ends
 lines with line feeds only, spells the content format in lower case with a default for none, and trims
 the descriptors; title, description and content keep their own leading and trailing white space. The
 lemmas say that normalizing twice is normalizing once, and that nothing but line endings changes in the
 text. Digests are injective functions, given by `Digests`.
 */
module RevisionMaterial {
  import opened Text

  // ---- Material ----

  datatype Attachment = Attachment(kind: string, role: string, name: string, mimeType: string, sourcePath: string,
                                   externalUrl: string, source: string, sourceItem: string)

  datatype Descriptor = Descriptor(kind: string, role: string, name: string, mimeType: string, sourcePath: string,
                                   externalUrl: string, source: string, sourceItem: string)

  datatype Material = Material(title: string, description: string, content: string, format: string,
                               media: seq<Descriptor>, mediaDigest: string)

  datatype Digests = Digests(media: seq<Descriptor> -> string, material: Material -> string, text: string -> string)

  ghost predicate Injective(ds: Digests) {
    && (forall a, b :: ds.media(a) == ds.media(b) ==> a == b)
    && (forall a, b :: ds.material(a) == ds.material(b) ==> a == b)
  }

  function ReplaceCrLf(s: string): string {
    if |s| >= 2 && s[0] == '\r' && s[1] == '\n' then "\n" + ReplaceCrLf(s[2..])
    else if s == "" then ""
    else [s[0]] + ReplaceCrLf(s[1..])
  }

  function ReplaceCr(s: string): string {
    if s == "" then "" else [if s[0] == '\r' then '\n' else s[0]] + ReplaceCr(s[1..])
  }

  function NormalizeNewlines(s: string): string {
    ReplaceCr(ReplaceCrLf(s))
  }

  const DEFAULT_FORMAT := "markdown"

  function NormalizeFormat(format: string): string {
    Trim(ToLower(if Trim(format) == "" then DEFAULT_FORMAT else format))
  }

  function Describe(a: Attachment): Descriptor {
    Descriptor(ToLower(Trim(a.kind)), ToLower(Trim(a.role)), Trim(a.name), ToLower(Trim(a.mimeType)),
               Trim(a.sourcePath), Trim(a.externalUrl), Trim(a.source), Trim(a.sourceItem))
  }

  function DescribeAll(attachments: seq<Attachment>): seq<Descriptor> {
    if attachments == [] then []
    else DescribeAll(attachments[..|attachments| - 1]) + [Describe(attachments[|attachments| - 1])]
  }

  /** The text of a revision. */
  datatype Body = Body(title: string, description: string, content: string, format: string)

  function NormalBody(b: Body): Body {
    Body(NormalizeNewlines(b.title), NormalizeNewlines(b.description), NormalizeNewlines(b.content),
         NormalizeFormat(b.format))
  }

  function MaterialOf(ds: Digests, b: Body, media: seq<Descriptor>): Material {
    Material(b.title, b.description, b.content, b.format, media, ds.media(media))
  }

  method NormalizeMaterial(ds: Digests, b: Body, attachments: seq<Attachment>) returns (m: Material)
    ensures m == MaterialOf(ds, NormalBody(b), DescribeAll(attachments))
  {
    var media := [];
    for i := 0 to |attachments|
      invariant media == DescribeAll(attachments[..i])
    {
      assert attachments[..i + 1][..i] == attachments[..i];
      media := media + [Describe(attachments[i])];
    }
    assert attachments[..|attachments|] == attachments;
    var format := b.format;
    if Trim(format) == "" {
      format := DEFAULT_FORMAT;
    }
    return Material(NormalizeNewlines(b.title), NormalizeNewlines(b.description), NormalizeNewlines(b.content),
                    Trim(ToLower(format)), media, ds.media(media));
  }

  /** A manifest lists every attachment, in order, by its eight fields. */
  lemma {:induction false} DescribedEach(attachments: seq<Attachment>, i: nat)
    requires i < |attachments|
    ensures |DescribeAll(attachments)| == |attachments|
    ensures var a, d := attachments[i], DescribeAll(attachments)[i];
            && d.kind == ToLower(Trim(a.kind)) && d.role == ToLower(Trim(a.role)) && d.name == Trim(a.name)
            && d.mimeType == ToLower(Trim(a.mimeType)) && d.sourcePath == Trim(a.sourcePath)
            && d.externalUrl == Trim(a.externalUrl) && d.source == Trim(a.source) && d.sourceItem == Trim(a.sourceItem)
  {
    DescribedSize(attachments);
    DescribedSize(attachments[..|attachments| - 1]);
    if i < |attachments| - 1 {
      DescribedEach(attachments[..|attachments| - 1], i);
    }
  }

  lemma {:induction false} DescribedSize(attachments: seq<Attachment>)
    ensures |DescribeAll(attachments)| == |attachments|
  {
    if attachments != [] {
      DescribedSize(attachments[..|attachments| - 1]);
    }
  }

  /** Two attachments that a manifest does not tell apart. */
  predicate Alike(a: Attachment, b: Attachment) {
    && ToLower(Trim(a.kind)) == ToLower(Trim(b.kind)) && ToLower(Trim(a.role)) == ToLower(Trim(b.role))
    && Trim(a.name) == Trim(b.name) && ToLower(Trim(a.mimeType)) == ToLower(Trim(b.mimeType))
    && Trim(a.sourcePath) == Trim(b.sourcePath) && Trim(a.externalUrl) == Trim(b.externalUrl)
    && Trim(a.source) == Trim(b.source) && Trim(a.sourceItem) == Trim(b.sourceItem)
  }

  lemma AlikeAt(as_: seq<Attachment>, bs: seq<Attachment>, i: nat)
    requires i < |as_| == |bs|
    ensures |DescribeAll(as_)| == |DescribeAll(bs)| == |as_|
    ensures DescribeAll(as_)[i] == DescribeAll(bs)[i] <==> Alike(as_[i], bs[i])
  {
    DescribedEach(as_, i);
    DescribedEach(bs, i);
  }

  /** Two sets have the same manifest exactly when they are alike one by one. */
  lemma SameManifestExactly(as_: seq<Attachment>, bs: seq<Attachment>)
    ensures DescribeAll(as_) == DescribeAll(bs) <==> |as_| == |bs| && forall i | 0 <= i < |as_| :: Alike(as_[i], bs[i])
  {
    DescribedSize(as_);
    DescribedSize(bs);
    if |as_| == |bs| {
      var a, b := DescribeAll(as_), DescribeAll(bs);
      forall i | 0 <= i < |as_| ensures a[i] == b[i] <==> Alike(as_[i], bs[i]) {
        AlikeAt(as_, bs, i);
      }
    }
  }

  /** What of a body and its attachments its material says. */
  lemma MaterialFields(ds: Digests, b: Body, media: seq<Descriptor>)
    ensures var m := MaterialOf(ds, NormalBody(b), media);
            && m.title == NormalizeNewlines(b.title) && m.description == NormalizeNewlines(b.description)
            && m.content == NormalizeNewlines(b.content) && m.media == media && m.mediaDigest == ds.media(media)
            && m.format == (if Trim(b.format) == "" then "markdown" else Trim(ToLower(b.format)))
  {
    assert Trim(ToLower("markdown")) == "markdown";
  }

  // ---- Newlines ----

  lemma {:induction false} CrReplaced(s: string)
    ensures '\r' !in ReplaceCr(s)
  {
    if s != "" {
      CrReplaced(s[1..]);
    }
  }

  lemma {:induction false} CrFreeStays(s: string)
    requires '\r' !in s
    ensures ReplaceCrLf(s) == s && ReplaceCr(s) == s
  {
    if s != "" {
      CrFreeStays(s[1..]);
      assert s == [s[0]] + s[1..];
      assert s[0] in s;
    }
  }

  /** In one pass: a carriage return with a line feed is one line end, and so is either of them alone. */
  lemma NewlinesExactly(s: string)
    ensures NormalizeNewlines("") == ""
    ensures "\r\n" <= s ==> NormalizeNewlines(s) == "\n" + NormalizeNewlines(s[2..])
    ensures s != "" && !("\r\n" <= s) ==>
              NormalizeNewlines(s) == (if s[0] == '\r' then "\n" else [s[0]]) + NormalizeNewlines(s[1..])
  {
    if "\r\n" <= s {
      assert s[0] == '\r' && s[1] == '\n';
      assert ReplaceCrLf(s)[1..] == ReplaceCrLf(s[2..]);
    } else if s != "" {
      assert |s| >= 2 && s[0] == '\r' ==> s[1] != '\n' by {
        assert |s| >= 2 ==> s[..2] == [s[0], s[1]];
      }
      assert ReplaceCrLf(s)[1..] == ReplaceCrLf(s[1..]);
    }
  }

  /** Only line feeds are left to end lines, and normalizing again changes nothing. */
  lemma NewlinesAreIdempotent(s: string)
    ensures '\r' !in NormalizeNewlines(s) && NormalizeNewlines(NormalizeNewlines(s)) == NormalizeNewlines(s)
  {
    CrReplaced(ReplaceCrLf(s));
    CrFreeStays(NormalizeNewlines(s));
  }

  function WithoutLineEnds(s: string): string {
    if s == "" then "" else (if s[0] == '\r' || s[0] == '\n' then "" else [s[0]]) + WithoutLineEnds(s[1..])
  }

  lemma {:induction false} CrLfKeepsText(s: string)
    ensures WithoutLineEnds(ReplaceCrLf(s)) == WithoutLineEnds(s)
    decreases |s|
  {
    if |s| >= 2 && s[0] == '\r' && s[1] == '\n' {
      CrLfKeepsText(s[2..]);
      assert s[1..][1..] == s[2..];
      assert ("\n" + ReplaceCrLf(s[2..]))[1..] == ReplaceCrLf(s[2..]);
    } else if s != "" {
      CrLfKeepsText(s[1..]);
      assert ([s[0]] + ReplaceCrLf(s[1..]))[1..] == ReplaceCrLf(s[1..]);
    }
  }

  lemma {:induction false} CrKeepsText(s: string)
    ensures WithoutLineEnds(ReplaceCr(s)) == WithoutLineEnds(s)
  {
    if s != "" {
      CrKeepsText(s[1..]);
      assert ReplaceCr(s)[1..] == ReplaceCr(s[1..]);
    }
  }

  /** Nothing but line endings is changed: leading and trailing white space stays. */
  lemma NewlinesKeepText(s: string)
    ensures WithoutLineEnds(NormalizeNewlines(s)) == WithoutLineEnds(s)
  {
    CrLfKeepsText(s);
    CrKeepsText(ReplaceCrLf(s));
  }

  lemma LowerIsLower(s: string)
    ensures forall c | c in ToLower(s) :: LowerChar(c) == c
    ensures ToLower(ToLower(s)) == ToLower(s)
  {
    forall c | c in ToLower(s)
      ensures LowerChar(c) == c
    {
      var i :| 0 <= i < |s| && ToLower(s)[i] == c;
    }
    LowerStays(ToLower(s));
  }

  lemma TrimOfBlank(s: string)
    requires Trim(s) == ""
    ensures TrimLeft(s) == ""
  {
    TrimLeftStops(s);
    TrimRightStops(TrimLeft(s));
    if TrimLeft(s) != "" {
      RightStopsAtText(TrimLeft(s));
    }
  }

  lemma {:induction false} RightStopsAtText(s: string)
    requires s != "" && !IsSpace(s[0])
    ensures TrimRight(s) != ""
  {
    if IsSpace(s[|s| - 1]) {
      RightStopsAtText(s[..|s| - 1]);
    }
  }

  lemma {:induction false} BlankIsBlank(s: string)
    requires TrimLeft(s) == ""
    ensures forall c | c in s :: IsSpace(c)
  {
    if s != "" {
      BlankIsBlank(s[1..]);
      assert s == [s[0]] + s[1..];
    }
  }

  lemma {:induction false} AllSpaceTrims(s: string)
    requires forall c | c in s :: IsSpace(c)
    ensures TrimLeft(s) == ""
  {
    if s != "" {
      assert s[0] in s;
      AllSpaceTrims(s[1..]);
    }
  }

  /** A format that is not blank is not blank in lower case. */
  lemma LowerNotBlank(s: string)
    requires Trim(s) != ""
    ensures Trim(ToLower(s)) != ""
  {
    if Trim(ToLower(s)) == "" {
      TrimOfBlank(ToLower(s));
      BlankIsBlank(ToLower(s));
      forall c | c in s
        ensures IsSpace(c)
      {
        var i :| 0 <= i < |s| && s[i] == c;
        assert ToLower(s)[i] in ToLower(s);
      }
      AllSpaceTrims(s);
    }
  }

  lemma FormatIsIdempotent(format: string)
    ensures NormalizeFormat(NormalizeFormat(format)) == NormalizeFormat(format)
  {
    var given := if Trim(format) == "" then DEFAULT_FORMAT else format;
    var f := NormalizeFormat(format);
    LowerIsLower(given);
    TrimIsIdempotent(ToLower(given));
    LowerStays(f);
    assert f != "" by {
      if Trim(format) == "" {
        TrimStays(DEFAULT_FORMAT);
        assert DEFAULT_FORMAT[0] == 'm' && DEFAULT_FORMAT[7] == 'n';
      }
      LowerNotBlank(given);
    }
  }

  /** Normalizing material that is already normal changes nothing. */
  lemma BodyIsIdempotent(b: Body)
    ensures NormalBody(NormalBody(b)) == NormalBody(b)
  {
    NewlinesAreIdempotent(b.title);
    NewlinesAreIdempotent(b.description);
    NewlinesAreIdempotent(b.content);
    FormatIsIdempotent(b.format);
  }
}
