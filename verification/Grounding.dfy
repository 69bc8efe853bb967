/**
 Validating what the model returns (internal/enrich/result.go, internal/enrich/partial.go).

 The reply arrives decoded, or with the class of its decoding error. Each loop of the source is a method
 that also updates the `Quality` record it is given, and is specified by a function of its input and by
 what it adds to the counters: `Truncated` for text, `ClaimsOf` for claims and their citations, `TagsOf`
 for topics, `NamesOf` for entities, and `ParseOf` and `PartialOf` for whole replies. The sets of known
 session types and outcomes, and all limits, are the source's.
 */
module Grounding {
  import opened Wrappers
  import opened Text

  const MAX_TITLE := 80
  const MAX_SUMMARY := 1200
  const MAX_CLAIM := 300
  const MAX_TOPICS := 8
  const MAX_CLAIMS := 8
  const MAX_ENTITIES := 12
  const MAX_ENTITY_LEN := 60
  const MAX_TAG_LEN := 40
  const MAX_LANGUAGE := 16
  const MAX_PARTIAL_SUMMARY := 1500
  const MAX_PARTIAL_CLAIMS := 12

  datatype Claim = Claim(text: string, turns: seq<int>)

  datatype Entities = Entities(projects: seq<string>, repos: seq<string>, tools: seq<string>, technologies: seq<string>)

  datatype Counts = Counts(cites: nat, ungroundedCites: nat, entitiesChecked: nat, ungroundedEntities: nat,
                           truncated: nat)

  const NOTHING := Counts(0, 0, 0, 0, 0)

  function Plus(a: Counts, b: Counts): Counts {
    Counts(a.cites + b.cites, a.ungroundedCites + b.ungroundedCites, a.entitiesChecked + b.entitiesChecked,
           a.ungroundedEntities + b.ungroundedEntities, a.truncated + b.truncated)
  }

  function Cuts(n: nat): Counts {
    NOTHING.(truncated := n)
  }

  class Quality {
    var cites: nat
    var ungroundedCites: nat
    var entitiesChecked: nat
    var ungroundedEntities: nat
    var truncated: nat

    constructor ()
      ensures Value() == NOTHING
    {
      cites, ungroundedCites, entitiesChecked, ungroundedEntities, truncated := 0, 0, 0, 0, 0;
    }

    ghost function Value(): Counts
      reads this
    {
      Counts(cites, ungroundedCites, entitiesChecked, ungroundedEntities, truncated)
    }
  }

  // ---- trunc ----

  const SEPARATORS := {' ', ',', ';', ':', '-'}

  /** The last space of `r` at or before `i` that is after `low`. */
  function SpaceBefore(r: string, i: int, low: nat): (at: Option<nat>)
    requires i < |r|
    ensures at.Some? ==> low < at.value <= i && r[at.value] == ' '
    decreases i
  {
    if i <= low || i <= 0 then None
    else if r[i] == ' ' then Some(i)
    else SpaceBefore(r, i - 1, low)
  }

  /** At most `max` characters, cut at a word boundary when there is one in the last quarter. */
  function Truncated(s: string, max: nat): string {
    if |s| <= max then s
    else
      var r := s[..max];
      var at := SpaceBefore(r, max - 1, max - max / 4);
      if at.Some? then TrimEnd(r[..at.value], SEPARATORS) else r
  }

  function CutCount(s: string, max: nat): nat {
    if |s| <= max then 0 else 1
  }

  method Truncate(s: string, max: nat, q: Quality) returns (t: string)
    modifies q`truncated
    ensures t == Truncated(s, max) && q.truncated == old(q.truncated) + CutCount(s, max)
  {
    if |s| <= max {
      return s;
    }
    q.truncated := q.truncated + 1;
    var r := s[..max];
    var i := |r| - 1;
    while i > max - max / 4 && i > 0
      invariant i < |r|
      invariant SpaceBefore(r, i, max - max / 4) == SpaceBefore(r, max - 1, max - max / 4)
      decreases i
    {
      if r[i] == ' ' {
        return TrimEnd(r[..i], SEPARATORS);
      }
      i := i - 1;
    }
    return r;
  }

  // ---- claims ----

  /** The turns cited that exist, each once, in the order they were first cited. */
  function Grounded(turns: seq<int>, valid: set<int>): seq<int> {
    if turns == [] then []
    else
      var kept, t := Grounded(turns[..|turns| - 1], valid), turns[|turns| - 1];
      if t in valid && t !in kept then kept + [t] else kept
  }

  function Ungrounded(turns: seq<int>, valid: set<int>): nat {
    if turns == [] then 0
    else Ungrounded(turns[..|turns| - 1], valid) + (if turns[|turns| - 1] in valid then 0 else 1)
  }

  function ClaimText(c: Claim): string {
    Truncated(Trim(c.text), MAX_CLAIM)
  }

  function KeptClaims(claims: seq<Claim>, valid: set<int>): seq<Claim> {
    if claims == [] then []
    else
      var kept, c := KeptClaims(claims[..|claims| - 1], valid), claims[|claims| - 1];
      if ClaimText(c) == "" then kept else kept + [Claim(ClaimText(c), Grounded(c.turns, valid))]
  }

  function Cap<T>(s: seq<T>, max: nat): seq<T> {
    if |s| > max then s[..max] else s
  }

  function CapCount<T>(s: seq<T>, max: nat): nat {
    if |s| > max then 1 else 0
  }

  function ClaimsOf(claims: seq<Claim>, valid: set<int>): seq<Claim> {
    Cap(KeptClaims(claims, valid), MAX_CLAIMS)
  }

  /** What one claim adds to the counters; a claim without text adds no citations. */
  function ClaimCounts(c: Claim, valid: set<int>): Counts {
    var cut := Cuts(CutCount(Trim(c.text), MAX_CLAIM));
    if ClaimText(c) == "" then cut
    else cut.(cites := |c.turns|, ungroundedCites := Ungrounded(c.turns, valid))
  }

  function EachClaim(claims: seq<Claim>, valid: set<int>): Counts {
    if claims == [] then NOTHING
    else Plus(EachClaim(claims[..|claims| - 1], valid), ClaimCounts(claims[|claims| - 1], valid))
  }

  function ClaimsCounts(claims: seq<Claim>, valid: set<int>): Counts {
    Plus(EachClaim(claims, valid), Cuts(CapCount(KeptClaims(claims, valid), MAX_CLAIMS)))
  }

  method GroundTurns(cited: seq<int>, valid: set<int>, q: Quality) returns (turns: seq<int>)
    modifies q`cites, q`ungroundedCites
    ensures turns == Grounded(cited, valid)
    ensures q.cites == old(q.cites) + |cited| && q.ungroundedCites == old(q.ungroundedCites) + Ungrounded(cited, valid)
  {
    turns := [];
    var seen: set<int> := {};
    var i := 0;
    while i < |cited|
      invariant i <= |cited| && turns == Grounded(cited[..i], valid) && seen == set t | t in turns
      invariant q.cites == old(q.cites) + i
      invariant q.ungroundedCites == old(q.ungroundedCites) + Ungrounded(cited[..i], valid)
    {
      var t := cited[i];
      assert cited[..i + 1][..i] == cited[..i];
      q.cites := q.cites + 1;
      if t !in valid {
        q.ungroundedCites := q.ungroundedCites + 1;
      } else if t !in seen {
        seen := seen + {t};
        turns := turns + [t];
      }
      i := i + 1;
    }
    assert cited[..|cited|] == cited;
  }

  /** One round: the claim to keep, if its text is not empty. */
  method GroundClaim(c: Claim, valid: set<int>, q: Quality) returns (kept: Option<Claim>)
    modifies q
    ensures kept == (if ClaimText(c) == "" then None else Some(Claim(ClaimText(c), Grounded(c.turns, valid))))
    ensures q.Value() == Plus(old(q.Value()), ClaimCounts(c, valid))
  {
    var text := Truncate(Trim(c.text), MAX_CLAIM, q);
    if text == "" {
      return None;
    }
    var turns := GroundTurns(c.turns, valid, q);
    return Some(Claim(text, turns));
  }

  lemma OneMoreClaim(claims: seq<Claim>, i: nat, valid: set<int>, start: Counts)
    requires i < |claims|
    ensures KeptClaims(claims[..i + 1], valid)
         == KeptClaims(claims[..i], valid)
            + (if ClaimText(claims[i]) == "" then []
               else [Claim(ClaimText(claims[i]), Grounded(claims[i].turns, valid))])
    ensures Plus(start, EachClaim(claims[..i + 1], valid))
         == Plus(Plus(start, EachClaim(claims[..i], valid)), ClaimCounts(claims[i], valid))
  {
    assert claims[..i + 1][..i] == claims[..i];
  }

  method EveryClaim(claims: seq<Claim>, valid: set<int>, q: Quality) returns (out: seq<Claim>)
    modifies q
    ensures out == KeptClaims(claims, valid) && q.Value() == Plus(old(q.Value()), EachClaim(claims, valid))
  {
    out := [];
    var i := 0;
    while i < |claims|
      invariant i <= |claims| && out == KeptClaims(claims[..i], valid)
      invariant q.Value() == Plus(old(q.Value()), EachClaim(claims[..i], valid))
    {
      OneMoreClaim(claims, i, valid, old(q.Value()));
      var kept := GroundClaim(claims[i], valid, q);
      if kept.Some? {
        out := out + [kept.value];
      }
      i := i + 1;
    }
    assert claims[..|claims|] == claims;
  }

  method Claims(claims: seq<Claim>, valid: set<int>, q: Quality) returns (out: seq<Claim>)
    modifies q
    ensures out == ClaimsOf(claims, valid) && q.Value() == Plus(old(q.Value()), ClaimsCounts(claims, valid))
  {
    out := EveryClaim(claims, valid, q);
    if |out| > MAX_CLAIMS {
      q.truncated := q.truncated + 1;
      out := out[..MAX_CLAIMS];
    }
  }

  // ---- tags ----

  predicate TagChar(c: char) {
    'a' <= c <= 'z' || '0' <= c <= '9' || c == '-'
  }

  /** Lower-case text with dashes for spaces and everything else that may not be in a tag left out. */
  function TagChars(s: string): string {
    if s == "" then ""
    else
      var c := if s[0] == ' ' then '-' else s[0];
      (if TagChar(c) then [c] else "") + TagChars(s[1..])
  }

  function Tag(s: string): string {
    TrimEnd(TrimStart(TagChars(ToLower(Trim(s))), {'-'}), {'-'})
  }

  predicate Usable(tag: string) {
    tag != "" && |tag| <= MAX_TAG_LEN
  }

  function KeptTags(tags: seq<string>): seq<string> {
    if tags == [] then []
    else
      var kept, t := KeptTags(tags[..|tags| - 1]), Tag(tags[|tags| - 1]);
      if Usable(t) && t !in kept then kept + [t] else kept
  }

  function TagsOf(tags: seq<string>): seq<string> {
    Cap(KeptTags(tags), MAX_TOPICS)
  }

  method Tags(tags: seq<string>, q: Quality) returns (out: seq<string>)
    modifies q`truncated
    ensures out == TagsOf(tags) && q.truncated == old(q.truncated) + CapCount(KeptTags(tags), MAX_TOPICS)
  {
    out := [];
    var seen: set<string> := {};
    var i := 0;
    while i < |tags|
      invariant i <= |tags| && out == KeptTags(tags[..i]) && seen == set t | t in out
      invariant q.truncated == old(q.truncated)
    {
      assert tags[..i + 1][..i] == tags[..i];
      var t := Tag(tags[i]);
      if !(t == "" || |t| > MAX_TAG_LEN || t in seen) {
        seen := seen + {t};
        out := out + [t];
      }
      i := i + 1;
    }
    assert tags[..|tags|] == tags;
    if |out| > MAX_TOPICS {
      q.truncated := q.truncated + 1;
      out := out[..MAX_TOPICS];
    }
  }

  // ---- names ----

  function Name(s: string): string {
    Truncated(Trim(s), MAX_ENTITY_LEN)
  }

  /** Whether a name is there but for its case. */
  predicate Listed(names: seq<string>, key: string) {
    exists i | 0 <= i < |names| :: ToLower(names[i]) == key
  }

  lemma ListedMore(names: seq<string>, n: string, key: string)
    ensures Listed(names + [n], key) <==> Listed(names, key) || key == ToLower(n)
  {
    var more := names + [n];
    assert more[|names|] == n;
    assert forall i | 0 <= i < |names| :: more[i] == names[i];
  }

  function KeptNames(names: seq<string>): seq<string> {
    if names == [] then []
    else
      var kept, n := KeptNames(names[..|names| - 1]), Name(names[|names| - 1]);
      if n == "" || Listed(kept, ToLower(n)) then kept else kept + [n]
  }

  function NamesOf(names: seq<string>): seq<string> {
    Cap(KeptNames(names), MAX_ENTITIES)
  }

  function NameCuts(names: seq<string>): nat {
    if names == [] then 0
    else NameCuts(names[..|names| - 1]) + CutCount(Trim(names[|names| - 1]), MAX_ENTITY_LEN)
  }

  function NamesCounts(names: seq<string>): nat {
    NameCuts(names) + CapCount(KeptNames(names), MAX_ENTITIES)
  }

  lemma OneMoreName(names: seq<string>, i: nat)
    requires i < |names|
    ensures var kept, n := KeptNames(names[..i]), Name(names[i]);
            KeptNames(names[..i + 1]) == if n == "" || Listed(kept, ToLower(n)) then kept else kept + [n]
    ensures NameCuts(names[..i + 1]) == NameCuts(names[..i]) + CutCount(Trim(names[i]), MAX_ENTITY_LEN)
  {
    assert names[..i + 1][..i] == names[..i];
  }

  /** One round: the name is kept unless it is empty or already there. */
  method KeepName(raw: string, names: seq<string>, seen: set<string>, q: Quality)
    returns (out: seq<string>, seen': set<string>)
    requires forall key :: key in seen <==> Listed(names, key)
    modifies q`truncated
    ensures out == if Name(raw) == "" || Listed(names, ToLower(Name(raw))) then names else names + [Name(raw)]
    ensures forall key :: key in seen' <==> Listed(out, key)
    ensures q.truncated == old(q.truncated) + CutCount(Trim(raw), MAX_ENTITY_LEN)
  {
    out, seen' := names, seen;
    var n := Truncate(Trim(raw), MAX_ENTITY_LEN, q);
    var key := ToLower(n);
    if n == "" || key in seen {
      return;
    }
    seen' := seen + {key};
    out := names + [n];
    forall k
      ensures Listed(out, k) <==> Listed(names, k) || k == key
    {
      ListedMore(names, n, k);
    }
  }

  method EveryName(names: seq<string>, q: Quality) returns (out: seq<string>)
    modifies q`truncated
    ensures out == KeptNames(names) && q.truncated == old(q.truncated) + NameCuts(names)
  {
    out := [];
    var seen: set<string> := {};
    var i := 0;
    while i < |names|
      invariant i <= |names| && out == KeptNames(names[..i])
      invariant forall key :: key in seen <==> Listed(out, key)
      invariant q.truncated == old(q.truncated) + NameCuts(names[..i])
    {
      OneMoreName(names, i);
      out, seen := KeepName(names[i], out, seen, q);
      i := i + 1;
    }
    assert names[..|names|] == names;
  }

  method Names(names: seq<string>, q: Quality) returns (out: seq<string>)
    modifies q`truncated
    ensures out == NamesOf(names) && q.truncated == old(q.truncated) + NamesCounts(names)
  {
    out := EveryName(names, q);
    if |out| > MAX_ENTITIES {
      q.truncated := q.truncated + 1;
      out := out[..MAX_ENTITIES];
    }
  }

  // ---- Parse ----

  datatype Draft = Draft(schemaVersion: int, title: string, summary: string, sessionType: string, outcome: string,
                         topics: seq<string>, decisions: seq<Claim>, followUps: seq<Claim>, entities: Entities,
                         language: string)

  /** What the decoder made of a reply; `more` when something follows the object. */
  datatype Decoded<T> = Undecodable(reason: string) | Decoded(value: T, more: bool)

  predicate SessionType(s: string) {
    s in {"coding", "debugging", "design", "research", "ops", "writing", "planning", "chat", "other"}
  }

  predicate OutcomeKind(s: string) {
    s in {"completed", "partial", "abandoned", "unclear"}
  }

  function Normal(s: string): string {
    ToLower(Trim(s))
  }

  function NamesIn(e: Entities): Entities {
    Entities(NamesOf(e.projects), NamesOf(e.repos), NamesOf(e.tools), NamesOf(e.technologies))
  }

  function NamesInCounts(e: Entities): nat {
    NamesCounts(e.projects) + NamesCounts(e.repos) + NamesCounts(e.tools) + NamesCounts(e.technologies)
  }

  function Contains(text: string, part: string): bool {
    exists i | 0 <= i <= |text| :: part <= text[i..]
  }

  function Unmentioned(names: seq<string>, source: string): nat {
    if names == [] then 0
    else Unmentioned(names[..|names| - 1], source) + (if Contains(source, ToLower(names[|names| - 1])) then 0 else 1)
  }

  /** The class a decoded draft is refused under, if it is. */
  function Refusal(d: Draft): Option<string> {
    if Truncated(Trim(d.title), MAX_TITLE) == "" || Truncated(Trim(d.summary), MAX_SUMMARY) == "" then
      Some("missing_required")
    else if !SessionType(Normal(d.sessionType)) || !OutcomeKind(Normal(d.outcome)) then Some("enum")
    else None
  }

  function Validated(d: Draft, valid: set<int>): Draft {
    Draft(1, Truncated(Trim(d.title), MAX_TITLE), Truncated(Trim(d.summary), MAX_SUMMARY), Normal(d.sessionType),
          Normal(d.outcome), TagsOf(d.topics), ClaimsOf(d.decisions, valid), ClaimsOf(d.followUps, valid),
          NamesIn(d.entities), Truncated(Normal(d.language), MAX_LANGUAGE))
  }

  function HeadCounts(d: Draft): Counts {
    Cuts(CutCount(Trim(d.title), MAX_TITLE) + CutCount(Trim(d.summary), MAX_SUMMARY))
  }

  function ShortCounts(d: Draft): Counts {
    Cuts(CutCount(Normal(d.language), MAX_LANGUAGE) + CapCount(KeptTags(d.topics), MAX_TOPICS))
  }

  function BothClaims(d: Draft, valid: set<int>): Counts {
    Plus(ClaimsCounts(d.decisions, valid), ClaimsCounts(d.followUps, valid))
  }

  /** A project or repository is ungrounded when the session never mentions it. */
  function EntitiesCounts(e: Entities, source: string): Counts {
    var out := NamesIn(e);
    Counts(0, 0, |out.projects| + |out.repos|, Unmentioned(out.projects, source) + Unmentioned(out.repos, source),
           NamesInCounts(e))
  }

  function DraftCounts(d: Draft, valid: set<int>, source: string): Counts {
    Plus(Plus(Plus(HeadCounts(d), ShortCounts(d)), BothClaims(d, valid)), EntitiesCounts(d.entities, source))
  }

  /** The store's redaction of one text. */
  type Redaction = string -> string

  function RedactedTexts(texts: seq<string>, redact: Redaction): (r: seq<string>)
    ensures |r| == |texts| && forall i | 0 <= i < |r| :: r[i] == redact(texts[i])
  {
    seq(|texts|, i requires 0 <= i < |texts| => redact(texts[i]))
  }

  function RedactedClaims(claims: seq<Claim>, redact: Redaction): (r: seq<Claim>)
    ensures |r| == |claims| && forall i | 0 <= i < |r| :: r[i] == Claim(redact(claims[i].text), claims[i].turns)
  {
    seq(|claims|, i requires 0 <= i < |claims| => Claim(redact(claims[i].text), claims[i].turns))
  }

  function Redacted(d: Draft, redact: Redaction): Draft {
    d.(title := redact(d.title), summary := redact(d.summary), topics := RedactedTexts(d.topics, redact),
       decisions := RedactedClaims(d.decisions, redact), followUps := RedactedClaims(d.followUps, redact),
       entities := Entities(RedactedTexts(d.entities.projects, redact), RedactedTexts(d.entities.repos, redact),
                            RedactedTexts(d.entities.tools, redact), RedactedTexts(d.entities.technologies, redact)))
  }

  method RedactTexts(texts: seq<string>, redact: Redaction) returns (r: seq<string>)
    ensures r == RedactedTexts(texts, redact)
  {
    r := [];
    var i := 0;
    while i < |texts|
      invariant i <= |texts| && r == RedactedTexts(texts, redact)[..i]
    {
      r := r + [redact(texts[i])];
      i := i + 1;
    }
  }

  method RedactClaims(claims: seq<Claim>, redact: Redaction) returns (r: seq<Claim>)
    ensures r == RedactedClaims(claims, redact)
  {
    r := [];
    var i := 0;
    while i < |claims|
      invariant i <= |claims| && r == RedactedClaims(claims, redact)[..i]
    {
      r := r + [Claim(redact(claims[i].text), claims[i].turns)];
      i := i + 1;
    }
  }

  method RedactResult(d: Draft, redact: Redaction) returns (r: Draft)
    ensures r == Redacted(d, redact)
  {
    var topics := RedactTexts(d.topics, redact);
    var decisions := RedactClaims(d.decisions, redact);
    var followUps := RedactClaims(d.followUps, redact);
    var projects := RedactTexts(d.entities.projects, redact);
    var repos := RedactTexts(d.entities.repos, redact);
    var tools := RedactTexts(d.entities.tools, redact);
    var technologies := RedactTexts(d.entities.technologies, redact);
    return d.(title := redact(d.title), summary := redact(d.summary), topics := topics, decisions := decisions,
              followUps := followUps, entities := Entities(projects, repos, tools, technologies));
  }

  function ParseOf(reply: Decoded<Draft>, valid: set<int>, redact: Redaction): Result<Draft, string> {
    match reply
    case Undecodable(reason) => Err(reason)
    case Decoded(d, more) =>
      if more then Err("trailing_output")
      else if d.schemaVersion != 0 && d.schemaVersion != 1 then Err("schema_version")
      else if Refusal(d).Some? then Err(Refusal(d).value)
      else Ok(Redacted(Validated(d, valid), redact))
  }

  method CheckEntities(names: seq<string>, source: string, q: Quality)
    modifies q`entitiesChecked, q`ungroundedEntities
    ensures q.entitiesChecked == old(q.entitiesChecked) + |names|
    ensures q.ungroundedEntities == old(q.ungroundedEntities) + Unmentioned(names, source)
  {
    var i := 0;
    while i < |names|
      invariant i <= |names| && q.entitiesChecked == old(q.entitiesChecked) + i
      invariant q.ungroundedEntities == old(q.ungroundedEntities) + Unmentioned(names[..i], source)
    {
      assert names[..i + 1][..i] == names[..i];
      q.entitiesChecked := q.entitiesChecked + 1;
      if !Contains(source, ToLower(names[i])) {
        q.ungroundedEntities := q.ungroundedEntities + 1;
      }
      i := i + 1;
    }
    assert names[..|names|] == names;
  }

  method EntityNames(e: Entities, q: Quality) returns (out: Entities)
    modifies q`truncated
    ensures out == NamesIn(e) && q.truncated == old(q.truncated) + NamesInCounts(e)
  {
    var projects := Names(e.projects, q);
    var repos := Names(e.repos, q);
    var tools := Names(e.tools, q);
    var technologies := Names(e.technologies, q);
    return Entities(projects, repos, tools, technologies);
  }

  method ParseClaims(d: Draft, valid: set<int>, q: Quality) returns (decisions: seq<Claim>, followUps: seq<Claim>)
    modifies q
    ensures decisions == ClaimsOf(d.decisions, valid) && followUps == ClaimsOf(d.followUps, valid)
    ensures q.Value() == Plus(old(q.Value()), BothClaims(d, valid))
  {
    decisions := Claims(d.decisions, valid, q);
    followUps := Claims(d.followUps, valid, q);
    PlusRegroups(old(q.Value()), ClaimsCounts(d.decisions, valid), ClaimsCounts(d.followUps, valid));
  }

  method ParseEntities(e: Entities, source: string, q: Quality) returns (out: Entities)
    modifies q
    ensures out == NamesIn(e) && q.Value() == Plus(old(q.Value()), EntitiesCounts(e, source))
  {
    out := EntityNames(e, q);
    CheckEntities(out.projects, source, q);
    CheckEntities(out.repos, source, q);
  }

  lemma PlusRegroups(a: Counts, b: Counts, c: Counts)
    ensures Plus(Plus(a, b), c) == Plus(a, Plus(b, c))
  {
  }

  /** The part of `Parse` after the required fields. */
  method ParseLists(d: Draft, title: string, summary: string, valid: set<int>, source: string, q: Quality)
    returns (r: Draft)
    requires title == Truncated(Trim(d.title), MAX_TITLE) && summary == Truncated(Trim(d.summary), MAX_SUMMARY)
    modifies q
    ensures r == Validated(d, valid)
    ensures q.Value() == Plus(Plus(Plus(old(q.Value()), ShortCounts(d)), BothClaims(d, valid)),
                              EntitiesCounts(d.entities, source))
  {
    var language := Truncate(Normal(d.language), MAX_LANGUAGE, q);
    var topics := Tags(d.topics, q);
    assert q.Value() == Plus(old(q.Value()), ShortCounts(d));
    var decisions, followUps := ParseClaims(d, valid, q);
    var entities := ParseEntities(d.entities, source, q);
    return Draft(1, title, summary, Normal(d.sessionType), Normal(d.outcome), topics, decisions, followUps, entities,
                 language);
  }

  method Parse(reply: Decoded<Draft>, valid: set<int>, source: string, redact: Redaction)
    returns (r: Result<Draft, string>, q: Quality)
    ensures fresh(q) && r == ParseOf(reply, valid, redact)
    ensures r.Ok? ==> q.Value() == DraftCounts(reply.value, valid, source)
  {
    q := new Quality();
    if reply.Undecodable? {
      return Err(reply.reason), q;
    }
    if reply.more {
      return Err("trailing_output"), q;
    }
    var d := reply.value;
    if d.schemaVersion != 0 && d.schemaVersion != 1 {
      return Err("schema_version"), q;
    }
    var title := Truncate(Trim(d.title), MAX_TITLE, q);
    var summary := Truncate(Trim(d.summary), MAX_SUMMARY, q);
    if title == "" || summary == "" {
      return Err("missing_required"), q;
    }
    if !SessionType(Normal(d.sessionType)) || !OutcomeKind(Normal(d.outcome)) {
      return Err("enum"), q;
    }
    assert q.Value() == HeadCounts(d);
    var draft := ParseLists(d, title, summary, valid, source, q);
    var redacted := RedactResult(draft, redact);
    return Ok(redacted), q;
  }

  // ---- ParsePartial ----

  datatype Partial = Partial(summary: string, topics: seq<string>, decisions: seq<Claim>, followUps: seq<Claim>,
                             entities: Entities)

  function PartialOf(reply: Decoded<Partial>, valid: set<int>): Result<Partial, string> {
    match reply
    case Undecodable(reason) => Err(reason)
    case Decoded(p, more) =>
      var summary := Truncated(Trim(p.summary), MAX_PARTIAL_SUMMARY);
      if more then Err("trailing_output")
      else if summary == "" then Err("missing_required")
      else Ok(Partial(summary, TagsOf(p.topics), Cap(ClaimsOf(p.decisions, valid), MAX_PARTIAL_CLAIMS),
                      Cap(ClaimsOf(p.followUps, valid), MAX_PARTIAL_CLAIMS), NamesIn(p.entities)))
  }

  method ParsePartial(reply: Decoded<Partial>, valid: set<int>) returns (r: Result<Partial, string>)
    ensures r == PartialOf(reply, valid)
  {
    if reply.Undecodable? {
      return Err(reply.reason);
    }
    if reply.more {
      return Err("trailing_output");
    }
    var p := reply.value;
    var q := new Quality();
    var summary := Truncate(Trim(p.summary), MAX_PARTIAL_SUMMARY, q);
    if summary == "" {
      return Err("missing_required");
    }
    var topics := Tags(p.topics, q);
    var decisions := Claims(p.decisions, valid, q);
    var followUps := Claims(p.followUps, valid, q);
    var entities := EntityNames(p.entities, q);
    return Ok(Partial(summary, topics, Cap(decisions, MAX_PARTIAL_CLAIMS), Cap(followUps, MAX_PARTIAL_CLAIMS),
                      entities));
  }
}
