/**
 What becomes of every field of a reply, which replies are refused and why, and what the counters count,
 each in terms of the reply alone.
 */
module GroundingReplies {
  import opened Wrappers
  import opened Text
  import opened Sorting
  import opened Grounding
  import opened GroundingProperties

  // ---- Lists keep their order ----

  /** A longer list of citations keeps what a shorter one kept, and goes on from there. */
  lemma {:induction false} CitationsGrow(turns: seq<int>, valid: set<int>, n: nat)
    requires n <= |turns|
    ensures Grounded(turns[..n], valid) <= Grounded(turns, valid)
    decreases |turns|
  {
    if n == |turns| {
      assert turns[..n] == turns;
    } else {
      var init := turns[..|turns| - 1];
      CitationsGrow(init, valid, n);
      assert init[..n] == turns[..n];
    }
  }

  lemma {:induction false} TagsGrow(tags: seq<string>, n: nat)
    requires n <= |tags|
    ensures KeptTags(tags[..n]) <= KeptTags(tags)
    decreases |tags|
  {
    if n == |tags| {
      assert tags[..n] == tags;
    } else {
      var init := tags[..|tags| - 1];
      TagsGrow(init, n);
      assert init[..n] == tags[..n];
    }
  }

  lemma {:induction false} NamesGrow(names: seq<string>, n: nat)
    requires n <= |names|
    ensures KeptNames(names[..n]) <= KeptNames(names)
    decreases |names|
  {
    if n == |names| {
      assert names[..n] == names;
    } else {
      var init := names[..|names| - 1];
      NamesGrow(init, n);
      assert init[..n] == names[..n];
    }
  }

  predicate TagGiven(tags: seq<string>, t: string) {
    exists i | 0 <= i < |tags| :: Tag(tags[i]) == t
  }

  lemma TagGivenMore(tags: seq<string>, t: string)
    requires tags != []
    ensures TagGiven(tags, t) <==> TagGiven(tags[..|tags| - 1], t) || Tag(tags[|tags| - 1]) == t
  {
    var init := tags[..|tags| - 1];
    assert forall i | 0 <= i < |init| :: init[i] == tags[i];
  }

  /** The tags kept are those of the given topics that are usable, each once. */
  lemma {:induction false} KeptTagsExactly(tags: seq<string>, t: string)
    ensures t in KeptTags(tags) <==> t != "" && |t| <= 40 && TagGiven(tags, t)
  {
    if tags != [] {
      KeptTagsExactly(tags[..|tags| - 1], t);
      TagGivenMore(tags, t);
    }
  }

  // ---- Tags, character by character ----

  /** A space becomes a dash, letters, digits and dashes stay, and everything else goes. */
  lemma {:induction false} TagCharsExactly(a: string, c: char)
    ensures TagChars("") == ""
    ensures TagChars(a + [c]) == TagChars(a) + (if c == ' ' then "-"
                                                else if 'a' <= c <= 'z' || '0' <= c <= '9' || c == '-' then [c] else "")
  {
    if a != "" {
      assert (a + [c])[1..] == a[1..] + [c];
      TagCharsExactly(a[1..], c);
    } else {
      assert (a + [c])[1..] == "";
    }
  }

  predicate Dashes(s: string) {
    forall i | 0 <= i < |s| :: s[i] == '-'
  }

  lemma {:induction false} TrimStartSplits(s: string, cut: set<char>) returns (cutOff: string)
    ensures s == cutOff + TrimStart(s, cut) && forall i | 0 <= i < |cutOff| :: cutOff[i] in cut
  {
    if s != "" && s[0] in cut {
      cutOff := TrimStartSplits(s[1..], cut);
      cutOff := [s[0]] + cutOff;
      assert s == [s[0]] + s[1..];
    } else {
      cutOff := "";
    }
  }

  lemma TrimEndSplits(s: string, cut: set<char>) returns (cutOff: string)
    ensures s == TrimEnd(s, cut) + cutOff && forall i | 0 <= i < |cutOff| :: cutOff[i] in cut
  {
    TrimEndStops(s, cut);
    cutOff := s[|TrimEnd(s, cut)|..];
  }

  /** A text without the dashes at its ends. */
  lemma BetweenDashes(chars: string) returns (front: string, back: string)
    ensures chars == front + TrimEnd(TrimStart(chars, {'-'}), {'-'}) + back && Dashes(front) && Dashes(back)
    ensures var tag := TrimEnd(TrimStart(chars, {'-'}), {'-'}); tag != "" ==> tag[0] != '-' && tag[|tag| - 1] != '-'
  {
    front := TrimStartSplits(chars, {'-'});
    var rest := TrimStart(chars, {'-'});
    back := TrimEndSplits(rest, {'-'});
    TrimStartStops(chars, {'-'});
    TrimEndStops(rest, {'-'});
    assert front + (TrimEnd(rest, {'-'}) + back) == front + TrimEnd(rest, {'-'}) + back;
  }

  /** A tag is what is left of these characters of the text, trimmed and in lower case, between dashes. */
  lemma TagIsBetweenDashes(s: string) returns (front: string, back: string)
    ensures TagChars(ToLower(Trim(s))) == front + Tag(s) + back && Dashes(front) && Dashes(back)
    ensures Tag(s) != "" ==> Tag(s)[0] != '-' && Tag(s)[|Tag(s)| - 1] != '-'
  {
    front, back := BetweenDashes(TagChars(ToLower(Trim(s))));
  }

  // ---- Redaction ----

  /** Two lists of the same length, the second with every text redacted. */
  ghost predicate TextsAre(texts: seq<string>, redact: Redaction, r: seq<string>) {
    |r| == |texts| && forall i | 0 <= i < |r| :: r[i] == redact(texts[i])
  }

  ghost predicate ClaimsAre(claims: seq<Claim>, redact: Redaction, r: seq<Claim>) {
    |r| == |claims| && forall i | 0 <= i < |r| :: r[i].text == redact(claims[i].text) && r[i].turns == claims[i].turns
  }

  // ---- Saved results ----

  predicate KnownType(s: string) {
    || s == "coding" || s == "debugging" || s == "design" || s == "research" || s == "ops" || s == "writing"
    || s == "planning" || s == "chat" || s == "other"
  }

  predicate KnownOutcome(s: string) {
    s == "completed" || s == "partial" || s == "abandoned" || s == "unclear"
  }

  /** The reply says what a result must say, once its texts are trimmed, and its kinds are known. */
  predicate HasHead(d: Draft) {
    Truncated(Trim(d.title), 80) != "" && Truncated(Trim(d.summary), 1200) != ""
  }

  predicate HasKinds(d: Draft) {
    KnownType(ToLower(Trim(d.sessionType))) && KnownOutcome(ToLower(Trim(d.outcome)))
  }

  /**
   Main result: a reply is accepted exactly when it was decoded with nothing behind it, has schema version
   0 or 1, a title and a summary, and known kinds; otherwise the first of these that it misses is the class
   it is refused under.
   */
  lemma ParsesExactly(reply: Decoded<Draft>, valid: set<int>, redact: Redaction)
    ensures var r := ParseOf(reply, valid, redact);
            match reply
            case Undecodable(reason) => r == Err(reason)
            case Decoded(d, more) =>
              && (more ==> r == Err("trailing_output"))
              && (!more && d.schemaVersion !in {0, 1} ==> r == Err("schema_version"))
              && (!more && d.schemaVersion in {0, 1} && !HasHead(d) ==> r == Err("missing_required"))
              && (!more && d.schemaVersion in {0, 1} && HasHead(d) && !HasKinds(d) ==> r == Err("enum"))
              && (r.Ok? <==> !more && d.schemaVersion in {0, 1} && HasHead(d) && HasKinds(d))
  {
  }

  /** What a saved result says, field by field, of the reply it comes from. */
  ghost predicate SavedFrom(d: Draft, valid: set<int>, redact: Redaction, r: Draft) {
    && r.schemaVersion == 1
    && r.title == redact(Truncated(Trim(d.title), 80)) && r.summary == redact(Truncated(Trim(d.summary), 1200))
    && r.sessionType == ToLower(Trim(d.sessionType)) && r.outcome == ToLower(Trim(d.outcome))
    && r.language == Truncated(ToLower(Trim(d.language)), 16)
    && TextsAre(TagsOf(d.topics), redact, r.topics)
    && ClaimsAre(ClaimsOf(d.decisions, valid), redact, r.decisions)
    && ClaimsAre(ClaimsOf(d.followUps, valid), redact, r.followUps)
    && TextsAre(NamesOf(d.entities.projects), redact, r.entities.projects)
    && TextsAre(NamesOf(d.entities.repos), redact, r.entities.repos)
    && TextsAre(NamesOf(d.entities.tools), redact, r.entities.tools)
    && TextsAre(NamesOf(d.entities.technologies), redact, r.entities.technologies)
  }

  /** Main result: every field of a saved result comes from the field of the reply it should come from. */
  lemma SavedFields(reply: Decoded<Draft>, valid: set<int>, redact: Redaction)
    requires ParseOf(reply, valid, redact).Ok?
    ensures SavedFrom(reply.value, valid, redact, ParseOf(reply, valid, redact).value)
  {
  }

  /** The lists a result may hold: at most the first eight claims or tags, and twelve names. */
  lemma ListsAreCapped(claims: seq<Claim>, valid: set<int>, tags: seq<string>, names: seq<string>)
    ensures var kept := KeptClaims(claims, valid); ClaimsOf(claims, valid) == if |kept| <= 8 then kept else kept[..8]
    ensures TagsOf(tags) == if |KeptTags(tags)| <= 8 then KeptTags(tags) else KeptTags(tags)[..8]
    ensures NamesOf(names) == if |KeptNames(names)| <= 12 then KeptNames(names) else KeptNames(names)[..12]
    ensures forall i | 0 <= i < |claims| :: ClaimText(claims[i]) == Truncated(Trim(claims[i].text), 300)
    ensures forall i | 0 <= i < |names| :: Name(names[i]) == Truncated(Trim(names[i]), 60)
  {
  }

  /** Main result: the same for a part, which is accepted when it was decoded with nothing behind it and sums up. */
  lemma PartFields(reply: Decoded<Partial>, valid: set<int>)
    ensures match reply
            case Undecodable(reason) => PartialOf(reply, valid) == Err(reason)
            case Decoded(p, more) =>
              && (more ==> PartialOf(reply, valid) == Err("trailing_output"))
              && (!more && Truncated(Trim(p.summary), 1500) == "" ==>
                    PartialOf(reply, valid) == Err("missing_required"))
              && (!more && Truncated(Trim(p.summary), 1500) != "" ==>
                    PartialOf(reply, valid)
                    == Ok(Partial(Truncated(Trim(p.summary), 1500), TagsOf(p.topics), ClaimsOf(p.decisions, valid),
                                  ClaimsOf(p.followUps, valid),
                                  Entities(NamesOf(p.entities.projects), NamesOf(p.entities.repos),
                                           NamesOf(p.entities.tools), NamesOf(p.entities.technologies)))))
  {
  }

  // ---- Counters ----

  /** How many positions of a list have a property. */
  ghost function CountOf<T>(s: seq<T>, p: T -> bool): nat {
    |set i | 0 <= i < |s| && p(s[i])|
  }

  // What is counted: turns that do not exist, names never mentioned, and texts that are cut.

  function Missing(valid: set<int>): int -> bool {
    t => t !in valid
  }

  function Unsaid(source: string): string -> bool {
    name => !Contains(source, ToLower(name))
  }

  function LongName(): string -> bool {
    name => |Trim(name)| > 60
  }

  function LongClaim(): Claim -> bool {
    (c: Claim) => |Trim(c.text)| > 300
  }

  lemma CountMore<T>(s: seq<T>, p: T -> bool)
    requires s != []
    ensures CountOf(s, p) == CountOf(s[..|s| - 1], p) + (if p(s[|s| - 1]) then 1 else 0)
  {
    var n := |s| - 1;
    var init := set i | 0 <= i < n && p(s[..n][i]);
    assert (set i | 0 <= i < |s| && p(s[i])) == if p(s[n]) then init + {n} else init;
  }

  lemma CountNone<T>(p: T -> bool)
    ensures CountOf([], p) == 0
  {
    var empty: seq<T> := [];
    assert (set i | 0 <= i < |empty| && p(empty[i])) == {};
  }

  /** Every citation of a turn that does not exist is counted, each time it is made. */
  lemma {:induction false} UngroundedCount(turns: seq<int>, valid: set<int>)
    ensures Ungrounded(turns, valid) == CountOf(turns, Missing(valid))
  {
    if turns == [] {
      CountNone(Missing(valid));
    } else {
      UngroundedCount(turns[..|turns| - 1], valid);
      CountMore(turns, Missing(valid));
    }
  }

  /** A text contains what it can be taken apart around. */
  lemma ContainsExactly(text: string, part: string)
    ensures Contains(text, part) <==> exists a, b :: text == a + part + b
  {
    if i :| 0 <= i <= |text| && part <= text[i..] {
      assert text == text[..i] + part + text[i..][|part|..];
    }
    if a, b :| text == a + part + b {
      assert part <= text[|a|..];
    }
  }

  lemma {:induction false} UnmentionedCount(names: seq<string>, source: string)
    ensures Unmentioned(names, source) == CountOf(names, Unsaid(source))
  {
    if names == [] {
      CountNone(Unsaid(source));
    } else {
      UnmentionedCount(names[..|names| - 1], source);
      CountMore(names, Unsaid(source));
    }
  }

  lemma {:induction false} NameCutsCount(names: seq<string>)
    ensures NameCuts(names) == CountOf(names, LongName())
  {
    if names == [] {
      CountNone(LongName());
    } else {
      NameCutsCount(names[..|names| - 1]);
      CountMore(names, LongName());
    }
  }

  /** The citations of all claims that have a text, one list after the other. */
  function AllCited(claims: seq<Claim>): seq<int> {
    if claims == [] then []
    else
      var last := claims[|claims| - 1];
      AllCited(claims[..|claims| - 1]) + (if Truncated(Trim(last.text), 300) == "" then [] else last.turns)
  }

  lemma {:induction false} UngroundedJoins(a: seq<int>, b: seq<int>, valid: set<int>)
    ensures Ungrounded(a + b, valid) == Ungrounded(a, valid) + Ungrounded(b, valid)
  {
    if b == [] {
      assert a + b == a;
    } else {
      UngroundedJoins(a, b[..|b| - 1], valid);
      assert (a + b)[..|a + b| - 1] == a + b[..|b| - 1];
    }
  }

  /** Main result: the counters of a list of claims: its citations, the ungrounded ones, and the texts cut. */
  lemma {:induction false} ClaimCountsExactly(claims: seq<Claim>, valid: set<int>)
    ensures var n := EachClaim(claims, valid);
            && n.cites == |AllCited(claims)|
            && n.ungroundedCites == Ungrounded(AllCited(claims), valid)
            && n.truncated == CountOf(claims, LongClaim())
            && n.entitiesChecked == n.ungroundedEntities == 0
  {
    if claims == [] {
      CountNone(LongClaim());
    } else {
      var init, last := claims[..|claims| - 1], claims[|claims| - 1];
      ClaimCountsExactly(init, valid);
      CountMore(claims, LongClaim());
      UngroundedJoins(AllCited(init), if Truncated(Trim(last.text), 300) == "" then [] else last.turns, valid);
    }
  }

  function One(b: bool): nat {
    if b then 1 else 0
  }

  /** How many texts and lists of a list of names are cut short. */
  ghost function NamesCut(names: seq<string>): nat {
    CountOf(names, LongName()) + One(|KeptNames(names)| > 12)
  }

  lemma NamesCutExactly(names: seq<string>)
    ensures NamesCounts(names) == NamesCut(names)
  {
    NameCutsCount(names);
  }

  /** The citations of both lists of claims. */
  lemma CitesExactly(d: Draft, valid: set<int>, source: string)
    ensures var n, cited := DraftCounts(d, valid, source), AllCited(d.decisions) + AllCited(d.followUps);
            && n.cites == |cited| && n.ungroundedCites == CountOf(cited, Missing(valid))
  {
    ClaimCountsExactly(d.decisions, valid);
    ClaimCountsExactly(d.followUps, valid);
    UngroundedJoins(AllCited(d.decisions), AllCited(d.followUps), valid);
    UngroundedCount(AllCited(d.decisions) + AllCited(d.followUps), valid);
  }

  /** The projects and repositories kept, and those of them that the session never mentions. */
  lemma EntitiesExactly(d: Draft, valid: set<int>, source: string)
    ensures var n := DraftCounts(d, valid, source);
            var projects, repos := NamesOf(d.entities.projects), NamesOf(d.entities.repos);
            && n.entitiesChecked == |projects| + |repos|
            && n.ungroundedEntities == CountOf(projects, Unsaid(source))
                                       + CountOf(repos, Unsaid(source))
  {
    ClaimCountsExactly(d.decisions, valid);
    ClaimCountsExactly(d.followUps, valid);
    UnmentionedCount(NamesOf(d.entities.projects), source);
    UnmentionedCount(NamesOf(d.entities.repos), source);
  }

  /** How many texts and lists of a list of claims are cut short. */
  ghost function ClaimsCut(claims: seq<Claim>, valid: set<int>): nat {
    CountOf(claims, LongClaim()) + One(|KeptClaims(claims, valid)| > 8)
  }

  lemma ClaimsCutExactly(claims: seq<Claim>, valid: set<int>)
    ensures ClaimsCounts(claims, valid).truncated == ClaimsCut(claims, valid)
  {
    var each, long := EachClaim(claims, valid), CountOf(claims, LongClaim());
    assert each.truncated == long by {
      ClaimCountsExactly(claims, valid);
    }
    CapAdds(each, long, KeptClaims(claims, valid));
  }

  lemma CapAdds(each: Counts, long: nat, kept: seq<Claim>)
    requires each.truncated == long
    ensures Plus(each, Cuts(CapCount(kept, MAX_CLAIMS))).truncated == long + One(|kept| > 8)
  {
  }

  /** How many of the other texts and lists are. */
  function TextsCut(d: Draft): nat {
    One(|Trim(d.title)| > 80) + One(|Trim(d.summary)| > 1200) + One(|ToLower(Trim(d.language))| > 16)
    + One(|KeptTags(d.topics)| > 8)
  }

  lemma TextsCutExactly(d: Draft)
    ensures HeadCounts(d).truncated + ShortCounts(d).truncated == TextsCut(d)
  {
  }

  ghost function EntitiesCut(e: Entities): nat {
    NamesCut(e.projects) + NamesCut(e.repos) + NamesCut(e.tools) + NamesCut(e.technologies)
  }

  lemma EntitiesCutExactly(e: Entities, source: string)
    ensures EntitiesCounts(e, source).truncated == EntitiesCut(e)
  {
    NamesCutExactly(e.projects);
    NamesCutExactly(e.repos);
    NamesCutExactly(e.tools);
    NamesCutExactly(e.technologies);
  }

  lemma SumOfCuts(a: Counts, b: Counts, c: Counts, d: Counts, e: Counts)
    ensures Plus(Plus(Plus(a, b), Plus(c, d)), e).truncated
         == a.truncated + b.truncated + c.truncated + d.truncated + e.truncated
  {
  }

  /** Every text and every list that was cut short is counted once. */
  lemma CutsExactly(d: Draft, valid: set<int>, source: string)
    ensures DraftCounts(d, valid, source).truncated
         == TextsCut(d) + ClaimsCut(d.decisions, valid) + ClaimsCut(d.followUps, valid) + EntitiesCut(d.entities)
  {
    var a, b, c := HeadCounts(d), ShortCounts(d), ClaimsCounts(d.decisions, valid);
    var f, e := ClaimsCounts(d.followUps, valid), EntitiesCounts(d.entities, source);
    SumOfCuts(a, b, c, f, e);
    TextsCutExactly(d);
    ClaimsCutExactly(d.decisions, valid);
    ClaimsCutExactly(d.followUps, valid);
    EntitiesCutExactly(d.entities, source);
  }
}
