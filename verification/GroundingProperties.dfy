/**
 What validation guarantees whatever the model returns: citations are turns of the session, each once;
 the counters bound what was dropped; tags have one normal form; lists are short and free of repeats.
 */
module GroundingProperties {
  import opened Wrappers
  import opened Text
  import opened Grounding
  import opened Sorting
  import Chunks
  import S = EnrichSession

  // ---- trunc ----

  lemma {:induction false} TrimEndStops(s: string, cut: set<char>)
    ensures var r := TrimEnd(s, cut);
            && (r != "" ==> r[|r| - 1] !in cut)
            && (forall i | |r| <= i < |s| :: s[i] in cut)
  {
    if s != "" && s[|s| - 1] in cut {
      TrimEndStops(s[..|s| - 1], cut);
    }
  }

  /**
   Truncation keeps a prefix of at most `max` characters, all of a text that is short enough, and when
   it stops early does so where a word ends. Doing it twice changes nothing.
   */
  lemma TruncationKeepsWords(s: string, max: nat)
    ensures var t := Truncated(s, max);
            && t <= s && |t| <= max && (|s| <= max ==> t == s)
            && (|t| < max && |s| > max ==> s[|t|] in SEPARATORS && (t != "" ==> t[|t| - 1] !in SEPARATORS))
            && Truncated(t, max) == t
  {
    if |s| > max {
      var r := s[..max];
      var at := SpaceBefore(r, max - 1, max - max / 4);
      if at.Some? {
        TrimEndStops(r[..at.value], SEPARATORS);
        assert r[..at.value] == s[..at.value];
        var t := TrimEnd(r[..at.value], SEPARATORS);
        if |t| < at.value {
          assert r[..at.value][|t|] in SEPARATORS;
        }
      }
    }
  }

  lemma {:induction false} SpaceIsLast(r: string, i: int, low: nat)
    requires i < |r|
    ensures var at := SpaceBefore(r, i, low);
            forall k | low < k <= i && (at.Some? ==> k > at.value) :: r[k] != ' '
    decreases i
  {
    if i > low && i > 0 && r[i] != ' ' {
      SpaceIsLast(r, i - 1, low);
    }
  }

  /** Where a text that is too long is cut: at the last space of its last quarter, or else at the limit. */
  ghost predicate CutPoint(s: string, max: nat, at: nat)
    requires |s| > max
  {
    && at <= max && (forall k | at < k < max && k > max - max / 4 :: s[k] != ' ')
    && (at == max || (max - max / 4 < at && s[at] == ' '))
  }

  /** A text that is too long keeps what is before that point, without the separators at its end. */
  lemma CutAtLastSpace(s: string, max: nat) returns (at: nat)
    requires |s| > max
    ensures CutPoint(s, max, at)
    ensures Truncated(s, max) == if at == max then s[..max] else TrimEnd(s[..at], SEPARATORS)
  {
    var r := s[..max];
    SpaceIsLast(r, max - 1, max - max / 4);
    var found := SpaceBefore(r, max - 1, max - max / 4);
    at := if found.Some? then found.value else max;
    assert forall k | 0 <= k < max :: r[k] == s[k];
    if found.Some? {
      assert r[..at] == s[..at];
    }
  }

  // ---- Citations ----

  /** The turns kept are exactly those cited that exist, each once; every other citation was counted. */
  lemma {:induction false} GroundedExactly(turns: seq<int>, valid: set<int>)
    ensures Distinct(Grounded(turns, valid))
    ensures forall t :: t in Grounded(turns, valid) <==> t in turns && t in valid
    ensures |Grounded(turns, valid)| + Ungrounded(turns, valid) <= |turns|
    ensures Ungrounded(turns, valid) == 0 <==> forall t | t in turns :: t in valid
  {
    if turns != [] {
      var init, last := turns[..|turns| - 1], turns[|turns| - 1];
      GroundedExactly(init, valid);
      assert turns == init + [last];
    }
  }

  ghost predicate GroundedClaim(c: Claim, valid: set<int>) {
    && c.text != "" && |c.text| <= MAX_CLAIM
    && Distinct(c.turns) && forall t | t in c.turns :: t in valid
  }

  function Retained(claims: seq<Claim>): nat {
    if claims == [] then 0 else Retained(claims[..|claims| - 1]) + |claims[|claims| - 1].turns|
  }

  lemma {:induction false} RetainedPrefix(claims: seq<Claim>, n: nat)
    requires n <= |claims|
    ensures Retained(claims[..n]) <= Retained(claims)
  {
    if n == |claims| {
      assert claims[..n] == claims;
    } else {
      RetainedPrefix(claims[..|claims| - 1], n);
      assert claims[..|claims| - 1][..n] == claims[..n];
    }
  }

  lemma {:induction false} KeptClaimsGrounded(claims: seq<Claim>, valid: set<int>)
    ensures forall c | c in KeptClaims(claims, valid) :: GroundedClaim(c, valid)
    ensures EachClaim(claims, valid).ungroundedCites <= EachClaim(claims, valid).cites
    ensures Retained(KeptClaims(claims, valid)) + EachClaim(claims, valid).ungroundedCites
         <= EachClaim(claims, valid).cites
  {
    if claims != [] {
      var init, c := claims[..|claims| - 1], claims[|claims| - 1];
      KeptClaimsGrounded(init, valid);
      GroundedExactly(c.turns, valid);
      TruncationKeepsWords(Trim(c.text), MAX_CLAIM);
      if ClaimText(c) != "" {
        var kept := Claim(ClaimText(c), Grounded(c.turns, valid));
        assert (KeptClaims(init, valid) + [kept])[..|KeptClaims(init, valid)|] == KeptClaims(init, valid);
      }
    }
  }

  /**
   Whatever claims come in, at most eight go out, each with a text and with distinct turns that exist;
   the counters bound the citations that were dropped and those that are left.
   */
  lemma ClaimsAreGrounded(claims: seq<Claim>, valid: set<int>)
    ensures var out, n := ClaimsOf(claims, valid), ClaimsCounts(claims, valid);
            && |out| <= MAX_CLAIMS
            && (forall c | c in out :: GroundedClaim(c, valid))
            && n.ungroundedCites <= n.cites
            && Retained(out) <= n.cites - n.ungroundedCites
  {
    KeptClaimsGrounded(claims, valid);
    var kept := KeptClaims(claims, valid);
    if |kept| > MAX_CLAIMS {
      RetainedPrefix(kept, MAX_CLAIMS);
    }
  }

  /** A claim comes out exactly for each one that has a text, in order: its text and its grounded turns. */
  lemma {:induction false} ClaimsKeepOrder(claims: seq<Claim>, valid: set<int>, i: nat)
    requires i < |claims|
    ensures var kept, before := KeptClaims(claims, valid), KeptClaims(claims[..i], valid);
            && before <= kept
            && (ClaimText(claims[i]) != "" ==>
                  && |before| < |kept|
                  && kept[|before|] == Claim(ClaimText(claims[i]), Grounded(claims[i].turns, valid)))
            && (ClaimText(claims[i]) == "" ==> KeptClaims(claims[..i + 1], valid) == before)
  {
    var init := claims[..|claims| - 1];
    if i < |init| {
      ClaimsKeepOrder(init, valid, i);
      assert init[..i] == claims[..i] && init[..i + 1] == claims[..i + 1];
    } else {
      assert claims[..i + 1] == claims;
    }
  }

  // ---- Tags ----

  /** The normal form of a tag. */
  predicate NormalTag(t: string) {
    Usable(t) && (forall c | c in t :: TagChar(c)) && t[0] != '-' && t[|t| - 1] != '-'
  }

  lemma {:induction false} TagCharsOnly(s: string)
    ensures forall c | c in TagChars(s) :: TagChar(c)
  {
    if s != "" {
      TagCharsOnly(s[1..]);
    }
  }

  lemma {:induction false} TagCharsKeeps(s: string)
    requires forall c | c in s :: TagChar(c)
    ensures TagChars(s) == s
  {
    if s != "" {
      TagCharsKeeps(s[1..]);
      assert s[0] in s;
      assert s == [s[0]] + s[1..];
    }
  }

  lemma {:induction false} TrimStartStops(s: string, cut: set<char>)
    ensures var r := TrimStart(s, cut);
            (r != "" ==> r[0] !in cut) && forall c | c in r :: c in s
  {
    if s != "" && s[0] in cut {
      TrimStartStops(s[1..], cut);
    }
  }

  lemma TagIsNormal(s: string)
    requires Usable(Tag(s))
    ensures NormalTag(Tag(s))
  {
    var chars := TagChars(ToLower(Trim(s)));
    var start := TrimStart(chars, {'-'});
    TagCharsOnly(ToLower(Trim(s)));
    TrimStartStops(chars, {'-'});
    TrimEndStops(start, {'-'});
  }

  lemma DashesStay(t: string)
    requires t != "" && t[0] != '-' && t[|t| - 1] != '-'
    ensures TrimEnd(TrimStart(t, {'-'}), {'-'}) == t
  {
  }

  lemma NormalTagStays(t: string)
    requires NormalTag(t)
    ensures Tag(t) == t
  {
    assert Trim(t) == t by {
      assert t[0] in t && t[|t| - 1] in t;
      TrimStays(t);
    }
    assert ToLower(t) == t by {
      LowerStays(t);
    }
    TagCharsKeeps(t);
    DashesStay(t);
  }

  lemma {:induction false} KeptTagsNormal(tags: seq<string>)
    ensures Distinct(KeptTags(tags)) && forall t | t in KeptTags(tags) :: NormalTag(t)
  {
    if tags != [] {
      KeptTagsNormal(tags[..|tags| - 1]);
      if Usable(Tag(tags[|tags| - 1])) {
        TagIsNormal(tags[|tags| - 1]);
      }
    }
  }

  lemma {:induction false} NormalTagsStay(tags: seq<string>)
    requires Distinct(tags) && forall t | t in tags :: NormalTag(t)
    ensures KeptTags(tags) == tags
  {
    if tags != [] {
      NormalTagsStay(tags[..|tags| - 1]);
      assert tags[|tags| - 1] in tags;
      NormalTagStays(tags[|tags| - 1]);
    }
  }

  /** Tags come out distinct, in normal form and few; and normalizing them again changes nothing. */
  lemma TagsAreNormal(tags: seq<string>)
    ensures var out := TagsOf(tags);
            && Distinct(out) && |out| <= MAX_TOPICS
            && (forall t | t in out :: NormalTag(t))
            && TagsOf(out) == out
  {
    KeptTagsNormal(tags);
    NormalTagsStay(TagsOf(tags));
  }

  /** No tag is lost but to the limit: each input's normal form is there when fewer than the limit are. */
  lemma {:induction false} TagsAreComplete(tags: seq<string>, i: nat)
    requires i < |tags| && Usable(Tag(tags[i])) && |KeptTags(tags)| <= MAX_TOPICS
    ensures Tag(tags[i]) in TagsOf(tags)
  {
    TagKept(tags, i);
  }

  lemma {:induction false} TagKept(tags: seq<string>, i: nat)
    requires i < |tags| && Usable(Tag(tags[i]))
    ensures Tag(tags[i]) in KeptTags(tags)
  {
    if i < |tags| - 1 {
      TagKept(tags[..|tags| - 1], i);
    }
  }

  // ---- Names ----

  ghost predicate DistinctNames(names: seq<string>) {
    forall i, j | 0 <= i < j < |names| :: ToLower(names[i]) != ToLower(names[j])
  }

  lemma {:induction false} KeptNamesDistinct(names: seq<string>)
    ensures DistinctNames(KeptNames(names))
    ensures forall n | n in KeptNames(names) :: n != "" && |n| <= MAX_ENTITY_LEN
  {
    if names != [] {
      KeptNamesDistinct(names[..|names| - 1]);
      TruncationKeepsWords(Trim(names[|names| - 1]), MAX_ENTITY_LEN);
    }
  }

  /** No name is lost but to the limit, and none is made up. */
  lemma {:induction false} NamesAreComplete(names: seq<string>)
    ensures forall i | 0 <= i < |names| && Name(names[i]) != "" :: Listed(KeptNames(names), ToLower(Name(names[i])))
    ensures forall n | n in KeptNames(names) :: exists i | 0 <= i < |names| :: Name(names[i]) == n
  {
    if names != [] {
      var init, n := names[..|names| - 1], Name(names[|names| - 1]);
      NamesAreComplete(init);
      forall i | 0 <= i < |names| && Name(names[i]) != ""
        ensures Listed(KeptNames(names), ToLower(Name(names[i])))
      {
        ListedMore(KeptNames(init), n, ToLower(Name(names[i])));
        assert i < |init| ==> init[i] == names[i];
      }
      forall m | m in KeptNames(names)
        ensures exists i | 0 <= i < |names| :: Name(names[i]) == m
      {
        if m in KeptNames(init) {
          var i :| 0 <= i < |init| && Name(init[i]) == m;
          assert names[i] == init[i];
        } else {
          assert Name(names[|names| - 1]) == m;
        }
      }
    }
  }

  ghost predicate ShortList(names: seq<string>) {
    && |names| <= MAX_ENTITIES && DistinctNames(names)
    && forall n | n in names :: n != "" && |n| <= MAX_ENTITY_LEN
  }

  lemma NamesAreShort(names: seq<string>)
    ensures ShortList(NamesOf(names))
  {
    KeptNamesDistinct(names);
  }

  // ---- Whole replies ----

  ghost predicate GroundedClaims(claims: seq<Claim>, valid: set<int>) {
    |claims| <= MAX_CLAIMS && forall c | c in claims :: GroundedClaim(c, valid)
  }

  ghost predicate ShortLists(e: Entities) {
    ShortList(e.projects) && ShortList(e.repos) && ShortList(e.tools) && ShortList(e.technologies)
  }

  ghost predicate GroundedDraft(d: Draft, valid: set<int>) {
    && d.schemaVersion == 1 && 0 < |d.title| <= MAX_TITLE && 0 < |d.summary| <= MAX_SUMMARY
    && SessionType(d.sessionType) && OutcomeKind(d.outcome)
    && Distinct(d.topics) && |d.topics| <= MAX_TOPICS && (forall t | t in d.topics :: NormalTag(t))
    && GroundedClaims(d.decisions, valid) && GroundedClaims(d.followUps, valid) && ShortLists(d.entities)
  }

  lemma EntitiesAreShort(e: Entities)
    ensures ShortLists(NamesIn(e))
  {
    NamesAreShort(e.projects);
    NamesAreShort(e.repos);
    NamesAreShort(e.tools);
    NamesAreShort(e.technologies);
  }

  lemma ClaimListIsGrounded(claims: seq<Claim>, valid: set<int>)
    ensures GroundedClaims(ClaimsOf(claims, valid), valid)
  {
    ClaimsAreGrounded(claims, valid);
  }

  lemma ValidatedIsGrounded(d: Draft, valid: set<int>)
    requires Refusal(d).None?
    ensures GroundedDraft(Validated(d, valid), valid)
  {
    TruncationKeepsWords(Trim(d.title), MAX_TITLE);
    TruncationKeepsWords(Trim(d.summary), MAX_SUMMARY);
    TagsAreNormal(d.topics);
    ClaimListIsGrounded(d.decisions, valid);
    ClaimListIsGrounded(d.followUps, valid);
    EntitiesAreShort(d.entities);
  }

  ghost predicate CitesTurns(claims: seq<Claim>, valid: set<int>) {
    |claims| <= MAX_CLAIMS && forall c | c in claims :: Distinct(c.turns) && forall t | t in c.turns :: t in valid
  }

  /** What the contract says of a result whatever redaction has made of its texts. */
  ghost predicate CitedDraft(d: Draft, valid: set<int>) {
    && d.schemaVersion == 1 && SessionType(d.sessionType) && OutcomeKind(d.outcome) && |d.topics| <= MAX_TOPICS
    && CitesTurns(d.decisions, valid) && CitesTurns(d.followUps, valid)
  }

  lemma RedactionKeepsCitations(claims: seq<Claim>, valid: set<int>, redact: Redaction)
    requires GroundedClaims(claims, valid)
    ensures CitesTurns(RedactedClaims(claims, redact), valid)
  {
    forall c | c in RedactedClaims(claims, redact)
      ensures Distinct(c.turns) && forall t | t in c.turns :: t in valid
    {
      var i :| 0 <= i < |claims| && RedactedClaims(claims, redact)[i] == c;
      assert GroundedClaim(claims[i], valid);
    }
  }

  /**
   Every reply that is accepted meets the whole contract, and is then redacted text by text: its
   citations stand, so do the kinds and the number of its entries, but a redacted text may be longer.
   */
  lemma AcceptedIsGrounded(reply: Decoded<Draft>, valid: set<int>, redact: Redaction)
    requires ParseOf(reply, valid, redact).Ok?
    ensures reply.Decoded? && GroundedDraft(Validated(reply.value, valid), valid)
    ensures ParseOf(reply, valid, redact).value == Redacted(Validated(reply.value, valid), redact)
    ensures CitedDraft(ParseOf(reply, valid, redact).value, valid)
  {
    ValidatedIsGrounded(reply.value, valid);
    RedactionKeepsCitations(ClaimsOf(reply.value.decisions, valid), valid, redact);
    RedactionKeepsCitations(ClaimsOf(reply.value.followUps, valid), valid, redact);
  }

  lemma DraftCountsAddUp(d: Draft, valid: set<int>, source: string)
    ensures var n, out := DraftCounts(d, valid, source), Validated(d, valid);
            && n.ungroundedCites <= n.cites
            && Retained(out.decisions) + Retained(out.followUps) <= n.cites - n.ungroundedCites
  {
    ClaimsAreGrounded(d.decisions, valid);
    ClaimsAreGrounded(d.followUps, valid);
  }

  ghost predicate GroundedPartial(p: Partial, valid: set<int>) {
    && 0 < |p.summary| <= MAX_PARTIAL_SUMMARY
    && Distinct(p.topics) && |p.topics| <= MAX_TOPICS && (forall t | t in p.topics :: NormalTag(t))
    && GroundedClaims(p.decisions, valid) && GroundedClaims(p.followUps, valid) && ShortLists(p.entities)
  }

  /** A part's claims are capped at twelve only after they were capped at eight, so the second cap never cuts. */
  lemma PartialIsGrounded(reply: Decoded<Partial>, valid: set<int>)
    requires PartialOf(reply, valid).Ok?
    ensures var p := PartialOf(reply, valid).value;
            && GroundedPartial(p, valid)
            && p.decisions == ClaimsOf(reply.value.decisions, valid)
            && p.followUps == ClaimsOf(reply.value.followUps, valid)
  {
    var p := reply.value;
    TruncationKeepsWords(Trim(p.summary), MAX_PARTIAL_SUMMARY);
    TagsAreNormal(p.topics);
    ClaimListIsGrounded(p.decisions, valid);
    ClaimListIsGrounded(p.followUps, valid);
    EntitiesAreShort(p.entities);
  }

  // ---- One prompt, asked twice at most ----

  /** A reply as it arrives, and whether the provider stopped it at the output cap. */
  datatype Reply<T> = Reply(text: Decoded<T>, cutOff: bool)

  /** The reply to a prompt, and the one to the prompt that names the rejection, were it asked. */
  datatype Exchange<T> = Exchange(first: Reply<T>, second: Reply<T>)

  function ReplyOf<T>(e: Exchange<T>, attempt: nat): Reply<T> {
    if attempt == 0 then e.first else e.second
  }

  function RejectedAs(cutOff: bool, reason: string): string {
    if cutOff then "output_truncated" else "parse_" + reason
  }

  /** The first reply that is valid, or the class the last one was rejected under. */
  function Answered<R>(first: Result<R, string>, second: Result<R, string>, cutOff: bool): Result<R, string> {
    if first.Ok? then first
    else if second.Ok? then second
    else Err(RejectedAs(cutOff, second.error))
  }

  function DraftAnswer(e: Exchange<Draft>, valid: set<int>, redact: Redaction): Result<Draft, string> {
    Answered(ParseOf(e.first.text, valid, redact), ParseOf(e.second.text, valid, redact), e.second.cutOff)
  }

  function PartAnswer(e: Exchange<Partial>, valid: set<int>): Result<Partial, string> {
    Answered(PartialOf(e.first.text, valid), PartialOf(e.second.text, valid), e.second.cutOff)
  }

  method AskDraft(e: Exchange<Draft>, valid: set<int>, source: string, redact: Redaction)
    returns (r: Result<Draft, string>)
    ensures r == DraftAnswer(e, valid, redact)
  {
    var lastClass := "";
    var attempt := 0;
    while attempt < 2
      invariant attempt <= 2 && (attempt >= 1 ==> ParseOf(e.first.text, valid, redact).Err?)
      invariant attempt == 2 ==> DraftAnswer(e, valid, redact) == Err(lastClass)
    {
      var reply := ReplyOf(e, attempt);
      var parsed, q := Parse(reply.text, valid, source, redact);
      if parsed.Ok? {
        return parsed;
      }
      lastClass := RejectedAs(reply.cutOff, parsed.error);
      attempt := attempt + 1;
    }
    return Err(lastClass);
  }

  method AskPart(e: Exchange<Partial>, valid: set<int>) returns (r: Result<Partial, string>)
    ensures r == PartAnswer(e, valid)
  {
    var lastClass := "";
    var attempt := 0;
    while attempt < 2
      invariant attempt <= 2 && (attempt >= 1 ==> PartialOf(e.first.text, valid).Err?)
      invariant attempt == 2 ==> PartAnswer(e, valid) == Err(lastClass)
    {
      var reply := ReplyOf(e, attempt);
      var parsed := ParsePartial(reply.text, valid);
      if parsed.Err? {
        lastClass := RejectedAs(reply.cutOff, parsed.error);
      } else {
        return parsed;
      }
      attempt := attempt + 1;
    }
    return Err(lastClass);
  }

  /** The paid event a judged reply is for the session's books. */
  function EventOf<R>(cost: real, judged: Result<R, string>, cutOff: bool): S.Event {
    S.Reply(cost, true, if judged.Ok? then "" else judged.error, cutOff)
  }

  /**
   The two replies as `EnrichSession` sees them: a call whose replies are booked ends with this answer,
   and asks a second time exactly when the first reply was rejected.
   */
  lemma AnswersAgree<R>(script: S.Script, t: nat, a: S.Account, first: Result<R, string>, second: Result<R, string>,
                        cost: real, cost': real, cutOff: bool, cutOff': bool)
    requires (first.Err? ==> first.error != "") && (second.Err? ==> second.error != "")
    requires script(t) == EventOf(cost, first, cutOff) && script(t + 1) == EventOf(cost', second, cutOff')
    ensures var answer, r := S.Ask(script, t, a, 0, ""), Answered(first, second, cutOff');
            && answer.0 == (if first.Ok? then t + 1 else t + 2)
            && answer.2 == S.Answer(if r.Ok? then "" else r.error, None)
  {
    assert S.Backoff(script, t, 1) == t && S.Backoff(script, t + 1, 1) == t + 1;
    if first.Err? {
      var rejected := S.RejectionClass(script(t));
      var booked := S.Retried(S.Booked(a, script(t)), rejected);
      assert S.Ask(script, t, a, 0, "") == S.Ask(script, t + 1, booked, 1, rejected);
      if second.Err? {
        var again := S.RejectionClass(script(t + 1));
        var last := S.Retried(S.Booked(booked, script(t + 1)), again);
        assert S.Ask(script, t + 1, booked, 1, rejected) == S.Ask(script, t + 2, last, 2, again);
      }
    }
  }

  // ---- A session ----

  /** The replies of one session: a single call, or one for each part and one to combine them. */
  datatype Replies = Single(reply: Exchange<Draft>) | MapReduce(parts: seq<Exchange<Partial>>, last: Exchange<Draft>)

  function TurnNumbers(turns: seq<Chunks.Turn>): set<int> {
    set t | t in turns :: t.number
  }

  function Judged(parts: seq<Exchange<Partial>>, valid: set<int>): seq<Result<Partial, string>> {
    seq(|parts|, i requires 0 <= i < |parts| => PartAnswer(parts[i], valid))
  }

  /** A part that was cut off keeps that class. */
  function PartClass(reason: string): string {
    if reason == "output_truncated" then reason else "map_" + reason
  }

  /** The partial descriptions of the first `n` parts, if all of them are valid. */
  function Partials(judged: seq<Result<Partial, string>>, n: nat): Result<seq<Partial>, string>
    requires n <= |judged|
  {
    if n == 0 then Ok([])
    else
      var rest, p := Partials(judged, n - 1), judged[n - 1];
      if rest.Err? then rest
      else if p.Err? then Err(PartClass(p.error))
      else Ok(rest.value + [p.value])
  }

  /** What is saved for a session, and what its combining call was given. */
  function Saved(turns: seq<Chunks.Turn>, replies: Replies, redact: Redaction): (seq<Partial>, Result<Draft, string>) {
    var valid := TurnNumbers(turns);
    match replies
    case Single(reply) => ([], DraftAnswer(reply, valid, redact))
    case MapReduce(parts, last) =>
      var ps := Partials(Judged(parts, valid), |parts|);
      if ps.Err? then ([], Err(ps.error))
      else
        var r := DraftAnswer(last, valid, redact);
        (ps.value, if r.Err? then Err("reduce_" + r.error) else r)
  }

  method ValidNumbers(turns: seq<Chunks.Turn>) returns (valid: set<int>)
    ensures valid == TurnNumbers(turns)
  {
    valid := {};
    var i := 0;
    while i < |turns|
      invariant i <= |turns| && valid == set t | t in turns[..i] :: t.number
    {
      assert turns[..i + 1] == turns[..i] + [turns[i]];
      valid := valid + {turns[i].number};
      i := i + 1;
    }
    assert turns[..|turns|] == turns;
  }

  predicate IsJudged(parts: seq<Exchange<Partial>>, valid: set<int>, judged: seq<Result<Partial, string>>, i: nat) {
    i < |parts| == |judged| && judged[i] == PartAnswer(parts[i], valid)
  }

  method JudgePart(parts: seq<Exchange<Partial>>, i: nat, valid: set<int>, ghost judged: seq<Result<Partial, string>>)
    returns (p: Result<Partial, string>)
    requires IsJudged(parts, valid, judged, i)
    ensures p == judged[i]
  {
    p := AskPart(parts[i], valid);
  }

  method AllPartials(parts: seq<Exchange<Partial>>, valid: set<int>, ghost judged: seq<Result<Partial, string>>)
    returns (r: Result<seq<Partial>, string>)
    requires |judged| == |parts| && forall i | 0 <= i < |parts| :: IsJudged(parts, valid, judged, i)
    ensures r == Partials(judged, |parts|)
  {
    var partials := [];
    var i := 0;
    while i < |parts|
      invariant i <= |parts| && Partials(judged, i) == Ok(partials)
    {
      var p := JudgePart(parts, i, valid, judged);
      if p.Err? {
        FirstErrorStays(judged, i + 1, |parts|);
        return Err(PartClass(p.error));
      }
      partials := partials + [p.value];
      i := i + 1;
    }
    return Ok(partials);
  }

  method ResultOf(turns: seq<Chunks.Turn>, source: string, replies: Replies, redact: Redaction)
    returns (partials: seq<Partial>, result: Result<Draft, string>)
    ensures (partials, result) == Saved(turns, replies, redact)
  {
    var valid := ValidNumbers(turns);
    if replies.Single? {
      var r := AskDraft(replies.reply, valid, source, redact);
      return [], r;
    }
    var ps := AllPartials(replies.parts, valid, Judged(replies.parts, valid));
    if ps.Err? {
      return [], Err(ps.error);
    }
    var r := AskDraft(replies.last, valid, source, redact);
    return ps.value, if r.Err? then Err("reduce_" + r.error) else r;
  }

  lemma {:induction false} FirstErrorStays(judged: seq<Result<Partial, string>>, n: nat, m: nat)
    requires n <= m <= |judged| && Partials(judged, n).Err?
    ensures Partials(judged, m) == Partials(judged, n)
  {
    if n < m {
      FirstErrorStays(judged, n, m - 1);
    }
  }

  lemma {:induction false} PartialsAreGrounded(judged: seq<Result<Partial, string>>, n: nat, valid: set<int>)
    requires n <= |judged| && Partials(judged, n).Ok?
    requires forall i | 0 <= i < n && judged[i].Ok? :: GroundedPartial(judged[i].value, valid)
    ensures forall p | p in Partials(judged, n).value :: GroundedPartial(p, valid)
  {
    if n > 0 {
      PartialsAreGrounded(judged, n - 1, valid);
    }
  }

  lemma PartAnswerIsGrounded(e: Exchange<Partial>, valid: set<int>)
    requires PartAnswer(e, valid).Ok?
    ensures GroundedPartial(PartAnswer(e, valid).value, valid)
  {
    PartialIsGrounded(if PartialOf(e.first.text, valid).Ok? then e.first.text else e.second.text, valid);
  }

  lemma DraftAnswerIsCited(e: Exchange<Draft>, valid: set<int>, redact: Redaction)
    requires DraftAnswer(e, valid, redact).Ok?
    ensures CitedDraft(DraftAnswer(e, valid, redact).value, valid)
  {
    AcceptedIsGrounded(if ParseOf(e.first.text, valid, redact).Ok? then e.first.text else e.second.text, valid, redact);
  }

  /**
   Main result: whatever the model returns, at the first or the second attempt, in one call or in parts
   and then combined, every citation saved for a session, and every citation it is combined from, is
   the number of a turn of the session.
   */
  lemma EveryCitationIsATurn(turns: seq<Chunks.Turn>, replies: Replies, redact: Redaction)
    ensures var (partials, result) := Saved(turns, replies, redact);
            && (forall p | p in partials :: GroundedPartial(p, TurnNumbers(turns)))
            && (result.Ok? ==> CitedDraft(result.value, TurnNumbers(turns)))
            && (result.Ok? ==> forall c, t | c in result.value.decisions + result.value.followUps && t in c.turns ::
                  exists k | 0 <= k < |turns| :: turns[k].number == t)
  {
    var valid := TurnNumbers(turns);
    if replies.MapReduce? {
      var judged := Judged(replies.parts, valid);
      if Partials(judged, |judged|).Ok? {
        forall i | 0 <= i < |judged| && judged[i].Ok?
          ensures GroundedPartial(judged[i].value, valid)
        {
          PartAnswerIsGrounded(replies.parts[i], valid);
        }
        PartialsAreGrounded(judged, |judged|, valid);
      }
    }
    if Saved(turns, replies, redact).1.Ok? {
      DraftAnswerIsCited(if replies.Single? then replies.reply else replies.last, valid, redact);
    }
  }
}
