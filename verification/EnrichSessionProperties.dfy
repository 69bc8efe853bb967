/**
 What a call, a logical call and a session do, read off the events of the script: which call decides, how
 the answer follows from it, what is retried, and how a session goes through its prompts.
 */
module EnrichSessionProperties {
  import opened Wrappers
  import opened EnrichSession

  /** An error worth another try. */
  predicate Transient(e: Event) {
    e.GatewayError? && e.retryable && !e.cancelled
  }

  /** The calls from `t` to `last` are one call and its retries: only transient errors, and at most twice. */
  ghost predicate Tries(script: Script, t: nat, last: nat) {
    && t <= last <= t + 2
    && (forall k | t <= k < last :: Transient(script(k)))
    && (last == t + 2 || !Transient(script(last)))
  }

  /** Main result: a call is retried exactly while its error is transient, and three calls are the most. */
  lemma TriesExactly(script: Script, t: nat, last: nat)
    ensures Backoff(script, t, 1) == last <==> Tries(script, t, last)
  {
    var second, third := Backoff(script, t + 1, 2), Backoff(script, t + 2, 3);
    assert third == t + 2;
    assert second == if Transient(script(t + 1)) then t + 2 else t + 1;
    assert Backoff(script, t, 1) == if Transient(script(t)) then second else t;
  }

  /** Where a logical call ends, the books after it, and its answer. */
  type Call = (nat, Account, Answer)

  /** A paid reply that is in the ledger and that validation refuses. */
  predicate Refused(e: Event) {
    e.Reply? && e.ledgerOk && e.rejected != ""
  }

  /** Why it was refused: at the output cap, or as validation says. */
  predicate RefusedFor(e: Event, reason: string) {
    Refused(e) && (e.cutOff ==> reason == "output_truncated") && (!e.cutOff ==> reason == "parse_" + e.rejected)
  }

  predicate EndsTheRun(e: Event) {
    e.GatewayError? && (e.cancelled || e.reason == "unauthorized" || e.reason == "unreachable")
  }

  /** How a logical call ends on the event `e`, the last of `tries` calls. */
  predicate EndsOn(e: Event, tries: nat, answer: Answer) {
    && (e.Reply? && !e.ledgerOk ==> answer == Answer("store_write", Some(WriteError)))
    && (e.Reply? && e.ledgerOk && e.rejected == "" ==> answer == Answer("", None))
    && (Refused(e) ==> answer.fatal == None && RefusedFor(e, answer.reason))
    && (e.GatewayError? && !EndsTheRun(e) ==> answer == Answer("gateway_" + e.reason, None))
    && (EndsTheRun(e) && (!e.cancelled || !e.retryable || tries == 3) ==>
          answer == Answer(e.reason, Some(GatewayFatal)))
    && (EndsTheRun(e) && e.cancelled && e.retryable && tries < 3 ==> answer == Answer("gateway", Some(GatewayFatal)))
  }

  /** A logical call that ends with the tries from `t` to `last`, and these retries. */
  ghost predicate EndsAt(script: Script, t: nat, last: nat, retries: nat, classes: seq<string>, r: Call) {
    && Tries(script, t, last) && r.0 == last + 1 && EndsOn(script(last), last - t + 1, r.2)
    && r.1.retries == retries && r.1.retryClasses == classes
  }

  /** A logical call whose second reply decides, after one refused at `first` for `reason`. */
  ghost predicate EndsSecond(script: Script, first: nat, second: nat, a: Account, reason: string, r: Call) {
    if Refused(script(second))
    then EndsAt(script, first + 1, second, a.retries + 2, a.retryClasses + [reason, r.2.reason], r)
    else EndsAt(script, first + 1, second, a.retries + 1, a.retryClasses + [reason], r)
  }

  lemma NotRefused(script: Script, t: nat, a: Account, attempt: nat, lastClass: string, last: nat)
    requires attempt < 2 && Tries(script, t, last) && !Refused(script(last))
    ensures EndsAt(script, t, last, a.retries, a.retryClasses, Ask(script, t, a, attempt, lastClass))
  {
    TriesExactly(script, t, last);
  }

  lemma RefusedTwice(script: Script, t: nat, a: Account, lastClass: string, last: nat)
    requires Tries(script, t, last) && Refused(script(last))
    ensures var r := Ask(script, t, a, 1, lastClass);
            EndsAt(script, t, last, a.retries + 1, a.retryClasses + [r.2.reason], r)
  {
    TriesExactly(script, t, last);
    AskRetries(script, t, a, 1, lastClass);
  }

  /** A refused first reply is counted, with its class, and the call goes on behind it. */
  lemma RefusedOnce(script: Script, t: nat, a: Account, first: nat) returns (b: Account, reason: string)
    requires Tries(script, t, first) && Refused(script(first))
    ensures RefusedFor(script(first), reason)
    ensures b.retries == a.retries + 1 && b.retryClasses == a.retryClasses + [reason]
    ensures Ask(script, t, a, 0, "") == Ask(script, first + 1, b, 1, reason)
  {
    TriesExactly(script, t, first);
    AskRetries(script, t, a, 0, "");
    reason := RejectionClass(script(first));
    b := Retried(Booked(a, script(first)), reason);
  }

  lemma Joined(classes: seq<string>, x: string, y: string)
    ensures classes + [x] + [y] == classes + [x, y]
  {
  }

  /**
   Main result: a logical call ends on its first reply or error, unless that is a reply that is refused;
   then it is asked once more, and ends on what that leads to.
   */
  lemma AskExactly(script: Script, t: nat, a: Account) returns (first: nat, second: nat, reason: string)
    ensures Tries(script, t, first) && Tries(script, first + 1, second)
    ensures !Refused(script(first)) ==> EndsAt(script, t, first, a.retries, a.retryClasses, Ask(script, t, a, 0, ""))
    ensures Refused(script(first)) ==>
              && RefusedFor(script(first), reason)
              && EndsSecond(script, first, second, a, reason, Ask(script, t, a, 0, ""))
  {
    first := Backoff(script, t, 1);
    second := Backoff(script, first + 1, 1);
    TriesExactly(script, t, first);
    TriesExactly(script, first + 1, second);
    reason := "";
    if Refused(script(first)) {
      var b;
      b, reason := RefusedOnce(script, t, a, first);
      if Refused(script(second)) {
        RefusedTwice(script, first + 1, b, reason, second);
        Joined(a.retryClasses, reason, Ask(script, first + 1, b, 1, reason).2.reason);
      } else {
        NotRefused(script, first + 1, b, 1, reason, second);
      }
    } else {
      NotRefused(script, t, a, 0, "", first);
    }
  }

  /** The books say that the store failed exactly when a failed ledger write ended a call. */
  lemma {:induction false} StoreFailsExactly(script: Script, t: nat, a: Account, attempt: nat, lastClass: string)
    requires attempt <= 2
    ensures var r := Ask(script, t, a, attempt, lastClass);
            r.1.storeFailed <==> a.storeFailed || r.2.fatal == Some(WriteError)
    decreases 2 - attempt
  {
    var e := script(Backoff(script, t, 1));
    if attempt < 2 && Refused(e) {
      AskRetries(script, t, a, attempt, lastClass);
      StoreFailsExactly(script, Backoff(script, t, 1) + 1, Retried(Booked(a, e), RejectionClass(e)), attempt + 1,
                        RejectionClass(e));
    }
  }

  // ---- Sessions ----

  /** Logical calls one after the other, each on the books the one before it left. */
  ghost predicate InTurn(script: Script, t: nat, a: Account, calls: seq<Call>) {
    && (calls != [] ==> calls[0] == Ask(script, t, a, 0, ""))
    && (forall i | 0 < i < |calls| :: ComesNext(script, calls[i - 1], calls[i]))
  }

  ghost predicate ComesNext(script: Script, before: Call, call: Call) {
    call == Ask(script, before.0, before.1, 0, "")
  }

  /** The calls of a session of `n` prompts: it stops at the first that does not succeed. */
  ghost predicate StopsAtFirst(calls: seq<Call>, n: nat) {
    && 0 < |calls| <= n
    && (forall i | 0 <= i < |calls| - 1 :: Succeeds(calls[i].2))
    && (|calls| == n || !Succeeds(calls[|calls| - 1].2))
  }

  predicate Succeeds(answer: Answer) {
    answer == Answer("", None)
  }

  /** The class a session of `parts` parts fails under when its call number `i` answers `answer`. */
  predicate FailsUnder(parts: nat, i: nat, answer: Answer, reason: string) {
    && (parts == 0 || answer.fatal.Some? || answer.reason == "" ==> reason == answer.reason)
    && (parts > 0 && answer.fatal.None? && answer.reason != "" ==>
          if i == parts then reason == "reduce_" + answer.reason
          else if answer.reason == "output_truncated" then reason == answer.reason
          else reason == "map_" + answer.reason)
  }

  ghost predicate SessionEnds(calls: seq<Call>, parts: nat, saved: bool, end: nat, out: Outcome)
    requires calls != []
  {
    var last := calls[|calls| - 1];
    && end == last.0
    && (!Succeeds(last.2) ==>
          out.account == last.1 && out.fatal == last.2.fatal && FailsUnder(parts, |calls| - 1, last.2, out.reason))
    && (Succeeds(last.2) && saved ==> out == Outcome(last.1, "", None))
    && (Succeeds(last.2) && !saved ==>
          out.fatal == Some(WriteError) && out.reason == "store_write" && out.account.storeFailed
          && out.account.(storeFailed := last.1.storeFailed) == last.1)
  }

  /** The part calls from number `i` on, listed. */
  lemma {:induction false} PartsInTurn(script: Script, t: nat, a: Account, i: nat, parts: nat)
    returns (calls: seq<Call>)
    requires i < parts
    ensures InTurn(script, t, a, calls) && StopsAtFirst(calls, parts - i)
    ensures PartsEnd(script, t, a, i, parts, calls[|calls| - 1])
    decreases parts - i
  {
    var first := Ask(script, t, a, 0, "");
    if Succeeded(first.2) && i + 1 < parts {
      var rest := PartsInTurn(script, first.0, first.1, i + 1, parts);
      calls := [first] + rest;
      InTurnMore(script, t, a, first, rest);
    } else {
      calls := [first];
    }
  }

  ghost predicate PartsEnd(script: Script, t: nat, a: Account, i: nat, parts: nat, last: Call)
    requires i <= parts
  {
    var r := AskParts(script, t, a, i, parts);
    r.0 == last.0 && r.1 == last.1 && r.2.fatal == last.2.fatal && r.2.reason == PartClass(last.2)
  }

  lemma InTurnMore(script: Script, t: nat, a: Account, first: Call, rest: seq<Call>)
    requires first == Ask(script, t, a, 0, "") && InTurn(script, first.0, first.1, rest)
    ensures InTurn(script, t, a, [first] + rest)
  {
    var calls := [first] + rest;
    forall i | 0 < i < |calls|
      ensures ComesNext(script, calls[i - 1], calls[i])
    {
      assert calls[i] == rest[i - 1];
      assert calls[i - 1] == if i == 1 then first else rest[i - 2];
    }
  }

  /** The session's last call, after every part has succeeded. */
  lemma CombineInTurn(script: Script, t: nat, parts: nat, calls: seq<Call>) returns (all: seq<Call>)
    requires calls != [] && InTurn(script, t, OPENED, calls)
    requires forall i | 0 <= i < |calls| :: Succeeds(calls[i].2)
    ensures all == calls + [Ask(script, calls[|calls| - 1].0, calls[|calls| - 1].1, 0, "")]
    ensures InTurn(script, t, OPENED, all) && StopsAtFirst(all, |calls| + 1)
  {
    all := calls + [Ask(script, calls[|calls| - 1].0, calls[|calls| - 1].1, 0, "")];
  }

  /**
   Main result: a session makes its logical calls in turn, from opened books, until one does not succeed,
   one for a single prompt and else one for each part and one to combine them; its outcome is the last
   one's, under the class of its stage, unless the result cannot be saved.
   */
  lemma SessionExactly(script: Script, t: nat, parts: nat, saved: bool) returns (calls: seq<Call>)
    ensures InTurn(script, t, OPENED, calls) && StopsAtFirst(calls, Prompts(parts))
    ensures SessionEnds(calls, parts, saved, EnrichOne(script, t, parts, saved).0,
                        EnrichOne(script, t, parts, saved).1)
  {
    if parts == 0 {
      calls := [Ask(script, t, OPENED, 0, "")];
    } else {
      calls := PartsInTurn(script, t, OPENED, 0, parts);
      var last := calls[|calls| - 1];
      if Succeeded(last.2) {
        calls := CombineInTurn(script, t, parts, calls);
      }
    }
  }
}
