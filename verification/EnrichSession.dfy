/**
 One session of an enrichment run (internal/enrich/runner.go: callWithBackoff, ask, enrichOne, finish).

 The gateway and the store are a script of events, one for each chat call, that the session works
 through from some position on. What a session accounts for is stated over the events it consumed:
 every paid reply is costed once, is either in the spend ledger or in the gap, and no call follows a
 ledger write that failed.
 */
module EnrichSession {
  import opened Wrappers

  /**
   What one chat call leads to. A reply is paid for; `ledgerOk` says whether its ledger row could be
   written, `rejected` why validation refused it ("" when it is valid), and `cutOff` whether the
   provider stopped it at the output cap.
   */
  datatype Event =
    | Reply(cost: real, ledgerOk: bool, rejected: string, cutOff: bool)
    | GatewayError(reason: string, retryable: bool, cancelled: bool)

  type Script = nat -> Event

  datatype Fatal = WriteError | GatewayFatal

  const MAX_CALLS := 3
  const MAX_REPLIES := 2

  datatype Account = Account(calls: nat, retries: nat, retryClasses: seq<string>, cost: real, ledger: real,
                             ledgerGap: real, storeFailed: bool)

  const OPENED := Account(0, 0, [], 0.0, 0.0, 0.0, false)

  /** How one logical model call ends: a class ("" on success), and a fatal error if there is one. */
  datatype Answer = Answer(reason: string, fatal: Option<Fatal>)

  datatype Outcome = Outcome(account: Account, reason: string, fatal: Option<Fatal>)

  // ---- callWithBackoff ----

  /** The position of the call that decides, when attempt `attempt` (from 1) is made at `t`. */
  function Backoff(script: Script, t: nat, attempt: nat): (last: nat)
    requires 1 <= attempt <= MAX_CALLS
    ensures t <= last <= t + MAX_CALLS - attempt
    ensures forall k | t <= k < last :: script(k).GatewayError?
    decreases MAX_CALLS - attempt
  {
    var e := script(t);
    if e.Reply? || !e.retryable || e.cancelled || attempt == MAX_CALLS then t
    else Backoff(script, t + 1, attempt + 1)
  }

  method CallWithBackoff(script: Script, t: nat) returns (last: nat)
    ensures last == Backoff(script, t, 1)
  {
    last := t;
    var attempt := 1;
    while attempt <= MAX_CALLS
      invariant 1 <= attempt <= MAX_CALLS
      invariant Backoff(script, last, attempt) == Backoff(script, t, 1)
      decreases MAX_CALLS - attempt
    {
      var e := script(last);
      if e.Reply? || !e.retryable || attempt == MAX_CALLS || e.cancelled {
        return;
      }
      last := last + 1;
      attempt := attempt + 1;
    }
  }

  // ---- ask ----

  /** The class a rejected reply is retried or failed under. */
  function RejectionClass(e: Event): string
    requires e.Reply?
  {
    if e.cutOff then "output_truncated" else "parse_" + e.rejected
  }

  /** A paid reply in the books: costed at once, and then in the ledger or in the gap. */
  function Booked(a: Account, e: Event): Account
    requires e.Reply?
  {
    var paid := a.(calls := a.calls + 1, cost := a.cost + e.cost);
    if e.ledgerOk then paid.(ledger := paid.ledger + e.cost)
    else paid.(ledgerGap := paid.ledgerGap + e.cost, storeFailed := true)
  }

  function Retried(a: Account, reason: string): Account {
    a.(retries := a.retries + 1, retryClasses := a.retryClasses + [reason])
  }

  /** One logical call from attempt `attempt` (from 0) on: the next position, the books, the answer. */
  function Ask(script: Script, t: nat, a: Account, attempt: nat, lastClass: string): (nat, Account, Answer)
    requires attempt <= MAX_REPLIES
    decreases MAX_REPLIES - attempt
  {
    if attempt == MAX_REPLIES then (t, a, Answer(lastClass, None))
    else
      var at := Backoff(script, t, 1);
      var e := script(at);
      if e.GatewayError? then (at + 1, a, GatewayAnswer(e, at - t + 1))
      else
        var booked := Booked(a, e);
        if !e.ledgerOk then (at + 1, booked, Answer("store_write", Some(WriteError)))
        else if e.rejected == "" then (at + 1, booked, Answer("", None))
        else
          var reason := RejectionClass(e);
          Ask(script, at + 1, Retried(booked, reason), attempt + 1, reason)
  }

  /**
   Lost authority or reachability, and cancellation, end the run; other gateway errors the session.
   Cancellation while waiting to retry is reported without the gateway's own class.
   */
  function GatewayAnswer(e: Event, attempt: nat): Answer
    requires e.GatewayError?
  {
    if e.cancelled && e.retryable && attempt < MAX_CALLS then Answer("gateway", Some(GatewayFatal))
    else if e.cancelled || e.reason == "unauthorized" || e.reason == "unreachable" then
      Answer(e.reason, Some(GatewayFatal))
    else Answer("gateway_" + e.reason, None)
  }

  lemma AskRetries(script: Script, t: nat, a: Account, attempt: nat, lastClass: string)
    requires attempt < MAX_REPLIES
    requires var e := script(Backoff(script, t, 1)); e.Reply? && e.ledgerOk && e.rejected != ""
    ensures var at := Backoff(script, t, 1);
            var reason := RejectionClass(script(at));
            Ask(script, t, a, attempt, lastClass)
            == Ask(script, at + 1, Retried(Booked(a, script(at)), reason), attempt + 1, reason)
  {
  }

  // ---- enrichOne ----

  /** The class a failed part (map) call is filed under; fatal classes and cut-off replies keep theirs. */
  function PartClass(answer: Answer): string {
    if answer.reason != "" && answer.fatal.None? && answer.reason != "output_truncated" then "map_" + answer.reason
    else answer.reason
  }

  function CombineClass(answer: Answer): string {
    if answer.reason != "" && answer.fatal.None? then "reduce_" + answer.reason else answer.reason
  }

  predicate Succeeded(answer: Answer) {
    answer.reason == "" && answer.fatal.None?
  }

  /** The part calls from number `i` on, up to the first that does not succeed. */
  function AskParts(script: Script, t: nat, a: Account, i: nat, parts: nat): (nat, Account, Answer)
    requires i <= parts
    decreases parts - i
  {
    if i == parts then (t, a, Answer("", None))
    else
      var (next, booked, answer) := Ask(script, t, a, 0, "");
      if Succeeded(answer) then AskParts(script, next, booked, i + 1, parts)
      else (next, booked, Answer(PartClass(answer), answer.fatal))
  }

  /** All calls of a session: one, or one for each part and one to combine them. */
  function AskAll(script: Script, t: nat, parts: nat): (nat, Account, Answer) {
    if parts == 0 then Ask(script, t, OPENED, 0, "")
    else
      var (next, booked, answer) := AskParts(script, t, OPENED, 0, parts);
      if !Succeeded(answer) then (next, booked, answer)
      else
        var (last, all, combined) := Ask(script, next, booked, 0, "");
        (last, all, Answer(CombineClass(combined), combined.fatal))
  }

  /** The session's outcome; `saved` says whether the store accepts the finished result. */
  function EnrichOne(script: Script, t: nat, parts: nat, saved: bool): (nat, Outcome) {
    var (last, a, answer) := AskAll(script, t, parts);
    if !Succeeded(answer) then (last, Outcome(a, answer.reason, answer.fatal))
    else if saved then (last, Outcome(a, "", None))
    else (last, Outcome(a.(storeFailed := true), "store_write", Some(WriteError)))
  }

  class Session {
    const script: Script
    var position: nat
    var account: Account

    constructor (script: Script, start: nat)
      ensures this.script == script && position == start && account == OPENED
    {
      this.script := script;
      position := start;
      account := OPENED;
    }

    /** One attempt: an answer, or a rejected reply to retry. */
    method Attempt(ghost attempt: nat, ghost lastClass: string) returns (answer: Option<Answer>, rejection: string)
      requires attempt < MAX_REPLIES
      modifies this
      ensures answer.Some? ==>
        (position, account, answer.value) == Ask(script, old(position), old(account), attempt, lastClass)
      ensures answer.None? ==>
        Ask(script, position, account, attempt + 1, rejection)
        == Ask(script, old(position), old(account), attempt, lastClass)
    {
      var at := CallWithBackoff(script, position);
      var e, tried := script(at), at - position + 1;
      position := at + 1;
      if e.GatewayError? {
        return Some(GatewayAnswer(e, tried)), "";
      }
      account := Booked(account, e);
      if !e.ledgerOk {
        return Some(Answer("store_write", Some(WriteError))), "";
      }
      if e.rejected == "" {
        return Some(Answer("", None)), "";
      }
      AskRetries(script, old(position), old(account), attempt, lastClass);
      rejection := RejectionClass(e);
      account := Retried(account, rejection);
      return None, rejection;
    }

    method AskOnce() returns (answer: Answer)
      modifies this
      ensures (position, account, answer) == Ask(script, old(position), old(account), 0, "")
    {
      var lastClass := "";
      var attempt := 0;
      while attempt < MAX_REPLIES
        invariant 0 <= attempt <= MAX_REPLIES
        invariant Ask(script, position, account, attempt, lastClass)
               == Ask(script, old(position), old(account), 0, "")
      {
        var ended, rejection := Attempt(attempt, lastClass);
        if ended.Some? {
          return ended.value;
        }
        lastClass := rejection;
        attempt := attempt + 1;
      }
      return Answer(lastClass, None);
    }

    method Enrich(parts: nat, saved: bool) returns (out: Outcome)
      requires account == OPENED
      modifies this
      ensures (position, out) == EnrichOne(script, old(position), parts, saved)
    {
      if parts == 0 {
        var answer := AskOnce();
        if answer.fatal.Some? || answer.reason != "" {
          return Outcome(account, answer.reason, answer.fatal);
        }
      } else {
        var i := 0;
        while i < parts
          invariant i <= parts
          invariant AskParts(script, position, account, i, parts) == AskParts(script, old(position), OPENED, 0, parts)
        {
          var answer := AskOnce();
          if answer.fatal.Some? || answer.reason != "" {
            return Outcome(account, PartClass(answer), answer.fatal);
          }
          i := i + 1;
        }
        var answer := AskOnce();
        if answer.fatal.Some? || answer.reason != "" {
          return Outcome(account, CombineClass(answer), answer.fatal);
        }
      }
      if !saved {
        account := account.(storeFailed := true);
        return Outcome(account, "store_write", Some(WriteError));
      }
      return Outcome(account, "", None);
    }
  }

  // ---- What a session's books say about the events it consumed ----

  /** The cost of the replies in `script[from..to)` that the ledger took, or did not take. */
  function Paid(script: Script, start: nat, end: nat, ledgerOk: bool): real
    requires start <= end
    decreases end
  {
    if start == end then 0.0
    else
      var e := script(end - 1);
      Paid(script, start, end - 1, ledgerOk) + (if e.Reply? && e.ledgerOk == ledgerOk then e.cost else 0.0)
  }

  function Replies(script: Script, start: nat, end: nat): nat
    requires start <= end
    decreases end
  {
    if start == end then 0 else Replies(script, start, end - 1) + (if script(end - 1).Reply? then 1 else 0)
  }

  /** The books `b` are `a` plus exactly what happened in `script[from..to)`. */
  ghost predicate Books(script: Script, start: nat, end: nat, a: Account, b: Account) {
    && start <= end
    && b.ledger == a.ledger + Paid(script, start, end, true)
    && b.ledgerGap == a.ledgerGap + Paid(script, start, end, false)
    && b.cost == a.cost + Paid(script, start, end, true) + Paid(script, start, end, false)
    && b.calls == a.calls + Replies(script, start, end)
  }

  /** Every reply in `script[start..end)` has its ledger row. */
  ghost predicate AllBooked(script: Script, start: nat, end: nat) {
    forall k | start <= k < end :: script(k).Reply? ==> script(k).ledgerOk
  }

  /** A failed ledger write can only be the last call, and it is what stops the session. */
  ghost predicate StopsAtGap(script: Script, start: nat, end: nat, fatal: Option<Fatal>) {
    && (|| AllBooked(script, start, end)
        || (start < end && AllBooked(script, start, end - 1) && fatal == Some(WriteError)))
    && (fatal.None? ==> AllBooked(script, start, end))
  }

  lemma {:induction false} PaidSplit(script: Script, start: nat, mid: nat, end: nat, ledgerOk: bool)
    requires start <= mid <= end
    ensures Paid(script, start, end, ledgerOk) == Paid(script, start, mid, ledgerOk) + Paid(script, mid, end, ledgerOk)
    ensures Replies(script, start, end) == Replies(script, start, mid) + Replies(script, mid, end)
    decreases end
  {
    if mid < end {
      PaidSplit(script, start, mid, end - 1, ledgerOk);
    }
  }

  /** Two stretches of calls, the first of which left no gap, make one. */
  lemma BooksJoin(script: Script, start: nat, mid: nat, end: nat, a: Account, b: Account, c: Account,
                  fatal: Option<Fatal>)
    requires Books(script, start, mid, a, b) && AllBooked(script, start, mid)
    requires Books(script, mid, end, b, c) && StopsAtGap(script, mid, end, fatal)
    ensures Books(script, start, end, a, c) && StopsAtGap(script, start, end, fatal)
    ensures Replies(script, start, end) == Replies(script, start, mid) + Replies(script, mid, end)
  {
    PaidSplit(script, start, mid, end, true);
    PaidSplit(script, start, mid, end, false);
  }

  /** A run of calls none of which is paid. */
  lemma {:induction false} NothingPaid(script: Script, start: nat, end: nat)
    requires start <= end && forall k | start <= k < end :: script(k).GatewayError?
    ensures Paid(script, start, end, true) == Paid(script, start, end, false) == 0.0 && Replies(script, start, end) == 0
    decreases end
  {
    if start < end {
      NothingPaid(script, start, end - 1);
    }
  }

  /** One paid reply, after any unpaid errors. */
  lemma ReplyBooks(script: Script, t: nat, a: Account)
    requires script(Backoff(script, t, 1)).Reply?
    ensures var at := Backoff(script, t, 1);
            Books(script, t, at + 1, a, Booked(a, script(at))) && Replies(script, t, at + 1) == 1
  {
    NothingPaid(script, t, Backoff(script, t, 1));
  }

  lemma ErrorBooks(script: Script, t: nat, a: Account)
    requires script(Backoff(script, t, 1)).GatewayError?
    ensures var at := Backoff(script, t, 1);
            Books(script, t, at + 1, a, a) && Replies(script, t, at + 1) == 0 && AllBooked(script, t, at + 1)
  {
    NothingPaid(script, t, Backoff(script, t, 1) + 1);
  }

  /** One logical call: at most two paid replies, and nothing after a failed ledger write. */
  lemma {:induction false} AskBooks(script: Script, t: nat, a: Account, attempt: nat, lastClass: string)
    requires attempt <= MAX_REPLIES
    ensures var (end, b, answer) := Ask(script, t, a, attempt, lastClass);
            && Books(script, t, end, a, b) && StopsAtGap(script, t, end, answer.fatal)
            && Replies(script, t, end) <= MAX_REPLIES - attempt
    decreases MAX_REPLIES - attempt
  {
    if attempt < MAX_REPLIES {
      var at := Backoff(script, t, 1);
      var e := script(at);
      if e.GatewayError? {
        ErrorBooks(script, t, a);
      } else {
        ReplyBooks(script, t, a);
        if e.ledgerOk && e.rejected != "" {
          AskRetryBooks(script, t, a, attempt);
        }
      }
    }
  }

  lemma {:induction false} AskRetryBooks(script: Script, t: nat, a: Account, attempt: nat)
    requires attempt < MAX_REPLIES
    requires var e := script(Backoff(script, t, 1)); e.Reply? && e.ledgerOk && e.rejected != ""
    ensures var (end, b, answer) := Ask(script, t, a, attempt, "");
            && Books(script, t, end, a, b) && StopsAtGap(script, t, end, answer.fatal)
            && Replies(script, t, end) <= MAX_REPLIES - attempt
    decreases MAX_REPLIES - attempt, 0
  {
    var at := Backoff(script, t, 1);
    var reason := RejectionClass(script(at));
    var next := Retried(Booked(a, script(at)), reason);
    RetriedBooks(script, t, a);
    AskBooks(script, at + 1, next, attempt + 1, reason);
    var (end, b, answer) := Ask(script, at + 1, next, attempt + 1, reason);
    BooksJoin(script, t, at + 1, end, a, next, b, answer.fatal);
  }

  lemma RetriedBooks(script: Script, t: nat, a: Account)
    requires var e := script(Backoff(script, t, 1)); e.Reply? && e.ledgerOk
    ensures var at := Backoff(script, t, 1);
            && AllBooked(script, t, at + 1) && Replies(script, t, at + 1) == 1
            && forall reason :: Books(script, t, at + 1, a, Retried(Booked(a, script(at)), reason))
  {
    ReplyBooks(script, t, a);
  }

  lemma {:induction false} AskPartsBooks(script: Script, t: nat, a: Account, i: nat, parts: nat)
    requires i <= parts
    ensures PartsBooked(script, t, a, AskParts(script, t, a, i, parts), parts - i)
    decreases parts - i
  {
    if i < parts {
      var (mid, b, answer) := Ask(script, t, a, 0, "");
      AskBooks(script, t, a, 0, "");
      if Succeeded(answer) {
        AskPartsBooks(script, mid, b, i + 1, parts);
        LaterPartsBooks(script, t, a, mid, b, AskParts(script, mid, b, i + 1, parts), parts - i);
      }
    }
  }

  /** The books of the last `n` part calls, made from `t` on, which ended as `r` says. */
  ghost predicate PartsBooked(script: Script, t: nat, a: Account, r: (nat, Account, Answer), n: nat) {
    && Books(script, t, r.0, a, r.1) && StopsAtGap(script, t, r.0, r.2.fatal)
    && Replies(script, t, r.0) <= MAX_REPLIES * n
  }

  lemma LaterPartsBooks(script: Script, t: nat, a: Account, mid: nat, b: Account, r: (nat, Account, Answer), n: nat)
    requires n > 0 && Books(script, t, mid, a, b) && AllBooked(script, t, mid)
    requires Replies(script, t, mid) <= MAX_REPLIES && PartsBooked(script, mid, b, r, n - 1)
    ensures PartsBooked(script, t, a, r, n)
  {
    BooksJoin(script, t, mid, r.0, a, b, r.1, r.2.fatal);
  }

  /** The prompts of a session: one, or one for each part and one to combine them. */
  function Prompts(parts: nat): nat {
    if parts == 0 then 1 else parts + 1
  }

  lemma AskAllBooks(script: Script, t: nat, parts: nat)
    ensures var (end, b, answer) := AskAll(script, t, parts);
            && Books(script, t, end, OPENED, b) && StopsAtGap(script, t, end, answer.fatal)
            && Replies(script, t, end) <= MAX_REPLIES * Prompts(parts)
  {
    if parts == 0 {
      AskBooks(script, t, OPENED, 0, "");
    } else {
      var (mid, b, answer) := AskParts(script, t, OPENED, 0, parts);
      AskPartsBooks(script, t, OPENED, 0, parts);
      if Succeeded(answer) {
        var (end, c, combined) := Ask(script, mid, b, 0, "");
        AskBooks(script, mid, b, 0, "");
        BooksJoin(script, t, mid, end, OPENED, b, c, combined.fatal);
      }
    }
  }

  /**
   Main result: a session's cost is what its paid replies cost, each either in the ledger or in the
   gap; there are at most two paid replies for each prompt; and a failed ledger write is the last
   thing a session does, and is fatal.
   */
  lemma EnrichOneBooks(script: Script, t: nat, parts: nat, saved: bool)
    ensures var (end, out) := EnrichOne(script, t, parts, saved);
            && Books(script, t, end, OPENED, out.account) && StopsAtGap(script, t, end, out.fatal)
            && out.account.calls == Replies(script, t, end) <= MAX_REPLIES * Prompts(parts)
            && out.account.cost == out.account.ledger + out.account.ledgerGap
  {
    AskAllBooks(script, t, parts);
  }

  function Times(n: nat, most: real): real {
    if n == 0 then 0.0 else Times(n - 1, most) + most
  }

  lemma {:induction false} TimesMonotone(n: nat, m: nat, most: real)
    requires n <= m && most >= 0.0
    ensures Times(n, most) <= Times(m, most)
  {
    if n < m {
      TimesMonotone(n, m - 1, most);
    }
  }

  lemma {:induction false} TimesMultiplies(n: nat, most: real)
    ensures Times(n, most) == (n as real) * most
  {
    if n > 0 {
      TimesMultiplies(n - 1, most);
    }
  }

  lemma {:induction false} PaidBound(script: Script, start: nat, end: nat, most: real)
    requires start <= end && most >= 0.0
    requires forall k | start <= k < end && script(k).Reply? :: 0.0 <= script(k).cost <= most
    ensures 0.0 <= Paid(script, start, end, true) + Paid(script, start, end, false)
                <= Times(Replies(script, start, end), most)
    decreases end
  {
    if start < end {
      PaidBound(script, start, end - 1, most);
    }
  }

  lemma SessionCostTimes(script: Script, t: nat, parts: nat, saved: bool, most: real)
    requires most >= 0.0 && forall k: nat | script(k).Reply? :: 0.0 <= script(k).cost <= most
    ensures 0.0 <= EnrichOne(script, t, parts, saved).1.account.cost <= Times(MAX_REPLIES * Prompts(parts), most)
  {
    var (end, out) := EnrichOne(script, t, parts, saved);
    EnrichOneBooks(script, t, parts, saved);
    PaidBound(script, t, end, most);
    TimesMonotone(Replies(script, t, end), MAX_REPLIES * Prompts(parts), most);
  }

  /** So a session costs at most twice the dearest reply for each of its prompts. */
  lemma SessionCostBound(script: Script, t: nat, parts: nat, saved: bool, most: real, calls: nat)
    requires most >= 0.0 && forall k: nat | script(k).Reply? :: 0.0 <= script(k).cost <= most
    requires calls == MAX_REPLIES * Prompts(parts)
    ensures 0.0 <= EnrichOne(script, t, parts, saved).1.account.cost <= (calls as real) * most
  {
    SessionCostTimes(script, t, parts, saved, most);
    TimesMultiplies(calls, most);
  }

  lemma {:induction false} NoGapPaid(script: Script, start: nat, end: nat)
    requires start <= end && AllBooked(script, start, end)
    ensures Paid(script, start, end, false) == 0.0
    decreases end
  {
    if start < end {
      NoGapPaid(script, start, end - 1);
    }
  }

  /** A session that does not end the run left no gap in the ledger. */
  lemma GapIsFatal(script: Script, t: nat, parts: nat, saved: bool)
    requires EnrichOne(script, t, parts, saved).1.fatal != Some(WriteError)
    ensures EnrichOne(script, t, parts, saved).1.account.ledgerGap == 0.0
  {
    var (end, out) := EnrichOne(script, t, parts, saved);
    EnrichOneBooks(script, t, parts, saved);
    NoGapPaid(script, t, end);
  }
}
