/**
 Splitting a long session into overlapping parts (internal/enrich/prompt.go, BuildChunks).

 `BuildChunks` is the loop of the source, up to the framing of each part as a prompt. Its parts are the
 slices of the session that a sequence of windows cuts out. What the windows must meet has exactly one
 solution, covers the session, and keeps every part within bounds.
 */
module Chunks {

  const MAX_TURN_CHARS := 8000
  const TRIM_NOTE := 60

  datatype Turn = Turn(number: int, text: string)

  /** A turn's share of a prompt: long turns are trimmed, with a note about it. */
  function TurnSize(t: Turn): nat {
    if |t.text| > MAX_TURN_CHARS then MAX_TURN_CHARS + TRIM_NOTE else |t.text|
  }

  /** A turn counts what is shown of it: all of a short one, 8000 characters and a note of 60 of a long one. */
  lemma TurnSizeExactly(t: Turn)
    ensures |t.text| <= 8000 ==> TurnSize(t) == |t.text|
    ensures |t.text| > 8000 ==> TurnSize(t) == 8060
  {
  }

  function TextSize(turns: seq<Turn>): nat {
    if turns == [] then 0 else TextSize(turns[..|turns| - 1]) + TurnSize(turns[|turns| - 1])
  }

  lemma TextSizeGrows(turns: seq<Turn>, start: nat, end: nat)
    requires start <= end < |turns|
    ensures turns[start..end + 1] == turns[start..end] + [turns[end]]
    ensures TextSize(turns[start..end + 1]) == TextSize(turns[start..end]) + TurnSize(turns[end])
  {
    assert turns[start..end + 1][..end - start] == turns[start..end];
  }

  // ---- Windows ----

  /** Turns `start` (inclusive) to `end` (exclusive) of a session. */
  datatype Window = Window(start: nat, end: nat)

  predicate InSession(turns: seq<Turn>, w: Window) {
    w.start < w.end <= |turns|
  }

  /** Whether the turns from `start` on leave room for turn `at`. */
  predicate Room(turns: seq<Turn>, start: nat, at: nat, limit: int)
    requires start <= at < |turns|
  {
    TextSize(turns[start..at]) + TurnSize(turns[at]) <= limit
  }

  /** The window takes its first new turn `first`, and each later one because there was room for it. */
  predicate Filled(turns: seq<Turn>, w: Window, first: nat, limit: int)
    requires InSession(turns, w)
  {
    w.start <= first < w.end && forall k | first < k < w.end :: Room(turns, w.start, k, limit)
  }

  /** Whether a window after `a` may start at `s`: the turns repeated are few and short enough. */
  predicate Repeats(turns: seq<Turn>, a: Window, s: nat, limit: int, overlapTurns: nat)
    requires InSession(turns, a)
  {
    a.start < s <= a.end && a.end - s <= overlapTurns && (s < a.end ==> TextSize(turns[s..a.end]) <= limit / 4)
  }

  /** `b` starts when the next turn does not fit `a`, and repeats as much as it may. */
  predicate Follows(turns: seq<Turn>, a: Window, b: Window, limit: int, overlapTurns: nat) {
    && InSession(turns, a) && InSession(turns, b)
    && a.end < |turns| && !Room(turns, a.start, a.end, limit)
    && Repeats(turns, a, b.start, limit, overlapTurns)
    && (forall s: nat | s < b.start :: !Repeats(turns, a, s, limit, overlapTurns))
    && Filled(turns, b, a.end, limit)
  }

  predicate Chain(turns: seq<Turn>, ws: seq<Window>, limit: int, overlapTurns: nat) {
    && (ws != [] ==> InSession(turns, ws[0]) && ws[0].start == 0 && Filled(turns, ws[0], 0, limit))
    && (forall i | 0 < i < |ws| :: Follows(turns, ws[i - 1], ws[i], limit, overlapTurns))
  }

  /** The windows cover the whole session. */
  predicate Covers(turns: seq<Turn>, ws: seq<Window>, limit: int, overlapTurns: nat) {
    && Chain(turns, ws, limit, overlapTurns)
    && (if turns == [] then ws == [] else ws != [] && ws[|ws| - 1].end == |turns|)
  }

  /** The parts, each the slice its window says. */
  predicate AreSlices(turns: seq<Turn>, ws: seq<Window>, chunks: seq<seq<Turn>>) {
    && |chunks| == |ws|
    && forall i | 0 <= i < |ws| :: InSession(turns, ws[i]) && chunks[i] == turns[ws[i].start..ws[i].end]
  }

  function Tail(cur: seq<Turn>, k: nat): seq<Turn>
    requires k <= |cur|
  {
    cur[|cur| - k..]
  }

  /** The most turns that may be repeated: as many as asked for and allowed, while leaving room to go forward. */
  ghost predicate MostKept(cur: seq<Turn>, keep: nat, limit: int, overlapTurns: nat) {
    && keep < |cur| && keep <= overlapTurns
    && (keep > 0 ==> TextSize(Tail(cur, keep)) <= limit / 4)
    && forall k | keep < k <= overlapTurns && k < |cur| :: TextSize(Tail(cur, k)) > limit / 4
  }

  /** One more part, for one more window. */
  lemma SlicesGrow(turns: seq<Turn>, ws: seq<Window>, chunks: seq<seq<Turn>>, w: Window, cur: seq<Turn>)
    requires AreSlices(turns, ws, chunks) && InSession(turns, w) && cur == turns[w.start..w.end]
    ensures AreSlices(turns, ws + [w], chunks + [cur])
  {
  }

  /** One more turn in the part under way. */
  lemma TakeTurn(turns: seq<Turn>, start: nat, i: nat, cur: seq<Turn>)
    requires start <= i < |turns| && cur == turns[start..i]
    ensures cur + [turns[i]] == turns[start..i + 1]
    ensures TextSize(turns[start..i + 1]) == TextSize(cur) + TurnSize(turns[i])
  {
    TextSizeGrows(turns, start, i);
  }

  method KeepTurns(cur: seq<Turn>, limit: int, overlapTurns: nat) returns (keep: nat)
    requires cur != []
    ensures MostKept(cur, keep, limit, overlapTurns)
  {
    keep := overlapTurns;
    if keep > |cur| - 1 {
      keep := |cur| - 1;
    }
    while keep > 0 && TextSize(Tail(cur, keep)) > limit / 4
      invariant keep < |cur| && keep <= overlapTurns
      invariant forall k | keep < k <= overlapTurns && k < |cur| :: TextSize(Tail(cur, k)) > limit / 4
    {
      keep := keep - 1;
    }
  }

  lemma TailIsSlice(turns: seq<Turn>, a: Window, k: nat)
    requires InSession(turns, a) && k <= a.end - a.start
    ensures Tail(turns[a.start..a.end], k) == turns[a.end - k..a.end]
  {
  }

  /** The window after `a`, with only its first new turn. */
  lemma Restart(turns: seq<Turn>, a: Window, keep: nat, limit: int, overlapTurns: nat)
    requires InSession(turns, a) && a.end < |turns| && !Room(turns, a.start, a.end, limit)
    requires MostKept(turns[a.start..a.end], keep, limit, overlapTurns)
    ensures Follows(turns, a, Window(a.end - keep, a.end + 1), limit, overlapTurns)
  {
    TailIsSlice(turns, a, keep);
    forall s: nat | s < a.end - keep
      ensures !Repeats(turns, a, s, limit, overlapTurns)
    {
      if a.start < s {
        TailIsSlice(turns, a, a.end - s);
      }
    }
  }

  /** A chain may be closed and followed on. */
  lemma ChainGrows(turns: seq<Turn>, ws: seq<Window>, w: Window, limit: int, overlapTurns: nat)
    requires Chain(turns, ws, limit, overlapTurns) && ws != []
    requires Follows(turns, ws[|ws| - 1], w, limit, overlapTurns)
    ensures Chain(turns, ws + [w], limit, overlapTurns)
  {
  }

  lemma ChainPrefix(turns: seq<Turn>, ws: seq<Window>, w: Window, limit: int, overlapTurns: nat)
    requires Chain(turns, ws + [w], limit, overlapTurns)
    ensures Chain(turns, ws, limit, overlapTurns)
    ensures ws != [] ==> Follows(turns, ws[|ws| - 1], w, limit, overlapTurns)
  {
    var all := ws + [w];
    forall i | 0 < i < |ws|
      ensures Follows(turns, ws[i - 1], ws[i], limit, overlapTurns)
    {
      assert Follows(turns, all[i - 1], all[i], limit, overlapTurns);
    }
    if ws != [] {
      assert Follows(turns, all[|ws| - 1], all[|ws|], limit, overlapTurns);
      assert all[0] == ws[0];
    }
  }

  lemma FirstTurn(turns: seq<Turn>, limit: int, overlapTurns: nat)
    requires turns != []
    ensures Chain(turns, [] + [Window(0, 1)], limit, overlapTurns)
  {
  }

  /** The open window takes one more turn. */
  lemma Extend(turns: seq<Turn>, ws: seq<Window>, start: nat, i: nat, limit: int, overlapTurns: nat)
    requires start < i < |turns| && Room(turns, start, i, limit)
    requires Chain(turns, ws + [Window(start, i)], limit, overlapTurns)
    ensures Chain(turns, ws + [Window(start, i + 1)], limit, overlapTurns)
  {
    var w, wider := Window(start, i), Window(start, i + 1);
    ChainPrefix(turns, ws, w, limit, overlapTurns);
    if ws != [] {
      assert Follows(turns, ws[|ws| - 1], wider, limit, overlapTurns);
      ChainGrows(turns, ws, wider, limit, overlapTurns);
    } else {
      assert (ws + [w])[0] == w;
    }
  }

  /** Closes the part under way at turn `i`, which does not fit it, and starts the next with what that repeats. */
  method CloseChunk(ghost turns: seq<Turn>, chunks: seq<seq<Turn>>, ghost ws: seq<Window>, ghost w: Window,
                    cur: seq<Turn>, limit: int, overlapTurns: nat)
    returns (closed: seq<seq<Turn>>, next: seq<Turn>, ghost start: nat)
    requires Chain(turns, ws + [w], limit, overlapTurns) && AreSlices(turns, ws, chunks)
    requires InSession(turns, w) && w.end < |turns| && !Room(turns, w.start, w.end, limit)
    requires cur == turns[w.start..w.end]
    ensures AreSlices(turns, ws + [w], closed)
    ensures start <= w.end && next == turns[start..w.end]
    ensures Chain(turns, ws + [w] + [Window(start, w.end + 1)], limit, overlapTurns)
  {
    SlicesGrow(turns, ws, chunks, w, cur);
    closed := chunks + [cur];
    var keep := KeepTurns(cur, limit, overlapTurns);
    Restart(turns, w, keep, limit, overlapTurns);
    TailIsSlice(turns, w, keep);
    start := w.end - keep;
    ChainGrows(turns, ws + [w], Window(start, w.end + 1), limit, overlapTurns);
    next := Tail(cur, keep);
  }

  /** The loop's state before turn `i`: the closed parts, and the one under way from `start`. */
  ghost predicate Splitting(turns: seq<Turn>, chunks: seq<seq<Turn>>, ws: seq<Window>, start: nat, i: nat,
                            cur: seq<Turn>, limit: int, overlapTurns: nat) {
    && start <= i <= |turns| && cur == turns[start..i]
    && (if i == 0 then ws == [] else start < i && Chain(turns, ws + [Window(start, i)], limit, overlapTurns))
    && AreSlices(turns, ws, chunks)
  }

  /** One round of the loop. */
  method AddTurn(turns: seq<Turn>, chunks: seq<seq<Turn>>, ghost ws: seq<Window>, ghost start: nat, i: nat,
                 cur: seq<Turn>, size: nat, limit: int, overlapTurns: nat)
    returns (chunks': seq<seq<Turn>>, ghost ws': seq<Window>, ghost start': nat, cur': seq<Turn>, size': nat)
    requires Splitting(turns, chunks, ws, start, i, cur, limit, overlapTurns) && size == TextSize(cur) && i < |turns|
    ensures Splitting(turns, chunks', ws', start', i + 1, cur', limit, overlapTurns) && size' == TextSize(cur')
  {
    chunks', ws', start', cur', size' := chunks, ws, start, cur, size;
    var n := TurnSize(turns[i]);
    if size + n > limit && |cur| > 0 {
      ghost var w := Window(start, i);
      chunks', cur', start' := CloseChunk(turns, chunks, ws, w, cur, limit, overlapTurns);
      ws' := ws + [w];
      size' := TextSize(cur');
    } else if i > 0 {
      Extend(turns, ws, start, i, limit, overlapTurns);
    } else {
      FirstTurn(turns, limit, overlapTurns);
    }
    TakeTurn(turns, start', i, cur');
    cur' := cur' + [turns[i]];
    size' := size' + n;
  }

  /** The parts are the slices of windows that cover the session. */
  ghost predicate IsSplit(turns: seq<Turn>, chunks: seq<seq<Turn>>, limit: int, overlapTurns: nat) {
    exists ws :: Covers(turns, ws, limit, overlapTurns) && AreSlices(turns, ws, chunks)
  }

  method BuildChunks(turns: seq<Turn>, chunkTokens: int, overlapTurns: nat) returns (chunks: seq<seq<Turn>>)
    ensures IsSplit(turns, chunks, chunkTokens * 4, overlapTurns)
  {
    var limit := chunkTokens * 4;
    chunks := [];
    ghost var windows := [];
    var cur, size := [], 0;
    ghost var start: nat := 0;
    var i := 0;
    while i < |turns|
      invariant Splitting(turns, chunks, windows, start, i, cur, limit, overlapTurns) && size == TextSize(cur)
    {
      chunks, windows, start, cur, size := AddTurn(turns, chunks, windows, start, i, cur, size, limit, overlapTurns);
      i := i + 1;
    }
    if |cur| > 0 {
      SlicesGrow(turns, windows, chunks, Window(start, i), cur);
      chunks := chunks + [cur];
      windows := windows + [Window(start, i)];
    }
    assert Covers(turns, windows, limit, overlapTurns) && AreSlices(turns, windows, chunks);
  }

  // ---- What the windows keep ----

  lemma {:induction false} Positions(turns: seq<Turn>, ws: seq<Window>, limit: int, overlapTurns: nat, i: nat)
    requires Chain(turns, ws, limit, overlapTurns) && i < |ws|
    ensures InSession(turns, ws[i]) && ws[i].end > i
  {
    if i > 0 {
      Positions(turns, ws, limit, overlapTurns, i - 1);
      assert Follows(turns, ws[i - 1], ws[i], limit, overlapTurns);
    }
  }

  /**
   Windows only move forward, what two neighbours share is bounded in turns and in text, and a session
   is never cut into more parts than it has turns.
   */
  lemma WindowsAdvance(turns: seq<Turn>, ws: seq<Window>, limit: int, overlapTurns: nat)
    requires Covers(turns, ws, limit, overlapTurns)
    ensures |ws| <= |turns|
    ensures forall i | 0 < i < |ws| ::
              && ws[i - 1].start < ws[i].start <= ws[i - 1].end < ws[i].end
              && ws[i - 1].end - ws[i].start <= overlapTurns
              && (ws[i].start < ws[i - 1].end ==> TextSize(turns[ws[i].start..ws[i - 1].end]) <= limit / 4)
  {
    if ws != [] {
      Positions(turns, ws, limit, overlapTurns, |ws| - 1);
    }
    forall i | 0 < i < |ws|
      ensures Follows(turns, ws[i - 1], ws[i], limit, overlapTurns)
    {
    }
  }

  function Max(a: int, b: int): int {
    if a > b then a else b
  }

  /** A window that repeats up to `repeated` text is within the limit, or is that and one turn. */
  lemma FilledFits(turns: seq<Turn>, w: Window, first: nat, limit: int, repeated: int)
    requires InSession(turns, w) && Filled(turns, w, first, limit) && TextSize(turns[w.start..first]) <= repeated
    ensures TextSize(turns[w.start..w.end]) <= Max(limit, repeated + MAX_TURN_CHARS + TRIM_NOTE)
  {
    TextSizeGrows(turns, w.start, w.end - 1);
    if w.end - 1 == first {
      assert TextSize(turns[w.start..w.end]) == TextSize(turns[w.start..first]) + TurnSize(turns[first]);
    } else {
      assert Room(turns, w.start, w.end - 1, limit);
    }
  }

  /** No part is longer than the limit, or than one turn after the most that may be repeated. */
  lemma PartsFit(turns: seq<Turn>, ws: seq<Window>, limit: int, overlapTurns: nat, i: nat)
    requires Covers(turns, ws, limit, overlapTurns) && i < |ws|
    ensures InSession(turns, ws[i])
    ensures TextSize(turns[ws[i].start..ws[i].end]) <= Max(limit, Max(limit / 4, 0) + MAX_TURN_CHARS + TRIM_NOTE)
  {
    if i == 0 {
      FilledFits(turns, ws[0], 0, limit, 0);
    } else {
      assert Follows(turns, ws[i - 1], ws[i], limit, overlapTurns);
      FilledFits(turns, ws[i], ws[i - 1].end, limit, Max(limit / 4, 0));
    }
  }

  /** The parts' repeated turns lie inside them. */
  predicate Trimmable(chunks: seq<seq<Turn>>, ws: seq<Window>) {
    |chunks| == |ws| && forall i | 0 < i < |ws| :: ws[i].start <= ws[i - 1].end <= ws[i].start + |chunks[i]|
  }

  /** The first `n` parts, each without the turns it repeats. */
  function WithoutRepeats(chunks: seq<seq<Turn>>, ws: seq<Window>, n: nat): seq<Turn>
    requires Trimmable(chunks, ws) && n <= |chunks|
  {
    if n == 0 then []
    else if n == 1 then chunks[0]
    else WithoutRepeats(chunks, ws, n - 1) + chunks[n - 1][ws[n - 2].end - ws[n - 1].start..]
  }

  lemma Joins(turns: seq<Turn>, mid: nat, w: Window)
    requires InSession(turns, w) && w.start <= mid <= w.end
    ensures turns[..mid] + turns[w.start..w.end][mid - w.start..] == turns[..w.end]
  {
    assert turns[w.start..w.end][mid - w.start..] == turns[mid..w.end];
  }

  lemma {:induction false} PartsRestore(turns: seq<Turn>, chunks: seq<seq<Turn>>, ws: seq<Window>, n: nat)
    requires AreSlices(turns, ws, chunks) && Trimmable(chunks, ws) && 0 < n <= |ws| && ws[0].start == 0
    ensures WithoutRepeats(chunks, ws, n) == turns[..ws[n - 1].end]
  {
    if n > 1 {
      PartsRestore(turns, chunks, ws, n - 1);
      assert chunks[n - 1] == turns[ws[n - 1].start..ws[n - 1].end];
      Joins(turns, ws[n - 2].end, ws[n - 1]);
    }
  }

  lemma PartsTrim(turns: seq<Turn>, chunks: seq<seq<Turn>>, ws: seq<Window>, limit: int, overlapTurns: nat)
    requires Covers(turns, ws, limit, overlapTurns) && AreSlices(turns, ws, chunks)
    ensures Trimmable(chunks, ws)
  {
    forall i | 0 < i < |ws|
      ensures ws[i].start <= ws[i - 1].end <= ws[i].start + |chunks[i]|
    {
      assert Follows(turns, ws[i - 1], ws[i], limit, overlapTurns);
    }
  }

  /** Main result: the parts, each without what it repeats, are the session, with nothing lost or reordered. */
  lemma PartsAreTheSession(turns: seq<Turn>, chunks: seq<seq<Turn>>, ws: seq<Window>, limit: int, overlapTurns: nat)
    requires Covers(turns, ws, limit, overlapTurns) && AreSlices(turns, ws, chunks)
    ensures Trimmable(chunks, ws) && WithoutRepeats(chunks, ws, |ws|) == turns
  {
    PartsTrim(turns, chunks, ws, limit, overlapTurns);
    if ws != [] {
      PartsRestore(turns, chunks, ws, |ws|);
    }
  }

  // ---- The windows are determined ----

  /** Windows with the same start and first turn cannot both be filled and end differently before the session does. */
  lemma SameEnd(turns: seq<Turn>, v: Window, w: Window, first: nat, limit: int)
    requires InSession(turns, v) && InSession(turns, w) && v.start == w.start
    requires Filled(turns, v, first, limit) && Filled(turns, w, first, limit)
    requires v.end < |turns| ==> !Room(turns, v.start, v.end, limit)
    ensures w.end <= v.end
  {
  }

  lemma SameStart(turns: seq<Turn>, a: Window, v: Window, w: Window, limit: int, overlapTurns: nat)
    requires Follows(turns, a, v, limit, overlapTurns) && Follows(turns, a, w, limit, overlapTurns)
    ensures v.start == w.start
  {
    assert Repeats(turns, a, v.start, limit, overlapTurns) && Repeats(turns, a, w.start, limit, overlapTurns);
  }

  /** A window is closed only when the next turn does not fit, or the session ends. */
  lemma ClosedWindow(turns: seq<Turn>, ws: seq<Window>, limit: int, overlapTurns: nat, i: nat)
    requires Covers(turns, ws, limit, overlapTurns) && i < |ws|
    ensures InSession(turns, ws[i])
    ensures ws[i].end < |turns| ==> i + 1 < |ws| && !Room(turns, ws[i].start, ws[i].end, limit)
  {
    if i + 1 < |ws| {
      assert Follows(turns, ws[i], ws[i + 1], limit, overlapTurns);
    } else {
      Positions(turns, ws, limit, overlapTurns, i);
    }
  }

  lemma {:induction false} SameWindow(turns: seq<Turn>, vs: seq<Window>, ws: seq<Window>, limit: int,
                                      overlapTurns: nat, i: nat)
    requires Covers(turns, vs, limit, overlapTurns) && Covers(turns, ws, limit, overlapTurns) && i < |vs|
    ensures i < |ws| && vs[i] == ws[i]
  {
    ClosedWindow(turns, vs, limit, overlapTurns, i);
    if i == 0 {
      ClosedWindow(turns, ws, limit, overlapTurns, i);
      SameEnd(turns, vs[0], ws[0], 0, limit);
      SameEnd(turns, ws[0], vs[0], 0, limit);
    } else {
      SameWindow(turns, vs, ws, limit, overlapTurns, i - 1);
      var a := ws[i - 1];
      assert Follows(turns, vs[i - 1], vs[i], limit, overlapTurns);
      ClosedWindow(turns, ws, limit, overlapTurns, i - 1);
      ClosedWindow(turns, ws, limit, overlapTurns, i);
      assert Follows(turns, a, ws[i], limit, overlapTurns);
      SameStart(turns, a, vs[i], ws[i], limit, overlapTurns);
      SameEnd(turns, vs[i], ws[i], a.end, limit);
      SameEnd(turns, ws[i], vs[i], a.end, limit);
    }
  }

  lemma WindowsAreUnique(turns: seq<Turn>, vs: seq<Window>, ws: seq<Window>, limit: int, overlapTurns: nat)
    requires Covers(turns, vs, limit, overlapTurns) && Covers(turns, ws, limit, overlapTurns)
    ensures vs == ws
  {
    if vs != [] {
      SameWindow(turns, vs, ws, limit, overlapTurns, |vs| - 1);
      SameWindow(turns, ws, vs, limit, overlapTurns, |ws| - 1);
    }
    forall i | 0 <= i < |vs|
      ensures i < |ws| && vs[i] == ws[i]
    {
      SameWindow(turns, vs, ws, limit, overlapTurns, i);
    }
  }

  /** Main result: a session has exactly one way to be split, the one `BuildChunks` finds. */
  lemma SplitIsUnique(turns: seq<Turn>, a: seq<seq<Turn>>, b: seq<seq<Turn>>, limit: int, overlapTurns: nat)
    requires IsSplit(turns, a, limit, overlapTurns) && IsSplit(turns, b, limit, overlapTurns)
    ensures a == b
  {
    var vs :| Covers(turns, vs, limit, overlapTurns) && AreSlices(turns, vs, a);
    var ws :| Covers(turns, ws, limit, overlapTurns) && AreSlices(turns, ws, b);
    WindowsAreUnique(turns, vs, ws, limit, overlapTurns);
  }

  /** A session without turns has no parts, and every other has some. */
  lemma NoTurnsNoParts(turns: seq<Turn>, chunks: seq<seq<Turn>>, limit: int, overlapTurns: nat)
    requires IsSplit(turns, chunks, limit, overlapTurns)
    ensures chunks == [] <==> turns == []
  {
  }

  /** A session that fits stays whole. */
  lemma ShortStaysWhole(turns: seq<Turn>, ws: seq<Window>, limit: int, overlapTurns: nat)
    requires Covers(turns, ws, limit, overlapTurns) && turns != [] && TextSize(turns) <= limit
    ensures ws == [Window(0, |turns|)]
  {
    var whole := [Window(0, |turns|)];
    forall k | 0 < k < |turns|
      ensures Room(turns, 0, k, limit)
    {
      TextSizeGrows(turns, 0, k);
      PrefixSmaller(turns, k + 1);
    }
    assert turns[0..|turns|] == turns;
    assert Covers(turns, whole, limit, overlapTurns);
    WindowsAreUnique(turns, ws, whole, limit, overlapTurns);
  }

  lemma {:induction false} PrefixSmaller(turns: seq<Turn>, k: nat)
    requires k <= |turns|
    ensures TextSize(turns[0..k]) <= TextSize(turns)
  {
    if k == |turns| {
      assert turns[0..k] == turns;
    } else {
      PrefixSmaller(turns[..|turns| - 1], k);
      assert turns[..|turns| - 1][0..k] == turns[0..k];
    }
  }
}
