/**
 The content-addressed file store (internal/blobstore/file.go).

 Files are names for inodes, as in the file system: a hard link gives an inode a second name, and a
 removed name leaves the inode to those who have it open. Each step of a `Put` is one atomic operation
 on that state, any number of writers run at once, and any of them may stop for good at any step.
 Nothing is assumed of the digest but its form: where different bytes with one digest matter, `Collide`
 says so.
 */
module BlobStore {
  import opened Wrappers
  import opened Text
  import opened Digest

  type Bytes = seq<int>

  type Hash = Bytes -> string

  // ---- Steps ----

  datatype PutOutcome = Stored(digest: string, created: bool) | Mismatch | ReadFailed | Corrupt

  /** A writer: copying into its own staging file, then with verified bytes, then at the final name. */
  datatype Writer =
    | Copying(inode: nat, source: Bytes, copied: nat, expected: Option<string>)
    | Verified(inode: nat, source: Bytes, digest: string)
    | Reusing(inode: nat, source: Bytes, digest: string)
    | Finished(inode: nat, outcome: PutOutcome)

  datatype Event = Created(digest: string) | Removed(digest: string)

  /** `installed` gives each final name its inode; `staging` are the inodes that still have a staging name. */
  datatype State = State(content: map<nat, Bytes>, staging: set<nat>, installed: map<string, nat>, nextInode: nat,
                         writers: map<nat, Writer>, log: seq<Event>)

  datatype Action =
    | Begin(w: nat, source: Bytes, expected: Option<string>)
    | Copy(w: nat, n: nat)
    | FailRead(w: nat)
    | Check(w: nat)
    | Link(w: nat)
    | VerifyExisting(w: nat)
    | CleanUp(w: nat)
    | Crash(w: nat)
    | Remove(digest: string)

  predicate Enabled(s: State, a: Action) {
    match a
    case Begin(w, _, _) => w !in s.writers
    case Copy(w, n) => w in s.writers && s.writers[w].Copying? && s.writers[w].copied + n <= |s.writers[w].source|
    case FailRead(w) => w in s.writers && s.writers[w].Copying?
    case Check(w) => w in s.writers && s.writers[w].Copying? && s.writers[w].copied == |s.writers[w].source|
    case Link(w) => w in s.writers && s.writers[w].Verified? && s.writers[w].inode in s.content
    case VerifyExisting(w) => w in s.writers && s.writers[w].Reusing?
    case CleanUp(w) => w in s.writers && s.writers[w].Finished?
    case Crash(w) => w in s.writers
    case Remove(_) => true
  }

  function Checked(hash: Hash, x: Writer): Writer
    requires x.Copying?
  {
    if x.expected.Some? && x.expected.value != hash(x.source) then Finished(x.inode, Mismatch)
    else Verified(x.inode, x.source, hash(x.source))
  }

  /** Whether the bytes at a final name are those of its digest, read again. */
  predicate Intact(hash: Hash, s: State, digest: string, size: nat) {
    && digest in s.installed && s.installed[digest] in s.content
    && |s.content[s.installed[digest]]| == size && hash(s.content[s.installed[digest]]) == digest
  }

  function Next(hash: Hash, s: State, a: Action): State
    requires Enabled(s, a)
  {
    match a
    case Begin(w, source, expected) =>
      s.(content := s.content[s.nextInode := []], staging := s.staging + {s.nextInode}, nextInode := s.nextInode + 1,
         writers := s.writers[w := Copying(s.nextInode, source, 0, expected)])
    case Copy(w, n) =>
      var x := s.writers[w];
      s.(content := s.content[x.inode := x.source[..x.copied + n]],
         writers := s.writers[w := x.(copied := x.copied + n)])
    case FailRead(w) => s.(writers := s.writers[w := Finished(s.writers[w].inode, ReadFailed)])
    case Check(w) => s.(writers := s.writers[w := Checked(hash, s.writers[w])])
    case Link(w) =>
      var x := s.writers[w];
      if x.digest in s.installed then s.(writers := s.writers[w := Reusing(x.inode, x.source, x.digest)])
      else s.(installed := s.installed[x.digest := x.inode], log := s.log + [Created(x.digest)],
              writers := s.writers[w := Finished(x.inode, Stored(x.digest, true))])
    case VerifyExisting(w) =>
      var x := s.writers[w];
      var outcome := if Intact(hash, s, x.digest, |x.source|) then Stored(x.digest, false) else Corrupt;
      s.(writers := s.writers[w := Finished(x.inode, outcome)])
    case CleanUp(w) => s.(staging := s.staging - {s.writers[w].inode}, writers := s.writers - {w})
    case Crash(w) => s.(writers := s.writers - {w})
    case Remove(digest) =>
      if digest in s.installed then s.(installed := s.installed - {digest}, log := s.log + [Removed(digest)]) else s
  }

  predicate Possible(hash: Hash, s: State, actions: seq<Action>)
    decreases |actions|
  {
    actions != [] ==> Enabled(s, actions[0]) && Possible(hash, Next(hash, s, actions[0]), actions[1..])
  }

  function Run(hash: Hash, s: State, actions: seq<Action>): State
    requires Possible(hash, s, actions)
    decreases |actions|
  {
    if actions == [] then s else Run(hash, Next(hash, s, actions[0]), actions[1..])
  }

  // ---- What every interleaving keeps ----

  /** What a writer knows of its own inode: nobody else writes to it. */
  ghost predicate WriterOk(hash: Hash, s: State, x: Writer) {
    && x.inode in s.content && x.inode < s.nextInode
    && match x
       case Copying(i, source, copied, _) => copied <= |source| && s.content[i] == source[..copied]
       case Verified(i, source, digest) => s.content[i] == source && digest == hash(source)
       case Reusing(i, source, digest) => s.content[i] == source && digest == hash(source)
       case Finished(i, outcome) => true
  }

  ghost predicate WritersOk(hash: Hash, s: State) {
    && (forall w | w in s.writers :: WriterOk(hash, s, s.writers[w]))
    && (forall v, w | v in s.writers && w in s.writers && v != w :: s.writers[v].inode != s.writers[w].inode)
  }

  /** Every final name holds bytes with that digest, in an inode that nobody is copying into. */
  ghost predicate Addressed(hash: Hash, s: State) {
    forall d | d in s.installed ::
      && s.installed[d] in s.content && s.installed[d] < s.nextInode && hash(s.content[s.installed[d]]) == d
      && forall w | w in s.writers && s.writers[w].inode == s.installed[d] :: s.writers[w].Finished?
  }

  ghost predicate Inv(hash: Hash, s: State) {
    WritersOk(hash, s) && Addressed(hash, s) && forall i | i in s.content :: i < s.nextInode
  }

  /** An inode that no writer is copying into. */
  ghost predicate Settled(s: State, i: nat) {
    i in s.content && forall w | w in s.writers && s.writers[w].inode == i :: !s.writers[w].Copying?
  }

  lemma WriterStaysOk(hash: Hash, s: State, a: Action, w: nat)
    requires Inv(hash, s) && Enabled(s, a) && w in Next(hash, s, a).writers
    ensures WriterOk(hash, Next(hash, s, a), Next(hash, s, a).writers[w])
  {
    if w in s.writers {
      assert WriterOk(hash, s, s.writers[w]);
    }
  }

  /** No two writers come to share an inode. */
  lemma WritersStayApart(hash: Hash, s: State, a: Action, v: nat, w: nat)
    requires Inv(hash, s) && Enabled(s, a) && v != w
    requires v in Next(hash, s, a).writers && w in Next(hash, s, a).writers
    ensures Next(hash, s, a).writers[v].inode != Next(hash, s, a).writers[w].inode
  {
    assert v in s.writers ==> WriterOk(hash, s, s.writers[v]);
    assert w in s.writers ==> WriterOk(hash, s, s.writers[w]);
  }

  lemma StepKeepsWriters(hash: Hash, s: State, a: Action)
    requires Inv(hash, s) && Enabled(s, a)
    ensures WritersOk(hash, Next(hash, s, a))
    ensures forall i | i in Next(hash, s, a).content :: i < Next(hash, s, a).nextInode
  {
    var after := Next(hash, s, a);
    forall w | w in after.writers ensures WriterOk(hash, after, after.writers[w]) {
      WriterStaysOk(hash, s, a, w);
    }
    forall v, w | v in after.writers && w in after.writers && v != w
      ensures after.writers[v].inode != after.writers[w].inode
    {
      WritersStayApart(hash, s, a, v, w);
    }
  }

  lemma StepKeepsAddressed(hash: Hash, s: State, a: Action)
    requires Inv(hash, s) && Enabled(s, a)
    ensures Addressed(hash, Next(hash, s, a))
  {
  }

  lemma StepKeeps(hash: Hash, s: State, a: Action)
    requires Inv(hash, s) && Enabled(s, a)
    ensures Inv(hash, Next(hash, s, a))
  {
    StepKeepsWriters(hash, s, a);
    StepKeepsAddressed(hash, s, a);
  }

  /**
   Main result: over every interleaving of writers, crashes and removals, each visible file holds bytes
   with the digest it is named after.
   */
  lemma {:induction false} RunKeeps(hash: Hash, s: State, actions: seq<Action>)
    requires Inv(hash, s) && Possible(hash, s, actions)
    ensures Inv(hash, Run(hash, s, actions))
    decreases |actions|
  {
    if actions != [] {
      StepKeeps(hash, s, actions[0]);
      RunKeeps(hash, Next(hash, s, actions[0]), actions[1..]);
    }
  }

  lemma SettledStep(hash: Hash, s: State, a: Action, i: nat)
    requires Inv(hash, s) && Enabled(s, a) && Settled(s, i)
    ensures Settled(Next(hash, s, a), i) && Next(hash, s, a).content[i] == s.content[i]
  {
  }

  lemma {:induction false} SettledRun(hash: Hash, s: State, actions: seq<Action>, i: nat)
    requires Inv(hash, s) && Possible(hash, s, actions) && Settled(s, i)
    ensures i in Run(hash, s, actions).content && Run(hash, s, actions).content[i] == s.content[i]
    decreases |actions|
  {
    if actions != [] {
      StepKeeps(hash, s, actions[0]);
      SettledStep(hash, s, actions[0], i);
      SettledRun(hash, Next(hash, s, actions[0]), actions[1..], i);
    }
  }

  /**
   Main result: whoever opens a visible file reads one and the same whole blob for as long as they keep
   it open, whatever writers do and even if the name is removed.
   */
  lemma ReadersSeeWholeBlobs(hash: Hash, s: State, actions: seq<Action>, digest: string)
    requires Inv(hash, s) && Possible(hash, s, actions) && digest in s.installed
    ensures var i := s.installed[digest];
            && i in s.content && i in Run(hash, s, actions).content
            && Run(hash, s, actions).content[i] == s.content[i] && hash(s.content[i]) == digest
  {
    SettledRun(hash, s, actions, s.installed[digest]);
  }

  /** Different bytes with the same digest. */
  predicate Collide(hash: Hash, a: Bytes, b: Bytes) {
    a != b && hash(a) == hash(b)
  }

  /**
   A writer that finds the name taken can use what is there exactly when it has not been removed since
   and has the right size, which only colliding bytes have not; and what is there is then the writer's
   own source unless the two collide.
   */
  lemma ReuseFailsOnlyWhenRemoved(hash: Hash, s: State, w: nat)
    requires Inv(hash, s) && w in s.writers && s.writers[w].Reusing?
    ensures var x := s.writers[w];
            if x.digest !in s.installed then !Intact(hash, s, x.digest, |x.source|)
            else
              var there := s.content[s.installed[x.digest]];
              && (Intact(hash, s, x.digest, |x.source|) <==> |there| == |x.source|)
              && (there == x.source <==> !Collide(hash, there, x.source))
  {
  }

  /** A writer whose bytes cannot be, or were not, what it was told to expect. */
  predicate Refused(hash: Hash, x: Writer) {
    match x
    case Copying(_, source, _, expected) => expected.Some? && expected.value != hash(source)
    case Finished(_, outcome) => outcome.Mismatch? || outcome.ReadFailed?
    case _ => false
  }

  predicate Acts(a: Action, w: nat) {
    match a
    case Begin(v, _, _) => v == w
    case Copy(v, _) => v == w
    case FailRead(v) => v == w
    case Check(v) => v == w
    case Link(v) => v == w
    case VerifyExisting(v) => v == w
    case CleanUp(v) => v == w
    case Crash(v) => v == w
    case Remove(_) => false
  }

  /** Such a writer stays one until it is gone, and no step it takes makes anything visible. */
  lemma MismatchStep(hash: Hash, s: State, a: Action, w: nat)
    requires Enabled(s, a) && w in s.writers && Refused(hash, s.writers[w])
    ensures var after := Next(hash, s, a);
            && (w in after.writers ==> Refused(hash, after.writers[w]))
            && (Acts(a, w) ==> after.installed == s.installed && after.log == s.log)
  {
  }

  /** As long as writer `w` is there, no step it takes makes anything visible or creates a blob. */
  ghost predicate ShowsNothing(hash: Hash, s: State, actions: seq<Action>, w: nat)
    requires Possible(hash, s, actions)
    decreases |actions|
  {
    actions != [] && w in s.writers ==>
      && (Acts(actions[0], w) ==>
            Next(hash, s, actions[0]).installed == s.installed && Next(hash, s, actions[0]).log == s.log)
      && ShowsNothing(hash, Next(hash, s, actions[0]), actions[1..], w)
  }

  /** Main result: bytes that are not what the writer was told to expect never become visible, in any run. */
  lemma {:induction false} MismatchInstallsNothing(hash: Hash, s: State, actions: seq<Action>, w: nat)
    requires Possible(hash, s, actions) && w in s.writers && Refused(hash, s.writers[w])
    ensures ShowsNothing(hash, s, actions, w)
    decreases |actions|
  {
    if actions != [] {
      MismatchStep(hash, s, actions[0], w);
      if w in Next(hash, s, actions[0]).writers {
        MismatchInstallsNothing(hash, Next(hash, s, actions[0]), actions[1..], w);
      }
    }
  }

  // ---- Created ----

  function Last(log: seq<Event>, digest: string): Option<Event> {
    if log == [] then None
    else if log[|log| - 1].digest == digest then Some(log[|log| - 1])
    else Last(log[..|log| - 1], digest)
  }

  /** A digest is created, then removed, then created again, and so on. */
  predicate Alternates(log: seq<Event>, digest: string) {
    log == [] ||
    (var init, e := log[..|log| - 1], log[|log| - 1];
     && Alternates(init, digest)
     && (e.digest == digest ==> (e.Created? <==> Last(init, digest) != Some(Created(digest)))))
  }

  ghost predicate Recorded(s: State) {
    forall d :: Alternates(s.log, d) && (d in s.installed <==> Last(s.log, d) == Some(Created(d)))
  }

  lemma StepRecorded(hash: Hash, s: State, a: Action)
    requires Recorded(s) && Enabled(s, a)
    ensures Recorded(Next(hash, s, a))
  {
    var after := Next(hash, s, a);
    if after.log != s.log {
      assert after.log[..|after.log| - 1] == s.log;
    }
    forall d
      ensures Alternates(after.log, d) && (d in after.installed <==> Last(after.log, d) == Some(Created(d)))
    {
      assert Alternates(s.log, d);
    }
  }

  lemma {:induction false} RunRecorded(hash: Hash, s: State, actions: seq<Action>)
    requires Recorded(s) && Possible(hash, s, actions)
    ensures Recorded(Run(hash, s, actions))
    decreases |actions|
  {
    if actions != [] {
      StepRecorded(hash, s, actions[0]);
      RunRecorded(hash, Next(hash, s, actions[0]), actions[1..]);
    }
  }

  lemma {:induction false} AlternatesAt(log: seq<Event>, digest: string, k: nat)
    requires Alternates(log, digest) && k < |log| && log[k].digest == digest
    ensures log[k].Created? <==> Last(log[..k], digest) != Some(Created(digest))
  {
    if k < |log| - 1 {
      AlternatesAt(log[..|log| - 1], digest, k);
      assert log[..|log| - 1][..k] == log[..k];
    }
  }

  lemma {:induction false} LastIsThere(log: seq<Event>, digest: string) returns (k: nat)
    requires Last(log, digest).Some?
    ensures k < |log| && log[k] == Last(log, digest).value && log[k].digest == digest
    ensures forall j | k < j < |log| :: log[j].digest != digest
  {
    if log[|log| - 1].digest == digest {
      k := |log| - 1;
    } else {
      k := LastIsThere(log[..|log| - 1], digest);
    }
  }

  lemma {:induction false} LastExists(log: seq<Event>, digest: string, k: nat)
    requires k < |log| && log[k].digest == digest
    ensures Last(log, digest).Some?
  {
    if log[|log| - 1].digest != digest {
      LastExists(log[..|log| - 1], digest, k);
    }
  }

  lemma CreatedOnceBetween(log: seq<Event>, digest: string, i: nat, j: nat) returns (k: nat)
    requires Alternates(log, digest) && i < j < |log| && log[i] == log[j] == Removed(digest)
    requires forall m | i < m < j :: log[m] != Removed(digest)
    ensures i < k < j && log[k] == Created(digest)
    ensures forall m | i < m < j && log[m] == Created(digest) :: m == k
  {
    AlternatesAt(log, digest, j);
    k := LastIsThere(log[..j], digest);
    forall m | i < m < j && log[m] == Created(digest)
      ensures m == k
    {
      if m < k {
        AlternatesAt(log, digest, k);
        LastExists(log[..k], digest, m);
        var n := LastIsThere(log[..k], digest);
      }
    }
  }

  /** Main result: in every run, between two successive removals of a digest it is created exactly once. */
  lemma CreatedOnceBetweenRemovals(hash: Hash, s: State, actions: seq<Action>, digest: string, i: nat, j: nat)
    returns (k: nat)
    requires Recorded(s) && Possible(hash, s, actions)
    requires var log := Run(hash, s, actions).log;
             && i < j < |log| && log[i] == log[j] == Removed(digest)
             && forall m | i < m < j :: log[m] != Removed(digest)
    ensures var log := Run(hash, s, actions).log;
            && i < k < j && log[k] == Created(digest)
            && forall m | i < m < j && log[m] == Created(digest) :: m == k
  {
    RunRecorded(hash, s, actions);
    k := CreatedOnceBetween(Run(hash, s, actions).log, digest, i, j);
  }

  // ---- One writer at a time ----

  /** A writer's steps when nothing else happens, up to one that fails to read after `n` of its bytes. */
  function Alone(hash: Hash, s: State, w: nat, source: Bytes, expected: Option<string>, failsAt: Option<nat>)
    : seq<Action>
  {
    var copying := [Begin(w, source, expected)];
    if failsAt.Some? then copying + [Copy(w, failsAt.value), FailRead(w), CleanUp(w)]
    else if expected.Some? && expected.value != hash(source) then
      copying + [Copy(w, |source|), Check(w), CleanUp(w)]
    else if hash(source) in s.installed then
      copying + [Copy(w, |source|), Check(w), Link(w), VerifyExisting(w), CleanUp(w)]
    else copying + [Copy(w, |source|), Check(w), Link(w), CleanUp(w)]
  }

  /** The actions are possible one after the other, and lead from `s` to `t`. */
  ghost predicate Leads(hash: Hash, s: State, actions: seq<Action>, t: State) {
    Possible(hash, s, actions) && Run(hash, s, actions) == t
  }

  lemma LeadsOn(hash: Hash, s: State, actions: seq<Action>, t: State)
    requires actions != [] && Enabled(s, actions[0]) && Leads(hash, Next(hash, s, actions[0]), actions[1..], t)
    ensures Leads(hash, s, actions, t)
  {
  }

  /** The state with a file of its own for a new writer, which stands as `x`. */
  function With(s: State, w: nat, bytes: Bytes, x: Writer): State {
    s.(content := s.content[s.nextInode := bytes], staging := s.staging + {s.nextInode}, nextInode := s.nextInode + 1,
       writers := s.writers[w := x])
  }

  /** The state when the writer is gone: its inode has been used, and its staging name is free again. */
  function Gone(s: State, bytes: Bytes): State {
    s.(content := s.content[s.nextInode := bytes], nextInode := s.nextInode + 1)
  }

  lemma CopiesAlone(hash: Hash, s: State, w: nat, source: Bytes, expected: Option<string>, n: nat, rest: seq<Action>,
                    t: State)
    requires w !in s.writers && n <= |source|
    requires Leads(hash, With(s, w, source[..n], Copying(s.nextInode, source, n, expected)), rest, t)
    ensures Leads(hash, s, [Begin(w, source, expected), Copy(w, n)] + rest, t)
  {
    var begun := With(s, w, [], Copying(s.nextInode, source, 0, expected));
    var copied := With(s, w, source[..n], Copying(s.nextInode, source, n, expected));
    var actions := [Begin(w, source, expected), Copy(w, n)] + rest;
    assert Next(hash, s, actions[0]) == begun;
    assert Next(hash, begun, actions[1]) == copied;
    assert actions[1..][1..] == rest;
    LeadsOn(hash, begun, actions[1..], t);
    LeadsOn(hash, s, actions, t);
  }

  /** A writer that has finished goes, and takes its staging name with it. */
  lemma CleansUp(hash: Hash, s: State, w: nat, bytes: Bytes, outcome: PutOutcome)
    requires w !in s.writers && s.nextInode !in s.staging
    ensures Leads(hash, With(s, w, bytes, Finished(s.nextInode, outcome)), [CleanUp(w)], Gone(s, bytes))
  {
    var done := With(s, w, bytes, Finished(s.nextInode, outcome));
    assert done.writers - {w} == s.writers;
    assert done.staging - {s.nextInode} == s.staging;
    assert [CleanUp(w)][1..] == [];
    LeadsOn(hash, done, [CleanUp(w)], Gone(s, bytes));
  }

  /** What a writer that is alone leaves behind: its bytes visible under their digest, if it was free, or nothing. */
  function Left(hash: Hash, s: State, source: Bytes, expected: Option<string>, failsAt: Option<nat>): State
    requires failsAt.Some? ==> failsAt.value <= |source|
  {
    var bytes := if failsAt.Some? then source[..failsAt.value] else source;
    var d := hash(source);
    if failsAt.Some? || (expected.Some? && expected.value != d) || d in s.installed then Gone(s, bytes)
    else Gone(s, bytes).(installed := s.installed[d := s.nextInode], log := s.log + [Created(d)])
  }

  lemma FailsAlone(hash: Hash, s: State, w: nat, source: Bytes, expected: Option<string>, n: nat)
    requires w !in s.writers && s.nextInode !in s.staging && n <= |source|
    ensures Leads(hash, s, Alone(hash, s, w, source, expected, Some(n)), Gone(s, source[..n]))
  {
    var copied := With(s, w, source[..n], Copying(s.nextInode, source, n, expected));
    var rest := [FailRead(w), CleanUp(w)];
    CleansUp(hash, s, w, source[..n], ReadFailed);
    assert Next(hash, copied, rest[0]) == With(s, w, source[..n], Finished(s.nextInode, ReadFailed));
    assert rest[1..] == [CleanUp(w)];
    LeadsOn(hash, copied, rest, Gone(s, source[..n]));
    CopiesAlone(hash, s, w, source, expected, n, rest, Gone(s, source[..n]));
    assert Alone(hash, s, w, source, expected, Some(n)) == [Begin(w, source, expected), Copy(w, n)] + rest;
  }

  lemma ChecksAlone(hash: Hash, s: State, w: nat, source: Bytes, expected: Option<string>, rest: seq<Action>, t: State)
    requires w !in s.writers
    requires Leads(hash, With(s, w, source, Checked(hash, Copying(s.nextInode, source, |source|, expected))), rest, t)
    ensures Leads(hash, s, [Begin(w, source, expected), Copy(w, |source|), Check(w)] + rest, t)
  {
    assert source[..|source|] == source;
    var copied := With(s, w, source, Copying(s.nextInode, source, |source|, expected));
    var more := [Check(w)] + rest;
    assert Next(hash, copied, more[0])
        == With(s, w, source, Checked(hash, Copying(s.nextInode, source, |source|, expected)));
    assert more[1..] == rest;
    LeadsOn(hash, copied, more, t);
    CopiesAlone(hash, s, w, source, expected, |source|, more, t);
    assert [Begin(w, source, expected), Copy(w, |source|)] + more
        == [Begin(w, source, expected), Copy(w, |source|), Check(w)] + rest;
  }

  lemma MismatchAlone(hash: Hash, s: State, w: nat, source: Bytes, expected: Option<string>)
    requires w !in s.writers && s.nextInode !in s.staging && expected.Some? && expected.value != hash(source)
    ensures Leads(hash, s, Alone(hash, s, w, source, expected, None), Gone(s, source))
  {
    CleansUp(hash, s, w, source, Mismatch);
    ChecksAlone(hash, s, w, source, expected, [CleanUp(w)], Gone(s, source));
    assert Alone(hash, s, w, source, expected, None)
        == [Begin(w, source, expected), Copy(w, |source|), Check(w)] + [CleanUp(w)];
  }

  lemma CreatesAlone(hash: Hash, s: State, w: nat, source: Bytes, expected: Option<string>)
    requires w !in s.writers && s.nextInode !in s.staging && (expected.Some? ==> expected.value == hash(source))
    requires hash(source) !in s.installed
    ensures Leads(hash, s, Alone(hash, s, w, source, expected, None), Left(hash, s, source, expected, None))
  {
    var d, t := hash(source), Left(hash, s, source, expected, None);
    var verified := With(s, w, source, Verified(s.nextInode, source, d));
    var linked := s.(installed := s.installed[d := s.nextInode], log := s.log + [Created(d)]);
    var rest := [Link(w), CleanUp(w)];
    CleansUp(hash, linked, w, source, Stored(d, true));
    assert Next(hash, verified, rest[0]) == With(linked, w, source, Finished(s.nextInode, Stored(d, true)));
    assert rest[1..] == [CleanUp(w)];
    LeadsOn(hash, verified, rest, t);
    ChecksAlone(hash, s, w, source, expected, rest, t);
    assert Alone(hash, s, w, source, expected, None)
        == [Begin(w, source, expected), Copy(w, |source|), Check(w)] + rest;
  }

  lemma ReusesAlone(hash: Hash, s: State, w: nat, source: Bytes, expected: Option<string>)
    requires w !in s.writers && s.nextInode !in s.staging && (expected.Some? ==> expected.value == hash(source))
    requires hash(source) in s.installed
    ensures Leads(hash, s, Alone(hash, s, w, source, expected, None), Gone(s, source))
  {
    var d := hash(source);
    var verified := With(s, w, source, Verified(s.nextInode, source, d));
    var reusing := With(s, w, source, Reusing(s.nextInode, source, d));
    var outcome := if Intact(hash, reusing, d, |source|) then Stored(d, false) else Corrupt;
    var rest := [Link(w), VerifyExisting(w), CleanUp(w)];
    CleansUp(hash, s, w, source, outcome);
    assert Next(hash, verified, rest[0]) == reusing;
    assert Next(hash, reusing, rest[1]) == With(s, w, source, Finished(s.nextInode, outcome));
    assert rest[1..] == [VerifyExisting(w), CleanUp(w)] && rest[1..][1..] == [CleanUp(w)];
    LeadsOn(hash, reusing, rest[1..], Gone(s, source));
    LeadsOn(hash, verified, rest, Gone(s, source));
    ChecksAlone(hash, s, w, source, expected, rest, Gone(s, source));
    assert Alone(hash, s, w, source, expected, None)
        == [Begin(w, source, expected), Copy(w, |source|), Check(w)] + rest;
  }

  /**
   Main result: a writer that meets no other can always finish, and then leaves exactly what a put leaves:
   its bytes under their digest if it was free and they are what was expected, and otherwise nothing; no
   staging file and no writer stay behind.
   */
  lemma FinishesAlone(hash: Hash, s: State, w: nat, source: Bytes, expected: Option<string>, failsAt: Option<nat>)
    requires w !in s.writers && s.nextInode !in s.staging && (failsAt.Some? ==> failsAt.value <= |source|)
    ensures Leads(hash, s, Alone(hash, s, w, source, expected, failsAt), Left(hash, s, source, expected, failsAt))
  {
    if failsAt.Some? {
      FailsAlone(hash, s, w, source, expected, failsAt.value);
    } else if expected.Some? && expected.value != hash(source) {
      MismatchAlone(hash, s, w, source, expected);
    } else if hash(source) in s.installed {
      ReusesAlone(hash, s, w, source, expected);
    } else {
      CreatesAlone(hash, s, w, source, expected);
    }
  }

  /** Inodes with a staging name have been given out before. */
  lemma {:induction false} StagingIsOld(hash: Hash, s: State, actions: seq<Action>)
    requires Possible(hash, s, actions) && forall i | i in s.staging :: i < s.nextInode
    ensures forall i | i in Run(hash, s, actions).staging :: i < Run(hash, s, actions).nextInode
    decreases |actions|
  {
    if actions != [] {
      StagingIsOld(hash, Next(hash, s, actions[0]), actions[1..]);
    }
  }

  // ---- What a finished writer reports ----

  /** The outcome that a step of writer `w` reports, with what is visible before and after the step. */
  lemma ReportsExactly(hash: Hash, s: State, a: Action, w: nat)
    requires Inv(hash, s) && Enabled(s, a) && w in s.writers && w in Next(hash, s, a).writers
    requires !s.writers[w].Finished? && Next(hash, s, a).writers[w].Finished?
    ensures var x, after := s.writers[w], Next(hash, s, a);
            var d := hash(x.source);
            match after.writers[w].outcome
            case Stored(digest, true) =>
              && digest == d && d !in s.installed && after.installed == s.installed[d := x.inode]
              && after.content[x.inode] == x.source && after.log == s.log + [Created(d)]
            case Stored(digest, false) =>
              && digest == d && d in s.installed && |s.content[s.installed[d]]| == |x.source|
              && after.installed == s.installed
            case Corrupt =>
              && (d in s.installed ==> |s.content[s.installed[d]]| != |x.source|) && after.installed == s.installed
            case Mismatch =>
              && x.Copying? && x.expected.Some? && x.expected.value != d && after.installed == s.installed
            case ReadFailed => x.Copying? && a == FailRead(w) && after.installed == s.installed
  {
    assert WriterOk(hash, s, s.writers[w]);
  }

  /** What anybody else does leaves a writer as it is. */
  lemma OthersLeaveIt(hash: Hash, s: State, a: Action, w: nat)
    requires Enabled(s, a) && w in s.writers && !Acts(a, w)
    ensures w in Next(hash, s, a).writers && Next(hash, s, a).writers[w] == s.writers[w]
  {
  }

  /** Removing a name, and a writer that stops for good, change nothing else. */
  lemma RemovesExactly(hash: Hash, s: State, digest: string)
    ensures digest in s.installed ==>
              Next(hash, s, Remove(digest)) == s.(installed := s.installed - {digest}, log := s.log + [Removed(digest)])
    ensures digest !in s.installed ==> Next(hash, s, Remove(digest)) == s
    ensures forall w | w in s.writers ::
              Next(hash, s, Crash(w)).writers.Keys == s.writers.Keys - {w}
              && Next(hash, s, Crash(w)).(writers := s.writers) == s
  {
  }

  // ---- Handles ----

  function Normal(d: string): string {
    ToLower(Trim(d))
  }

  function Prefix(value: string): string {
    if |value| < 2 then "" else value[..2]
  }

  function StorageHandle(digest: string): string {
    "sha256/" + Prefix(digest) + "/" + digest
  }

  function Split(s: string): (parts: seq<string>)
    ensures parts != []
  {
    if s == "" then [""]
    else
      var rest := Split(s[1..]);
      if s[0] == '/' then [""] + rest else [[s[0]] + rest[0]] + rest[1..]
  }

  function Parts(handle: string): seq<string> {
    Split(Trim(handle))
  }

  predicate ValidHandle(handle: string) {
    var parts := Parts(handle);
    && |parts| == 3 && parts[0] == "sha256" && |parts[1]| == 2 && parts[1] == Prefix(parts[2])
    && IsHexDigest(Normal(parts[2]))
  }

  /** The file name a handle leads to, under the directories `sha256` and its prefix. */
  function Resolve(handle: string): Option<string> {
    if ValidHandle(handle) then Some(Parts(handle)[2]) else None
  }

  lemma {:induction false} SplitJoin(a: string, b: string)
    requires '/' !in a
    ensures Split(a + "/" + b) == [a] + Split(b)
  {
    if a == "" {
      assert a + "/" + b == "/" + b;
      assert ("/" + b)[1..] == b;
    } else {
      SplitJoin(a[1..], b);
      assert (a + "/" + b)[1..] == a[1..] + "/" + b;
      assert a == [a[0]] + a[1..];
    }
  }

  lemma {:induction false} SplitPlain(a: string)
    requires '/' !in a
    ensures Split(a) == [a]
  {
    if a != "" {
      SplitPlain(a[1..]);
      assert a == [a[0]] + a[1..];
    }
  }

  lemma DigestIsNormal(d: string)
    requires IsHexDigest(d)
    ensures Normal(d) == d && '/' !in d
  {
    assert d[0] in d && d[63] in d;
    assert Trim(d) == d;
    forall i | 0 <= i < |d|
      ensures LowerChar(d[i]) == d[i]
    {
      assert d[i] in d;
    }
  }

  lemma HandleParts(d: string)
    requires |d| >= 2 && '/' !in d && !IsSpace(d[|d| - 1])
    ensures Parts(StorageHandle(d)) == ["sha256", Prefix(d), d]
  {
    var h := StorageHandle(d);
    assert h[0] == 's' && h[|h| - 1] == d[|d| - 1];
    assert Trim(h) == h;
    assert h == "sha256" + "/" + (Prefix(d) + "/" + d);
    SplitJoin("sha256", Prefix(d) + "/" + d);
    SplitJoin(Prefix(d), d);
    SplitPlain(d);
  }

  /** Every handle built for a digest is accepted and leads to the digest's own file. */
  lemma OwnHandleResolves(d: string)
    requires IsHexDigest(d)
    ensures Resolve(StorageHandle(d)) == Some(d)
  {
    DigestIsNormal(d);
    assert d[63] in d;
    HandleParts(d);
  }

  lemma {:induction false} SplitParts(s: string)
    ensures var parts := Split(s);
            && (|parts| == 3 ==> s == parts[0] + "/" + parts[1] + "/" + parts[2])
            && (|parts| == 2 ==> s == parts[0] + "/" + parts[1])
            && (|parts| == 1 ==> s == parts[0])
  {
    if s != "" {
      SplitParts(s[1..]);
      assert s == [s[0]] + s[1..];
    }
  }

  /**
   Every handle accepted is the one built for the file name it leads to. That name is a digest's own
   exactly when it is written in lower case without white space; another spelling is accepted too,
   and leads to a name no blob is stored under.
   */
  lemma HandlesNameOneFile(handle: string)
    requires Resolve(handle).Some?
    ensures var name := Resolve(handle).value;
            && Trim(handle) == StorageHandle(name)
            && IsHexDigest(ToLower(Trim(name)))
            && (IsHexDigest(name) <==> Normal(name) == name)
  {
    SplitParts(Trim(handle));
    var name := Resolve(handle).value;
    if IsHexDigest(name) {
      DigestIsNormal(name);
    }
  }

  lemma NoSlashInDigits(name: string)
    requires IsHexDigest(ToLower(Trim(name)))
    ensures '/' !in name && |name| >= 64
  {
    var front, back := TrimExactly(name);
    var t := Trim(name);
    forall i | 0 <= i < |t|
      ensures t[i] != '/'
    {
      assert ToLower(t)[i] in ToLower(t);
    }
  }

  /** And every handle so built is accepted, if it does not end in white space. */
  lemma BuiltHandleAccepted(name: string)
    requires IsHexDigest(ToLower(Trim(name))) && !IsSpace(name[|name| - 1])
    ensures Resolve(StorageHandle(name)) == Some(name)
  {
    NoSlashInDigits(name);
    HandleParts(name);
  }

  /** Sixty-four capital letters: the capital spelling of a digest, which no blob is stored under. */
  const CAPITALS: string := seq(64, _ => 'A')

  lemma CapitalHandleAccepted()
    ensures Resolve(StorageHandle(CAPITALS)) == Some(CAPITALS)
    ensures !IsHexDigest(CAPITALS) && IsHexDigest(Normal(CAPITALS))
  {
    assert CAPITALS[0] in CAPITALS;
    assert Trim(CAPITALS) == CAPITALS;
    HandleParts(CAPITALS);
  }

  // ---- Put and Remove, called one at a time ----

  const BUFFER := 32768

  datatype Retention = Indefinite | Cache | External

  datatype Error = InvalidExpected | InvalidRetention | StreamFailed | DigestMismatch | VerifyFailed | InvalidHandle

  datatype Blob = Blob(digest: string, handle: string, size: nat, retention: Retention)

  datatype PutResult = PutResult(blob: Blob, created: bool)

  class FileStore {
    const hash: Hash
    var content: map<nat, Bytes>
    var staging: set<nat>
    var installed: map<string, nat>
    var nextInode: nat

    ghost predicate Valid()
      reads this
    {
      && (forall b :: IsHexDigest(hash(b)))
      && (forall d | d in installed :: installed[d] in content && hash(content[installed[d]]) == d)
      && (forall i | i in content :: i < nextInode)
      && staging <= content.Keys
    }

    constructor (hash: Hash)
      requires forall b :: IsHexDigest(hash(b))
      ensures Valid() && this.hash == hash && Blobs() == map[] && staging == {}
    {
      this.hash := hash;
      content, staging, installed, nextInode := map[], {}, map[], 0;
    }

    /** The visible blobs: the bytes under each final name. */
    ghost function Blobs(): map<string, Bytes>
      requires Valid()
      reads this
    {
      map d | d in installed :: content[installed[d]]
    }

    /** Streams the source into a new staging file, a buffer at a time. */
    method Stage(source: Bytes, failsAt: Option<nat>) returns (inode: nat, ok: bool)
      requires Valid()
      modifies this`content, this`staging, this`nextInode
      ensures Valid() && Blobs() == old(Blobs()) && staging == old(staging) + {inode} && inode !in old(staging)
      ensures inode in content && ok == failsAt.None?
      ensures ok ==> content[inode] == source
    {
      inode := nextInode;
      nextInode := nextInode + 1;
      content := content[inode := []];
      staging := staging + {inode};
      var copied := 0;
      while copied < |source|
        invariant copied <= |source| && content == old(content)[inode := source[..copied]]
        modifies this`content
      {
        if failsAt.Some? && failsAt.value <= copied {
          return inode, false;
        }
        var n := if |source| - copied < BUFFER then |source| - copied else BUFFER;
        copied := copied + n;
        content := content[inode := source[..copied]];
      }
      assert source[..copied] == source;
      return inode, failsAt.None?;
    }

    /** Gives a staged inode its final name, or verifies what has the name. */
    method Install(name: string, inode: nat, source: Bytes) returns (created: bool, intact: bool)
      requires Valid() && inode in content && content[inode] == source && name == hash(source)
      modifies this`installed
      ensures Valid() && created == (name !in old(Blobs()))
      ensures intact == (created || |old(Blobs())[name]| == |source|)
      ensures Blobs() == if created then old(Blobs())[name := source] else old(Blobs())
    {
      if name !in installed {
        installed := installed[name := inode];
        return true, true;
      }
      var existing := content[installed[name]];
      return false, |existing| == |source| && hash(existing) == name;
    }

    /**
     Stores the source under its digest. The first of five checks that fails gives the error: a malformed
     expected digest, an invalid retention, a reader that fails, bytes of another digest than expected,
     and a name taken by bytes of another size. When none does, the blob described is the source's; bytes
     of its digest and size are visible there, and are the source unless what was there collides with it.
     Nothing else visible changes, on failure nothing at all, and no staging file is left behind.
     */
    method Put(expected: ContentDigest, source: Bytes, retention: Retention, failsAt: Option<nat>)
      returns (r: Result<PutResult, Error>)
      requires Valid()
      modifies this
      ensures Valid() && staging == old(staging)
      ensures r == Err(InvalidExpected) <==> Given(expected) && expected.Normalized().None?
      ensures r == Err(InvalidRetention)
         <==> (Given(expected) ==> expected.Normalized().Some?) && retention == External
      ensures r == Err(StreamFailed)
         <==> (Given(expected) ==> expected.Normalized().Some?) && retention != External && failsAt.Some?
      ensures r == Err(DigestMismatch)
         <==> && Given(expected) && expected.Normalized().Some? && expected.Normalized() != Some(hash(source))
              && retention != External && failsAt.None?
      ensures r == Err(VerifyFailed)
         <==> && (Given(expected) ==> expected.Normalized() == Some(hash(source)))
              && retention != External && failsAt.None?
              && hash(source) in old(Blobs()) && |old(Blobs())[hash(source)]| != |source|
      ensures r.Ok?
         <==> && (Given(expected) ==> expected.Normalized() == Some(hash(source)))
              && retention != External && failsAt.None?
              && (hash(source) in old(Blobs()) ==> |old(Blobs())[hash(source)]| == |source|)
      ensures r.Ok? ==> r.value.created == (hash(source) !in old(Blobs()))
      ensures r.Ok? ==>
                var b := r.value.blob;
                && b.digest == hash(source) && b.size == |source| && b.retention == retention
                && b.handle == "sha256/" + hash(source)[..2] + "/" + hash(source)
      ensures Blobs() == if r.Ok? && r.value.created then old(Blobs())[hash(source) := source] else old(Blobs())
      ensures r.Ok? ==>
                && hash(source) in Blobs() && |Blobs()[hash(source)]| == |source|
                && (Blobs()[hash(source)] == source
                    <==> r.value.created || !Collide(hash, old(Blobs())[hash(source)], source))
    {
      if !expected.Empty() && expected.Normalized().None? {
        return Err(InvalidExpected);
      }
      if retention != Indefinite && retention != Cache {
        return Err(InvalidRetention);
      }
      var inode, ok := Stage(source, failsAt);
      if !ok {
        staging := staging - {inode};
        return Err(StreamFailed);
      }
      var actual := hash(content[inode]);
      if !expected.Empty() && expected.Normalized() != Some(actual) {
        staging := staging - {inode};
        return Err(DigestMismatch);
      }
      OwnHandleResolves(actual);
      var name := Resolve(StorageHandle(actual)).value;
      var created, intact := Install(name, inode, source);
      staging := staging - {inode};
      if !intact {
        return Err(VerifyFailed);
      }
      return Ok(PutResult(Blob(actual, StorageHandle(actual), |source|, retention), created));
    }

    /** Removes the file a handle leads to, if it is there. */
    method RemoveBlob(handle: string) returns (r: Option<Error>)
      requires Valid()
      modifies this`installed
      ensures Valid() && (r.None? <==> Resolve(handle).Some?)
      ensures Blobs() == if r.None? then old(Blobs()) - {Resolve(handle).value} else old(Blobs())
    {
      var name := Resolve(handle);
      if name.None? {
        return Some(InvalidHandle);
      }
      if name.value in installed {
        installed := installed - {name.value};
      }
      return None;
    }
  }
}
