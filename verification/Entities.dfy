/**
 Replacing the entities one ingest stage owns (internal/repository/entities.go).

 A fragment's links to entities are rows keyed by fragment, entity and source; an entity's ID is an
 injective digest of its kind, a newline and its value, so the text it digests stands for it here. A
 transaction works on a copy of the tables; a fault at any of its statements leaves them as they were.
 */
module Entities {
  import opened Wrappers

  /** An entity as a stage observes it. Confidences are reals and times integers. */
  datatype Entity = Entity(kind: string, value: string, source: string, confidence: real)

  datatype EntityRow = EntityRow(kind: string, value: string, created: int)

  datatype LinkKey = LinkKey(fragment: string, entity: string, source: string)

  datatype Link = Link(confidence: real, created: int)

  datatype Tables = Tables(entities: map<string, EntityRow>, links: map<LinkKey, Link>)

  datatype Error = NoKinds | NoSources | OutsideScope(kind: string) | StoreFault

  function EntityId(kind: string, value: string): string {
    kind + "\n" + value
  }

  // ---- The transaction ----

  /** Whether clearing these kinds and sources (every source when there are none) removes a link. */
  predicate Cleared(t: Tables, fragment: string, kinds: seq<string>, sources: seq<string>, key: LinkKey) {
    && key.fragment == fragment
    && key.entity in t.entities && t.entities[key.entity].kind in kinds
    && (sources == [] || key.source in sources)
  }

  function Clear(t: Tables, fragment: string, kinds: seq<string>, sources: seq<string>): Tables {
    t.(links := map key | key in t.links && !Cleared(t, fragment, kinds, sources, key) :: t.links[key])
  }

  function UpsertOne(t: Tables, fragment: string, e: Entity, now: int): Tables {
    var id := EntityId(e.kind, e.value);
    var row := if id in t.entities then t.entities[id].(kind := e.kind, value := e.value)
               else EntityRow(e.kind, e.value, now);
    Tables(t.entities[id := row], t.links[LinkKey(fragment, id, e.source) := Link(e.confidence, now)])
  }

  function Upsert(t: Tables, fragment: string, es: seq<Entity>, now: int): Tables {
    if es == [] then t else UpsertOne(Upsert(t, fragment, es[..|es| - 1], now), fragment, es[|es| - 1], now)
  }

  function Replace(t: Tables, fragment: string, es: seq<Entity>, kinds: seq<string>, sources: seq<string>, now: int)
    : Tables
  {
    Upsert(Clear(t, fragment, kinds, sources), fragment, es, now)
  }

  predicate KindsCovered(es: seq<Entity>, kinds: seq<string>) {
    forall e | e in es :: e.kind in kinds
  }

  /** One of the statements of the transaction fails: begin, clear, two for each entity, commit. */
  predicate Fails(fault: Option<nat>, es: seq<Entity>) {
    fault.Some? && fault.value < 3 + 2 * |es|
  }

  class EntityStore {
    var tables: Tables

    /** The upserts, or nothing when one of their statements fails. */
    method UpsertAll(start: Tables, fragment: string, es: seq<Entity>, now: int, fault: Option<nat>)
      returns (r: Option<Tables>)
      ensures r == if fault.Some? && 2 <= fault.value < 2 + 2 * |es| then None
                   else Some(Upsert(start, fragment, es, now))
    {
      var t := start;
      var i := 0;
      while i < |es|
        invariant i <= |es| && t == Upsert(start, fragment, es[..i], now)
        invariant !(fault.Some? && 2 <= fault.value < 2 + 2 * i)
      {
        assert es[..i + 1][..i] == es[..i];
        var e := es[i];
        var id := EntityId(e.kind, e.value);
        if fault == Some(2 + 2 * i) {
          return None;
        }
        var row := if id in t.entities then t.entities[id].(kind := e.kind, value := e.value)
                   else EntityRow(e.kind, e.value, now);
        var entities := t.entities[id := row];
        if fault == Some(3 + 2 * i) {
          return None;
        }
        t := Tables(entities, t.links[LinkKey(fragment, id, e.source) := Link(e.confidence, now)]);
        i := i + 1;
      }
      assert es[..|es|] == es;
      return Some(t);
    }

    method ReplaceScoped(fragment: string, es: seq<Entity>, kinds: seq<string>, sources: seq<string>, now: int,
                         fault: Option<nat>)
      returns (r: Option<Error>)
      modifies this
      ensures r.None? <==> kinds != [] && KindsCovered(es, kinds) && !Fails(fault, es)
      ensures r == Some(NoKinds) <==> kinds == []
      ensures r == Some(StoreFault) <==> kinds != [] && (forall e | e in es :: e.kind in kinds)
                                         && fault.Some? && fault.value < 3 + 2 * |es|
      ensures tables == if r.None? then Replace(old(tables), fragment, es, kinds, sources, now) else old(tables)
      ensures r.Some? && r.value.OutsideScope? ==>
                r.value.kind !in kinds && exists e | e in es :: e.kind == r.value.kind
    {
      if |kinds| == 0 {
        return Some(NoKinds);
      }
      for i := 0 to |es|
        invariant forall k | 0 <= k < i :: es[k].kind in kinds
      {
        if es[i].kind !in kinds {
          assert es[i] in es;
          return Some(OutsideScope(es[i].kind));
        }
      }
      if fault == Some(0) || fault == Some(1) {
        return Some(StoreFault);
      }
      var t := Clear(tables, fragment, kinds, sources);
      var done := UpsertAll(t, fragment, es, now, fault);
      if done.None? || fault == Some(2 + 2 * |es|) {
        return Some(StoreFault);
      }
      tables := done.value;
      return None;
    }

    method ReplaceByKind(fragment: string, es: seq<Entity>, kinds: seq<string>, now: int, fault: Option<nat>)
      returns (r: Option<Error>)
      modifies this
      ensures r.None? <==> kinds != [] && KindsCovered(es, kinds) && !Fails(fault, es)
      ensures tables == if r.None? then Replace(old(tables), fragment, es, kinds, [], now) else old(tables)
    {
      r := ReplaceScoped(fragment, es, kinds, [], now, fault);
    }

    method ReplaceByKindAndSource(fragment: string, es: seq<Entity>, kinds: seq<string>, sources: seq<string>, now: int,
                                  fault: Option<nat>)
      returns (r: Option<Error>)
      modifies this
      ensures r.None? <==> sources != [] && kinds != [] && KindsCovered(es, kinds) && !Fails(fault, es)
      ensures tables == if r.None? then Replace(old(tables), fragment, es, kinds, sources, now) else old(tables)
    {
      if |sources| == 0 {
        return Some(NoSources);
      }
      r := ReplaceScoped(fragment, es, kinds, sources, now, fault);
    }
  }

  // ---- What a replacement leaves ----

  predicate OneLine(kind: string) {
    '\n' !in kind
  }

  function FirstLine(s: string): string {
    if s == "" || s[0] == '\n' then "" else [s[0]] + FirstLine(s[1..])
  }

  lemma {:induction false} FirstLineIsKind(kind: string, value: string)
    requires OneLine(kind)
    ensures FirstLine(EntityId(kind, value)) == kind
  {
    if kind == "" {
      assert EntityId(kind, value)[0] == '\n';
    } else {
      FirstLineIsKind(kind[1..], value);
      assert EntityId(kind, value)[1..] == EntityId(kind[1..], value);
      assert kind == [kind[0]] + kind[1..];
    }
  }

  /** Kinds have no newline in them, so an ID stands for one kind and one value. */
  lemma IdsAreInjective(kind: string, value: string, kind': string, value': string)
    requires OneLine(kind) && OneLine(kind') && EntityId(kind, value) == EntityId(kind', value')
    ensures kind == kind' && value == value'
  {
    FirstLineIsKind(kind, value);
    FirstLineIsKind(kind', value');
    assert EntityId(kind, value)[|kind| + 1..] == value;
    assert EntityId(kind, value')[|kind| + 1..] == value';
  }

  /** With a newline in a kind, two different entities can share an ID, and so a row. */
  lemma NewlinesCollide()
    ensures exists kind, value, kind', value' :: kind != kind' && EntityId(kind, value) == EntityId(kind', value')
  {
    assert EntityId("a", "b\nc") == "a\nb\nc" == EntityId("a\nb", "c");
  }

  /** An entity's row as the last observation that goes by its ID leaves it, if there is one. */
  ghost predicate LastNamed(es: seq<Entity>, id: string, row: EntityRow) {
    exists i | 0 <= i < |es| ::
      && EntityId(es[i].kind, es[i].value) == id && row.kind == es[i].kind && row.value == es[i].value
      && forall j | i < j < |es| :: EntityId(es[j].kind, es[j].value) != id
  }

  predicate NamedIn(es: seq<Entity>, id: string) {
    exists i | 0 <= i < |es| :: EntityId(es[i].kind, es[i].value) == id
  }

  /** What an upsert of observations makes of the row of one ID: its names are the last given, its time the first. */
  ghost predicate RowKept(before: map<string, EntityRow>, es: seq<Entity>, now: int, id: string,
                          after: map<string, EntityRow>) {
    && (id in after <==> id in before || NamedIn(es, id))
    && (id in before && !NamedIn(es, id) ==> after[id] == before[id])
    && (id in after && NamedIn(es, id) ==>
          LastNamed(es, id, after[id]) && after[id].created == (if id in before then before[id].created else now))
  }

  lemma NamedMore(es: seq<Entity>, id: string)
    requires es != []
    ensures var init, last := es[..|es| - 1], es[|es| - 1];
            NamedIn(es, id) <==> NamedIn(init, id) || EntityId(last.kind, last.value) == id
  {
    var init := es[..|es| - 1];
    assert forall i | 0 <= i < |init| :: init[i] == es[i];
  }

  lemma LastNamedMore(es: seq<Entity>, id: string, row: EntityRow)
    requires es != []
    ensures var init, last := es[..|es| - 1], es[|es| - 1];
            LastNamed(es, id, row) <== if EntityId(last.kind, last.value) == id
                                       then row.kind == last.kind && row.value == last.value
                                       else LastNamed(init, id, row)
  {
    var init, last := es[..|es| - 1], es[|es| - 1];
    if EntityId(last.kind, last.value) == id {
      assert es[|es| - 1] == last;
    } else if LastNamed(init, id, row) {
      var i :| 0 <= i < |init|
        && EntityId(init[i].kind, init[i].value) == id && row.kind == init[i].kind && row.value == init[i].value
        && forall j | i < j < |init| :: EntityId(init[j].kind, init[j].value) != id;
      assert es[i] == init[i];
      assert forall j | i < j < |init| :: es[j] == init[j];
    }
  }

  lemma {:induction false} UpsertKeepsRows(t: Tables, fragment: string, es: seq<Entity>, now: int, id: string)
    ensures RowKept(t.entities, es, now, id, Upsert(t, fragment, es, now).entities)
  {
    if es != [] {
      var init, last := es[..|es| - 1], es[|es| - 1];
      var before := Upsert(t, fragment, init, now);
      UpsertKeepsRows(t, fragment, init, now, id);
      NamedMore(es, id);
      var after := UpsertOne(before, fragment, last, now).entities;
      if id in after {
        LastNamedMore(es, id, after[id]);
      }
    }
  }

  /**
   Main result: a replacement never removes an entity; an entity keeps the time it was first seen at, and
   has the kind and value of the last observation that goes by its ID.
   */
  lemma EntitiesAreKept(t: Tables, fragment: string, es: seq<Entity>, kinds: seq<string>, sources: seq<string>,
                        now: int, id: string)
    ensures RowKept(t.entities, es, now, id, Replace(t, fragment, es, kinds, sources, now).entities)
  {
    UpsertKeepsRows(Clear(t, fragment, kinds, sources), fragment, es, now, id);
  }

  /** Every link's entity exists under its own ID. */
  ghost predicate Consistent(t: Tables) {
    && (forall id | id in t.entities :: id == EntityId(t.entities[id].kind, t.entities[id].value))
    && (forall key | key in t.links :: key.entity in t.entities)
  }

  predicate Is(kind: string, value: string, kind': string, value': string) {
    kind == kind' && value == value'
  }

  /** No other entity goes by this one's ID, in the table or among those written. */
  predicate Alone(t: Tables, kind: string, value: string) {
    var id := EntityId(kind, value);
    id in t.entities ==> Is(t.entities[id].kind, t.entities[id].value, kind, value)
  }

  predicate AloneAmong(es: seq<Entity>, kind: string, value: string) {
    forall e | e in es && EntityId(e.kind, e.value) == EntityId(kind, value) :: Is(e.kind, e.value, kind, value)
  }

  /** Kinds without a newline, as all kinds in the repository are, make every entity alone. */
  lemma OneLineIsAlone(t: Tables, es: seq<Entity>, kind: string, value: string)
    requires Consistent(t) && OneLine(kind) && forall id | id in t.entities :: OneLine(t.entities[id].kind)
    requires forall e | e in es :: OneLine(e.kind)
    ensures Alone(t, kind, value) && AloneAmong(es, kind, value)
  {
    var id := EntityId(kind, value);
    if id in t.entities {
      IdsAreInjective(t.entities[id].kind, t.entities[id].value, kind, value);
    }
    forall e | e in es && EntityId(e.kind, e.value) == id
      ensures Is(e.kind, e.value, kind, value)
    {
      IdsAreInjective(e.kind, e.value, kind, value);
    }
  }

  /** The row for an entity of a fragment from a source. */
  function Lookup(t: Tables, fragment: string, kind: string, value: string, source: string): Option<Link> {
    var key := LinkKey(fragment, EntityId(kind, value), source);
    if key in t.links then Some(t.links[key]) else None
  }

  /** The last of the observations of one entity from one source. */
  function LastOf(es: seq<Entity>, kind: string, value: string, source: string, now: int): Option<Link> {
    if es == [] then None
    else
      var e := es[|es| - 1];
      if e.kind == kind && e.value == value && e.source == source then Some(Link(e.confidence, now))
      else LastOf(es[..|es| - 1], kind, value, source, now)
  }

  predicate InScope(kinds: seq<string>, sources: seq<string>, kind: string, source: string) {
    kind in kinds && (sources == [] || source in sources)
  }

  lemma UpsertOneExactly(t: Tables, fragment: string, e: Entity, now: int, f: string, kind: string, value: string,
                         source: string)
    requires Consistent(t) && Alone(t, kind, value) && AloneAmong([e], kind, value)
    ensures Consistent(UpsertOne(t, fragment, e, now)) && Alone(UpsertOne(t, fragment, e, now), kind, value)
    ensures Lookup(UpsertOne(t, fragment, e, now), f, kind, value, source)
         == if f == fragment && Is(e.kind, e.value, kind, value) && e.source == source
            then Some(Link(e.confidence, now))
            else Lookup(t, f, kind, value, source)
  {
    assert e in [e];
  }

  lemma {:induction false} UpsertExactly(t: Tables, fragment: string, es: seq<Entity>, now: int, f: string,
                                         kind: string, value: string, source: string)
    requires Consistent(t) && Alone(t, kind, value) && AloneAmong(es, kind, value)
    ensures Consistent(Upsert(t, fragment, es, now)) && Alone(Upsert(t, fragment, es, now), kind, value)
    ensures Lookup(Upsert(t, fragment, es, now), f, kind, value, source)
         == if f == fragment && LastOf(es, kind, value, source, now).Some? then LastOf(es, kind, value, source, now)
            else Lookup(t, f, kind, value, source)
  {
    if es != [] {
      var init, e := es[..|es| - 1], es[|es| - 1];
      assert e in es && forall x | x in init :: x in es;
      UpsertExactly(t, fragment, init, now, f, kind, value, source);
      UpsertOneExactly(Upsert(t, fragment, init, now), fragment, e, now, f, kind, value, source);
    }
  }

  lemma ClearExactly(t: Tables, fragment: string, kinds: seq<string>, sources: seq<string>, f: string, kind: string,
                     value: string, source: string)
    requires Consistent(t) && Alone(t, kind, value)
    ensures Consistent(Clear(t, fragment, kinds, sources)) && Alone(Clear(t, fragment, kinds, sources), kind, value)
    ensures Lookup(Clear(t, fragment, kinds, sources), f, kind, value, source)
         == if f == fragment && InScope(kinds, sources, kind, source) then None else Lookup(t, f, kind, value, source)
  {
  }

  /**
   After a replacement, for every entity that is alone under its ID and every source, the fragment's row
   is the last one given; failing that it is gone if it was in scope, and is as before if it was not.
   Other fragments' rows are as before.
   */
  lemma ReplaceExactly(t: Tables, fragment: string, es: seq<Entity>, kinds: seq<string>, sources: seq<string>,
                       now: int, f: string, kind: string, value: string, source: string)
    requires Consistent(t) && Alone(t, kind, value) && AloneAmong(es, kind, value)
    ensures var after := Replace(t, fragment, es, kinds, sources, now);
            var last := LastOf(es, kind, value, source, now);
            && Consistent(after) && Alone(after, kind, value)
            && Lookup(after, f, kind, value, source)
            == if f != fragment then Lookup(t, f, kind, value, source)
               else if last.Some? then last
               else if InScope(kinds, sources, kind, source) then None
               else Lookup(t, f, kind, value, source)
  {
    ClearExactly(t, fragment, kinds, sources, f, kind, value, source);
    UpsertExactly(Clear(t, fragment, kinds, sources), fragment, es, now, f, kind, value, source);
  }

  // ---- By ID, whatever the kinds ----

  function LinkOf(t: Tables, key: LinkKey): Option<Link> {
    if key in t.links then Some(t.links[key]) else None
  }

  /** The last of the observations that go by an ID from a source. */
  function LastById(es: seq<Entity>, id: string, source: string, now: int): Option<Link> {
    if es == [] then None
    else
      var e := es[|es| - 1];
      if EntityId(e.kind, e.value) == id && e.source == source then Some(Link(e.confidence, now))
      else LastById(es[..|es| - 1], id, source, now)
  }

  lemma {:induction false} UpsertById(t: Tables, fragment: string, es: seq<Entity>, now: int, key: LinkKey)
    ensures var last := LastById(es, key.entity, key.source, now);
            LinkOf(Upsert(t, fragment, es, now), key)
            == if key.fragment == fragment && last.Some? then last else LinkOf(t, key)
  {
    if es != [] {
      UpsertById(t, fragment, es[..|es| - 1], now, key);
    }
  }

  /**
   Main result, with no condition on kinds: a replacement leaves under each key the last observation that
   goes by its ID, else nothing if the kind recorded for the ID was in scope, else what was there.
   */
  lemma ReplaceById(t: Tables, fragment: string, es: seq<Entity>, kinds: seq<string>, sources: seq<string>, now: int,
                    key: LinkKey)
    ensures var last := LastById(es, key.entity, key.source, now);
            LinkOf(Replace(t, fragment, es, kinds, sources, now), key)
            == if key.fragment == fragment && last.Some? then last
               else if Cleared(t, fragment, kinds, sources, key) then None
               else LinkOf(t, key)
  {
    UpsertById(Clear(t, fragment, kinds, sources), fragment, es, now, key);
  }

  // ---- Writes ----

  datatype Scope = Scope(kinds: seq<string>, sources: seq<string>)

  datatype Write = Write(owner: string, fragment: string, es: seq<Entity>, now: int)

  predicate Covers(s: Scope, kind: string, source: string) {
    InScope(s.kinds, s.sources, kind, source)
  }

  function WriteOne(s: Scope, t: Tables, w: Write): Tables {
    Replace(t, w.fragment, w.es, s.kinds, s.sources, w.now)
  }

  function Given(w: Write, kind: string, value: string, source: string): Option<Link> {
    LastOf(w.es, kind, value, source, w.now)
  }

  /** Whether a write has anything to do with a row: it clears it, or it gives it. */
  predicate Touches(s: Scope, w: Write, f: string, kind: string, value: string, source: string) {
    f == w.fragment && (Covers(s, kind, source) || Given(w, kind, value, source).Some?)
  }

  /** A write makes the rows it touches what it gives, and leaves every other row alone. */
  lemma WriteExactly(s: Scope, t: Tables, w: Write, f: string, kind: string, value: string, source: string)
    requires Consistent(t) && Alone(t, kind, value) && AloneAmong(w.es, kind, value)
    ensures Consistent(WriteOne(s, t, w)) && Alone(WriteOne(s, t, w), kind, value)
    ensures Lookup(WriteOne(s, t, w), f, kind, value, source)
         == if Touches(s, w, f, kind, value, source) then Given(w, kind, value, source)
            else Lookup(t, f, kind, value, source)
  {
    ReplaceExactly(t, w.fragment, w.es, s.kinds, s.sources, w.now, f, kind, value, source);
  }

  /** Two writes commute on every row that they do not both touch. */
  lemma WritesCommute(r: Scope, s: Scope, t: Tables, a: Write, b: Write, f: string, kind: string, value: string,
                      source: string)
    requires Consistent(t) && Alone(t, kind, value) && AloneAmong(a.es, kind, value) && AloneAmong(b.es, kind, value)
    requires !(Touches(r, a, f, kind, value, source) && Touches(s, b, f, kind, value, source))
    ensures Lookup(WriteOne(s, WriteOne(r, t, a), b), f, kind, value, source)
         == Lookup(WriteOne(r, WriteOne(s, t, b), a), f, kind, value, source)
  {
    WriteExactly(r, t, a, f, kind, value, source);
    WriteExactly(s, t, b, f, kind, value, source);
    WriteExactly(s, WriteOne(r, t, a), b, f, kind, value, source);
    WriteExactly(r, WriteOne(s, t, b), a, f, kind, value, source);
  }

  /** A write repeated changes nothing but the time on the rows it gives. */
  lemma RepeatedWrite(s: Scope, t: Tables, w: Write, later: int, f: string, kind: string, value: string, source: string)
    requires Consistent(t) && Alone(t, kind, value) && AloneAmong(w.es, kind, value)
    ensures var once := WriteOne(s, t, w);
            var before := Lookup(once, f, kind, value, source);
            var after := Lookup(WriteOne(s, once, w.(now := later)), f, kind, value, source);
            && (before.None? <==> after.None?)
            && (before.Some? ==> after.value.confidence == before.value.confidence)
            && (later == w.now || f != w.fragment || Given(w, kind, value, source).None? ==> after == before)
  {
    WriteExactly(s, t, w, f, kind, value, source);
    WriteExactly(s, WriteOne(s, t, w), w.(now := later), f, kind, value, source);
    LastOfTimes(w.es, kind, value, source, w.now, later);
  }

  lemma {:induction false} LastOfTimes(es: seq<Entity>, kind: string, value: string, source: string, now: int,
                                       later: int)
    ensures var a, b := LastOf(es, kind, value, source, now), LastOf(es, kind, value, source, later);
            (a.None? <==> b.None?) && (a.Some? ==> a.value.confidence == b.value.confidence)
  {
    if es != [] {
      LastOfTimes(es[..|es| - 1], kind, value, source, now, later);
    }
  }

  // ---- Owners ----

  predicate Owned(scopes: map<string, Scope>, ws: seq<Write>) {
    forall w | w in ws :: w.owner in scopes
  }

  function WriteAll(scopes: map<string, Scope>, t: Tables, ws: seq<Write>): Tables
    requires Owned(scopes, ws)
  {
    if ws == [] then t
    else
      var w := ws[|ws| - 1];
      WriteOne(scopes[w.owner], WriteAll(scopes, t, ws[..|ws| - 1]), w)
  }

  /** The last write that has anything to do with a row. */
  function LastTouch(scopes: map<string, Scope>, ws: seq<Write>, f: string, kind: string, value: string,
                     source: string): Option<Write>
    requires Owned(scopes, ws)
  {
    if ws == [] then None
    else
      var w := ws[|ws| - 1];
      if Touches(scopes[w.owner], w, f, kind, value, source) then Some(w)
      else LastTouch(scopes, ws[..|ws| - 1], f, kind, value, source)
  }

  /**
   Main result: after any writes by any owners, each row is what the last write that touches it gives,
   and is as it was when none does.
   */
  lemma {:induction false} LastTouchStands(scopes: map<string, Scope>, t: Tables, ws: seq<Write>, f: string,
                                           kind: string, value: string, source: string)
    requires Consistent(t) && Alone(t, kind, value) && Owned(scopes, ws)
    requires forall w | w in ws :: AloneAmong(w.es, kind, value)
    ensures var after, last := WriteAll(scopes, t, ws), LastTouch(scopes, ws, f, kind, value, source);
            && Consistent(after) && Alone(after, kind, value)
            && Lookup(after, f, kind, value, source)
            == if last.None? then Lookup(t, f, kind, value, source) else Given(last.value, kind, value, source)
  {
    if ws != [] {
      var init, w := ws[..|ws| - 1], ws[|ws| - 1];
      assert w in ws && forall x | x in init :: x in ws;
      LastTouchStands(scopes, t, init, f, kind, value, source);
      WriteExactly(scopes[w.owner], WriteAll(scopes, t, init), w, f, kind, value, source);
    }
  }

  /** The code checks only kinds; that the sources are the owner's too is up to the caller. */
  predicate Within(s: Scope, es: seq<Entity>) {
    forall e | e in es :: Covers(s, e.kind, e.source)
  }

  ghost predicate Disjoint(scopes: map<string, Scope>) {
    forall a, b, kind, source | a in scopes && b in scopes
      && Covers(scopes[a], kind, source) && Covers(scopes[b], kind, source) :: a == b
  }

  function LastWrite(ws: seq<Write>, owner: string, fragment: string): Option<Write> {
    if ws == [] then None
    else if ws[|ws| - 1].owner == owner && ws[|ws| - 1].fragment == fragment then Some(ws[|ws| - 1])
    else LastWrite(ws[..|ws| - 1], owner, fragment)
  }

  lemma {:induction false} LastOfWithin(s: Scope, es: seq<Entity>, kind: string, value: string, source: string,
                                        now: int)
    requires Within(s, es) && !Covers(s, kind, source)
    ensures LastOf(es, kind, value, source, now).None?
  {
    if es != [] {
      assert es[|es| - 1] in es;
      LastOfWithin(s, es[..|es| - 1], kind, value, source, now);
    }
  }

  /**
   Owners whose scopes are disjoint, and who keep to them, do not disturb each other: a row in an owner's
   scope is touched by that owner's writes to the fragment and by no other.
   */
  lemma {:induction false} OwnersKeepApart(scopes: map<string, Scope>, ws: seq<Write>, owner: string, f: string,
                                           kind: string, value: string, source: string)
    requires Disjoint(scopes) && Owned(scopes, ws) && forall w | w in ws :: Within(scopes[w.owner], w.es)
    requires owner in scopes && Covers(scopes[owner], kind, source)
    ensures LastTouch(scopes, ws, f, kind, value, source) == LastWrite(ws, owner, f)
  {
    if ws != [] {
      var init, w := ws[..|ws| - 1], ws[|ws| - 1];
      assert w in ws && forall x | x in init :: x in ws;
      OwnersKeepApart(scopes, init, owner, f, kind, value, source);
      if w.owner != owner {
        LastOfWithin(scopes[w.owner], w.es, kind, value, source, w.now);
      }
    }
  }

  /** So such a row is what its owner last wrote for the fragment. */
  lemma LastWriteStands(scopes: map<string, Scope>, t: Tables, ws: seq<Write>, owner: string, f: string,
                        kind: string, value: string, source: string)
    requires Consistent(t) && Alone(t, kind, value) && forall w | w in ws :: AloneAmong(w.es, kind, value)
    requires Disjoint(scopes) && Owned(scopes, ws) && forall w | w in ws :: Within(scopes[w.owner], w.es)
    requires owner in scopes && Covers(scopes[owner], kind, source)
    ensures var after, last := WriteAll(scopes, t, ws), LastWrite(ws, owner, f);
            Lookup(after, f, kind, value, source)
            == if last.None? then Lookup(t, f, kind, value, source) else Given(last.value, kind, value, source)
  {
    OwnersKeepApart(scopes, ws, owner, f, kind, value, source);
    LastTouchStands(scopes, t, ws, f, kind, value, source);
  }

  /** With a newline in a kind the result can fail: clearing one kind takes away another entity's row. */
  lemma NewlineClears()
    ensures var t := Tables(map["a\nb\nc" := EntityRow("a", "b\nc", 0)],
                            map[LinkKey("f", "a\nb\nc", "s") := Link(1.0, 0)]);
            && Consistent(t) && !Alone(t, "a\nb", "c")
            && Lookup(t, "f", "a\nb", "c", "s").Some?
            && Lookup(Replace(t, "f", [], ["a"], [], 1), "f", "a\nb", "c", "s").None?
  {
    assert EntityId("a", "b\nc") == "a\nb\nc" == EntityId("a\nb", "c");
  }

  // ---- The indexer's call ----

  const INDEX_KINDS := ["workspace", "repo", "model", "tool"]
  const INDEX_SOURCES := ["metadata.cwd", "metadata.source_file", "content.pattern", "content.keyword"]

  /** The kinds and sources of what the indexer extracts from a fragment. */
  predicate Extracted(e: Entity) {
    (e.kind, e.source) in {("workspace", "metadata.cwd"), ("repo", "metadata.source_file"),
                           ("model", "content.pattern"), ("tool", "content.keyword")}
  }

  /** So its replacements keep to its scope. */
  lemma IndexerKeepsToScope(es: seq<Entity>)
    requires forall e | e in es :: Extracted(e)
    ensures Within(Scope(INDEX_KINDS, INDEX_SOURCES), es) && KindsCovered(es, INDEX_KINDS)
    ensures forall e | e in es :: OneLine(e.kind)
  {
    forall e | e in es
      ensures Covers(Scope(INDEX_KINDS, INDEX_SOURCES), e.kind, e.source) && OneLine(e.kind)
    {
      assert INDEX_KINDS[0] == "workspace" && INDEX_KINDS[1] == "repo";
      assert INDEX_KINDS[2] == "model" && INDEX_KINDS[3] == "tool";
      assert INDEX_SOURCES[0] == "metadata.cwd" && INDEX_SOURCES[1] == "metadata.source_file";
      assert INDEX_SOURCES[2] == "content.pattern" && INDEX_SOURCES[3] == "content.keyword";
    }
  }
}
