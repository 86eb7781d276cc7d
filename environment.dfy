/**
 * Flushing an environment's cache into the database: every scheduled
 * placeholder is inserted, foreign-key targets first, and promoted to its
 * database id; then every record with dirty fields gets one UPDATE of
 * exactly those fields.
 */
module Environments {
  import opened CacheTypes
  import opened Store
  import opened CacheStore
  import opened RecordCollections

  /** A statement sent to the database, with what it returned. */
  datatype Statement =
    | Insert(model: ModelName, values: FieldMap, id: int)
    | Update(ref: CacheRef, values: FieldMap, rows: int)

  /**
   * The database as the flush sees it: it records the statements it is sent,
   * hands out fresh positive ids on insert, and reports one affected row for
   * an update of a stored record and none otherwise.
   */
  class Database {
    var log: seq<Statement>
    var nextId: int
    var rows: set<CacheRef>

    ghost predicate Ok()
      reads this`nextId, this`rows
    {
      nextId > 0 && forall r :: r in rows ==> r.id < nextId
    }

    constructor ()
      ensures Ok() && log == [] && rows == {}
    {
      log := [];
      nextId := 1;
      rows := {};
    }

    /** An INSERT of `values` into `model`'s table; returns the new record's id. */
    method Insert(model: ModelName, values: FieldMap) returns (id: int)
      requires Ok()
      modifies this
      ensures Ok()
      ensures id > 0 && CacheRef(model, id) !in old(rows)
      ensures rows == old(rows) + {CacheRef(model, id)}
      ensures log == old(log) + [Statement.Insert(model, values, id)]
    {
      id := nextId;
      nextId := nextId + 1;
      rows := rows + {CacheRef(model, id)};
      log := log + [Statement.Insert(model, values, id)];
    }

    /** An UPDATE of `values` on record `ref`; returns the number of rows affected. */
    method Update(ref: CacheRef, values: FieldMap) returns (n: int)
      modifies this`log
      ensures n == (if ref in rows then 1 else 0)
      ensures log == old(log) + [Statement.Update(ref, values, n)]
    {
      n := if ref in rows then 1 else 0;
      log := log + [Statement.Update(ref, values, n)];
    }
  }

  // ---------------------------------------------------------------------------
  // The part of the cache state the inserts depend on
  // ---------------------------------------------------------------------------

  /** Record pointers, field maps and scheduled inserts at one moment. */
  datatype Snap = Snap(data: Pointers, slots: Arena, sched: map<CacheRef, CacheRef>)

  function Snapshot(c: Cache): (s: Snap)
    reads c
    ensures s.data == c.data && s.slots == c.slots && s.sched == c.scheduledInsert
  {
    Snap(c.data, c.slots, c.scheduledInsert)
  }

  /** `q` is a placeholder that has no database id yet (isNotInDb). */
  predicate Pending(s: Snap, q: CacheRef) {
    PendingIn(s.sched, q)
  }

  /** No two pending records share a field map. */
  ghost predicate Separated(s: Snap) {
    forall q1, q2 :: q1 in s.data && q2 in s.data && q1 != q2 && Pending(s, q1) && Pending(s, q2) ==>
      s.data[q1] != s.data[q2]
  }

  /** The record a foreign-key value points to. */
  function Target(fi: Field, v: Value): CacheRef
    requires v.Int?
  {
    CacheRef(fi.relatedModel, v.n)
  }

  function RankOf(rank: map<CacheRef, nat>, q: CacheRef): nat {
    if q in rank then rank[q] else 0
  }

  /**
   * What inserting `q` relies on: every field of its map is registered (the
   * registry panics otherwise), every foreign key holds an id or nil (the type
   * assertion panics otherwise), and every pending foreign-key target ranks
   * below `q`, so the dependencies are acyclic.
   */
  ghost predicate Orderly(schema: Schema, s: Snap, rank: map<CacheRef, nat>, q: CacheRef)
    requires Indexed(s.data, s.slots)
  {
    var e := Entry(s.data, s.slots, q);
    && q.model in schema
    && forall f :: f in e ==>
         && f in schema[q.model]
         && (IsFkRelation(schema[q.model][f].kind) ==>
               (e[f].Nil? || e[f].Int?) &&
               (e[f].Int? && Pending(s, Target(schema[q.model][f], e[f])) ==>
                  RankOf(rank, Target(schema[q.model][f], e[f])) < RankOf(rank, q)))
  }

  /** Every pending record of rank below `top` is orderly. */
  ghost predicate OrderedBelow(schema: Schema, s: Snap, rank: map<CacheRef, nat>, top: int)
    requires Indexed(s.data, s.slots)
  {
    forall q :: q in s.data && Pending(s, q) && RankOf(rank, q) < top ==> Orderly(schema, s, rank, q)
  }

  /** Every pending record is orderly. */
  ghost predicate Ordered(schema: Schema, s: Snap, rank: map<CacheRef, nat>)
    requires Indexed(s.data, s.slots)
  {
    forall q :: q in s.data && Pending(s, q) ==> Orderly(schema, s, rank, q)
  }

  /**
   * From `s` to `s'`: no record leaves the cache, a record in the database
   * stays there with the same assigned reference, and every record still
   * pending afterwards (but those in `except`) was pending before, with the
   * same field map.
   */
  ghost predicate Kept(s: Snap, s': Snap, except: set<CacheRef>)
    requires Indexed(s.data, s.slots) && Indexed(s'.data, s'.slots)
  {
    && s.data.Keys <= s'.data.Keys
    && Settled(s.sched, s'.sched)
    && (forall q :: q in s'.data && Pending(s', q) && q !in except ==>
          q in s.data && s'.data[q] == s.data[q] && Entry(s'.data, s'.slots, q) == Entry(s.data, s.slots, q))
  }

  lemma KeptTrans(s1: Snap, s2: Snap, s3: Snap, a: set<CacheRef>, b: set<CacheRef>)
    requires Indexed(s1.data, s1.slots) && Indexed(s2.data, s2.slots) && Indexed(s3.data, s3.slots)
    requires Kept(s1, s2, a) && Kept(s2, s3, b)
    ensures Kept(s1, s3, a + b)
  {
    forall q | q in s3.data && Pending(s3, q) && q !in a + b
      ensures q in s1.data && s3.data[q] == s1.data[q] && Entry(s3.data, s3.slots, q) == Entry(s1.data, s1.slots, q)
    {
      assert Pending(s2, q);
    }
  }

  /** Orderliness of the records outside `except` survives a kept step. */
  lemma KeptOrderly(schema: Schema, s: Snap, s': Snap, rank: map<CacheRef, nat>, except: set<CacheRef>, q: CacheRef)
    requires Indexed(s.data, s.slots) && Indexed(s'.data, s'.slots)
    requires Kept(s, s', except)
    requires q in s'.data && Pending(s', q) && q !in except
    requires Orderly(schema, s, rank, q)
    ensures Orderly(schema, s', rank, q)
  {
    var e := Entry(s.data, s.slots, q);
    assert Entry(s'.data, s'.slots, q) == e;
    forall f | f in e && IsFkRelation(schema[q.model][f].kind) && e[f].Int? &&
        Pending(s', Target(schema[q.model][f], e[f]))
      ensures Pending(s, Target(schema[q.model][f], e[f]))
    {
    }
  }

  lemma KeptOrderedBelow(schema: Schema, s: Snap, s': Snap, rank: map<CacheRef, nat>, except: set<CacheRef>, top: int)
    requires Indexed(s.data, s.slots) && Indexed(s'.data, s'.slots)
    requires Kept(s, s', except) && OrderedBelow(schema, s, rank, top)
    requires forall q :: q in except ==> RankOf(rank, q) >= top
    ensures OrderedBelow(schema, s', rank, top)
  {
    forall q | q in s'.data && Pending(s', q) && RankOf(rank, q) < top
      ensures Orderly(schema, s', rank, q)
    {
      assert Pending(s, q);
      KeptOrderly(schema, s, s', rank, except, q);
    }
  }

  lemma KeptOrdered(schema: Schema, s: Snap, s': Snap, rank: map<CacheRef, nat>)
    requires Indexed(s.data, s.slots) && Indexed(s'.data, s'.slots)
    requires Kept(s, s', {}) && Ordered(schema, s, rank)
    ensures Ordered(schema, s', rank)
  {
    forall q | q in s'.data && Pending(s', q)
      ensures Orderly(schema, s', rank, q)
    {
      assert Pending(s, q);
      KeptOrderly(schema, s, s', rank, {}, q);
    }
  }

  /** A write into the map of a pending record is seen by no other pending record. */
  lemma AssignKept(s: Snap, ref: CacheRef, name: string, v: Value)
    requires Indexed(s.data, s.slots) && Separated(s)
    requires ref in s.data && Pending(s, ref)
    ensures var (d, sl) := Assign(s.data, s.slots, ref, name, v);
      d == s.data && Indexed(d, sl) && Kept(s, Snap(d, sl, s.sched), {ref}) &&
      Entry(d, sl, ref) == Entry(s.data, s.slots, ref)[name := v]
  {
    var (d, sl) := Assign(s.data, s.slots, ref, name, v);
    forall q | q in d && Pending(s, q) && q != ref
      ensures Entry(d, sl, q) == Entry(s.data, s.slots, q)
    {
      assert s.data[q] != s.data[ref];
    }
  }

  /** Every one of the refs pending in `sched` but not in `sched'` stays settled: never pending again, same assigned reference. */
  ghost predicate Settled(sched: map<CacheRef, CacheRef>, sched': map<CacheRef, CacheRef>) {
    forall q :: !PendingIn(sched, q) ==> !PendingIn(sched', q) && InsertedIn(sched', q) == InsertedIn(sched, q)
  }

  /** An INSERT into `model` that returned `id` is among log[from..upto]. */
  ghost predicate Issued(log: seq<Statement>, from: int, upto: int, model: ModelName, id: int) {
    exists i :: from <= i < upto && 0 <= i < |log| && log[i].Insert? && log[i].model == model && log[i].id == id
  }

  /**
   * Every record that was pending in `sched0` and is not in `sched` got its
   * INSERT in log[from..upto], and the id that INSERT returned is the id of
   * the reference now assigned to it.
   */
  ghost predicate Promotions(sched0: map<CacheRef, CacheRef>, sched: map<CacheRef, CacheRef>,
                             log: seq<Statement>, from: int, upto: int) {
    forall q :: PendingIn(sched0, q) && !PendingIn(sched, q) ==> Issued(log, from, upto, q.model, InsertedIn(sched, q).id)
  }

  /** `log'` is `log` with statements appended. */
  ghost predicate Extends(log: seq<Statement>, log': seq<Statement>) {
    |log| <= |log'| && log'[..|log|] == log
  }

  lemma IssuedGrows(log: seq<Statement>, log': seq<Statement>, from: int, upto: int, upto': int, model: ModelName, id: int)
    requires Issued(log, from, upto, model, id) && Extends(log, log') && upto <= upto'
    ensures Issued(log', from, upto', model, id)
  {
    var i :| from <= i < upto && 0 <= i < |log| && log[i].Insert? && log[i].model == model && log[i].id == id;
    assert log'[i] == log'[..|log|][i];
  }

  /** Promotions of two consecutive stretches add up. */
  lemma PromotionsTrans(s0: map<CacheRef, CacheRef>, s1: map<CacheRef, CacheRef>, s2: map<CacheRef, CacheRef>,
                        log1: seq<Statement>, log2: seq<Statement>, from: int)
    requires Promotions(s0, s1, log1, from, |log1|) && Promotions(s1, s2, log2, |log1|, |log2|)
    requires Settled(s1, s2) && Extends(log1, log2) && from <= |log1|
    ensures Promotions(s0, s2, log2, from, |log2|)
  {
    forall q | PendingIn(s0, q) && !PendingIn(s2, q)
      ensures Issued(log2, from, |log2|, q.model, InsertedIn(s2, q).id)
    {
      if PendingIn(s1, q) {
        var i :| |log1| <= i < |log2| && 0 <= i < |log2| && log2[i].Insert? && log2[i].model == q.model && log2[i].id == InsertedIn(s2, q).id;
      } else {
        IssuedGrows(log1, log2, from, |log1|, |log2|, q.model, InsertedIn(s1, q).id);
      }
    }
  }

  /** The value insertData leaves in a field: a foreign key becomes the id assigned to its target. */
  function FkRewrite(fi: Field, v: Value, sched: map<CacheRef, CacheRef>): Value {
    if IsFkRelation(fi.kind) && v.Int? then Int(InsertedIn(sched, Target(fi, v)).id) else v
  }

  /**
   * The two cases of the rewrite for a foreign key whose target is in the
   * database: a target that was a placeholder gets the id the database
   * assigned it; a target with its own positive id that was never scheduled
   * reads the zero reference, so the key becomes 0.
   */
  lemma FkRewriteCases(fi: Field, n: int, sched: map<CacheRef, CacheRef>)
    requires IsFkRelation(fi.kind) && !PendingIn(sched, CacheRef(fi.relatedModel, n))
    ensures n <= 0 ==> FkRewrite(fi, Int(n), sched).n > 0
    ensures CacheRef(fi.relatedModel, n) !in sched ==> n > 0 && FkRewrite(fi, Int(n), sched) == Int(0)
  {
  }

  /** Field value `v` has been dealt with: `now` is its rewrite, and a foreign-key target is no longer pending. */
  ghost predicate ResolvedIn(fi: Field, v: Value, now: Value, sched: map<CacheRef, CacheRef>) {
    && now == FkRewrite(fi, v, sched)
    && (IsFkRelation(fi.kind) && v.Int? ==> !PendingIn(sched, Target(fi, v)))
  }

  lemma ResolvedStable(fi: Field, v: Value, now: Value, sched: map<CacheRef, CacheRef>, sched': map<CacheRef, CacheRef>)
    requires ResolvedIn(fi, v, now, sched) && Settled(sched, sched')
    ensures ResolvedIn(fi, v, now, sched')
  {
    if IsFkRelation(fi.kind) && v.Int? {
      assert !PendingIn(sched, Target(fi, v));
    }
  }

  lemma ExtendsTrans(a: seq<Statement>, b: seq<Statement>, c: seq<Statement>)
    requires Extends(a, b) && Extends(b, c)
    ensures Extends(a, c)
  {
    assert c[..|a|] == c[..|b|][..|a|];
  }

  /** getData on a record of a registered model keeps the invariants of pending records. */
  lemma WithEntryReady(schema: Schema, s: Snap, rank: map<CacheRef, nat>, r: CacheRef, top: int)
    requires SchemaOk(schema) && r.model in schema
    requires Indexed(s.data, s.slots) && Separated(s) && OrderedBelow(schema, s, rank, top)
    ensures var (d, sl) := WithEntry(s.data, s.slots, r);
      && Separated(Snap(d, sl, s.sched))
      && OrderedBelow(schema, Snap(d, sl, s.sched), rank, top)
      && Kept(s, Snap(d, sl, s.sched), {r})
  {
    var (d, sl) := WithEntry(s.data, s.slots, r);
    var s' := Snap(d, sl, s.sched);
    if r !in s.data {
      forall q | q in d && Pending(s', q) && RankOf(rank, q) < top
        ensures Orderly(schema, s', rank, q)
      {
        if q == r {
          assert Entry(d, sl, r) == Fresh(r);
        } else {
          KeptOrderly(schema, s, s', rank, {r}, q);
        }
      }
    }
  }

  /**
   * The end of insertData for a pending `r`: its INSERT returned `id`, the
   * new reference shares `r`'s field map, and `r` is assigned that reference.
   */
  lemma Promote(s: Snap, log: seq<Statement>, r: CacheRef, values: FieldMap, id: int)
    requires Indexed(s.data, s.slots) && Separated(s)
    requires r in s.data && Pending(s, r) && id > 0
    ensures var nr := CacheRef(r.model, id);
      var s' := Snap(s.data[nr := s.data[r]], s.slots, s.sched[r := nr]);
      var log' := log + [Statement.Insert(r.model, values, id)];
      && Indexed(s'.data, s'.slots) && Separated(s') && Kept(s, s', {})
      && Settled(s.sched, s'.sched) && Extends(log, log')
      && Promotions(s.sched, s'.sched, log', |log|, |log'|)
  {
    var nr := CacheRef(r.model, id);
    var s' := Snap(s.data[nr := s.data[r]], s.slots, s.sched[r := nr]);
    var log' := log + [Statement.Insert(r.model, values, id)];
    assert log'[..|log|] == log;
    forall q | PendingIn(s.sched, q) && !PendingIn(s'.sched, q)
      ensures Issued(log', |log|, |log'|, q.model, InsertedIn(s'.sched, q).id)
    {
      assert q == r;
      assert log'[|log|].Insert?;
    }
  }


  // ---------------------------------------------------------------------------
  // One stretch of inserting, as a relation between two moments
  // ---------------------------------------------------------------------------

  /** `log'` is `log` with only INSERTs appended. */
  ghost predicate InsertsOnly(log: seq<Statement>, log': seq<Statement>) {
    Extends(log, log') && forall i :: |log| <= i < |log'| ==> log'[i].Insert?
  }

  /** Every record promoted from `sched` to `sched'` ranks below `top`. */
  ghost predicate PromotedBelow(sched: map<CacheRef, CacheRef>, sched': map<CacheRef, CacheRef>,
                                rank: map<CacheRef, nat>, top: int) {
    forall q :: PendingIn(sched, q) && !PendingIn(sched', q) ==> RankOf(rank, q) < top
  }

  /**
   * From (s, log) to (s', log') the inserts only went forward: `s'` keeps
   * `s` (but the records in `except`), only INSERTs were sent, each record
   * promoted on the way has its INSERT among them, and only records ranked
   * below `top` were promoted.
   */
  ghost predicate Progress(s: Snap, log: seq<Statement>, s': Snap, log': seq<Statement>,
                           rank: map<CacheRef, nat>, top: int, except: set<CacheRef>) {
    && Indexed(s.data, s.slots) && Indexed(s'.data, s'.slots)
    && Kept(s, s', except)
    && InsertsOnly(log, log')
    && Promotions(s.sched, s'.sched, log', |log|, |log'|)
    && PromotedBelow(s.sched, s'.sched, rank, top)
  }

  /** A step that sends nothing and promotes nothing is progress. */
  lemma QuietProgress(s: Snap, s': Snap, log: seq<Statement>, rank: map<CacheRef, nat>, top: int, except: set<CacheRef>)
    requires Indexed(s.data, s.slots) && Indexed(s'.data, s'.slots)
    requires Kept(s, s', except) && s'.sched == s.sched
    ensures Progress(s, log, s', log, rank, top, except)
  {
    assert log[..|log|] == log;
  }

  lemma ProgressTrans(s1: Snap, l1: seq<Statement>, s2: Snap, l2: seq<Statement>, s3: Snap, l3: seq<Statement>,
                      rank: map<CacheRef, nat>, top: int, a: set<CacheRef>, b: set<CacheRef>)
    requires Progress(s1, l1, s2, l2, rank, top, a) && Progress(s2, l2, s3, l3, rank, top, b)
    ensures Progress(s1, l1, s3, l3, rank, top, a + b)
  {
    KeptTrans(s1, s2, s3, a, b);
    ExtendsTrans(l1, l2, l3);
    forall i | |l1| <= i < |l3|
      ensures l3[i].Insert?
    {
      if i < |l2| {
        assert l3[i] == l3[..|l2|][i];
      }
    }
    PromotionsTrans(s1.sched, s2.sched, s3.sched, l2, l3, |l1|);
    forall q | PendingIn(s1.sched, q) && !PendingIn(s3.sched, q)
      ensures RankOf(rank, q) < top
    {
      if !PendingIn(s2.sched, q) {
      }
    }
  }

  lemma ProgressWeaken(s: Snap, log: seq<Statement>, s': Snap, log': seq<Statement>,
                       rank: map<CacheRef, nat>, top: int, top': int, except: set<CacheRef>)
    requires Progress(s, log, s', log', rank, top, except) && top <= top'
    ensures Progress(s, log, s', log', rank, top', except)
  {
  }

  /** A write into the map of a pending record of rank `top` or more keeps the invariants below `top`. */
  lemma AssignStep(schema: Schema, rank: map<CacheRef, nat>, top: int, s: Snap, log: seq<Statement>,
                   ref: CacheRef, name: string, v: Value)
    requires Indexed(s.data, s.slots) && Separated(s) && OrderedBelow(schema, s, rank, top)
    requires ref in s.data && Pending(s, ref) && RankOf(rank, ref) >= top
    ensures var (d, sl) := Assign(s.data, s.slots, ref, name, v);
      var s' := Snap(d, sl, s.sched);
      && d == s.data && Indexed(d, sl) && Separated(s') && OrderedBelow(schema, s', rank, top)
      && Progress(s, log, s', log, rank, top, {ref})
      && Entry(d, sl, ref) == Entry(s.data, s.slots, ref)[name := v]
  {
    var (d, sl) := Assign(s.data, s.slots, ref, name, v);
    var s' := Snap(d, sl, s.sched);
    AssignKept(s, ref, name, v);
    KeptOrderedBelow(schema, s, s', rank, {ref}, top);
    QuietProgress(s, s', log, rank, top, {ref});
  }

  // ---------------------------------------------------------------------------
  // The field loop of insertData
  // ---------------------------------------------------------------------------

  /** What resolving field `f` of `ref`, holding `value`, relies on. */
  ghost predicate Due(schema: Schema, rank: map<CacheRef, nat>, ref: CacheRef, f: string, value: Value, s: Snap) {
    && Known(schema, ref.model, f)
    && (IsFkRelation(schema[ref.model][f].kind) ==>
          && (value.Nil? || value.Int?)
          && (value.Int? && Pending(s, Target(schema[ref.model][f], value)) ==>
                RankOf(rank, Target(schema[ref.model][f], value)) < RankOf(rank, ref)))
  }

  /** A field of an orderly record stays due: a target pending now was pending then. */
  lemma DueFrom(schema: Schema, rank: map<CacheRef, nat>, ref: CacheRef, m: FieldMap, s0: Snap, s: Snap, f: string)
    requires Indexed(s0.data, s0.slots) && Orderly(schema, s0, rank, ref)
    requires Entry(s0.data, s0.slots, ref) == m && f in m
    requires Settled(s0.sched, s.sched)
    ensures Due(schema, rank, ref, f, m[f], s)
  {
    if IsFkRelation(schema[ref.model][f].kind) && m[f].Int? && Pending(s, Target(schema[ref.model][f], m[f])) {
      assert Pending(s0, Target(schema[ref.model][f], m[f]));
    }
  }

  /** Field `f` of the pending record `ref`, holding `value` in `s`, is resolved in `s'`. */
  ghost predicate ResolvedField(schema: Schema, ref: CacheRef, f: string, value: Value, s: Snap, s': Snap)
    requires Indexed(s.data, s.slots) && Indexed(s'.data, s'.slots) && Known(schema, ref.model, f)
  {
    var now := FkRewrite(schema[ref.model][f], value, s'.sched);
    && ref in s'.data && Pending(s', ref)
    && Entry(s'.data, s'.slots, ref) == Entry(s.data, s.slots, ref)[f := now]
    && ResolvedIn(schema[ref.model][f], value, now, s'.sched)
  }

  /**
   * The foreign-key case of one turn of insertData's field loop: once the
   * target is in the database, writing its assigned id into field `f` of
   * the pending `ref` resolves that field.
   */
  lemma RewriteStep(schema: Schema, rank: map<CacheRef, nat>, ref: CacheRef, f: string, value: Value,
                    s0: Snap, log0: seq<Statement>, s1: Snap, log1: seq<Statement>, s2: Snap)
    requires Known(schema, ref.model, f) && IsFkRelation(schema[ref.model][f].kind) && value.Int?
    requires Progress(s0, log0, s1, log1, rank, RankOf(rank, ref), {})
    requires Separated(s1) && OrderedBelow(schema, s1, rank, RankOf(rank, ref))
    requires ref in s0.data && Pending(s0, ref) && !Pending(s1, Target(schema[ref.model][f], value))
    requires (s2.data, s2.slots) == Assign(s1.data, s1.slots, ref, f, FkRewrite(schema[ref.model][f], value, s1.sched))
    requires s2.sched == s1.sched
    ensures Indexed(s2.data, s2.slots) && Separated(s2) && OrderedBelow(schema, s2, rank, RankOf(rank, ref))
    ensures Progress(s0, log0, s2, log1, rank, RankOf(rank, ref), {ref})
    ensures ResolvedField(schema, ref, f, value, s0, s2)
  {
    assert Pending(s1, ref);
    AssignStep(schema, rank, RankOf(rank, ref), s1, log1, ref, f, FkRewrite(schema[ref.model][f], value, s1.sched));
    assert s2 == Snap(s2.data, s2.slots, s1.sched);
    ProgressTrans(s0, log0, s1, log1, s2, log1, rank, RankOf(rank, ref), {}, {ref});
    assert {} + {ref} == {ref};
  }

  /**
   * Where the field loop stands on the pending record `ref`, whose map was
   * `m`: the fields still to visit hold their first value, the others are
   * resolved.
   */
  ghost predicate Resolving(schema: Schema, ref: CacheRef, m: FieldMap, todo: set<string>, s: Snap)
    requires Indexed(s.data, s.slots)
  {
    var e := Entry(s.data, s.slots, ref);
    && todo <= m.Keys
    && ref in s.data && Pending(s, ref)
    && e.Keys == m.Keys
    && (forall f :: f in todo ==> e[f] == m[f])
    && (forall f :: f in m && f !in todo ==> Known(schema, ref.model, f) && ResolvedIn(schema[ref.model][f], m[f], e[f], s.sched))
  }

  lemma ResolvingStep(schema: Schema, ref: CacheRef, m: FieldMap, todo: set<string>, f: string, s: Snap, s': Snap)
    requires Indexed(s.data, s.slots) && Indexed(s'.data, s'.slots)
    requires Resolving(schema, ref, m, todo, s) && f in todo && Known(schema, ref.model, f)
    requires ResolvedField(schema, ref, f, m[f], s, s') && Settled(s.sched, s'.sched)
    ensures Resolving(schema, ref, m, todo - {f}, s')
  {
    var e := Entry(s.data, s.slots, ref);
    var e' := Entry(s'.data, s'.slots, ref);
    forall g | g in m && g !in todo - {f}
      ensures Known(schema, ref.model, g) && ResolvedIn(schema[ref.model][g], m[g], e'[g], s'.sched)
    {
      if g != f {
        ResolvedStable(schema[ref.model][g], m[g], e[g], s.sched, s'.sched);
      }
    }
  }

  /** Field `f` of map `e` of a `model` record is a foreign key to a record pending in `sched`. */
  ghost predicate PendingTarget(schema: Schema, model: ModelName, e: FieldMap, f: string, sched: map<CacheRef, CacheRef>) {
    && f in e && Known(schema, model, f) && IsFkRelation(schema[model][f].kind) && e[f].Int?
    && PendingIn(sched, Target(schema[model][f], e[f]))
  }

  /** One turn of insertData's field loop on `ref`: field `f` joins the resolved ones. */
  lemma FieldStep(schema: Schema, rank: map<CacheRef, nat>, ref: CacheRef, m: FieldMap, todo: set<string>, f: string,
                  s0: Snap, log0: seq<Statement>, s1: Snap, log1: seq<Statement>, s2: Snap, log2: seq<Statement>)
    requires Progress(s0, log0, s1, log1, rank, RankOf(rank, ref), {ref})
    requires Progress(s1, log1, s2, log2, rank, RankOf(rank, ref), {ref})
    requires Resolving(schema, ref, m, todo, s1) && f in todo && Known(schema, ref.model, f)
    requires ResolvedField(schema, ref, f, m[f], s1, s2)
    ensures Progress(s0, log0, s2, log2, rank, RankOf(rank, ref), {ref})
    ensures Resolving(schema, ref, m, todo - {f}, s2)
    ensures |todo - {f}| < |todo|
  {
    ResolvingStep(schema, ref, m, todo, f, s1, s2);
    ProgressTrans(s0, log0, s1, log1, s2, log2, rank, RankOf(rank, ref), {ref}, {ref});
    assert {ref} + {ref} == {ref};
  }

  /**
   * insertData's outcome for a record `r` that was pending with field map
   * `e0`: `r` is assigned a real reference of its model, which shares its
   * field map; the last statement sent is the INSERT of that map, which
   * returned the id; every field is resolved; and every foreign-key target
   * that was pending got its INSERT before `r`'s.
   */
  ghost predicate InsertedRecord(schema: Schema, r: CacheRef, e0: FieldMap, sched0: map<CacheRef, CacheRef>,
                                 s: Snap, log0: seq<Statement>, log: seq<Statement>)
    requires Indexed(s.data, s.slots)
  {
    var e := Entry(s.data, s.slots, r);
    && r in s.sched && r in s.data
    && s.sched[r].model == r.model && s.sched[r].id > 0
    && s.sched[r] in s.data && s.data[s.sched[r]] == s.data[r]
    && |log0| < |log| && log[|log| - 1] == Statement.Insert(r.model, e, s.sched[r].id)
    && e.Keys == e0.Keys
    && (forall f :: f in e0 ==> Known(schema, r.model, f) && ResolvedIn(schema[r.model][f], e0[f], e[f], s.sched))
    && (forall f :: PendingTarget(schema, r.model, e0, f, sched0) ==>
          Issued(log, |log0|, |log| - 1, Target(schema[r.model][f], e0[f]).model,
                 InsertedIn(s.sched, Target(schema[r.model][f], e0[f])).id))
  }

  /** getData, then the field loop, on a pending `r`: progress that promotes only records ranked below `r`. */
  lemma ResolvedProgress(s0: Snap, s1: Snap, s2: Snap, log0: seq<Statement>, log2: seq<Statement>,
                         rank: map<CacheRef, nat>, r: CacheRef)
    requires Indexed(s0.data, s0.slots) && Indexed(s1.data, s1.slots)
    requires Kept(s0, s1, {r}) && s1.sched == s0.sched
    requires Progress(s1, log0, s2, log2, rank, RankOf(rank, r), {r})
    ensures Progress(s0, log0, s2, log2, rank, RankOf(rank, r) + 1, {r})
  {
    QuietProgress(s0, s1, log0, rank, RankOf(rank, r) + 1, {r});
    ProgressWeaken(s1, log0, s2, log2, rank, RankOf(rank, r), RankOf(rank, r) + 1, {r});
    ProgressTrans(s0, log0, s1, log0, s2, log2, rank, RankOf(rank, r) + 1, {r}, {r});
    assert {r} + {r} == {r};
  }

  /** The end of insertData for a pending `r` whose fields are all resolved. */
  lemma FinishInsert(schema: Schema, rank: map<CacheRef, nat>, top: int, r: CacheRef, e0: FieldMap,
                     s0: Snap, log0: seq<Statement>, s2: Snap, log2: seq<Statement>, id: int)
    requires Indexed(s0.data, s0.slots) && Indexed(s2.data, s2.slots) && Separated(s2)
    requires Progress(s0, log0, s2, log2, rank, top, {r}) && RankOf(rank, r) < top
    requires Resolving(schema, r, e0, {}, s2) && id > 0
    ensures var nr := CacheRef(r.model, id);
      var s' := Snap(s2.data[nr := s2.data[r]], s2.slots, s2.sched[r := nr]);
      var log' := log2 + [Statement.Insert(r.model, Entry(s2.data, s2.slots, r), id)];
      && Indexed(s'.data, s'.slots) && Separated(s')
      && Progress(s0, log0, s', log', rank, top, {})
      && InsertedRecord(schema, r, e0, s0.sched, s', log0, log')
  {
    var nr := CacheRef(r.model, id);
    var s' := Snap(s2.data[nr := s2.data[r]], s2.slots, s2.sched[r := nr]);
    var log' := log2 + [Statement.Insert(r.model, Entry(s2.data, s2.slots, r), id)];
    Promote(s2, log2, r, Entry(s2.data, s2.slots, r), id);
    assert log'[|log2|].Insert?;
    ProgressTrans(s0, log0, s2, log2, s', log', rank, top, {r}, {});
    assert Entry(s'.data, s'.slots, r) == Entry(s2.data, s2.slots, r);
    forall f | f in e0
      ensures ResolvedIn(schema[r.model][f], e0[f], Entry(s'.data, s'.slots, r)[f], s'.sched)
    {
      ResolvedStable(schema[r.model][f], e0[f], Entry(s2.data, s2.slots, r)[f], s2.sched, s'.sched);
    }
    forall f | PendingTarget(schema, r.model, e0, f, s0.sched)
      ensures Issued(log', |log0|, |log'| - 1, Target(schema[r.model][f], e0[f]).model,
                     InsertedIn(s'.sched, Target(schema[r.model][f], e0[f])).id)
    {
      var t := Target(schema[r.model][f], e0[f]);
      assert !PendingIn(s2.sched, t);
      IssuedGrows(log2, log', |log0|, |log2|, |log2|, t.model, InsertedIn(s2.sched, t).id);
    }
  }

  /** Taking `x` out of the set `todo` still to visit adds it to the visited part of `keys`. */
  lemma TakeOne<T>(keys: set<T>, todo: set<T>, x: T)
    requires x in todo && todo <= keys
    ensures keys - (todo - {x}) == (keys - todo) + {x}
    ensures |todo - {x}| < |todo|
  {
  }

  /** One turn of the first loop of flush: the records inserted so far stay inserted, and `r` joins them. */
  lemma ScheduledStep(schema: Schema, rank: map<CacheRef, nat>, top: int, s0: Snap, log0: seq<Statement>,
                      s1: Snap, log1: seq<Statement>, s2: Snap, log2: seq<Statement>, r: CacheRef, done: set<CacheRef>)
    requires Progress(s0, log0, s1, log1, rank, top, {}) && Progress(s1, log1, s2, log2, rank, RankOf(rank, r) + 1, {})
    requires RankOf(rank, r) < top && Ordered(schema, s1, rank)
    requires (forall q :: q in done ==> !PendingIn(s1.sched, q)) && !PendingIn(s2.sched, r)
    ensures Progress(s0, log0, s2, log2, rank, top, {}) && Ordered(schema, s2, rank)
    ensures forall q :: q in done + {r} ==> !PendingIn(s2.sched, q)
  {
    ProgressWeaken(s1, log1, s2, log2, rank, RankOf(rank, r) + 1, top, {});
    ProgressTrans(s0, log0, s1, log1, s2, log2, rank, top, {}, {});
    KeptOrdered(schema, s1, s2, rank);
  }

  /** What the first loop of flush established survives the UPDATEs appended after it. */
  lemma InsertsStay(sched0: map<CacheRef, CacheRef>, sched: map<CacheRef, CacheRef>,
                    log0: seq<Statement>, log1: seq<Statement>, log2: seq<Statement>)
    requires InsertsOnly(log0, log1) && Promotions(sched0, sched, log1, |log0|, |log1|)
    requires |log1| <= |log2| && log2[..|log1|] == log1
    ensures Extends(log0, log2)
    ensures forall i :: |log0| <= i < |log1| ==> log2[i].Insert?
    ensures Promotions(sched0, sched, log2, |log0|, |log1|)
  {
    ExtendsTrans(log0, log1, log2);
    forall i | |log0| <= i < |log1|
      ensures log2[i].Insert?
    {
      assert log2[i] == log2[..|log1|][i];
    }
    forall q | PendingIn(sched0, q) && !PendingIn(sched, q)
      ensures Issued(log2, |log0|, |log1|, q.model, InsertedIn(sched, q).id)
    {
      IssuedGrows(log1, log2, |log0|, |log1|, |log1|, q.model, InsertedIn(sched, q).id);
    }
  }

  /** The values an UPDATE of `ref` sends: each dirty field with its cached value, nil when absent. */
  ghost predicate DirtyValues(values: FieldMap, view: FieldMap, dirty: set<string>) {
    && values.Keys == dirty
    && forall f :: f in values ==> values[f] == (if f in view then view[f] else Nil)
  }

  /** How a flush ends: normally, or in the panic an UPDATE of no rows raises. */
  datatype Outcome = Done | Fatal(ref: CacheRef, values: FieldMap)

  /**
   * log[from..] is one UPDATE for each record of `updated`, no record twice,
   * each a record with dirty fields and carrying exactly those fields with
   * their values in (data, slots).
   */
  ghost predicate UpdatesSent(log: seq<Statement>, from: int, updated: seq<CacheRef>, su: DirtyTable,
                              data: Pointers, slots: Arena)
    requires Indexed(data, slots)
  {
    && 0 <= from && |log| == from + |updated| && Distinct(updated)
    && forall i :: 0 <= i < |updated| ==> SentAt(log[from + i], updated[i], su, data, slots)
  }

  /** `st` is the UPDATE of `ref`'s dirty fields with their values in (data, slots). */
  ghost predicate SentAt(st: Statement, ref: CacheRef, su: DirtyTable, data: Pointers, slots: Arena)
    requires Indexed(data, slots)
  {
    && st.Update? && st.ref == ref && ref in su
    && DirtyValues(st.values, Entry(data, slots, ref), su[ref])
  }

  /** Every statement of log[from..upto] is an UPDATE that affected one row. */
  ghost predicate Affected(log: seq<Statement>, from: int, upto: int) {
    forall i :: from <= i < upto && 0 <= i < |log| ==> log[i].Update? && log[i].rows == 1
  }

  /**
   * How the UPDATEs from log[from] on ended: all dirty records were updated,
   * each affecting one row; or the last UPDATE affected none and is the one
   * the fatal outcome reports, all before it having affected one row.
   */
  ghost predicate Stopped(outcome: Outcome, log: seq<Statement>, from: int, updated: seq<CacheRef>, su: DirtyTable) {
    && (outcome.Done? ==> (forall r :: r in updated <==> r in su) && Affected(log, from, |log|))
    && (outcome.Fatal? ==>
          && 0 <= from < |log| && log[|log| - 1] == Statement.Update(outcome.ref, outcome.values, 0)
          && Affected(log, from, |log| - 1))
  }

  lemma DistinctSnoc<T>(s: seq<T>, x: T)
    requires Distinct(s) && x !in s
    ensures Distinct(s + [x])
  {
    forall i, j | 0 <= i < j < |s| + 1
      ensures (s + [x])[i] != (s + [x])[j]
    {
      assert (s + [x])[i] == s[i];
    }
  }

  /** One more UPDATE, sent for a record not yet updated, with the values read now. */
  lemma SentOneMore(log: seq<Statement>, from: int, updated: seq<CacheRef>, su: DirtyTable,
                    d: Pointers, sl: Arena, d': Pointers, sl': Arena, ref: CacheRef, values: FieldMap, n: int)
    requires Indexed(d, sl) && Indexed(d', sl') && UpdatesSent(log, from, updated, su, d, sl)
    requires forall q :: Entry(d', sl', q) == Entry(d, sl, q)
    requires ref in su && ref !in updated && DirtyValues(values, Entry(d', sl', ref), su[ref])
    ensures UpdatesSent(log + [Statement.Update(ref, values, n)], from, updated + [ref], su, d', sl')
  {
    var log' := log + [Statement.Update(ref, values, n)];
    var updated' := updated + [ref];
    DistinctSnoc(updated, ref);
    forall i | 0 <= i < |updated'|
      ensures SentAt(log'[from + i], updated'[i], su, d', sl')
    {
      if i < |updated| {
        assert log'[from + i] == log[from + i] && updated'[i] == updated[i];
        assert SentAt(log[from + i], updated[i], su, d, sl);
      } else {
        assert log'[from + i] == Statement.Update(ref, values, n) && updated'[i] == ref;
      }
    }
  }

  class Environment {
    const cache: Cache
    const db: Database

    constructor (cache: Cache, db: Database)
      ensures this.cache == cache && this.db == db
    {
      this.cache := cache;
      this.db := db;
    }

    /**
     * insertData: a record already in the database is left alone. A pending
     * one has each foreign-key target inserted first when that target is
     * pending, and each foreign key rewritten to the id assigned to its
     * target; then its field map is INSERTed, the returned id becomes its
     * database reference, which shares its field map, and the record is no
     * longer pending. No UPDATE is issued and nothing is marked dirty.
     */
    method InsertData(r: CacheRef, ghost rank: map<CacheRef, nat>)
      requires cache.Valid() && db.Ok() && r.model in cache.schema
      requires Separated(Snapshot(cache)) && OrderedBelow(cache.schema, Snapshot(cache), rank, RankOf(rank, r) + 1)
      modifies cache`data, cache`slots, cache`m2mLinks, cache`scheduledUpdate, cache`scheduledInsert, db
      ensures cache.Valid() && db.Ok() && Separated(Snapshot(cache))
      ensures Progress(old(Snapshot(cache)), old(db.log), Snapshot(cache), db.log, rank, RankOf(rank, r) + 1, {})
      ensures cache.scheduledUpdate == old(cache.scheduledUpdate) && cache.m2mLinks == old(cache.m2mLinks)
      ensures cache.IsInDb(r)
      ensures old(cache.IsInDb(r)) ==> db.log == old(db.log) && Snapshot(cache) == old(Snapshot(cache))
      ensures old(cache.IsNotInDb(r)) ==>
        InsertedRecord(cache.schema, r, old(cache.View(r)), old(cache.scheduledInsert), Snapshot(cache), old(db.log), db.log)
      decreases RankOf(rank, r), 6
    {
      if cache.IsInDb(r) {
        return;
      }
      InsertPending(r, rank);
    }

    /** insertData on a pending record: its dependencies, its INSERT and its promotion. */
    method InsertPending(r: CacheRef, ghost rank: map<CacheRef, nat>)
      requires cache.Valid() && db.Ok() && r.model in cache.schema && cache.IsNotInDb(r)
      requires Separated(Snapshot(cache)) && OrderedBelow(cache.schema, Snapshot(cache), rank, RankOf(rank, r) + 1)
      modifies cache`data, cache`slots, cache`m2mLinks, cache`scheduledUpdate, cache`scheduledInsert, db
      ensures cache.Valid() && db.Ok() && Separated(Snapshot(cache))
      ensures Progress(old(Snapshot(cache)), old(db.log), Snapshot(cache), db.log, rank, RankOf(rank, r) + 1, {})
      ensures cache.scheduledUpdate == old(cache.scheduledUpdate) && cache.m2mLinks == old(cache.m2mLinks)
      ensures cache.IsInDb(r)
      ensures InsertedRecord(cache.schema, r, old(cache.View(r)), old(cache.scheduledInsert), Snapshot(cache), old(db.log), db.log)
      decreases RankOf(rank, r), 5
    {
      ghost var s0 := Snapshot(cache);
      ghost var log0 := db.log;
      var m := ResolveAll(r, rank);
      ghost var s2 := Snapshot(cache);
      ghost var log2 := db.log;
      var id := PromoteRecord(r);
      FinishInsert(cache.schema, rank, RankOf(rank, r) + 1, r, m, s0, log0, s2, log2, id);
      assert Snapshot(cache) == Snap(s2.data[CacheRef(r.model, id) := s2.data[r]], s2.slots, s2.sched[r := CacheRef(r.model, id)]);
    }

    /** The loop of insertData on a pending record `r`, from the field map `m` it starts with. */
    method ResolveAll(r: CacheRef, ghost rank: map<CacheRef, nat>) returns (m: FieldMap)
      requires cache.Valid() && db.Ok() && r.model in cache.schema && cache.IsNotInDb(r)
      requires Separated(Snapshot(cache)) && OrderedBelow(cache.schema, Snapshot(cache), rank, RankOf(rank, r) + 1)
      modifies cache`data, cache`slots, cache`m2mLinks, cache`scheduledUpdate, cache`scheduledInsert, db
      ensures cache.Valid() && db.Ok() && Separated(Snapshot(cache)) && r in cache.data
      ensures Progress(old(Snapshot(cache)), old(db.log), Snapshot(cache), db.log, rank, RankOf(rank, r) + 1, {r})
      ensures cache.scheduledUpdate == old(cache.scheduledUpdate) && cache.m2mLinks == old(cache.m2mLinks)
      ensures m == old(cache.View(r)) && Resolving(cache.schema, r, m, {}, Snapshot(cache))
      decreases RankOf(rank, r), 4
    {
      ghost var s0 := Snapshot(cache);
      ghost var log0 := db.log;
      m := StartInsert(r, rank);
      ghost var s1 := Snapshot(cache);
      ResolveDeps(r, m, rank);
      ResolvedProgress(s0, s1, Snapshot(cache), log0, db.log, rank, r);
    }

    /** The start of insertData's loop: getData creates the pending record's entry when missing. */
    method StartInsert(r: CacheRef, ghost rank: map<CacheRef, nat>) returns (m: FieldMap)
      requires cache.Valid() && r.model in cache.schema && cache.IsNotInDb(r)
      requires Separated(Snapshot(cache)) && OrderedBelow(cache.schema, Snapshot(cache), rank, RankOf(rank, r) + 1)
      modifies cache`data, cache`slots
      ensures cache.Valid() && Separated(Snapshot(cache))
      ensures OrderedBelow(cache.schema, Snapshot(cache), rank, RankOf(rank, r))
      ensures Kept(old(Snapshot(cache)), Snapshot(cache), {r}) && cache.scheduledInsert == old(cache.scheduledInsert)
      ensures r in cache.data && m == cache.View(r) == old(cache.View(r))
      ensures Orderly(cache.schema, Snapshot(cache), rank, r)
    {
      ghost var s := Snapshot(cache);
      m := cache.GetData(r);
      WithEntryReady(cache.schema, s, rank, r, RankOf(rank, r) + 1);
    }

    /**
     * The loop of insertData over the fields of a pending record `ref`
     * whose field map `m` is: every field is resolved in turn.
     */
    method ResolveDeps(ref: CacheRef, m: FieldMap, ghost rank: map<CacheRef, nat>)
      requires cache.Valid() && db.Ok()
      requires Separated(Snapshot(cache)) && OrderedBelow(cache.schema, Snapshot(cache), rank, RankOf(rank, ref))
      requires ref in cache.data && cache.IsNotInDb(ref) && cache.View(ref) == m
      requires Orderly(cache.schema, Snapshot(cache), rank, ref)
      modifies cache`data, cache`slots, cache`m2mLinks, cache`scheduledUpdate, cache`scheduledInsert, db
      ensures cache.Valid() && db.Ok()
      ensures Separated(Snapshot(cache)) && OrderedBelow(cache.schema, Snapshot(cache), rank, RankOf(rank, ref))
      ensures Progress(old(Snapshot(cache)), old(db.log), Snapshot(cache), db.log, rank, RankOf(rank, ref), {ref})
      ensures cache.scheduledUpdate == old(cache.scheduledUpdate) && cache.m2mLinks == old(cache.m2mLinks)
      ensures Resolving(cache.schema, ref, m, {}, Snapshot(cache))
      decreases RankOf(rank, ref), 3
    {
      ghost var s0 := Snapshot(cache);
      ghost var log0 := db.log;
      QuietProgress(s0, s0, log0, rank, RankOf(rank, ref), {ref});
      var todo := m.Keys;
      while todo != {}
        invariant cache.Valid() && db.Ok()
        invariant Separated(Snapshot(cache)) && OrderedBelow(cache.schema, Snapshot(cache), rank, RankOf(rank, ref))
        invariant Progress(s0, log0, Snapshot(cache), db.log, rank, RankOf(rank, ref), {ref})
        invariant cache.scheduledUpdate == old(cache.scheduledUpdate) && cache.m2mLinks == old(cache.m2mLinks)
        invariant Resolving(cache.schema, ref, m, todo, Snapshot(cache))
        decreases |todo|
      {
        var f :| f in todo;
        var value := cache.slots[cache.data[ref]][f];
        ghost var s1 := Snapshot(cache);
        ghost var log1 := db.log;
        DueFrom(cache.schema, rank, ref, m, s0, s1, f);
        ResolveDep(ref, f, value, rank);
        FieldStep(cache.schema, rank, ref, m, todo, f, s0, log0, s1, log1, Snapshot(cache), db.log);
        todo := todo - {f};
      }
    }

    /**
     * The end of insertData: the record's field map is INSERTed, and the
     * reference of the returned id shares that map and is assigned to it.
     */
    method PromoteRecord(r: CacheRef) returns (id: int)
      requires cache.Valid() && db.Ok() && r in cache.data
      modifies cache`data, cache`slots, cache`scheduledInsert, db
      ensures cache.Valid() && db.Ok() && id > 0 && cache.slots == old(cache.slots)
      ensures cache.data == old(cache.data)[CacheRef(r.model, id) := old(cache.data[r])]
      ensures cache.scheduledInsert == old(cache.scheduledInsert)[r := CacheRef(r.model, id)]
      ensures db.log == old(db.log) + [Statement.Insert(r.model, old(cache.View(r)), id)]
    {
      var values := cache.GetData(r);
      id := db.Insert(r.model, values);
      var newRef := ToRef(r.model, id);
      cache.CopyPointer(r, newRef);
      cache.scheduledInsert := cache.scheduledInsert[r := newRef];
    }

    /**
     * One step of insertData's loop, for field `f` holding `value`: a
     * foreign key to a pending record first inserts that record, then any
     * non-nil foreign key is rewritten to the id assigned to its target.
     */
    method ResolveDep(ref: CacheRef, f: string, value: Value, ghost rank: map<CacheRef, nat>)
      requires cache.Valid() && db.Ok()
      requires Separated(Snapshot(cache)) && OrderedBelow(cache.schema, Snapshot(cache), rank, RankOf(rank, ref))
      requires ref in cache.data && cache.IsNotInDb(ref)
      requires Due(cache.schema, rank, ref, f, value, Snapshot(cache))
      requires f in cache.View(ref) && cache.View(ref)[f] == value
      modifies cache`data, cache`slots, cache`m2mLinks, cache`scheduledUpdate, cache`scheduledInsert, db
      ensures cache.Valid() && db.Ok()
      ensures Separated(Snapshot(cache)) && OrderedBelow(cache.schema, Snapshot(cache), rank, RankOf(rank, ref))
      ensures Progress(old(Snapshot(cache)), old(db.log), Snapshot(cache), db.log, rank, RankOf(rank, ref), {ref})
      ensures cache.scheduledUpdate == old(cache.scheduledUpdate) && cache.m2mLinks == old(cache.m2mLinks)
      ensures ResolvedField(cache.schema, ref, f, value, old(Snapshot(cache)), Snapshot(cache))
      decreases RankOf(rank, ref), 2
    {
      var fi := cache.schema[ref.model][f];
      if IsFkRelation(fi.kind) && value != Nil {
        RewriteForeignKey(ref, f, value, rank);
      } else {
        QuietProgress(Snapshot(cache), Snapshot(cache), db.log, rank, RankOf(rank, ref), {ref});
        assert cache.View(ref)[f := value] == cache.View(ref);
      }
    }

    /**
     * A non-nil foreign key of a pending record: its target is inserted
     * first when pending, then the key is rewritten to the target's id.
     */
    method RewriteForeignKey(ref: CacheRef, f: string, value: Value, ghost rank: map<CacheRef, nat>)
      requires cache.Valid() && db.Ok()
      requires Separated(Snapshot(cache)) && OrderedBelow(cache.schema, Snapshot(cache), rank, RankOf(rank, ref))
      requires ref in cache.data && cache.IsNotInDb(ref)
      requires Due(cache.schema, rank, ref, f, value, Snapshot(cache))
      requires f in cache.View(ref) && cache.View(ref)[f] == value
      requires IsFkRelation(cache.schema[ref.model][f].kind) && value != Nil
      modifies cache`data, cache`slots, cache`m2mLinks, cache`scheduledUpdate, cache`scheduledInsert, db
      ensures cache.Valid() && db.Ok()
      ensures Separated(Snapshot(cache)) && OrderedBelow(cache.schema, Snapshot(cache), rank, RankOf(rank, ref))
      ensures Progress(old(Snapshot(cache)), old(db.log), Snapshot(cache), db.log, rank, RankOf(rank, ref), {ref})
      ensures cache.scheduledUpdate == old(cache.scheduledUpdate) && cache.m2mLinks == old(cache.m2mLinks)
      ensures ResolvedField(cache.schema, ref, f, value, old(Snapshot(cache)), Snapshot(cache))
      decreases RankOf(rank, ref), 1
    {
      ghost var s0 := Snapshot(cache);
      ghost var log0 := db.log;
      var fi := cache.schema[ref.model][f];
      var fkRef := ToRef(fi.relatedModel, value.n);
      EnsureInserted(fkRef, rank, RankOf(rank, ref));
      ghost var s1 := Snapshot(cache);
      ghost var log1 := db.log;
      var v := Int(cache.Inserted(fkRef).id);
      ghost var su1, links1 := cache.scheduledUpdate, cache.m2mLinks;
      cache.UpdateEntryByRef(ref, f, v);
      assert (cache.data, cache.slots) == Assign(s1.data, s1.slots, ref, f, v);
      assert cache.scheduledUpdate == Mark(su1, ref, f) && cache.m2mLinks == links1;
      assert Mark(su1, ref, f) == su1;
      RewriteStep(cache.schema, rank, ref, f, value, s0, log0, s1, log1, Snapshot(cache));
    }

    /** The foreign-key step of insertData: a pending target is inserted first. */
    method EnsureInserted(fkRef: CacheRef, ghost rank: map<CacheRef, nat>, ghost top: nat)
      requires cache.Valid() && db.Ok() && fkRef.model in cache.schema
      requires Separated(Snapshot(cache)) && OrderedBelow(cache.schema, Snapshot(cache), rank, top)
      requires cache.IsNotInDb(fkRef) ==> RankOf(rank, fkRef) < top
      modifies cache`data, cache`slots, cache`m2mLinks, cache`scheduledUpdate, cache`scheduledInsert, db
      ensures cache.Valid() && db.Ok() && cache.IsInDb(fkRef)
      ensures Separated(Snapshot(cache)) && OrderedBelow(cache.schema, Snapshot(cache), rank, top)
      ensures Progress(old(Snapshot(cache)), old(db.log), Snapshot(cache), db.log, rank, top, {})
      ensures cache.scheduledUpdate == old(cache.scheduledUpdate) && cache.m2mLinks == old(cache.m2mLinks)
      decreases top, 0
    {
      ghost var s0 := Snapshot(cache);
      ghost var log0 := db.log;
      if cache.IsNotInDb(fkRef) {
        InsertData(fkRef, rank);
        ProgressWeaken(s0, log0, Snapshot(cache), db.log, rank, RankOf(rank, fkRef) + 1, top, {});
      } else {
        QuietProgress(s0, s0, log0, rank, top, {});
      }
      KeptOrderedBelow(cache.schema, s0, Snapshot(cache), rank, {}, top);
    }

    /**
     * flush (and Flush, which only calls it): every record scheduled for
     * insert is inserted, foreign-key targets first; then each record with
     * dirty fields gets one UPDATE carrying exactly its dirty fields with
     * their cached values. An UPDATE that affects no row raises the fatal
     * error and ends the flush. `mid` is where the UPDATEs start in the log
     * and `updated` lists the records they were sent for.
     */
    method Flush(ghost rank: map<CacheRef, nat>, ghost top: nat) returns (outcome: Outcome, ghost mid: int, ghost updated: seq<CacheRef>)
      requires cache.Valid() && db.Ok()
      requires Separated(Snapshot(cache)) && Ordered(cache.schema, Snapshot(cache), rank)
      requires forall q :: RankOf(rank, q) < top
      requires forall r :: r in cache.scheduledInsert ==> r.model in cache.schema
      modifies cache`data, cache`slots, cache`m2mLinks, cache`scheduledUpdate, cache`scheduledInsert, db
      ensures cache.Valid() && db.Ok()
      ensures cache.scheduledUpdate == old(cache.scheduledUpdate) && cache.m2mLinks == old(cache.m2mLinks)
      ensures forall r :: r in old(cache.scheduledInsert) ==> cache.IsInDb(r)
      ensures Extends(old(db.log), db.log) && |old(db.log)| <= mid <= |db.log|
      ensures forall i :: |old(db.log)| <= i < mid ==> db.log[i].Insert?
      ensures Promotions(old(cache.scheduledInsert), cache.scheduledInsert, db.log, |old(db.log)|, mid)
      ensures UpdatesSent(db.log, mid, updated, cache.scheduledUpdate, cache.data, cache.slots)
      ensures Stopped(outcome, db.log, mid, updated, cache.scheduledUpdate)
    {
      ghost var sched0 := cache.scheduledInsert;
      ghost var log0 := db.log;
      InsertScheduled(rank, top);
      mid := |db.log|;
      ghost var sched1 := cache.scheduledInsert;
      ghost var log1 := db.log;
      outcome, updated := SendUpdates();
      InsertsStay(sched0, sched1, log0, log1, db.log);
    }

    /** The first loop of flush: insertData on every record scheduled for insert. */
    method InsertScheduled(ghost rank: map<CacheRef, nat>, ghost top: nat)
      requires cache.Valid() && db.Ok()
      requires Separated(Snapshot(cache)) && Ordered(cache.schema, Snapshot(cache), rank)
      requires forall q :: RankOf(rank, q) < top
      requires forall r :: r in cache.scheduledInsert ==> r.model in cache.schema
      modifies cache`data, cache`slots, cache`m2mLinks, cache`scheduledUpdate, cache`scheduledInsert, db
      ensures cache.Valid() && db.Ok()
      ensures cache.scheduledUpdate == old(cache.scheduledUpdate) && cache.m2mLinks == old(cache.m2mLinks)
      ensures forall r :: r in old(cache.scheduledInsert) ==> cache.IsInDb(r)
      ensures InsertsOnly(old(db.log), db.log)
      ensures Promotions(old(cache.scheduledInsert), cache.scheduledInsert, db.log, |old(db.log)|, |db.log|)
    {
      ghost var s0 := Snapshot(cache);
      ghost var log0 := db.log;
      QuietProgress(s0, s0, log0, rank, top, {});
      var todo := cache.scheduledInsert.Keys;
      ghost var keys := todo;
      while todo != {}
        invariant todo <= keys
        invariant cache.Valid() && db.Ok()
        invariant Separated(Snapshot(cache)) && Ordered(cache.schema, Snapshot(cache), rank)
        invariant Progress(s0, log0, Snapshot(cache), db.log, rank, top, {})
        invariant cache.scheduledUpdate == old(cache.scheduledUpdate) && cache.m2mLinks == old(cache.m2mLinks)
        invariant forall r :: r in keys - todo ==> cache.IsInDb(r)
        decreases |todo|
      {
        var r :| r in todo;
        ghost var s1 := Snapshot(cache);
        ghost var log1 := db.log;
        InsertData(r, rank);
        ScheduledStep(cache.schema, rank, top, s0, log0, s1, log1, Snapshot(cache), db.log, r, keys - todo);
        TakeOne(keys, todo, r);
        todo := todo - {r};
      }
      assert keys - todo == keys;
    }

    /**
     * The second loop of flush: one UPDATE per record with dirty fields, in
     * the order `updated`, stopping at the first UPDATE that affects no row.
     */
    method SendUpdates() returns (outcome: Outcome, ghost updated: seq<CacheRef>)
      requires cache.Valid()
      modifies cache`data, cache`slots, db`log
      ensures cache.Valid()
      ensures forall q :: cache.View(q) == old(cache.View(q))
      ensures |old(db.log)| <= |db.log| && db.log[..|old(db.log)|] == old(db.log)
      ensures UpdatesSent(db.log, |old(db.log)|, updated, cache.scheduledUpdate, cache.data, cache.slots)
      ensures Stopped(outcome, db.log, |old(db.log)|, updated, cache.scheduledUpdate)
    {
      ghost var log0 := db.log;
      var dirty := cache.scheduledUpdate.Keys;
      updated := [];
      outcome := Done;
      while dirty != {}
        invariant dirty <= cache.scheduledUpdate.Keys
        invariant cache.Valid()
        invariant forall q :: cache.View(q) == old(cache.View(q))
        invariant |log0| <= |db.log| && db.log[..|log0|] == log0
        invariant UpdatesSent(db.log, |log0|, updated, cache.scheduledUpdate, cache.data, cache.slots)
        invariant forall r :: r in updated <==> r in cache.scheduledUpdate && r !in dirty
        invariant Affected(db.log, |log0|, |db.log|)
        decreases |dirty|
      {
        var ref :| ref in dirty;
        ghost var d0, sl0, logBefore := cache.data, cache.slots, db.log;
        var fMap := DirtyFieldMap(ref, cache.scheduledUpdate[ref]);
        forall q
          ensures Entry(cache.data, cache.slots, q) == Entry(d0, sl0, q)
        {
          assert cache.View(q) == Entry(cache.data, cache.slots, q);
        }
        var n := db.Update(ref, fMap);
        SentOneMore(logBefore, |log0|, updated, cache.scheduledUpdate, d0, sl0, cache.data, cache.slots, ref, fMap, n);
        assert db.log[..|log0|] == logBefore[..|log0|];
        updated := updated + [ref];
        if n == 0 {
          outcome := Fatal(ref, fMap);
          return;
        }
        dirty := dirty - {ref};
      }
    }

    /** The field map of one UPDATE: each dirty field of `ref` as getData reads it, nil when absent. */
    method DirtyFieldMap(ref: CacheRef, fields: set<string>) returns (fMap: FieldMap)
      requires cache.Valid()
      modifies cache`data, cache`slots
      ensures cache.Valid()
      ensures forall q :: cache.View(q) == old(cache.View(q))
      ensures DirtyValues(fMap, cache.View(ref), fields)
    {
      fMap := map[];
      var todo := fields;
      while todo != {}
        invariant todo <= fields
        invariant cache.Valid()
        invariant forall q :: cache.View(q) == old(cache.View(q))
        invariant forall g :: g in fMap <==> g in fields && g !in todo
        invariant forall f :: f in fMap ==> fMap[f] == (if f in cache.View(ref) then cache.View(ref)[f] else Nil)
        decreases |todo|
      {
        var f :| f in todo;
        var m := cache.GetData(ref);
        fMap := fMap[f := if f in m then m[f] else Nil];
        todo := todo - {f};
      }
      assert fMap.Keys == fields;
    }
  }
}
