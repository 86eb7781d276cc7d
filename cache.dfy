/**
 * The record cache of an environment: an identity map from record
 * references to shared field maps, the many-to-many link tables, and the
 * bookkeeping of pending inserts and updates.
 */
module CacheStore {
  import opened CacheTypes
  import opened Store
  import opened Reads

  /**
   * `paths` holds each key once, under its segment count, and `maxLen` is at
   * least every count.
   */
  ghost predicate Grouped(paths: map<int, seq<string>>, keys: set<string>, maxLen: int) {
    && (forall n :: n in paths ==> Distinct(paths[n]))
    && (forall n, p :: n in paths && p in paths[n] ==> p in keys && SegmentCount(p) == n)
    && (forall p :: p in keys ==> SegmentCount(p) in paths && p in paths[SegmentCount(p)] && SegmentCount(p) <= maxLen)
  }

  /** Removing the many-to-many field `fi` of the record `id` drops link `l` of table `t`. */
  predicate DropsLink(fi: Field, t: ModelName, l: Link, id: int) {
    fi.kind == Many2Many && fi.m2mRelModel == t && l.At(OurIndex(fi.m2mOurField, fi.m2mTheirField)) == id
  }

  /** Appending a new key to the bucket of its segment count keeps the grouping. */
  lemma GroupedAdd(paths: map<int, seq<string>>, keys: set<string>, maxLen: int, path: string)
    requires Grouped(paths, keys, maxLen) && path !in keys
    ensures var n := SegmentCount(path);
      Grouped(paths[n := (if n in paths then paths[n] else []) + [path]], keys + {path}, if n > maxLen then n else maxLen)
  {
    var n := SegmentCount(path);
    var bucket := if n in paths then paths[n] else [];
    var paths' := paths[n := bucket + [path]];
    var maxLen' := if n > maxLen then n else maxLen;
    assert path !in bucket;
    forall m | m in paths' ensures Distinct(paths'[m]) {
      if m == n {
        assert paths'[m] == bucket + [path];
      }
    }
    forall m, p | m in paths' && p in paths'[m] ensures p in keys + {path} && SegmentCount(p) == m {
      if m == n && p != path {
        assert p in bucket;
      }
    }
    forall p | p in keys + {path}
      ensures SegmentCount(p) in paths' && p in paths'[SegmentCount(p)] && SegmentCount(p) <= maxLen'
    {
      if p != path && SegmentCount(p) == n {
        assert p in bucket;
      }
    }
  }

  /** The reference the database assigned to `ref`; an absent key reads as the zero reference. */
  function InsertedIn(sched: map<CacheRef, CacheRef>, ref: CacheRef): CacheRef {
    if ref in sched then sched[ref] else ZeroRef
  }

  /** Neither `ref`'s own id nor an assigned reference is a database id. */
  predicate PendingIn(sched: map<CacheRef, CacheRef>, ref: CacheRef) {
    ref.id <= 0 && InsertedIn(sched, ref).id <= 0
  }

  /** The keys of segment count `n`, empty when there are none. */
  function Bucket(paths: map<int, seq<string>>, n: int): seq<string> {
    if n in paths then paths[n] else []
  }

  lemma GroupedBucket(paths: map<int, seq<string>>, keys: set<string>, maxLen: int, n: int)
    requires Grouped(paths, keys, maxLen)
    ensures Distinct(Bucket(paths, n))
    ensures forall p :: p in Bucket(paths, n) <==> p in keys && SegmentCount(p) == n
  {
  }

  /** `order` lists, each once and by non-decreasing segment count, the keys of fewer than `n` segments. */
  ghost predicate ListedBelow(order: seq<string>, keys: set<string>, n: int) {
    && (forall p :: p in order <==> p in keys && SegmentCount(p) < n)
    && Distinct(order)
    && (forall a, b :: 0 <= a < b < |order| ==> SegmentCount(order[a]) <= SegmentCount(order[b]))
  }

  lemma ListedAppend(order: seq<string>, keys: set<string>, n: int, batch: seq<string>)
    requires ListedBelow(order, keys, n)
    requires Distinct(batch)
    requires forall p :: p in batch <==> p in keys && SegmentCount(p) == n
    ensures ListedBelow(order + batch, keys, n + 1)
  {
    var s := order + batch;
    forall a, b | 0 <= a < b < |s| ensures s[a] != s[b] && SegmentCount(s[a]) <= SegmentCount(s[b]) {
      if b >= |order| {
        assert s[b] == batch[b - |order|];
        if a >= |order| {
          assert s[a] == batch[a - |order|];
        } else {
          assert s[a] == order[a];
        }
      } else {
        assert s[a] == order[a] && s[b] == order[b];
      }
    }
  }

  /** The records whose reverse foreign key a write of `value` to an inverse field sets. */
  function Targets(k: FieldKind, value: Value): seq<int>
    requires Fits(k, value) && k in {One2Many, Rev2One}
  {
    if k == One2Many then value.ids else [value.n]
  }

  /**
   * The whole effect of updateEntryByRef(ref, name, value), from the heap `h`
   * and dirty table `su` before the write to `h'` and `su'` after it:
   * `ref` is marked dirty for `name` when it has a real id, then
   *  - an inverse field sets the reverse foreign key of each target to
   *    `ref`'s id (marking those dirty in turn) and stores `true`;
   *  - a many-to-many field replaces the links of `ref` and stores `true`;
   *  - any other field stores the value.
   */
  ghost predicate Written(schema: Schema, h: Heap, su: DirtyTable, ref: CacheRef, name: string, value: Value, h': Heap, su': DirtyTable)
    requires SchemaOk(schema) && HeapOk(h) && Known(schema, ref.model, name)
    requires Fits(schema[ref.model][name].kind, value)
  {
    var fi := schema[ref.model][name];
    var marked := Mark(su, ref, name);
    match fi.kind
    case One2Many | Rev2One =>
      && (h'.data, h'.slots) == SetInverse(h.data, h.slots, ref, name, fi.relatedModel, fi.reverseFK, Targets(fi.kind, value))
      && su' == MarkEach(marked, fi.relatedModel, Targets(fi.kind, value), fi.reverseFK)
      && h'.links == h.links
    case Many2Many =>
      var our := OurIndex(fi.m2mOurField, fi.m2mTheirField);
      && (h'.data, h'.slots) == Assign(h.data, h.slots, ref, name, Bool(true))
      && su' == marked
      && h'.links == AddLinks(RemoveLinks(h.links, fi.m2mRelModel, our, ref.id), fi.m2mRelModel, our, ref.id, value.ids)
    case _ =>
      && (h'.data, h'.slots) == Assign(h.data, h.slots, ref, name, value)
      && su' == marked
      && h'.links == h.links
  }

  /** The parts of the cache a write changes: the heap and the dirty table. */
  datatype CacheState = CacheState(heap: Heap, dirty: DirtyTable)

  /** Every key of `fMap` is a path from `model` whose last field accepts the key's value. */
  ghost predicate PathsFit(schema: Schema, model: ModelName, fMap: map<string, Value>) {
    forall p :: p in fMap ==>
      ValidPath(schema, model, Split(p)) && Fits(PathField(schema, model, Split(p)).kind, fMap[p])
  }

  /**
   * The walk of `path` from (model, id) reached field `name` of `ref` on a
   * heap `mid` that differs from `h` only by entries created on the way, and
   * writing `value` there took `mid` and `su` to `h'` and `su'`.
   */
  ghost predicate WrittenVia(schema: Schema, model: ModelName, id: int, path: string, value: Value,
                             h: Heap, su: DirtyTable, ref: CacheRef, name: string, h': Heap, su': DirtyTable)
    requires SchemaOk(schema) && ValidPath(schema, model, Split(path))
    requires Fits(PathField(schema, model, Split(path)).kind, value)
  {
    exists mid: Heap ::
      && Grown(h, mid)
      && Resolves(schema, mid, model, id, Split(path), ref, name)
      && Known(schema, ref.model, name) && schema[ref.model][name] == PathField(schema, model, Split(path))
      && Written(schema, mid, su, ref, name, value, h', su')
  }

  /**
   * The whole effect of updateEntry(model, id, path, value) from `s` to `s'`:
   * either a walk of the path reached a field and the value was written
   * there, or the walk stopped at a segment that does not read as an int,
   * only missing entries were created and no dirty mark was added. A path of
   * one segment (the field name itself, by OneSegmentPath) is written on the
   * starting record.
   */
  ghost predicate PathWritten(schema: Schema, model: ModelName, id: int, path: string, value: Value, s: CacheState, s': CacheState)
    requires SchemaOk(schema) && HeapOk(s.heap) && ValidPath(schema, model, Split(path))
    requires Fits(PathField(schema, model, Split(path)).kind, value)
  {
    && (|| (exists ref, name :: WrittenVia(schema, model, id, path, value, s.heap, s.dirty, ref, name, s'.heap, s'.dirty))
        || (Grown(s.heap, s'.heap) && s'.dirty == s.dirty && MayFail(schema, s'.heap, model, id, Split(path))))
    && (SegmentCount(path) == 1 ==>
          Written(schema, s.heap, s.dirty, CacheRef(model, id), Split(path)[0], value, s'.heap, s'.dirty))
  }

  /** A walk that stopped early, having only created entries, is an updateEntry effect. */
  lemma WriteFailed(schema: Schema, model: ModelName, id: int, path: string, value: Value, s: CacheState, s': CacheState)
    requires SchemaOk(schema) && HeapOk(s.heap) && ValidPath(schema, model, Split(path))
    requires Fits(PathField(schema, model, Split(path)).kind, value)
    requires Grown(s.heap, s'.heap) && s'.dirty == s.dirty && MayFail(schema, s'.heap, model, id, Split(path))
    ensures PathWritten(schema, model, id, path, value, s, s')
  {
  }

  /**
   * A write of field `name` of `ref` on the heap `mid` that a walk of `path`
   * reached from `h` is an updateEntry effect; for a one-segment path the walk
   * creates nothing, so the write starts from `h` itself.
   */
  lemma WriteReached(schema: Schema, model: ModelName, id: int, path: string, value: Value,
                     h: Heap, mid: Heap, su: DirtyTable, ref: CacheRef, name: string, h': Heap, su': DirtyTable)
    requires SchemaOk(schema) && ValidPath(schema, model, Split(path))
    requires Fits(PathField(schema, model, Split(path)).kind, value)
    requires Grown(h, mid) && Resolves(schema, mid, model, id, Split(path), ref, name)
    requires Known(schema, ref.model, name) && schema[ref.model][name] == PathField(schema, model, Split(path))
    requires Written(schema, mid, su, ref, name, value, h', su')
    requires SegmentCount(path) == 1 ==> mid == h
    ensures WrittenVia(schema, model, id, path, value, h, su, ref, name, h', su')
    ensures PathWritten(schema, model, id, path, value, CacheState(h, su), CacheState(h', su'))
  {
    assert WrittenVia(schema, model, id, path, value, h, su, ref, name, h', su');
    if SegmentCount(path) == 1 {
      assert ref == CacheRef(model, id) && name == Split(path)[0];
    }
  }

  /**
   * `trace` holds the states around a sequence of updateEntry calls, one
   * call per path of `paths` in that order, each writing the path's value
   * in `fMap`: `trace[j]` before the call on `paths[j]`, `trace[j + 1]`
   * after. Stated as a fold: the calls on all paths but the last, then the
   * call on the last.
   */
  ghost predicate Calls(schema: Schema, model: ModelName, id: int, fMap: map<string, Value>,
                        paths: seq<string>, trace: seq<CacheState>)
    requires SchemaOk(schema) && PathsFit(schema, model, fMap)
    requires forall p :: p in paths ==> p in fMap
    decreases |paths|
  {
    && |trace| == |paths| + 1
    && (|paths| > 0 ==>
          var n := |paths| - 1;
          && Calls(schema, model, id, fMap, paths[..n], trace[..n + 1])
          && HeapOk(trace[n].heap)
          && PathWritten(schema, model, id, paths[n], fMap[paths[n]], trace[n], trace[n + 1]))
  }

  /** One more call extends a run of calls. */
  lemma CallsSnoc(schema: Schema, model: ModelName, id: int, fMap: map<string, Value>,
                  paths: seq<string>, trace: seq<CacheState>, path: string, s': CacheState)
    requires SchemaOk(schema) && PathsFit(schema, model, fMap)
    requires forall p :: p in paths ==> p in fMap
    requires path in fMap
    requires Calls(schema, model, id, fMap, paths, trace) && HeapOk(trace[|paths|].heap)
    requires PathWritten(schema, model, id, path, fMap[path], trace[|paths|], s')
    ensures forall p :: p in paths + [path] ==> p in fMap
    ensures Calls(schema, model, id, fMap, paths + [path], trace + [s'])
  {
    SnocOf(paths, path);
    SnocOf(trace, s');
  }

  /** The call on `path` was the plain write of field `path` of (model, id), from `s` to `s'`. */
  ghost predicate FieldWritten(schema: Schema, model: ModelName, id: int, path: string, value: Value, s: CacheState, s': CacheState) {
    && SchemaOk(schema) && HeapOk(s.heap)
    && Known(schema, model, path) && Fits(schema[model][path].kind, value)
    && Written(schema, s.heap, s.dirty, CacheRef(model, id), path, value, s'.heap, s'.dirty)
  }

  /**
   * When every key is a bare field name, the calls are plain field writes of
   * the record (model, id): each step of the trace writes one key's value,
   * in the order of `paths`.
   */
  lemma {:induction false} OneSegmentCalls(schema: Schema, model: ModelName, id: int, fMap: map<string, Value>,
                                           paths: seq<string>, trace: seq<CacheState>)
    requires SchemaOk(schema) && PathsFit(schema, model, fMap)
    requires forall p :: p in paths ==> p in fMap && SegmentCount(p) == 1
    requires Calls(schema, model, id, fMap, paths, trace)
    ensures forall j :: 0 <= j < |paths| ==>
      FieldWritten(schema, model, id, paths[j], fMap[paths[j]], trace[j], trace[j + 1])
    decreases |paths|
  {
    if paths != [] {
      var n := |paths| - 1;
      var front, t := paths[..n], trace[..n + 1];
      PrefixOf(paths, n);
      PrefixOf(trace, n + 1);
      OneSegmentCalls(schema, model, id, fMap, front, t);
      OneSegmentStep(schema, model, id, paths[n], fMap[paths[n]], trace[n], trace[n + 1]);
      forall j | 0 <= j < n
        ensures FieldWritten(schema, model, id, paths[j], fMap[paths[j]], trace[j], trace[j + 1])
      {
        assert front[j] == paths[j] && t[j] == trace[j] && t[j + 1] == trace[j + 1];
      }
    }
  }

  /** A call on a bare field name is the plain write of that field of (model, id). */
  lemma OneSegmentStep(schema: Schema, model: ModelName, id: int, path: string, value: Value, s: CacheState, s': CacheState)
    requires SchemaOk(schema) && HeapOk(s.heap) && ValidPath(schema, model, Split(path))
    requires Fits(PathField(schema, model, Split(path)).kind, value)
    requires SegmentCount(path) == 1 && PathWritten(schema, model, id, path, value, s, s')
    ensures FieldWritten(schema, model, id, path, value, s, s')
  {
    OneSegmentPath(path);
  }

  class Cache {
    /** The field registry the cache consults (never changed by the cache). */
    const schema: Schema

    /** Last placeholder id handed out; placeholders are negative. */
    var counterId: int
    var data: Pointers
    var slots: Arena
    var m2mLinks: LinkTable
    /** Placeholder to the reference the database assigned it (ZeroRef until inserted). */
    var scheduledInsert: map<CacheRef, CacheRef>
    var scheduledUpdate: DirtyTable

    ghost predicate Valid()
      reads this`counterId, this`data, this`slots, this`scheduledUpdate
    {
      && SchemaOk(schema)
      && counterId <= 0
      && Indexed(data, slots)
      && (forall r :: r in scheduledUpdate ==> r.id > 0)
    }

    /** newCache: every table empty. */
    constructor (schema: Schema)
      requires SchemaOk(schema)
      ensures Valid() && this.schema == schema
      ensures counterId == 0 && data == map[] && slots == []
      ensures m2mLinks == map[] && scheduledInsert == map[] && scheduledUpdate == map[]
    {
      this.schema := schema;
      counterId := 0;
      data := map[];
      slots := [];
      m2mLinks := map[];
      scheduledInsert := map[];
      scheduledUpdate := map[];
    }

    /** The parts of the cache that reads consult. */
    function H(): (h: Heap)
      reads this
      ensures h.data == data && h.slots == slots && h.links == m2mLinks
    {
      Heap(data, slots, m2mLinks)
    }

    /** The field map `ref` currently reads (a fresh one when it has none). */
    ghost function View(ref: CacheRef): FieldMap
      reads this
      requires Valid()
    {
      Entry(data, slots, ref)
    }

    /** An absent key of the scheduled-insert map reads as the zero reference. */
    function Inserted(ref: CacheRef): (r: CacheRef)
      reads this
      ensures ref !in scheduledInsert ==> r == ZeroRef
    {
      InsertedIn(scheduledInsert, ref)
    }

    /** isNotInDb: a placeholder id whose insert has not produced a real id yet. */
    function IsNotInDb(ref: CacheRef): (b: bool)
      reads this
      ensures b <==> ref.id <= 0 && (ref !in scheduledInsert || scheduledInsert[ref].id <= 0)
    {
      PendingIn(scheduledInsert, ref)
    }

    /** isInDb is the exact negation of isNotInDb. */
    function IsInDb(ref: CacheRef): (b: bool)
      reads this
      ensures b <==> ref.id > 0 || (ref in scheduledInsert && scheduledInsert[ref].id > 0)
      ensures b == !IsNotInDb(ref)
    {
      !IsNotInDb(ref)
    }

    /** getCacheRef */
    function GetCacheRef(model: ModelName, id: int): (r: CacheRef)
      ensures r.model == model && r.id == id
    {
      CacheRef(model, id)
    }

    /** getData: the entry of `ref`, created with only its id when missing. */
    method GetData(ref: CacheRef) returns (m: FieldMap)
      requires Valid()
      modifies this`data, this`slots
      ensures Valid()
      ensures (data, slots) == WithEntry(old(data), old(slots), ref)
      ensures ref in data && m == slots[data[ref]]
      ensures old(ref in data) ==> data == old(data) && slots == old(slots)
      ensures old(ref !in data) ==> m == map["id" := Int(ref.id)]
    {
      if ref !in data {
        data := data[ref := |slots|];
        slots := slots + [map[]];
        slots := slots[data[ref] := slots[data[ref]]["id" := Int(ref.id)]];
        assert slots == old(slots) + [Fresh(ref)];
      }
      m := slots[data[ref]];
    }

    /**
     * initWithData: `ref` gets a new field map of its own, the given one with
     * its id set; a reference that shared its old map keeps that map.
     */
    method InitWithData(ref: CacheRef, fm: FieldMap) returns (m: FieldMap)
      requires Valid()
      modifies this`data, this`slots
      ensures Valid()
      ensures data == old(data)[ref := |old(slots)|] && slots == old(slots) + [m]
      ensures m == fm["id" := Int(ref.id)] && View(ref) == m
      ensures forall q :: q != ref ==> View(q) == old(View(q))
    {
      data := data[ref := |slots|];
      slots := slots + [fm];
      slots := slots[data[ref] := slots[data[ref]]["id" := Int(ref.id)]];
      m := slots[data[ref]];
    }

    /** copyPointer: `to` now shares the field map of `from`. */
    method CopyPointer(from: CacheRef, to: CacheRef)
      requires Valid() && from in data
      modifies this`data
      ensures Valid()
      ensures data == old(data)[to := old(data)[from]]
      ensures View(to) == View(from) == old(View(from))
      ensures forall q :: q != to ==> View(q) == old(View(q))
    {
      data := data[to := data[from]];
    }

    /** `c.getData(ref)[name] = v`: a write into the (possibly shared) map of `ref`. */
    method PutField(ref: CacheRef, name: string, v: Value)
      requires Valid()
      modifies this`data, this`slots
      ensures Valid()
      ensures (data, slots) == Assign(old(data), old(slots), ref, name, v)
    {
      var _ := GetData(ref);
      slots := slots[data[ref] := slots[data[ref]][name := v]];
    }

    // -------------------------------------------------------------------------
    // Writing one field
    // -------------------------------------------------------------------------

    /**
     * updateEntryByRef: writes one field (no path) of `ref`. A dirty mark is
     * only ever added; stored fields read back as written, through every
     * reference that shares `ref`'s field map; an inverse write makes each
     * target show up in the reverse scan for `ref`; a many-to-many write
     * leaves `ref` linked to exactly the given ids.
     */
    method UpdateEntryByRef(ref: CacheRef, name: string, value: Value)
      requires Valid() && Known(schema, ref.model, name)
      requires Fits(schema[ref.model][name].kind, value)
      modifies this`data, this`slots, this`m2mLinks, this`scheduledUpdate
      ensures Valid() && Written(schema, old(H()), old(scheduledUpdate), ref, name, value, H(), scheduledUpdate)
      decreases if schema[ref.model][name].kind in {One2Many, Rev2One} then 1 else 0, 2
    {
      var fi := schema[ref.model][name];
      match fi.kind
      case One2Many =>
        WriteInverse(ref, name, value.ids);
      case Rev2One =>
        WriteInverse(ref, name, [value.n]);
      case Many2Many =>
        WriteLinks(ref, name, value.ids);
      case _ =>
        WriteValue(ref, name, value);
    }

    /** The start of updateEntryByRef: the entry exists, and a real record is marked dirty. */
    method Touch(ref: CacheRef, name: string)
      requires Valid()
      modifies this`data, this`slots, this`scheduledUpdate
      ensures Valid()
      ensures (data, slots) == WithEntry(old(data), old(slots), ref)
      ensures scheduledUpdate == Mark(old(scheduledUpdate), ref, name)
    {
      var _ := GetData(ref);
      if ref.id > 0 {
        var dirty := if ref in scheduledUpdate then scheduledUpdate[ref] else {};
        scheduledUpdate := scheduledUpdate[ref := dirty + {name}];
      }
    }

    /** updateEntryByRef on a field that is not a relation computed from elsewhere. */
    method WriteValue(ref: CacheRef, name: string, value: Value)
      requires Valid() && Known(schema, ref.model, name)
      modifies this`data, this`slots, this`scheduledUpdate
      ensures Valid()
      ensures (data, slots) == Assign(old(data), old(slots), ref, name, value)
      ensures scheduledUpdate == Mark(old(scheduledUpdate), ref, name)
      ensures View(ref) == old(View(ref))[name := value]
      ensures forall q :: old(q in data && ref in data && data[q] == data[ref]) ==> View(q) == View(ref)
    {
      Touch(ref, name);
      PutField(ref, name, value);
      forall q
        ensures View(q) == if q == ref || (q in old(data) && ref in old(data) && old(data)[q] == old(data)[ref])
          then old(View(ref))[name := value] else old(View(q))
      {
        AssignSeenThroughAliases(old(data), old(slots), ref, name, value, q);
      }
    }

    /** updateEntryByRef on a many-to-many field. */
    method WriteLinks(ref: CacheRef, name: string, ids: seq<int>)
      requires Valid() && Known(schema, ref.model, name) && schema[ref.model][name].kind == Many2Many
      modifies this`data, this`slots, this`m2mLinks, this`scheduledUpdate
      ensures Valid()
      ensures var fi := schema[ref.model][name];
        var our := OurIndex(fi.m2mOurField, fi.m2mTheirField);
        && (data, slots) == Assign(old(data), old(slots), ref, name, Bool(true))
        && scheduledUpdate == Mark(old(scheduledUpdate), ref, name)
        && m2mLinks == AddLinks(RemoveLinks(old(m2mLinks), fi.m2mRelModel, our, ref.id), fi.m2mRelModel, our, ref.id, ids)
        && View(ref)[name] == Bool(true)
        && Linked(m2mLinks, fi.m2mRelModel, our, ref.id) == set v | v in ids
    {
      Touch(ref, name);
      var fi := schema[ref.model][name];
      RemoveM2MLinks(fi, ref.id);
      AddM2MLink(fi, ref.id, ids);
      PutField(ref, name, Bool(true));
      ReplaceLinks(old(m2mLinks), fi.m2mRelModel, OurIndex(fi.m2mOurField, fi.m2mTheirField), ref.id, ids);
      AssignSeenThroughAliases(old(data), old(slots), ref, name, Bool(true), ref);
    }

    /** updateEntryByRef on a one-to-many or reverse one-to-one field. */
    method WriteInverse(ref: CacheRef, name: string, ids: seq<int>)
      requires Valid() && Known(schema, ref.model, name)
      requires schema[ref.model][name].kind in {One2Many, Rev2One}
      modifies this`data, this`slots, this`m2mLinks, this`scheduledUpdate
      ensures Valid()
      ensures var fi := schema[ref.model][name];
        && (data, slots) == SetInverse(old(data), old(slots), ref, name, fi.relatedModel, fi.reverseFK, ids)
        && scheduledUpdate == MarkEach(Mark(old(scheduledUpdate), ref, name), fi.relatedModel, ids, fi.reverseFK)
        && m2mLinks == old(m2mLinks)
      ensures var fi := schema[ref.model][name];
        name != fi.reverseFK ==>
          && View(ref)[name] == Bool(true)
          && forall id :: id in ids ==> id in ReverseIds(data, slots, fi.relatedModel, fi.reverseFK, ref.id)
      decreases 1, 1
    {
      Touch(ref, name);
      var fi := schema[ref.model][name];
      SetReverseFks(fi.relatedModel, fi.reverseFK, ids, ref.id);
      PutField(ref, name, Bool(true));
      if name != fi.reverseFK {
        forall id | id in ids
          ensures id in ReverseIds(data, slots, fi.relatedModel, fi.reverseFK, ref.id)
        {
          SetInverseVisible(old(data), old(slots), ref, name, fi.relatedModel, fi.reverseFK, ids, id);
        }
        SetInverseRead(old(data), old(slots), ref, name, fi.relatedModel, fi.reverseFK, ids);
      }
    }

    /**
     * The loop of the inverse-field cases of updateEntryByRef: for each target,
     * updateEntry on the one-segment path `rfk`, which resolves to the target
     * itself, with `id` as value.
     */
    method SetReverseFks(rel: ModelName, rfk: string, ids: seq<int>, id: int)
      requires Valid() && Known(schema, rel, rfk) && IsFkRelation(schema[rel][rfk].kind)
      modifies this`data, this`slots, this`m2mLinks, this`scheduledUpdate
      ensures Valid()
      ensures (data, slots) == SetReverse(old(data), old(slots), rel, rfk, ids, Int(id))
      ensures scheduledUpdate == MarkEach(old(scheduledUpdate), rel, ids, rfk)
      ensures m2mLinks == old(m2mLinks)
      decreases 1, 0
    {
      for i := 0 to |ids|
        invariant Valid()
        invariant (data, slots) == SetReverse(old(data), old(slots), rel, rfk, ids[..i], Int(id))
        invariant scheduledUpdate == MarkEach(old(scheduledUpdate), rel, ids[..i], rfk)
        invariant m2mLinks == old(m2mLinks)
      {
        assert ids[..i + 1][..i] == ids[..i];
        UpdateEntryByRef(CacheRef(rel, ids[i]), rfk, Int(id));
      }
      assert ids[..|ids|] == ids;
    }

    // -------------------------------------------------------------------------
    // Many-to-many links
    // -------------------------------------------------------------------------

    /** removeM2MLinks: drops every link of `fi`'s table whose our-slot holds `id`. */
    method RemoveM2MLinks(fi: Field, id: int)
      modifies this`m2mLinks
      ensures m2mLinks == RemoveLinks(old(m2mLinks), fi.m2mRelModel, OurIndex(fi.m2mOurField, fi.m2mTheirField), id)
      ensures Linked(m2mLinks, fi.m2mRelModel, OurIndex(fi.m2mOurField, fi.m2mTheirField), id) == {}
    {
      var rel := fi.m2mRelModel;
      if rel !in m2mLinks {
        return;
      }
      var index := (Compare(fi.m2mOurField, fi.m2mTheirField) + 1) / 2;
      var todo := m2mLinks[rel];
      while todo != {}
        invariant rel in old(m2mLinks) && rel in m2mLinks && todo <= old(m2mLinks)[rel]
        invariant m2mLinks.Keys == old(m2mLinks).Keys
        invariant forall t :: t in m2mLinks && t != rel ==> m2mLinks[t] == old(m2mLinks)[t]
        invariant forall l :: l in m2mLinks[rel] <==> l in old(m2mLinks)[rel] && (l in todo || l.At(index) != id)
        decreases |todo|
      {
        var link :| link in todo;
        if link.At(index) == id {
          m2mLinks := m2mLinks[rel := m2mLinks[rel] - {link}];
        }
        todo := todo - {link};
      }
      assert m2mLinks[rel] == set l | l in old(m2mLinks)[rel] && l.At(index) != id;
      assert m2mLinks == RemoveLinks(old(m2mLinks), rel, index, id);
    }

    /** addM2MLink: links `id`, in our slot, to each of `values`. */
    method AddM2MLink(fi: Field, id: int, values: seq<int>)
      modifies this`m2mLinks
      ensures m2mLinks == AddLinks(old(m2mLinks), fi.m2mRelModel, OurIndex(fi.m2mOurField, fi.m2mTheirField), id, values)
      ensures forall v :: v in values ==> v in Linked(m2mLinks, fi.m2mRelModel, OurIndex(fi.m2mOurField, fi.m2mTheirField), id)
    {
      var rel := fi.m2mRelModel;
      if rel !in m2mLinks {
        m2mLinks := m2mLinks[rel := {}];
      }
      var base := m2mLinks[rel];
      var ourIndex := (Compare(fi.m2mOurField, fi.m2mTheirField) + 1) / 2;
      var theirIndex := (ourIndex + 1) % 2;
      for i := 0 to |values|
        invariant rel in m2mLinks
        invariant m2mLinks.Keys == old(m2mLinks).Keys + {rel}
        invariant forall t :: t in m2mLinks && t != rel ==> m2mLinks[t] == old(m2mLinks)[t]
        invariant m2mLinks[rel] == base + set v | v in values[..i] :: NewLink(ourIndex, id, v)
      {
        var newLink := Link(0, 0);
        newLink := if ourIndex == 0 then newLink.(slot0 := id) else newLink.(slot1 := id);
        newLink := if theirIndex == 0 then newLink.(slot0 := values[i]) else newLink.(slot1 := values[i]);
        assert newLink == NewLink(ourIndex, id, values[i]);
        assert values[..i + 1] == values[..i] + [values[i]];
        m2mLinks := m2mLinks[rel := m2mLinks[rel] + {newLink}];
      }
      assert values[..|values|] == values;
      assert m2mLinks == AddLinks(old(m2mLinks), rel, ourIndex, id, values);
      forall v | v in values
        ensures v in Linked(m2mLinks, rel, ourIndex, id)
      {
        assert NewLink(ourIndex, id, v) in m2mLinks[rel];
      }
    }

    /** getM2MLinks: the ids linked to `id` through `fi`, each once. */
    method GetM2MLinks(fi: Field, id: int) returns (res: seq<int>)
      ensures forall x :: x in res <==> x in Linked(m2mLinks, fi.m2mRelModel, OurIndex(fi.m2mOurField, fi.m2mTheirField), id)
      ensures Distinct(res)
    {
      var rel := fi.m2mRelModel;
      if rel !in m2mLinks {
        return [];
      }
      res := [];
      var ourIndex := (Compare(fi.m2mOurField, fi.m2mTheirField) + 1) / 2;
      var theirIndex := (ourIndex + 1) % 2;
      var todo := m2mLinks[rel];
      while todo != {}
        invariant todo <= m2mLinks[rel]
        invariant forall x :: x in res <==> x in LinkedIds(m2mLinks[rel] - todo, ourIndex, id)
        invariant Distinct(res)
        decreases |todo|
      {
        var link :| link in todo;
        if link.At(ourIndex) == id {
          assert link == NewLink(ourIndex, id, link.At(theirIndex));
          assert link.At(theirIndex) !in res;
          res := res + [link.At(theirIndex)];
        }
        todo := todo - {link};
      }
    }
  
    // -------------------------------------------------------------------------
    // Reading and walking paths
    // -------------------------------------------------------------------------

    /** The One2Many scan of get: every cached `rel` record whose `rfk` holds `id`. */
    method ScanReverse(rel: ModelName, rfk: string, id: int) returns (ids: seq<int>)
      requires Valid()
      ensures Distinct(ids)
      ensures forall x :: x in ids <==> x in ReverseIds(data, slots, rel, rfk, id)
    {
      ids := [];
      var todo := data.Keys;
      while todo != {}
        invariant todo <= data.Keys
        invariant Distinct(ids)
        invariant forall x :: x in ids ==> CacheRef(rel, x) !in todo
        invariant forall x :: x in ids <==> x in ReverseIds(data, slots, rel, rfk, id) && CacheRef(rel, x) !in todo
        decreases |todo|
      {
        var cRef :| cRef in todo;
        todo := todo - {cRef};
        var cVal := slots[data[cRef]];
        if cRef.model != rel {
          continue;
        }
        if !(rfk in cVal && cVal[rfk] == Int(id)) {
          continue;
        }
        ids := ids + [cRef.id];
      }
    }

    /** The Rev2One scan of get: the id of some cached `rel` record whose `rfk` holds `id`, or nil. */
    method ScanReverseFirst(rel: ModelName, rfk: string, id: int) returns (v: Value)
      requires Valid()
      ensures v == Nil <==> ReverseIds(data, slots, rel, rfk, id) == {}
      ensures v != Nil ==> v.Int? && v.n in ReverseIds(data, slots, rel, rfk, id)
    {
      var todo := data.Keys;
      while todo != {}
        invariant todo <= data.Keys
        invariant forall x :: x in ReverseIds(data, slots, rel, rfk, id) ==> CacheRef(rel, x) in todo
        decreases |todo|
      {
        var cRef :| cRef in todo;
        todo := todo - {cRef};
        var cVal := slots[data[cRef]];
        if cRef.model != rel {
          continue;
        }
        if !(rfk in cVal && cVal[rfk] == Int(id)) {
          continue;
        }
        assert cRef.id in ReverseIds(data, slots, rel, rfk, id);
        return Int(cRef.id);
      }
      return Nil;
    }

    /**
     * get: the value at the end of a path. When the walk reaches a field, the
     * result is what that field reads as; when an intermediate segment is not
     * an int, the result is nil. Only missing entries are created on the way.
     */
    method Get(model: ModelName, id: int, path: string) returns (v: Value)
      requires Valid() && ValidPath(schema, model, Split(path))
      modifies this`data, this`slots
      ensures Valid() && Grown(old(H()), H())
      ensures || (exists ref, name :: Resolves(schema, H(), model, id, Split(path), ref, name) &&
                    Known(schema, ref.model, name) && ReadsAs(schema, H(), ref, name, v))
              || (v == Nil && MayFail(schema, H(), model, id, Split(path)))
      decreases |Split(path)|, 1
    {
      var ref, name, ok := GetRelatedRef(model, id, path);
      if !ok {
        return Nil;
      }
      ResolvesEnd(schema, H(), model, id, Split(path), ref, name);
      ghost var mid := H();
      v := ReadField(ref, name);
      GrownTrans(old(H()), mid, H());
      ResolvesStable(schema, mid, H(), model, id, Split(path), ref, name);
    }

    /** The field-kind switch of get, on the record a path reached. */
    method ReadField(ref: CacheRef, name: string) returns (v: Value)
      requires Valid() && Known(schema, ref.model, name)
      modifies this`data, this`slots
      ensures Valid() && Grown(old(H()), H())
      ensures ReadsAs(schema, H(), ref, name, v)
    {
      GrownRefl(H());
      var fi := schema[ref.model][name];
      match fi.kind
      case One2Many =>
        var relIds := ScanReverse(fi.relatedModel, fi.reverseFK, ref.id);
        v := Ids(relIds);
      case Rev2One =>
        v := ScanReverseFirst(fi.relatedModel, fi.reverseFK, ref.id);
      case Many2Many =>
        var linked := GetM2MLinks(fi, ref.id);
        v := Ids(linked);
      case _ =>
        var m := GetData(ref);
        v := if name in m then m[name] else Nil;
        WithEntryGrows(old(data), old(slots), m2mLinks, ref);
    }

    /**
     * getRelatedRef: the record and field name a path leads to. A path of one
     * segment is the field of the starting record; a longer path is followed
     * only when its first segment reads as an int id.
     */
    method GetRelatedRef(model: ModelName, id: int, path: string) returns (ref: CacheRef, name: string, ok: bool)
      requires Valid() && ValidPath(schema, model, Split(path))
      modifies this`data, this`slots
      ensures Valid() && Grown(old(H()), H())
      ensures ok ==> Resolves(schema, H(), model, id, Split(path), ref, name)
      ensures !ok ==> ref == ZeroRef && name == "" && MayFail(schema, H(), model, id, Split(path))
      ensures SegmentCount(path) == 1 ==> ok && ref == CacheRef(model, id) && name == path && H() == old(H())
      decreases |Split(path)|, 0
    {
      var exprs := Split(path);
      GrownRefl(H());
      if |exprs| > 1 {
        var relModel := schema[model][exprs[0]].relatedModel;
        SplitNoSep(exprs[0]);
        var fkId := Get(model, id, exprs[0]);
        if !fkId.Int? {
          return ZeroRef, "", false;
        }
        ghost var mid := H();
        SplitJoin(exprs[1..]);
        ref, name, ok := GetRelatedRef(relModel, fkId.n, Join(exprs[1..]));
        GrownTrans(old(H()), mid, H());
        ReadsStable(schema, mid, H(), CacheRef(model, id), exprs[0], fkId);
        if ok {
          assert ReadsAs(schema, H(), CacheRef(model, id), exprs[0], Int(fkId.n));
        } else {
          assert ReadsAs(schema, H(), CacheRef(model, id), exprs[0], Int(fkId.n));
        }
        return;
      }
      JoinSplit(path);
      return CacheRef(model, id), exprs[0], true;
    }

    /**
     * updateEntry: writes the field a path leads to. A one-segment path is a
     * write of the starting record's field; when the walk fails, nothing but
     * missing entries is created and an error is reported.
     */
    method UpdateEntry(model: ModelName, id: int, path: string, value: Value) returns (ok: bool, ghost ref: CacheRef, ghost name: string)
      requires Valid() && ValidPath(schema, model, Split(path))
      requires Fits(PathField(schema, model, Split(path)).kind, value)
      modifies this`data, this`slots, this`m2mLinks, this`scheduledUpdate
      ensures Valid()
      ensures !ok ==> && Grown(old(H()), H())
                      && scheduledUpdate == old(scheduledUpdate)
                      && MayFail(schema, H(), model, id, Split(path))
      ensures ok ==> EndsAt(schema, model, Split(path), ref, name)
      ensures ok ==> WrittenVia(schema, model, id, path, value, old(H()), old(scheduledUpdate), ref, name, H(), scheduledUpdate)
      ensures SegmentCount(path) == 1 ==> ok && ref == CacheRef(model, id) && name == path
      ensures SegmentCount(path) == 1 ==> Written(schema, old(H()), old(scheduledUpdate), ref, path, value, H(), scheduledUpdate)
      ensures PathWritten(schema, model, id, path, value, CacheState(old(H()), old(scheduledUpdate)), CacheState(H(), scheduledUpdate))
    {
      var r, fName;
      r, fName, ok := GetRelatedRef(model, id, path);
      ref, name := r, fName;
      if !ok {
        WriteFailed(schema, model, id, path, value, CacheState(old(H()), old(scheduledUpdate)), CacheState(H(), scheduledUpdate));
        return;
      }
      ResolvesEnd(schema, H(), model, id, Split(path), r, fName);
      ghost var mid := H();
      UpdateEntryByRef(r, fName, value);
      WriteReached(schema, model, id, path, value, old(H()), mid, old(scheduledUpdate), r, fName, H(), scheduledUpdate);
    }

    /**
     * Whether the key a path leads to is in the reached record's map; the
     * entry of the reached record is created when missing.
     */
    method HasKey(model: ModelName, id: int, path: string) returns (present: bool)
      requires Valid() && ValidPath(schema, model, Split(path))
      modifies this`data, this`slots
      ensures Valid() && Grown(old(H()), H())
      ensures present ==> Present(schema, H(), model, id, Split(path))
      ensures !present ==> Missing(schema, H(), model, id, Split(path))
    {
      var ref, name, ok := GetRelatedRef(model, id, path);
      if !ok {
        return false;
      }
      ghost var mid := H();
      var m := GetData(ref);
      WithEntryGrows(mid.data, mid.slots, mid.links, ref);
      GrownTrans(old(H()), mid, H());
      ResolvesStable(schema, mid, H(), model, id, Split(path), ref, name);
      present := name in m;
    }

    /**
     * checkIfInCache: true when, for every id not below zero, every path
     * leads to a key present in the reached record's map; false when some
     * such path fails or leads to an absent key.
     */
    method CheckIfInCache(model: ModelName, ids: seq<int>, fieldNames: seq<string>) returns (b: bool)
      requires Valid() && forall f :: f in fieldNames ==> ValidPath(schema, model, Split(f))
      modifies this`data, this`slots
      ensures Valid() && Grown(old(H()), H())
      ensures b ==> forall id, f :: id in ids && id >= 0 && f in fieldNames ==> Present(schema, H(), model, id, Split(f))
      ensures !b ==> exists id, f :: id in ids && id >= 0 && f in fieldNames && Missing(schema, H(), model, id, Split(f))
    {
      GrownRefl(H());
      for k := 0 to |ids|
        invariant Valid() && Grown(old(H()), H())
        invariant forall id, f :: id in ids[..k] && id >= 0 && f in fieldNames ==> Present(schema, H(), model, id, Split(f))
      {
        assert ids[..k + 1] == ids[..k] + [ids[k]];
        if ids[k] < 0 {
          continue;
        }
        ghost var before := H();
        var all := HasKeys(model, ids[k], fieldNames);
        GrownTrans(old(H()), before, H());
        if !all {
          assert ids[k] in ids;
          return false;
        }
        forall id, f | id in ids[..k] && id >= 0 && f in fieldNames
          ensures Present(schema, H(), model, id, Split(f))
        {
          PresentStable(schema, before, H(), model, id, Split(f));
        }
      }
      assert ids[..|ids|] == ids;
      return true;
    }

    /** The inner loop of checkIfInCache, over the paths for one id. */
    method HasKeys(model: ModelName, id: int, fieldNames: seq<string>) returns (b: bool)
      requires Valid() && forall f :: f in fieldNames ==> ValidPath(schema, model, Split(f))
      modifies this`data, this`slots
      ensures Valid() && Grown(old(H()), H())
      ensures b ==> forall f :: f in fieldNames ==> Present(schema, H(), model, id, Split(f))
      ensures !b ==> exists f :: f in fieldNames && Missing(schema, H(), model, id, Split(f))
    {
      GrownRefl(H());
      for j := 0 to |fieldNames|
        invariant Valid() && Grown(old(H()), H())
        invariant forall f :: f in fieldNames[..j] ==> Present(schema, H(), model, id, Split(f))
      {
        ghost var before := H();
        var present := HasKey(model, id, fieldNames[j]);
        GrownTrans(old(H()), before, H());
        if !present {
          assert fieldNames[j] in fieldNames;
          return false;
        }
        forall f | f in fieldNames[..j + 1]
          ensures Present(schema, H(), model, id, Split(f))
        {
          PresentStable(schema, before, H(), model, id, Split(f));
        }
      }
      assert fieldNames[..|fieldNames|] == fieldNames;
      return true;
    }
  
    // -------------------------------------------------------------------------
    // Whole records
    // -------------------------------------------------------------------------

    /**
     * removeEntry: unless the check finds the key absent (ids below zero are
     * not checked), the key is deleted from the record's map, as seen through
     * every reference sharing it, and a many-to-many field loses its links.
     */
    method RemoveEntry(model: ModelName, id: int, fieldName: string)
      requires Valid() && Known(schema, model, fieldName)
      modifies this`data, this`slots, this`m2mLinks
      ensures Valid()
      ensures var r := CacheRef(model, id);
        id >= 0 && fieldName !in old(View(r)) ==> Grown(old(H()), H())
      ensures var r := CacheRef(model, id);
        var fi := schema[model][fieldName];
        !(id >= 0 && fieldName !in old(View(r))) ==>
          && r in data
          && View(r) == old(View(r)) - {fieldName}
          && (forall q :: q in data && data[q] == data[r] ==> View(q) == View(r))
          && (forall q :: !(q in data && data[q] == data[r]) ==> View(q) == old(View(q)))
          && m2mLinks == if fi.kind == Many2Many
                         then RemoveLinks(old(m2mLinks), fi.m2mRelModel, OurIndex(fi.m2mOurField, fi.m2mTheirField), id)
                         else old(m2mLinks)
    {
      var r := GetCacheRef(model, id);
      assert '.' !in fieldName;
      SplitNoSep(fieldName);
      OneSegment(schema, H(), model, id, fieldName);
      var inCache := CheckIfInCache(model, [id], [fieldName]);
      GrownEntry(old(H()), H(), r);
      OneSegment(schema, H(), model, id, fieldName);
      if !inCache {
        assert id >= 0 && fieldName !in old(View(r));
        return;
      }
      assert id >= 0 ==> fieldName in old(View(r)) by {
        assert id in [id] && fieldName in [fieldName];
      }
      ghost var mid := H();
      DeleteField(r, fieldName);
      forall q
        ensures View(q) == if q in data && data[q] == data[r] then old(View(r)) - {fieldName} else old(View(q))
      {
        GrownEntry(old(H()), mid, q);
      }
      var fi := schema[model][fieldName];
      if fi.kind == Many2Many {
        RemoveM2MLinks(fi, id);
      }
    }

    /** `delete(c.getData(ref), name)`: the key leaves the map of `ref` and of every reference sharing it. */
    method DeleteField(ref: CacheRef, name: string)
      requires Valid()
      modifies this`data, this`slots
      ensures Valid()
      ensures (data, slots) == Delete(old(data), old(slots), ref, name)
      ensures ref in data
      ensures forall q :: View(q) == if q in data && data[q] == data[ref] then old(View(ref)) - {name} else old(View(q))
    {
      var m := GetData(ref);
      slots := slots[data[ref] := m - {name}];
      forall q
        ensures View(q) == if q in data && data[q] == data[ref] then old(View(ref)) - {name} else old(View(q))
      {
        DeleteSeenThroughAliases(old(data), old(slots), ref, name, q);
      }
    }

    /** Some field of `model` among `names` drops link `l` of table `t` for `id`. */
    ghost predicate DroppedBy(model: ModelName, names: set<string>, t: ModelName, l: Link, id: int)
      reads this
      requires model in schema
    {
      exists f :: f in names && f in schema[model] && DropsLink(schema[model][f], t, l, id)
    }

    lemma DroppedByOneMore(model: ModelName, names: set<string>, f: string, t: ModelName, l: Link, id: int)
      requires model in schema && f in schema[model]
      ensures DroppedBy(model, names + {f}, t, l, id) <==>
        DroppedBy(model, names, t, l, id) || DropsLink(schema[model][f], t, l, id)
    {
      if DropsLink(schema[model][f], t, l, id) {
        assert f in names + {f};
      }
    }

    /**
     * invalidateRecord: the record's own pointer is removed (references that
     * shared its map keep it), and every link naming `id` through one of the
     * model's many-to-many fields is dropped; no other link is touched.
     */
    method InvalidateRecord(model: ModelName, id: int)
      requires Valid() && model in schema
      modifies this`data, this`m2mLinks
      ensures Valid()
      ensures data == old(data) - {CacheRef(model, id)}
      ensures m2mLinks.Keys == old(m2mLinks).Keys
      ensures forall t, l :: t in m2mLinks ==>
        (l in m2mLinks[t] <==> l in old(m2mLinks)[t] && !DroppedBy(model, schema[model].Keys, t, l, id))
    {
      data := data - {GetCacheRef(model, id)};
      var todo := schema[model].Keys;
      while todo != {}
        modifies this`m2mLinks
        invariant todo <= schema[model].Keys
        invariant m2mLinks.Keys == old(m2mLinks).Keys
        invariant forall t, l :: t in m2mLinks ==>
          (l in m2mLinks[t] <==> l in old(m2mLinks)[t] && !DroppedBy(model, schema[model].Keys - todo, t, l, id))
        decreases |todo|
      {
        var f :| f in todo;
        ghost var done := schema[model].Keys - todo;
        ghost var before := m2mLinks;
        DropFieldLinks(schema[model][f], id);
        forall t, l | t in m2mLinks
          ensures l in m2mLinks[t] <==> l in old(m2mLinks)[t] && !DroppedBy(model, done + {f}, t, l, id)
        {
          assert l in m2mLinks[t] <==> l in before[t] && !DropsLink(schema[model][f], t, l, id);
          DroppedByOneMore(model, done, f, t, l, id);
        }
        assert schema[model].Keys - (todo - {f}) == done + {f};
        todo := todo - {f};
      }
      assert schema[model].Keys - todo == schema[model].Keys;
    }

    /** One iteration of invalidateRecord: the links of field `fi` that name `id` are removed. */
    method DropFieldLinks(fi: Field, id: int)
      modifies this`m2mLinks
      ensures m2mLinks.Keys == old(m2mLinks).Keys
      ensures forall t, l :: t in m2mLinks ==>
        (l in m2mLinks[t] <==> l in old(m2mLinks)[t] && !DropsLink(fi, t, l, id))
    {
      if fi.kind == Many2Many {
        RemoveM2MLinks(fi, id);
        forall t, l | t in m2mLinks
          ensures l in m2mLinks[t] <==> l in old(m2mLinks)[t] && !DropsLink(fi, t, l, id)
        {
          RemoveLinksKeeps(old(m2mLinks), fi.m2mRelModel, OurIndex(fi.m2mOurField, fi.m2mTheirField), id, t, l);
        }
      }
    }

    /** The id partition of filterIdInCache: ids with an entry, then ids without, each in input order. */
    method FilterIdInCache(model: ModelName, ids: seq<int>) returns (idsInCache: seq<int>, idsNotInCache: seq<int>)
      ensures (idsInCache, idsNotInCache) == Partition(data, model, ids)
      ensures multiset(idsInCache) + multiset(idsNotInCache) == multiset(ids)
      ensures forall id :: id in idsInCache ==> CacheRef(model, id) in data
      ensures forall id :: id in idsNotInCache ==> CacheRef(model, id) !in data
    {
      idsInCache, idsNotInCache := [], [];
      for i := 0 to |ids|
        invariant (idsInCache, idsNotInCache) == Partition(data, model, ids[..i])
      {
        assert ids[..i + 1][..i] == ids[..i];
        if GetCacheRef(model, ids[i]) in data {
          idsInCache := idsInCache + [GetCacheRef(model, ids[i]).id];
        } else {
          idsNotInCache := idsNotInCache + [GetCacheRef(model, ids[i]).id];
        }
      }
      assert ids[..|ids|] == ids;
      PartitionSplits(data, model, ids);
    }

    /**
     * addRecord: updateEntry on every key of `fMap`, each exactly once, keys
     * with fewer path segments first; errors are ignored. `order` is the order
     * of the calls and `trace` the states around them, from the cache before
     * the first call to the cache after the last; when every key is a bare
     * field name, each call is the plain write of that field of (model, id).
     */
    method AddRecord(model: ModelName, id: int, fMap: map<string, Value>) returns (ghost order: seq<string>, ghost trace: seq<CacheState>)
      requires Valid() && PathsFit(schema, model, fMap)
      modifies this`data, this`slots, this`m2mLinks, this`scheduledUpdate
      ensures Valid()
      ensures forall p :: p in order <==> p in fMap
      ensures Distinct(order)
      ensures forall i, j :: 0 <= i < j < |order| ==> SegmentCount(order[i]) <= SegmentCount(order[j])
      ensures Calls(schema, model, id, fMap, order, trace)
      ensures trace[0] == CacheState(old(H()), old(scheduledUpdate)) && trace[|order|] == CacheState(H(), scheduledUpdate)
      ensures (forall p :: p in fMap ==> SegmentCount(p) == 1) ==>
        forall j :: 0 <= j < |order| ==> FieldWritten(schema, model, id, order[j], fMap[order[j]], trace[j], trace[j + 1])
    {
      var paths, maxLen := GroupBySegmentCount(fMap.Keys);
      order := [];
      trace := [CacheState(H(), scheduledUpdate)];
      for i := 0 to maxLen + 1
        invariant Valid()
        invariant ListedBelow(order, fMap.Keys, i)
        invariant Calls(schema, model, id, fMap, order, trace)
        invariant trace[0] == CacheState(old(H()), old(scheduledUpdate)) && trace[|order|] == CacheState(H(), scheduledUpdate)
      {
        var batch := Bucket(paths, i);
        GroupedBucket(paths, fMap.Keys, maxLen, i);
        ListedAppend(order, fMap.Keys, i, batch);
        trace := UpdateEach(model, id, fMap, batch, order, trace);
        order := order + batch;
      }
      if forall p :: p in fMap ==> SegmentCount(p) == 1 {
        OneSegmentCalls(schema, model, id, fMap, order, trace);
      }
    }

    /** The first loop of addRecord: the keys grouped by segment count, and the largest count. */
    method GroupBySegmentCount(keys: set<string>) returns (paths: map<int, seq<string>>, maxLen: int)
      ensures Grouped(paths, keys, maxLen) && maxLen >= 0
    {
      paths := map[];
      maxLen := 0;
      var todo := keys;
      while todo != {}
        invariant todo <= keys && maxLen >= 0
        invariant Grouped(paths, keys - todo, maxLen)
        decreases |todo|
      {
        var path :| path in todo;
        var n := |Split(path)|;
        GroupedAdd(paths, keys - todo, maxLen, path);
        paths := paths[n := (if n in paths then paths[n] else []) + [path]];
        maxLen := if n > maxLen then n else maxLen;
        assert keys - (todo - {path}) == (keys - todo) + {path};
        todo := todo - {path};
      }
      assert keys - todo == keys;
    }

    /**
     * The inner loop of addRecord: updateEntry on each path of `batch` in
     * order, ignoring errors. The calls extend the run `done` whose states
     * are `past`, ending in the current cache.
     */
    method UpdateEach(model: ModelName, id: int, fMap: map<string, Value>, batch: seq<string>,
                      ghost done: seq<string>, ghost past: seq<CacheState>) returns (ghost trace: seq<CacheState>)
      requires Valid() && PathsFit(schema, model, fMap)
      requires forall p :: p in batch ==> p in fMap
      requires forall p :: p in done ==> p in fMap
      requires Calls(schema, model, id, fMap, done, past) && past[|done|] == CacheState(H(), scheduledUpdate)
      modifies this`data, this`slots, this`m2mLinks, this`scheduledUpdate
      ensures Valid()
      ensures forall p :: p in done + batch ==> p in fMap
      ensures Calls(schema, model, id, fMap, done + batch, trace)
      ensures trace[0] == past[0] && trace[|done + batch|] == CacheState(H(), scheduledUpdate)
    {
      trace := past;
      PrefixEnds(done, batch);
      for j := 0 to |batch|
        invariant Valid()
        invariant forall p :: p in done + batch[..j] ==> p in fMap
        invariant Calls(schema, model, id, fMap, done + batch[..j], trace)
        invariant trace[0] == past[0] && trace[|done + batch[..j]|] == CacheState(H(), scheduledUpdate)
      {
        var _, _, _ := UpdateEntry(model, id, batch[j], fMap[batch[j]]);
        ghost var after := CacheState(H(), scheduledUpdate);
        CallsSnoc(schema, model, id, fMap, done + batch[..j], trace, batch[j], after);
        PrefixSnoc(done, batch, j);
        trace := trace + [after];
      }
    }
  }
}
