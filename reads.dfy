/**
 * What a read of the cache returns, stated on a snapshot of the cache, and
 * why the entries that reads create on the way never change the answer.
 *
 * A read through a reverse relation scans the identity map in no fixed
 * order, so a path read is described as a relation (`Resolves`) rather than
 * as a function of the snapshot.
 */
module Reads {
  import opened CacheTypes
  import opened Store

  /** The parts of the cache that reads consult. */
  datatype Heap = Heap(data: Pointers, slots: Arena, links: LinkTable)

  ghost predicate HeapOk(h: Heap) {
    Indexed(h.data, h.slots)
  }

  /**
   * `v` is a value `get` may return for field `name` of `ref`: the ids found
   * by scanning the reverse foreign key, the linked ids, or the stored value
   * (nil when the key is absent).
   */
  ghost predicate ReadsAs(schema: Schema, h: Heap, ref: CacheRef, name: string, v: Value)
    requires HeapOk(h) && Known(schema, ref.model, name)
  {
    var fi := schema[ref.model][name];
    match fi.kind
    case One2Many =>
      var found := ReverseIds(h.data, h.slots, fi.relatedModel, fi.reverseFK, ref.id);
      v.Ids? && Distinct(v.ids) && forall x :: x in v.ids <==> x in found
    case Rev2One =>
      var found := ReverseIds(h.data, h.slots, fi.relatedModel, fi.reverseFK, ref.id);
      if found == {} then v == Nil else v.Int? && v.n in found
    case Many2Many =>
      var linked := Linked(h.links, fi.m2mRelModel, OurIndex(fi.m2mOurField, fi.m2mTheirField), ref.id);
      v.Ids? && Distinct(v.ids) && forall x :: x in v.ids <==> x in linked
    case _ =>
      var m := Entry(h.data, h.slots, ref);
      v == if name in m then m[name] else Nil
  }

  /**
   * Walking `segs` from record (model, id) may end on field `name` of `ref`:
   * each intermediate segment reads as an int id of the next record.
   */
  ghost predicate Resolves(schema: Schema, h: Heap, model: ModelName, id: int, segs: seq<string>, ref: CacheRef, name: string)
    requires HeapOk(h) && ValidPath(schema, model, segs)
    decreases |segs|
  {
    if |segs| == 1 then ref == CacheRef(model, id) && name == segs[0]
    else
      exists n :: ReadsAs(schema, h, CacheRef(model, id), segs[0], Int(n)) &&
        Resolves(schema, h, schema[model][segs[0]].relatedModel, n, segs[1..], ref, name)
  }

  /** Walking `segs` from (model, id) may stop at a segment that does not read as an int. */
  ghost predicate MayFail(schema: Schema, h: Heap, model: ModelName, id: int, segs: seq<string>)
    requires HeapOk(h) && ValidPath(schema, model, segs)
    decreases |segs|
  {
    && |segs| > 1
    && ((exists v :: ReadsAs(schema, h, CacheRef(model, id), segs[0], v) && !v.Int?) ||
        (exists n :: ReadsAs(schema, h, CacheRef(model, id), segs[0], Int(n)) &&
           MayFail(schema, h, schema[model][segs[0]].relatedModel, n, segs[1..])))
  }

  /** Some walk of `segs` ends on a field whose key is in the reached record's map. */
  ghost predicate Present(schema: Schema, h: Heap, model: ModelName, id: int, segs: seq<string>)
    requires HeapOk(h) && ValidPath(schema, model, segs)
  {
    exists ref, name :: Resolves(schema, h, model, id, segs, ref, name) && name in Entry(h.data, h.slots, ref)
  }

  /** Some walk of `segs` fails, or ends on a key absent from the reached record's map. */
  ghost predicate Missing(schema: Schema, h: Heap, model: ModelName, id: int, segs: seq<string>)
    requires HeapOk(h) && ValidPath(schema, model, segs)
  {
    || MayFail(schema, h, model, id, segs)
    || exists ref, name :: Resolves(schema, h, model, id, segs, ref, name) && name !in Entry(h.data, h.slots, ref)
  }

  /** The record `ref` and key `name` are the model and last segment a path names. */
  ghost predicate EndsAt(schema: Schema, model: ModelName, segs: seq<string>, ref: CacheRef, name: string)
    requires ValidPath(schema, model, segs)
  {
    ref.model == PathModel(schema, model, segs) && name == segs[|segs| - 1]
  }

  /** A walk ends on the last segment, in the model that path names. */
  lemma {:induction false} ResolvesEnd(schema: Schema, h: Heap, model: ModelName, id: int, segs: seq<string>, ref: CacheRef, name: string)
    requires HeapOk(h) && ValidPath(schema, model, segs)
    requires Resolves(schema, h, model, id, segs, ref, name)
    ensures EndsAt(schema, model, segs, ref, name)
    ensures Known(schema, ref.model, name) && schema[ref.model][name] == PathField(schema, model, segs)
    decreases |segs|
  {
    if |segs| > 1 {
      var n :| ReadsAs(schema, h, CacheRef(model, id), segs[0], Int(n)) &&
        Resolves(schema, h, schema[model][segs[0]].relatedModel, n, segs[1..], ref, name);
      ResolvesEnd(schema, h, schema[model][segs[0]].relatedModel, n, segs[1..], ref, name);
    }
  }

  // ---------------------------------------------------------------------------
  // Reads only create entries, and created entries change no read
  // ---------------------------------------------------------------------------

  /**
   * `h'` differs from `h` only by new entries holding just their id (what
   * getData adds); links are unchanged.
   */
  ghost predicate Grown(h: Heap, h': Heap) {
    && HeapOk(h) && HeapOk(h')
    && KeepsPointers(h.data, h'.data)
    && h.slots <= h'.slots
    && (forall r :: r in h'.data && r !in h.data ==> h'.slots[h'.data[r]] == Fresh(r))
    && h'.links == h.links
  }

  lemma GrownRefl(h: Heap)
    requires HeapOk(h)
    ensures Grown(h, h)
  {
  }

  lemma GrownTrans(h1: Heap, h2: Heap, h3: Heap)
    requires Grown(h1, h2) && Grown(h2, h3)
    ensures Grown(h1, h3)
  {
    forall r | r in h3.data && r !in h1.data
      ensures h3.slots[h3.data[r]] == Fresh(r)
    {
      if r in h2.data {
        assert h3.data[r] == h2.data[r] < |h2.slots|;
      }
    }
  }

  /** getData's effect is a growth. */
  lemma WithEntryGrows(data: Pointers, slots: Arena, links: LinkTable, r: CacheRef)
    requires Indexed(data, slots)
    ensures var (d, s) := WithEntry(data, slots, r);
      Grown(Heap(data, slots, links), Heap(d, s, links))
  {
  }

  /** Every record reads the same map after a growth. */
  lemma GrownEntry(h: Heap, h': Heap, q: CacheRef)
    requires Grown(h, h')
    ensures Entry(h'.data, h'.slots, q) == Entry(h.data, h.slots, q)
  {
    if q in h.data {
      assert h'.slots[h'.data[q]] == h.slots[h.data[q]];
    }
  }

  /** A reverse scan on any key but "id" finds the same records after a growth. */
  lemma GrownReverse(h: Heap, h': Heap, rel: ModelName, rfk: string, id: int)
    requires Grown(h, h') && rfk != "id"
    ensures ReverseIds(h'.data, h'.slots, rel, rfk, id) == ReverseIds(h.data, h.slots, rel, rfk, id)
  {
    var before := ReverseIds(h.data, h.slots, rel, rfk, id);
    var after := ReverseIds(h'.data, h'.slots, rel, rfk, id);
    forall x | x in after ensures x in before {
      var r :| r in h'.data && r.model == rel && rfk in h'.slots[h'.data[r]] && h'.slots[h'.data[r]][rfk] == Int(id) && r.id == x;
      GrownEntry(h, h', r);
      assert r in h.data;
    }
    forall x | x in before ensures x in after {
      var r :| r in h.data && r.model == rel && rfk in h.slots[h.data[r]] && h.slots[h.data[r]][rfk] == Int(id) && r.id == x;
      GrownEntry(h, h', r);
    }
  }

  /** A reverse foreign key is never "id", which every model declares as a plain field. */
  lemma ReverseKeyIsNotId(schema: Schema, model: ModelName, name: string)
    requires SchemaOk(schema) && Known(schema, model, name)
    requires schema[model][name].kind in {One2Many, Rev2One}
    ensures schema[model][name].reverseFK != "id"
  {
    var fi := schema[model][name];
    assert IsFkRelation(schema[fi.relatedModel][fi.reverseFK].kind);
    assert schema[fi.relatedModel]["id"].kind == Plain;
  }

  /** Field reads are stable under growth. */
  lemma ReadsStable(schema: Schema, h: Heap, h': Heap, ref: CacheRef, name: string, v: Value)
    requires SchemaOk(schema) && Grown(h, h') && Known(schema, ref.model, name)
    ensures ReadsAs(schema, h', ref, name, v) <==> ReadsAs(schema, h, ref, name, v)
  {
    var fi := schema[ref.model][name];
    if fi.kind in {One2Many, Rev2One} {
      ReverseKeyIsNotId(schema, ref.model, name);
      GrownReverse(h, h', fi.relatedModel, fi.reverseFK, ref.id);
    } else {
      GrownEntry(h, h', ref);
    }
  }

  /** Path walks are stable under growth. */
  lemma {:induction false} ResolvesStable(schema: Schema, h: Heap, h': Heap, model: ModelName, id: int, segs: seq<string>, ref: CacheRef, name: string)
    requires SchemaOk(schema) && Grown(h, h') && ValidPath(schema, model, segs)
    ensures Resolves(schema, h', model, id, segs, ref, name) <==> Resolves(schema, h, model, id, segs, ref, name)
    decreases |segs|
  {
    if |segs| > 1 {
      var rel := schema[model][segs[0]].relatedModel;
      forall n
        ensures (ReadsAs(schema, h', CacheRef(model, id), segs[0], Int(n)) && Resolves(schema, h', rel, n, segs[1..], ref, name))
            <==> (ReadsAs(schema, h, CacheRef(model, id), segs[0], Int(n)) && Resolves(schema, h, rel, n, segs[1..], ref, name))
      {
        ReadsStable(schema, h, h', CacheRef(model, id), segs[0], Int(n));
        ResolvesStable(schema, h, h', rel, n, segs[1..], ref, name);
      }
    }
  }

  lemma {:induction false} MayFailStable(schema: Schema, h: Heap, h': Heap, model: ModelName, id: int, segs: seq<string>)
    requires SchemaOk(schema) && Grown(h, h') && ValidPath(schema, model, segs)
    ensures MayFail(schema, h', model, id, segs) <==> MayFail(schema, h, model, id, segs)
    decreases |segs|
  {
    if |segs| > 1 {
      var rel := schema[model][segs[0]].relatedModel;
      forall v
        ensures ReadsAs(schema, h', CacheRef(model, id), segs[0], v) <==> ReadsAs(schema, h, CacheRef(model, id), segs[0], v)
      {
        ReadsStable(schema, h, h', CacheRef(model, id), segs[0], v);
      }
      forall n
        ensures (ReadsAs(schema, h', CacheRef(model, id), segs[0], Int(n)) && MayFail(schema, h', rel, n, segs[1..]))
            <==> (ReadsAs(schema, h, CacheRef(model, id), segs[0], Int(n)) && MayFail(schema, h, rel, n, segs[1..]))
      {
        ReadsStable(schema, h, h', CacheRef(model, id), segs[0], Int(n));
        MayFailStable(schema, h, h', rel, n, segs[1..]);
      }
    }
  }

  /** Whether a key is present at the end of a walk does not change under growth. */
  lemma PresentStable(schema: Schema, h: Heap, h': Heap, model: ModelName, id: int, segs: seq<string>)
    requires SchemaOk(schema) && Grown(h, h') && ValidPath(schema, model, segs)
    ensures Present(schema, h', model, id, segs) <==> Present(schema, h, model, id, segs)
    ensures Missing(schema, h', model, id, segs) <==> Missing(schema, h, model, id, segs)
  {
    MayFailStable(schema, h, h', model, id, segs);
    forall ref, name
      ensures Resolves(schema, h', model, id, segs, ref, name) <==> Resolves(schema, h, model, id, segs, ref, name)
      ensures Entry(h'.data, h'.slots, ref) == Entry(h.data, h.slots, ref)
    {
      ResolvesStable(schema, h, h', model, id, segs, ref, name);
      GrownEntry(h, h', ref);
    }
  }

  /** A one-segment walk ends on the starting record itself and never fails. */
  lemma OneSegment(schema: Schema, h: Heap, model: ModelName, id: int, name: string)
    requires HeapOk(h) && Known(schema, model, name)
    ensures ValidPath(schema, model, [name])
    ensures Resolves(schema, h, model, id, [name], CacheRef(model, id), name)
    ensures forall ref, n :: Resolves(schema, h, model, id, [name], ref, n) ==> ref == CacheRef(model, id) && n == name
    ensures !MayFail(schema, h, model, id, [name])
    ensures Present(schema, h, model, id, [name]) <==> name in Entry(h.data, h.slots, CacheRef(model, id))
    ensures Missing(schema, h, model, id, [name]) <==> name !in Entry(h.data, h.slots, CacheRef(model, id))
  {
  }
}
