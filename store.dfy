/**
 * The state of the record cache as plain values, and the effect of each
 * elementary write on it.
 *
 * The identity map holds one pointer per record reference. Pointers are
 * indices into an arena of field maps, so two references that hold the same
 * index share one field map: a write through either is seen through both.
 */
module Store {
  import opened CacheTypes

  /** Record reference to arena index (Go: the *FieldMap values of cache.data). */
  type Pointers = map<CacheRef, nat>

  /** The field maps the pointers refer to. */
  type Arena = seq<FieldMap>

  /** Relation model to its set of links (Go: cache.m2mLinks). */
  type LinkTable = map<ModelName, set<Link>>

  /** Record reference to its dirty field names (Go: cache.scheduledUpdate). */
  type DirtyTable = map<CacheRef, set<string>>

  ghost predicate Indexed(data: Pointers, slots: Arena) {
    forall r :: r in data ==> data[r] < |slots|
  }

  /** Every pointer of `data` is still in `data'`, unmoved. */
  ghost predicate KeepsPointers(data: Pointers, data': Pointers) {
    forall r :: r in data ==> r in data' && data'[r] == data[r]
  }

  /** The map a fresh entry starts with: only the id. */
  function Fresh(r: CacheRef): FieldMap {
    map["id" := Int(r.id)]
  }

  /**
   * The field map `getData` would return for `r`: the stored one, or the
   * fresh one it creates.
   */
  function Entry(data: Pointers, slots: Arena, r: CacheRef): FieldMap
    requires Indexed(data, slots)
  {
    if r in data then slots[data[r]] else Fresh(r)
  }

  /** getData's effect on the state: a missing entry is created, nothing else moves. */
  function WithEntry(data: Pointers, slots: Arena, r: CacheRef): (res: (Pointers, Arena))
    requires Indexed(data, slots)
    ensures Indexed(res.0, res.1) && r in res.0
    ensures res.0.Keys == data.Keys + {r}
    ensures KeepsPointers(data, res.0) && slots <= res.1
    ensures forall q :: Entry(res.0, res.1, q) == Entry(data, slots, q)
  {
    if r in data then (data, slots) else (data[r := |slots|], slots + [Fresh(r)])
  }

  /** Writing one field of `r`'s field map (the default case of updateEntryByRef). */
  function Assign(data: Pointers, slots: Arena, r: CacheRef, name: string, v: Value): (res: (Pointers, Arena))
    requires Indexed(data, slots)
    ensures Indexed(res.0, res.1) && r in res.0
    ensures res.0.Keys == data.Keys + {r} && KeepsPointers(data, res.0)
  {
    var (d, s) := WithEntry(data, slots, r);
    (d, s[d[r] := s[d[r]][name := v]])
  }

  /** Deleting one field from `r`'s field map (removeEntry). */
  function Delete(data: Pointers, slots: Arena, r: CacheRef, name: string): (res: (Pointers, Arena))
    requires Indexed(data, slots)
    ensures Indexed(res.0, res.1) && r in res.0
    ensures res.0.Keys == data.Keys + {r} && KeepsPointers(data, res.0)
  {
    var (d, s) := WithEntry(data, slots, r);
    (d, s[d[r] := s[d[r]] - {name}])
  }

  /** A deletion is seen through every reference that shares the map, and through no other. */
  lemma DeleteSeenThroughAliases(data: Pointers, slots: Arena, r: CacheRef, name: string, q: CacheRef)
    requires Indexed(data, slots)
    ensures var (d, s) := Delete(data, slots, r, name);
      Entry(d, s, q) ==
        if q == r || (q in data && r in data && data[q] == data[r])
        then Entry(data, slots, r) - {name}
        else Entry(data, slots, q)
  {
    var (d1, s1) := WithEntry(data, slots, r);
    assert Entry(d1, s1, q) == Entry(data, slots, q);
    assert Entry(d1, s1, r) == Entry(data, slots, r);
    if r !in data && q in data {
      assert d1[q] < |slots| == d1[r];
    }
  }

  /**
   * A write is seen through every reference that shares the written field
   * map, and through no other.
   */
  lemma AssignSeenThroughAliases(data: Pointers, slots: Arena, r: CacheRef, name: string, v: Value, q: CacheRef)
    requires Indexed(data, slots)
    ensures var (d, s) := Assign(data, slots, r, name, v);
      Entry(d, s, q) ==
        if q == r || (q in data && r in data && data[q] == data[r])
        then Entry(data, slots, r)[name := v]
        else Entry(data, slots, q)
  {
    var (d1, s1) := WithEntry(data, slots, r);
    assert Entry(d1, s1, q) == Entry(data, slots, q);
    assert Entry(d1, s1, r) == Entry(data, slots, r);
    if r !in data && q in data {
      assert d1[q] < |slots| == d1[r];
    }
  }

  /** The reverse foreign key `rfk` set to `v` on record (rel, id) for each id in turn. */
  function SetReverse(data: Pointers, slots: Arena, rel: ModelName, rfk: string, ids: seq<int>, v: Value): (res: (Pointers, Arena))
    requires Indexed(data, slots)
    ensures Indexed(res.0, res.1) && KeepsPointers(data, res.0)
    ensures res.0.Keys == data.Keys + set id | id in ids :: CacheRef(rel, id)
    decreases |ids|
  {
    if ids == [] then (data, slots)
    else
      var (d, s) := SetReverse(data, slots, rel, rfk, ids[..|ids| - 1], v);
      assert ids == ids[..|ids| - 1] + [ids[|ids| - 1]];
      Assign(d, s, CacheRef(rel, ids[|ids| - 1]), rfk, v)
  }

  /** After SetReverse, each target's reverse foreign key holds `v`. */
  lemma {:induction false} SetReverseReachesTarget(data: Pointers, slots: Arena, rel: ModelName, rfk: string, ids: seq<int>, v: Value, id: int)
    requires Indexed(data, slots)
    requires id in ids
    ensures var (d, s) := SetReverse(data, slots, rel, rfk, ids, v);
      rfk in Entry(d, s, CacheRef(rel, id)) && Entry(d, s, CacheRef(rel, id))[rfk] == v
  {
    var init := ids[..|ids| - 1];
    var last := CacheRef(rel, ids[|ids| - 1]);
    var (d, s) := SetReverse(data, slots, rel, rfk, init, v);
    AssignSeenThroughAliases(d, s, last, rfk, v, CacheRef(rel, id));
    if id != ids[|ids| - 1] {
      assert ids == init + [ids[|ids| - 1]];
      SetReverseReachesTarget(data, slots, rel, rfk, init, v, id);
    }
  }

  /**
   * Writing a one-to-many (or reverse one-to-one) field of `ref`: each target
   * gets `ref`'s id in its reverse foreign key, then the field itself is
   * marked as set.
   */
  function SetInverse(data: Pointers, slots: Arena, ref: CacheRef, name: string, rel: ModelName, rfk: string, ids: seq<int>): (res: (Pointers, Arena))
    requires Indexed(data, slots)
    ensures Indexed(res.0, res.1) && KeepsPointers(data, res.0)
    ensures res.0.Keys == data.Keys + {ref} + set id | id in ids :: CacheRef(rel, id)
  {
    var (d0, s0) := WithEntry(data, slots, ref);
    var (d1, s1) := SetReverse(d0, s0, rel, rfk, ids, Int(ref.id));
    Assign(d1, s1, ref, name, Bool(true))
  }

  /**
   * After SetInverse every target is found by the reverse scan for `ref`'s id,
   * and `ref` reads its field as set.
   */
  lemma SetInverseVisible(data: Pointers, slots: Arena, ref: CacheRef, name: string, rel: ModelName, rfk: string, ids: seq<int>, id: int)
    requires Indexed(data, slots)
    requires id in ids && name != rfk
    ensures var (d, s) := SetInverse(data, slots, ref, name, rel, rfk, ids);
      && id in ReverseIds(d, s, rel, rfk, ref.id)
      && name in Entry(d, s, ref) && Entry(d, s, ref)[name] == Bool(true)
  {
    var (d0, s0) := WithEntry(data, slots, ref);
    var (d1, s1) := SetReverse(d0, s0, rel, rfk, ids, Int(ref.id));
    var (d, s) := Assign(d1, s1, ref, name, Bool(true));
    var t := CacheRef(rel, id);
    SetReverseReachesTarget(d0, s0, rel, rfk, ids, Int(ref.id), id);
    AssignSeenThroughAliases(d1, s1, ref, name, Bool(true), t);
    AssignSeenThroughAliases(d1, s1, ref, name, Bool(true), ref);
    assert t in d;
  }

  /** After SetInverse, `ref` reads its field as set: the final write stores `true`, whatever the targets. */
  lemma SetInverseRead(data: Pointers, slots: Arena, ref: CacheRef, name: string, rel: ModelName, rfk: string, ids: seq<int>)
    requires Indexed(data, slots)
    ensures var (d, s) := SetInverse(data, slots, ref, name, rel, rfk, ids);
      name in Entry(d, s, ref) && Entry(d, s, ref)[name] == Bool(true)
  {
    var (d0, s0) := WithEntry(data, slots, ref);
    var (d1, s1) := SetReverse(d0, s0, rel, rfk, ids, Int(ref.id));
    AssignSeenThroughAliases(d1, s1, ref, name, Bool(true), ref);
  }

  /** The ids of cached `rel` records whose field `rfk` holds the int `id`. */
  function ReverseIds(data: Pointers, slots: Arena, rel: ModelName, rfk: string, id: int): set<int>
    requires Indexed(data, slots)
  {
    set r | r in data && r.model == rel && rfk in slots[data[r]] && slots[data[r]][rfk] == Int(id) :: r.id
  }

  // ---------------------------------------------------------------------------
  // Dirty field names
  // ---------------------------------------------------------------------------

  function Dirty(su: DirtyTable, r: CacheRef): set<string> {
    if r in su then su[r] else {}
  }

  /** Marking `name` dirty on `r`: only records with a positive id are marked. */
  function Mark(su: DirtyTable, r: CacheRef, name: string): (res: DirtyTable)
    ensures forall q :: Dirty(res, q) == Dirty(su, q) + (if q == r && r.id > 0 then {name} else {})
    ensures res.Keys == su.Keys + (if r.id > 0 then {r} else {})
  {
    if r.id > 0 then su[r := Dirty(su, r) + {name}] else su
  }

  /** Marking `name` dirty on each record (rel, id) in turn. */
  function MarkEach(su: DirtyTable, rel: ModelName, ids: seq<int>, name: string): (res: DirtyTable)
    decreases |ids|
  {
    if ids == [] then su
    else Mark(MarkEach(su, rel, ids[..|ids| - 1], name), CacheRef(rel, ids[|ids| - 1]), name)
  }

  /** MarkEach adds `name` to exactly the positive targets. */
  lemma {:induction false} MarkEachDirty(su: DirtyTable, rel: ModelName, ids: seq<int>, name: string, q: CacheRef)
    ensures Dirty(MarkEach(su, rel, ids, name), q) ==
      Dirty(su, q) + (if q.model == rel && q.id in ids && q.id > 0 then {name} else {})
    ensures q in MarkEach(su, rel, ids, name) <==> q in su || (q.model == rel && q.id in ids && q.id > 0)
  {
    if ids != [] {
      var init := ids[..|ids| - 1];
      MarkEachDirty(su, rel, init, name, q);
      assert ids == init + [ids[|ids| - 1]];
      assert q.id in ids <==> q.id in init || q.id == ids[|ids| - 1];
    }
  }

  // ---------------------------------------------------------------------------
  // Many-to-many link table
  // ---------------------------------------------------------------------------

  /** The ids linked to `id` read from slot `our` of relation table `rel`. */
  function Linked(links: LinkTable, rel: ModelName, our: int, id: int): set<int> {
    if rel in links then LinkedIds(links[rel], our, id) else {}
  }

  /** removeM2MLinks: the links of `rel` whose slot `our` holds `id` are dropped. */
  function RemoveLinks(links: LinkTable, rel: ModelName, our: int, id: int): LinkTable {
    if rel !in links then links
    else links[rel := set l | l in links[rel] && l.At(our) != id]
  }

  /** Which links RemoveLinks keeps: all but those of `rel` whose slot `our` holds `id`. */
  lemma RemoveLinksKeeps(links: LinkTable, rel: ModelName, our: int, id: int, t: ModelName, l: Link)
    ensures var after := RemoveLinks(links, rel, our, id);
      && after.Keys == links.Keys
      && (t in links ==> (l in after[t] <==> l in links[t] && !(t == rel && l.At(our) == id)))
  {
  }

  /** addM2MLink: one link per value, `id` in slot `our`; the table is created if absent. */
  function AddLinks(links: LinkTable, rel: ModelName, our: int, id: int, vals: seq<int>): LinkTable
    requires 0 <= our <= 1
  {
    var base := if rel in links then links[rel] else {};
    links[rel := base + set v | v in vals :: NewLink(our, id, v)]
  }

  /**
   * Replacing the links of `id` leaves it linked to exactly the given ids,
   * keeps every link of another record, and touches no other relation table.
   */
  lemma ReplaceLinks(links: LinkTable, rel: ModelName, our: int, id: int, vals: seq<int>)
    requires 0 <= our <= 1
    ensures var after := AddLinks(RemoveLinks(links, rel, our, id), rel, our, id, vals);
      && Linked(after, rel, our, id) == (set v | v in vals)
      && (forall l :: rel in links && l in links[rel] && l.At(our) != id ==> l in after[rel])
      && (forall l :: l in after[rel] && l.At(our) != id ==> l in links[rel])
      && (forall t :: t != rel ==> (t in after <==> t in links) && (t in links ==> after[t] == links[t]))
  {
    var after := AddLinks(RemoveLinks(links, rel, our, id), rel, our, id, vals);
    forall x | x in Linked(after, rel, our, id) ensures x in vals {
      var l: Link :| l in after[rel] && l.At(our) == id && l.At(1 - our) == x;
      var v :| v in vals && l == NewLink(our, id, v);
    }
    forall x | x in vals ensures x in Linked(after, rel, our, id) {
      var l := NewLink(our, id, x);
      assert l in after[rel];
    }
  }

  // ---------------------------------------------------------------------------
  // Partition of ids by presence in the identity map
  // ---------------------------------------------------------------------------

  /** The ids of `model` split into those with an entry and those without, in order. */
  function Partition(data: Pointers, model: ModelName, ids: seq<int>): (res: (seq<int>, seq<int>))
    decreases |ids|
  {
    if ids == [] then ([], [])
    else
      var (cached, missing) := Partition(data, model, ids[..|ids| - 1]);
      var id := ids[|ids| - 1];
      if CacheRef(model, id) in data then (cached + [id], missing) else (cached, missing + [id])
  }

  /**
   * The partition loses and invents nothing: together the two halves are the
   * input as a multiset, the first half has entries and the second has none.
   */
  lemma {:induction false} PartitionSplits(data: Pointers, model: ModelName, ids: seq<int>)
    ensures var (cached, missing) := Partition(data, model, ids);
      && multiset(cached) + multiset(missing) == multiset(ids)
      && (forall id :: id in cached ==> CacheRef(model, id) in data)
      && (forall id :: id in missing ==> CacheRef(model, id) !in data)
    decreases |ids|
  {
    if ids != [] {
      var init := ids[..|ids| - 1];
      PartitionSplits(data, model, init);
      assert ids == init + [ids[|ids| - 1]];
    }
  }
}
