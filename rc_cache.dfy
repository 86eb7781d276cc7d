/**
 * The cache helpers of a record collection: placeholder creation for new
 * records and the (model, id) reference constructors.
 */
module RecordCollections {
  import opened CacheTypes
  import opened Store
  import opened CacheStore

  /** The part of a record collection these helpers use: its model and its ids. */
  datatype RecordCollection = RecordCollection(model: ModelName, ids: seq<int>)

  /** Model.toRef: the reference of record `id` of `model`. */
  function ToRef(model: ModelName, id: int): (r: CacheRef)
    ensures r.model == model && r.id == id
  {
    CacheRef(model, id)
  }

  /** getCacheRef: the reference of record `id` of the collection's model. */
  function GetCacheRef(rc: RecordCollection, id: int): (r: CacheRef)
    ensures r.model == rc.model && r.id == id
  {
    ToRef(rc.model, id)
  }

  /** getFirstCacheRef: the reference of the first record (indexing an empty collection panics). */
  function GetFirstCacheRef(rc: RecordCollection): (r: CacheRef)
    requires |rc.ids| > 0
    ensures r.model == rc.model && r.id == rc.ids[0]
  {
    GetCacheRef(rc, rc.ids[0])
  }

  /**
   * createInCache: the counter goes down by one and its new value is the
   * placeholder id; the record's own entry is the given field map with that
   * id; the record is scheduled for insert with no database id yet, so it is
   * not in the database; nothing is marked dirty.
   */
  method CreateInCache(cache: Cache, rc: RecordCollection, fm: FieldMap) returns (id: int)
    requires cache.Valid()
    modifies cache`counterId, cache`data, cache`slots, cache`scheduledInsert
    ensures cache.Valid()
    ensures id == old(cache.counterId) - 1 && cache.counterId == id && id < 0
    ensures cache.View(GetCacheRef(rc, id)) == fm["id" := Int(id)]
    ensures forall q :: q != GetCacheRef(rc, id) ==> cache.View(q) == old(cache.View(q))
    ensures cache.scheduledInsert == old(cache.scheduledInsert)[GetCacheRef(rc, id) := ZeroRef]
    ensures cache.IsNotInDb(GetCacheRef(rc, id))
    ensures cache.scheduledUpdate == old(cache.scheduledUpdate)
  {
    cache.counterId := cache.counterId - 1;
    var ref := GetCacheRef(rc, cache.counterId);
    var _ := cache.InitWithData(ref, fm);
    cache.scheduledInsert := cache.scheduledInsert[ref := ZeroRef];
    id := ref.id;
  }

  /**
   * The ids of successive createInCache calls on one cache, starting from
   * counter `start`: each call returns one less than the one before, so
   * they count down from start - 1, are all negative and never repeat.
   */
  lemma {:induction false} CountdownIds(start: int, ids: seq<int>)
    requires start <= 0
    requires forall i :: 0 <= i < |ids| ==> ids[i] == (if i == 0 then start else ids[i - 1]) - 1
    ensures forall i :: 0 <= i < |ids| ==> ids[i] == start - 1 - i
    ensures forall i :: 0 <= i < |ids| ==> ids[i] < 0
    ensures Distinct(ids)
  {
    if ids != [] {
      var front := ids[..|ids| - 1];
      forall i | 0 <= i < |front|
        ensures front[i] == (if i == 0 then start else front[i - 1]) - 1
      {
        assert front[i] == ids[i];
        assert ids[i] == (if i == 0 then start else ids[i - 1]) - 1;
        if i > 0 {
          assert front[i - 1] == ids[i - 1];
        }
      }
      CountdownIds(start, front);
      var last := |ids| - 1;
      if last > 0 {
        assert ids[last - 1] == front[last - 1];
      }
    }
  }
}
