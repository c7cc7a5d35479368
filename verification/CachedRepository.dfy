/** The caching decorator of the key repository (internal/infra/persistence/cached_repository.go),
    used by one caller at a time.  `CacheConcurrency` treats its races.

    The index records, per key id, the cache keys under which versions of that key are cached, so
    that a write can find them all. */
module CachedRepository {
  import opened Domain
  import opened KeyTable
  import opened TtlCache
  import opened CacheKeys
  import opened PsqlAdapter

  const CACHE_TTL: int := 2 * MINUTE

  // ---------------------------------------------------------------- the index, as a value

  type Index = map<KeyId, set<string>>

  predicate Listed(index: Index, id: KeyId, cacheKey: string) {
    id in index && cacheKey in index[id]
  }

  function Inserted(index: Index, id: KeyId, cacheKey: string): Index {
    index[id := (if id in index then index[id] else {}) + {cacheKey}]
  }

  function Evicted(index: Index, id: KeyId, cacheKey: string): Index {
    if id !in index then index
    else if index[id] - {cacheKey} == {} then index - {id}
    else index[id := index[id] - {cacheKey}]
  }

  /** The index lists exactly the given cache keys, each under its owner, and has no empty entry. */
  ghost predicate Exact(index: Index, owners: map<string, KeyId>) {
    && (forall id: KeyId, ck :: Listed(index, id, ck) <==> ck in owners && owners[ck] == id)
    && (forall id :: id in index ==> index[id] != {})
  }

  lemma EvictedExact(index: Index, owners: map<string, KeyId>, ck: string)
    requires Exact(index, owners) && ck in owners
    ensures Exact(Evicted(index, owners[ck], ck), owners - {ck})
  {
    var index' := Evicted(index, owners[ck], ck);
    forall id: KeyId, ck' ensures Listed(index', id, ck') <==> Listed(index, id, ck') && ck' != ck {
      assert Listed(index, id, ck) ==> id == owners[ck];
      if Listed(index, id, ck') && ck' != ck { assert ck' in index[id] - {ck}; }
    }
  }

  lemma InsertedExact(index: Index, owners: map<string, KeyId>, id: KeyId, ck: string)
    requires Exact(index, owners) && (ck in owners ==> owners[ck] == id)
    ensures Exact(Inserted(index, id, ck), owners[ck := id])
  {
    var index' := Inserted(index, id, ck);
    forall id': KeyId, ck' ensures Listed(index', id', ck') <==> Listed(index, id', ck') || (id' == id && ck' == ck) {}
  }

  // ---------------------------------------------------------------- coherence, as a value

  type CacheItems = Items<string, Key>

  function Owners(items: CacheItems): map<string, KeyId> {
    map ck | ck in items :: items[ck].value.id
  }

  /** The cache key says whether the entry stands for the latest version or for its own version. */
  predicate WellKeyed(ck: string, key: Key) {
    ck == CacheKey(key.id, 0) || (key.version > 0 && ck == CacheKey(key.id, key.version))
  }

  /** The entry is what the repository would answer now. */
  predicate Current(t: Table, ck: string, key: Key) {
    && (ck == CacheKey(key.id, 0) ==> GetKey(t, key.id) == Ok(key))
    && (key.version > 0 && ck == CacheKey(key.id, key.version) ==> GetKeyByVersion(t, key.id, key.version) == Ok(key))
  }

  ghost predicate AllWellKeyed(items: CacheItems) {
    forall ck :: ck in items ==> WellKeyed(ck, items[ck].value)
  }

  ghost predicate AllCurrent(t: Table, items: CacheItems) {
    forall ck :: ck in items ==> Current(t, ck, items[ck].value)
  }

  /** The index is exact and every entry is filed under its own cache key. */
  ghost predicate IndexOk(index: Index, items: CacheItems) {
    AllWellKeyed(items) && Exact(index, Owners(items))
  }

  lemma InsertKeepsIndexOk(index: Index, items: CacheItems, ck: string, item: Item<Key>)
    requires IndexOk(index, items) && WellKeyed(ck, item.value)
    ensures IndexOk(Inserted(index, item.value.id, ck), items[ck := item])
  {
    if ck in items { SameKeySameOwner(ck, items[ck].value, item.value); }
    InsertedExact(index, Owners(items), item.value.id, ck);
    assert Owners(items[ck := item]) == Owners(items)[ck := item.value.id];
  }

  lemma EvictKeepsIndexOk(index: Index, items: CacheItems, ck: string)
    requires IndexOk(index, items) && ck in items
    ensures IndexOk(Evicted(index, items[ck].value.id, ck), items - {ck})
  {
    assert ck in Owners(items);
    EvictedExact(index, Owners(items), ck);
    assert Owners(items - {ck}) == Owners(items) - {ck};
  }

  /** The index finds all entries of an id. */
  lemma IndexFinds(index: Index, items: CacheItems, id: KeyId)
    requires IndexOk(index, items)
    ensures items - (if id in index then index[id] else {}) == Without(items, {id})
    ensures id in index ==> index[id] <= items.Keys
  {
    forall ck ensures Listed(index, id, ck) <==> ck in items && items[ck].value.id == id {
      assert Listed(index, id, ck) <==> ck in Owners(items) && Owners(items)[ck] == id;
    }
    if id in index {
      forall ck | ck in index[id] ensures ck in items { assert Listed(index, id, ck); }
    }
  }

  /** A hit for the latest version of `id` is the latest version of `id`. */
  lemma LatestHit(t: Table, items: CacheItems, id: KeyId)
    requires AllWellKeyed(items) && AllCurrent(t, items) && CacheKey(id, 0) in items
    ensures GetKey(t, id) == Ok(items[CacheKey(id, 0)].value)
  {
    var ck := CacheKey(id, 0);
    var key := items[ck].value;
    assert WellKeyed(ck, key) && Current(t, ck, key);
    if ck == CacheKey(key.id, 0) { CacheKeyInjective(id, 0, key.id, 0); }
    else { CacheKeyInjective(id, 0, key.id, key.version); }
  }

  /** A hit for version `v` is version `v`, and `v` is then positive. */
  lemma VersionHit(t: Table, items: CacheItems, id: KeyId, v: int)
    requires AllWellKeyed(items) && AllCurrent(t, items) && v != 0 && CacheKey(id, v) in items
    ensures v > 0 && GetKeyByVersion(t, id, v) == Ok(items[CacheKey(id, v)].value)
  {
    var ck := CacheKey(id, v);
    var key := items[ck].value;
    assert WellKeyed(ck, key) && Current(t, ck, key);
    if ck == CacheKey(key.id, 0) { CacheKeyInjective(id, v, key.id, 0); }
    else { CacheKeyInjective(id, v, key.id, key.version); }
  }

  /** Reads of an id depend only on that id's rows. */
  lemma OtherIdsRead(t: Table, t': Table, id: KeyId)
    requires forall v :: (id, v) in t <==> (id, v) in t'
    requires forall v :: (id, v) in t ==> t'[(id, v)] == t[(id, v)]
    ensures GetKey(t', id) == GetKey(t, id)
    ensures forall v :: GetKeyByVersion(t', id, v) == GetKeyByVersion(t, id, v)
  {
    SameIdSameLatest(t, t', id);
  }

  /** The tables differ at most in the rows of `ids`. */
  ghost predicate DifferOnlyAt(t: Table, t': Table, ids: set<KeyId>) {
    forall k: (KeyId, int) :: k.0 !in ids ==> (k in t <==> k in t') && (k in t ==> t'[k] == t[k])
  }

  lemma CurrentCarries(t: Table, t': Table, ids: set<KeyId>, items: CacheItems)
    requires DifferOnlyAt(t, t', ids) && AllCurrent(t, items)
    requires forall ck :: ck in items ==> items[ck].value.id !in ids
    ensures AllCurrent(t', items)
  {
    forall ck | ck in items ensures Current(t', ck, items[ck].value) {
      var id := items[ck].value.id;
      assert Current(t, ck, items[ck].value);
      forall v ensures ((id, v) in t <==> (id, v) in t') && ((id, v) in t ==> t'[(id, v)] == t[(id, v)]) {
        assert (id, v).0 !in ids;
      }
      OtherIdsRead(t, t', id);
    }
  }

  /** The entries of keys other than `ids`. */
  function Without(items: CacheItems, ids: set<KeyId>): CacheItems {
    map ck | ck in items && items[ck].value.id !in ids :: items[ck]
  }

  function Ids(batch: seq<Key>): set<KeyId> { set i | 0 <= i < |batch| :: batch[i].id }

  lemma WithoutOneMore(items: CacheItems, batch: seq<Key>, i: nat)
    requires i < |batch|
    ensures Without(Without(items, Ids(batch[..i])), {batch[i].id}) == Without(items, Ids(batch[..i + 1]))
  {
    assert forall id :: id in Ids(batch[..i + 1]) <==> id in Ids(batch[..i]) || id == batch[i].id by {
      forall id | id in Ids(batch[..i]) || id == batch[i].id ensures id in Ids(batch[..i + 1]) {
        if id == batch[i].id { assert batch[..i + 1][i].id == id; }
        else { var j :| 0 <= j < i && batch[..i][j].id == id; assert batch[..i + 1][j].id == id; }
      }
      forall id | id in Ids(batch[..i + 1]) ensures id in Ids(batch[..i]) || id == batch[i].id {
        var j :| 0 <= j < i + 1 && batch[..i + 1][j].id == id;
        if j < i { assert batch[..i][j].id == id; }
      }
    }
  }

  lemma CopyFromDiffers(t: Table, batch: seq<Key>)
    requires CopyFrom(t, batch).Ok?
    ensures DifferOnlyAt(t, CopyFrom(t, batch).value, Ids(batch))
  {
    CopyFromInsertsAll(t, batch);
  }

  // ---------------------------------------------------------------- the plain repository, as a value

  /** One request, with the time at which it is made. */
  datatype Request =
    | ReadLatest(id: KeyId)
    | ReadVersion(id: KeyId, version: int)
    | ReadMetadata(id: KeyId)
    | AskExists(id: KeyId)
    | AddKey(key: Option<NewKey>)
    | AddBatch(batch: seq<Key>)
    | ChangeMetadata(id: KeyId, metadata: Option<Metadata>)
    | RotateTo(id: KeyId, dek: Bytes)
    | RevokeAll(id: KeyId)
    | CleanUp

  datatype Answer =
    | KeyIs(key: Result<Key, TableError>)
    | MetadataIs(metadata: Result<Metadata, TableError>)
    | ExistsIs(exists_: bool)
    | Wrote(written: Result<(), TableError>)
    | Cleaned

  function Written(t: Table, r: Result<Table, TableError>): (Table, Answer) {
    if r.Ok? then (r.value, Wrote(Ok(()))) else (t, Wrote(Err(r.error)))
  }

  /** What the repository without a cache does and answers. */
  function Plain(t: Table, req: Request, now: Time): (Table, Answer) {
    match req
    case ReadLatest(id) => (t, KeyIs(GetKey(t, id)))
    case ReadVersion(id, version) => (t, KeyIs(GetKeyByVersion(t, id, version)))
    case ReadMetadata(id) =>
      (t, MetadataIs(if GetKey(t, id).Ok? then Ok(GetKey(t, id).value.row.metadata) else Err(GetKey(t, id).error)))
    case AskExists(id) => (t, ExistsIs(KeyTable.Exists(t, id)))
    case AddKey(key) => Written(t, Create(t, key))
    case AddBatch(batch) => Written(t, CopyFrom(t, batch))
    case ChangeMetadata(id, metadata) => Written(t, UpdateMetadata(t, id, metadata, now))
    case RotateTo(id, dek) =>
      var r := Rotate(t, id, dek, now);
      if r.Ok? then (r.value.0, KeyIs(Ok(r.value.1))) else (t, KeyIs(Err(r.error)))
    case RevokeAll(id) => Written(t, Revoke(t, id, now))
    case CleanUp => (t, Cleaned)
  }

  function PlainRun(t: Table, requests: seq<(Request, Time)>): (Table, seq<Answer>) {
    if requests == [] then (t, [])
    else
      var (t', answers) := PlainRun(t, requests[..|requests| - 1]);
      var (t'', answer) := Plain(t', requests[|requests| - 1].0, requests[|requests| - 1].1);
      (t'', answers + [answer])
  }

  // ---------------------------------------------------------------- the decorator

  class Repository {
    const repo: Adapter
    const cache: Cache<string, Key>
    var cacheIndex: Index

    ghost predicate WellIndexed()
      reads this, cache
    {
      cache.defaultTtl == CACHE_TTL && IndexOk(cacheIndex, cache.items)
    }

    /** In addition every entry, expired or not, is what the repository would answer. */
    ghost predicate Valid()
      reads this, cache, repo
    {
      WellIndexed() && AllCurrent(repo.keys, cache.items)
    }

    constructor (repo: Adapter)
      ensures Valid() && this.repo == repo && fresh(cache)
    {
      this.repo := repo;
      cache := new Cache(CACHE_TTL);
      cacheIndex := map[];
    }

    method OnCacheEvict(cacheKey: string, key: Key)
      modifies this
      ensures cacheIndex == Evicted(old(cacheIndex), key.id, cacheKey)
    {
      if key.id in cacheIndex {
        cacheIndex := cacheIndex[key.id := cacheIndex[key.id] - {cacheKey}];
        if cacheIndex[key.id] == {} {
          cacheIndex := cacheIndex - {key.id};
        }
      }
    }

    method StoreInCache(cacheKey: string, key: Key, now: Time)
      requires WellIndexed() && WellKeyed(cacheKey, key)
      modifies this, cache
      ensures WellIndexed()
      ensures cache.items == old(cache.items)[cacheKey := NewItem(key, 0, now, CACHE_TTL)]
    {
      InsertKeepsIndexOk(cacheIndex, cache.items, cacheKey, NewItem(key, 0, now, CACHE_TTL));
      cache.Set(cacheKey, key, 0, now);
      if key.id !in cacheIndex {
        cacheIndex := cacheIndex[key.id := {}];
      }
      cacheIndex := cacheIndex[key.id := cacheIndex[key.id] + {cacheKey}];
      assert cacheIndex == Inserted(old(cacheIndex), key.id, cacheKey);
    }

    /** Drops one entry; the eviction callback takes it out of the index. */
    method Evict(cacheKey: string)
      requires WellIndexed() && cacheKey in cache.items
      modifies this, cache
      ensures WellIndexed() && cache.items == old(cache.items) - {cacheKey}
    {
      EvictKeepsIndexOk(cacheIndex, cache.items, cacheKey);
      var evicted := cache.Delete(cacheKey);
      OnCacheEvict(cacheKey, evicted.value);
    }

    /** Drops every cached version of `id`, and nothing else. */
    method InvalidateCache(id: KeyId)
      requires WellIndexed()
      modifies this, cache
      ensures WellIndexed()
      ensures cache.items == Without(old(cache.items), {id})
    {
      IndexFinds(cacheIndex, cache.items, id);
      var keysToDel := if id in cacheIndex then cacheIndex[id] else {};
      ghost var all := keysToDel;
      while keysToDel != {}
        invariant WellIndexed() && keysToDel <= all
        invariant cache.items == old(cache.items) - (all - keysToDel)
      {
        var ck :| ck in keysToDel;
        keysToDel := keysToDel - {ck};
        Evict(ck);
      }
    }

    method GetKey(id: KeyId, now: Time) returns (r: Result<Key, TableError>)
      requires Valid()
      modifies this, cache
      ensures Valid() && r == KeyTable.GetKey(repo.keys, id)
      ensures r.Ok? ==> Lookup(cache.items, CacheKey(id, 0), now) == Some(r.value)
    {
      var ck := CacheKey(id, 0);
      var hit := cache.Get(ck, now);
      if hit.Some? {
        LatestHit(repo.keys, cache.items, id);
        return Ok(hit.value);
      }
      r := repo.GetKey(id);
      if r.Err? {
        return;
      }
      StoreLatest(r.value, now);
    }

    method StoreLatest(key: Key, now: Time)
      requires Valid() && KeyTable.GetKey(repo.keys, key.id) == Ok(key)
      modifies this, cache
      ensures Valid() && Lookup(cache.items, CacheKey(key.id, 0), now) == Some(key)
    {
      StoreInCache(CacheKey(key.id, 0), key, now);
      if key.version > 0 && CacheKey(key.id, 0) == CacheKey(key.id, key.version) {
        CacheKeyInjective(key.id, 0, key.id, key.version);
      }
    }

    method StoreVersion(key: Key, now: Time)
      requires Valid() && KeyTable.GetKeyByVersion(repo.keys, key.id, key.version) == Ok(key)
      modifies this, cache
      ensures Valid() && Lookup(cache.items, CacheKey(key.id, key.version), now) == Some(key)
    {
      StoreInCache(CacheKey(key.id, key.version), key, now);
      if CacheKey(key.id, 0) == CacheKey(key.id, key.version) {
        CacheKeyInjective(key.id, 0, key.id, key.version);
      }
    }

    /** Version 0 shares its cache key with the latest version, so it is the one request on which
        the cache can disagree with the repository, and it does exactly on a hit. */
    method GetKeyByVersion(id: KeyId, version: int, now: Time) returns (r: Result<Key, TableError>)
      requires Valid()
      modifies this, cache
      ensures Valid()
      ensures r == KeyTable.GetKeyByVersion(repo.keys, id, version) <==>
        !(version == 0 && Lookup(old(cache.items), CacheKey(id, 0), now).Some?)
      ensures version >= 1 ==> r == KeyTable.GetKeyByVersion(repo.keys, id, version)
      ensures version == 0 && Lookup(old(cache.items), CacheKey(id, 0), now).Some? ==> r == KeyTable.GetKey(repo.keys, id)
      ensures r.Ok? ==> Lookup(cache.items, CacheKey(id, version), now) == Some(r.value)
    {
      var ck := CacheKey(id, version);
      var hit := cache.Get(ck, now);
      if hit.Some? {
        if version != 0 { VersionHit(repo.keys, cache.items, id, version); } else { LatestHit(repo.keys, cache.items, id); }
        return Ok(hit.value);
      }
      r := repo.GetKeyByVersion(id, version);
      if r.Err? {
        return;
      }
      StoreVersion(r.value, now);
    }

    method GetKeyMetadata(id: KeyId, now: Time) returns (r: Result<Metadata, TableError>)
      requires Valid()
      ensures var spec := KeyTable.GetKey(repo.keys, id);
        r == if spec.Ok? then Ok(spec.value.row.metadata) else Err(spec.error)
    {
      var hit := cache.Get(CacheKey(id, 0), now);
      if hit.Some? {
        LatestHit(repo.keys, cache.items, id);
        return Ok(hit.value.row.metadata);
      }
      var key := repo.GetKey(id);
      return if key.Ok? then Ok(key.value.row.metadata) else Err(key.error);
    }

    method Exists(id: KeyId, now: Time) returns (r: bool)
      requires Valid()
      ensures r == KeyTable.Exists(repo.keys, id)
    {
      var hit := cache.Get(CacheKey(id, 0), now);
      if hit.Some? {
        LatestHit(repo.keys, cache.items, id);
        return true;
      }
      r := repo.Exists(id);
    }

    method CreateKey(key: Option<NewKey>) returns (r: Result<(), TableError>)
      requires Valid()
      modifies this, cache, repo
      ensures Valid()
      ensures var spec := Create(old(repo.keys), key);
        if spec.Ok? then repo.keys == spec.value && r == Ok(()) else repo.keys == old(repo.keys) && r == Err(spec.error)
    {
      ghost var before := repo.keys;
      r := repo.CreateKey(key);
      if r.Ok? {
        assert DifferOnlyAt(before, repo.keys, {key.value.id});
        InvalidateCache(key.value.id);
        CurrentCarries(before, repo.keys, {key.value.id}, cache.items);
      }
    }

    method CreateBatchKeys(batch: seq<Key>) returns (r: Result<(), TableError>)
      requires Valid()
      modifies this, cache, repo
      ensures Valid()
      ensures r.Ok? <==> Insertable(old(repo.keys), batch)
      ensures if r.Ok? then CopyFrom(old(repo.keys), batch) == Ok(repo.keys) && r == Ok(())
        else repo.keys == old(repo.keys) && r == Err(KeyAlreadyExists)
    {
      ghost var before := repo.keys;
      r := repo.CreateBatchKeys(batch);
      if r.Ok? {
        InvalidateAll(batch);
        CopyFromDiffers(before, batch);
        CurrentCarries(before, repo.keys, Ids(batch), cache.items);
      }
    }

    method InvalidateAll(batch: seq<Key>)
      requires WellIndexed()
      modifies this, cache
      ensures WellIndexed()
      ensures cache.items == Without(old(cache.items), Ids(batch))
    {
      assert cache.items == Without(cache.items, Ids(batch[..0]));
      for i := 0 to |batch|
        invariant WellIndexed()
        invariant cache.items == Without(old(cache.items), Ids(batch[..i]))
      {
        InvalidateCache(batch[i].id);
        WithoutOneMore(old(cache.items), batch, i);
      }
      assert batch[..|batch|] == batch;
    }

    method UpdateKeyMetadata(id: KeyId, metadata: Option<Metadata>, now: Time) returns (r: Result<(), TableError>)
      requires Valid()
      modifies this, cache, repo
      ensures Valid()
      ensures var spec := UpdateMetadata(old(repo.keys), id, metadata, now);
        if spec.Ok? then repo.keys == spec.value && r == Ok(()) else repo.keys == old(repo.keys) && r == Err(spec.error)
    {
      ghost var before := repo.keys;
      r := repo.UpdateKeyMetadata(id, metadata, now);
      if r.Ok? {
        assert DifferOnlyAt(before, repo.keys, {id});
        InvalidateCache(id);
        CurrentCarries(before, repo.keys, {id}, cache.items);
      }
    }

    method RotateKey(id: KeyId, newDek: Bytes, now: Time) returns (r: Result<Key, TableError>)
      requires Valid()
      modifies this, cache, repo
      ensures Valid()
      ensures var spec := Rotate(old(repo.keys), id, newDek, now);
        if spec.Ok? then repo.keys == spec.value.0 && r == Ok(spec.value.1) else repo.keys == old(repo.keys) && r == Err(spec.error)
    {
      ghost var before := repo.keys;
      r := repo.RotateKey(id, newDek, now);
      if r.Ok? {
        assert DifferOnlyAt(before, repo.keys, {id});
        InvalidateCache(id);
        CurrentCarries(before, repo.keys, {id}, cache.items);
      }
    }

    method RevokeKey(id: KeyId, now: Time) returns (r: Result<(), TableError>)
      requires Valid()
      modifies this, cache, repo
      ensures Valid()
      ensures var spec := Revoke(old(repo.keys), id, now);
        if spec.Ok? then repo.keys == spec.value && r == Ok(()) else repo.keys == old(repo.keys) && r == Err(spec.error)
    {
      ghost var before := repo.keys;
      r := repo.RevokeKey(id, now);
      if r.Ok? {
        forall k: (KeyId, int) | k.0 != id ensures (k in before <==> k in repo.keys) && (k in before ==> repo.keys[k] == before[k]) {
          RevokeRowsAt(before, id, Versions(before, id), now, k);
        }
        assert DifferOnlyAt(before, repo.keys, {id});
        InvalidateCache(id);
        CurrentCarries(before, repo.keys, {id}, cache.items);
      }
    }

    /** The eviction callback, for entries that have left the cache. */
    method EvictAll(evicted: map<string, Key>, ghost items: CacheItems)
      requires IndexOk(cacheIndex, items)
      requires forall ck :: ck in evicted ==> ck in items && items[ck].value == evicted[ck]
      modifies this
      ensures IndexOk(cacheIndex, items - evicted.Keys)
    {
      var pending := evicted.Keys;
      ghost var left := items;
      while pending != {}
        invariant pending <= evicted.Keys && IndexOk(cacheIndex, left)
        invariant left == items - (evicted.Keys - pending)
      {
        var ck :| ck in pending;
        EvictKeepsIndexOk(cacheIndex, left, ck);
        OnCacheEvict(ck, evicted[ck]);
        pending := pending - {ck};
        left := left - {ck};
      }
    }

    /** The cleanup goroutine's pass, with the eviction callback for each entry it drops. */
    method Sweep(now: Time)
      requires WellIndexed()
      modifies this, cache
      ensures WellIndexed() && cache.items == Swept(old(cache.items), now)
      ensures old(Valid()) ==> Valid()
    {
      ghost var before := cache.items;
      var evicted := cache.DeleteExpired(now);
      EvictAll(evicted, before);
      assert cache.items == before - evicted.Keys;
    }

    /** One request through the cache: same answer, same new table as without it. */
    method Serve(req: Request, now: Time) returns (answer: Answer)
      requires Valid() && (req.ReadVersion? ==> req.version != 0)
      modifies this, cache, repo
      ensures Valid() && (repo.keys, answer) == Plain(old(repo.keys), req, now)
    {
      match req
      case ReadLatest(id) => var key := GetKey(id, now); answer := KeyIs(key);
      case ReadVersion(id, version) => var key := GetKeyByVersion(id, version, now); answer := KeyIs(key);
      case ReadMetadata(id) => var metadata := GetKeyMetadata(id, now); answer := MetadataIs(metadata);
      case AskExists(id) => var found := Exists(id, now); answer := ExistsIs(found);
      case AddKey(key) => var written := CreateKey(key); answer := Wrote(written);
      case AddBatch(batch) =>
        CopyFromInsertsAll(repo.keys, batch);
        CopyFromFails(repo.keys, batch);
        var written := CreateBatchKeys(batch);
        answer := Wrote(written);
      case ChangeMetadata(id, metadata) => var written := UpdateKeyMetadata(id, metadata, now); answer := Wrote(written);
      case RotateTo(id, dek) => var key := RotateKey(id, dek, now); answer := KeyIs(key);
      case RevokeAll(id) => var written := RevokeKey(id, now); answer := Wrote(written);
      case CleanUp => Sweep(now); answer := Cleaned;
    }

    /** Every run of reads, writes and cleanup passes, at whatever times, answers as the plain
        repository would and leaves the table it would leave. */
    method Replay(requests: seq<(Request, Time)>) returns (answers: seq<Answer>)
      requires Valid()
      requires forall i :: 0 <= i < |requests| && requests[i].0.ReadVersion? ==> requests[i].0.version != 0
      modifies this, cache, repo
      ensures Valid() && (repo.keys, answers) == PlainRun(old(repo.keys), requests)
    {
      answers := [];
      for i := 0 to |requests|
        invariant Valid() && (repo.keys, answers) == PlainRun(old(repo.keys), requests[..i])
      {
        assert requests[..i + 1][..i] == requests[..i];
        var answer := Serve(requests[i].0, requests[i].1);
        answers := answers + [answer];
      }
      assert requests[..|requests|] == requests;
    }

    /** Neither batch write drops anything from the cache: the index stays exact, and the entries stay
        current exactly when they already show what is written. */
    method RevokeBatchKeys(ids: seq<KeyId>, now: Time)
      requires WellIndexed()
      modifies repo
      ensures WellIndexed() && repo.keys == RevokeBatch(old(repo.keys), ids, now)
      ensures old(Valid()) ==> (Valid() <==> ShowsRevocation(cache.items, ids, now))
    {
      if Valid() { BatchRevokeStaleIff(repo.keys, cache.items, ids, now); }
      repo.RevokeBatchKeys(ids, now);
    }

    method UpdateBatchKeyMetadata(updates: seq<BatchUpdate>) returns (r: Result<(), TableError>)
      requires WellIndexed()
      modifies repo
      ensures WellIndexed() && r.Ok? == forall i :: 0 <= i < |updates| ==> updates[i].metadata.Some?
      ensures repo.keys == if r.Ok? then UpdateBatch(old(repo.keys), updates) else old(repo.keys)
      ensures old(Valid()) ==> (Valid() <==> r.Err? || ShowsUpdates(old(repo.keys), cache.items, updates))
    {
      if Valid() { BatchUpdateStaleIff(repo.keys, cache.items, updates); }
      r := repo.UpdateBatchKeyMetadata(updates);
    }
  }

  lemma {:induction false} CopyFromFails(t: Table, keys: seq<Key>)
    ensures CopyFrom(t, keys).Err? ==> CopyFrom(t, keys).error == KeyAlreadyExists
    decreases |keys|
  {
    if keys != [] { CopyFromFails(t[At(keys[0]) := keys[0].row], keys[1..]); }
  }

  lemma SameKeySameOwner(ck: string, a: Key, b: Key)
    requires WellKeyed(ck, a) && WellKeyed(ck, b)
    ensures a.id == b.id
  {
    var v := if ck == CacheKey(a.id, 0) then 0 else a.version;
    var w := if ck == CacheKey(b.id, 0) then 0 else b.version;
    CacheKeyInjective(a.id, v, b.id, w);
  }

  /** The entries of the listed ids look as the revocation at `now` leaves their rows. */
  ghost predicate ShowsRevocation(items: CacheItems, ids: seq<KeyId>, now: Time) {
    forall ck :: ck in items && items[ck].value.id in ids ==>
      items[ck].value.row.status == Revoked && items[ck].value.row.revokedAt == Some(now)
  }

  /** The entries that are the latest version of an updated id carry the metadata queued last for it,
      with its time. */
  ghost predicate ShowsUpdates(t: Table, items: CacheItems, updates: seq<BatchUpdate>) {
    forall ck :: ck in items ==> ShowsUpdate(t, items[ck].value, LastFor(updates, items[ck].value.id))
  }

  predicate ShowsUpdate(t: Table, key: Key, u: Option<BatchUpdate>) {
    u.Some? && Latest(t, key.id) == Some(key.version) ==>
      Some(key.row.metadata) == u.value.metadata && key.row.updatedAt == u.value.at
  }

  /** After a batch revocation the cache is still right exactly when its entries of the revoked ids
      already showed that very revocation. */
  lemma BatchRevokeStaleIff(t: Table, items: CacheItems, ids: seq<KeyId>, now: Time)
    requires AllWellKeyed(items) && AllCurrent(t, items)
    ensures AllCurrent(RevokeBatch(t, ids, now), items) <==> ShowsRevocation(items, ids, now)
  {
    var t' := RevokeBatch(t, ids, now);
    forall ck | ck in items
      ensures Current(t', ck, items[ck].value) <==> (items[ck].value.id in ids ==> items[ck].value.row == RevokedRow(items[ck].value.row, now))
    {
      var key := items[ck].value;
      assert WellKeyed(ck, key) && Current(t, ck, key);
      assert forall v :: (key.id, v) in t <==> (key.id, v) in t';
      SameIdSameLatest(t, t', key.id);
    }
  }

  /** After a batch update the cache is still right exactly when its entries for the latest versions of
      the updated ids already showed what was written. */
  lemma BatchUpdateStaleIff(t: Table, items: CacheItems, updates: seq<BatchUpdate>)
    requires AllWellKeyed(items) && AllCurrent(t, items)
    ensures AllCurrent(UpdateBatch(t, updates), items) <==> ShowsUpdates(t, items, updates)
  {
    forall ck | ck in items
      ensures Current(UpdateBatch(t, updates), ck, items[ck].value) <==>
        ShowsUpdate(t, items[ck].value, LastFor(updates, items[ck].value.id))
    {
      assert WellKeyed(ck, items[ck].value) && Current(t, ck, items[ck].value);
      UpdateKeepsCurrentIff(t, updates, ck, items[ck].value);
    }
  }

  lemma UpdateKeepsCurrentIff(t: Table, updates: seq<BatchUpdate>, ck: string, key: Key)
    requires WellKeyed(ck, key) && Current(t, ck, key)
    ensures Current(UpdateBatch(t, updates), ck, key) <==> ShowsUpdate(t, key, LastFor(updates, key.id))
  {
    var t' := UpdateBatch(t, updates);
    forall v ensures (key.id, v) in t <==> (key.id, v) in t' { UpdateBatchAt(t, updates, (key.id, v)); }
    SameIdSameLatest(t, t', key.id);
    UpdateBatchAt(t, updates, (key.id, key.version));
    assert t[(key.id, key.version)] == key.row;
  }

  // ---------------------------------------------------------------- what readers can notice

  /** What the repository answers; version 0 stands for the latest. */
  function Asked(t: Table, id: KeyId, version: int): Result<Key, TableError> {
    if version == 0 then GetKey(t, id) else GetKeyByVersion(t, id, version)
  }

  ghost predicate HitsAgree(t: Table, items: CacheItems, id: KeyId, version: int, at: Time) {
    var hit := Lookup(items, CacheKey(id, version), at);
    hit.Some? ==> Asked(t, id, version) == Ok(hit.value)
  }

  /** Every hit at `now` or later is what the repository would answer. */
  ghost predicate ReadsAgree(t: Table, items: CacheItems, now: Time) {
    forall id: KeyId, version: int, at: Time :: at >= now ==> HitsAgree(t, items, id, version, at)
  }

  /** Only the entries that are still live matter. */
  lemma ReadsAgreeIff(t: Table, items: CacheItems, now: Time)
    requires AllWellKeyed(items)
    ensures ReadsAgree(t, items, now) <==> AllCurrent(t, Swept(items, now))
  {
    var live := Swept(items, now);
    if ReadsAgree(t, items, now) {
      forall ck | ck in live ensures Current(t, ck, live[ck].value) {
        var key := live[ck].value;
        assert WellKeyed(ck, key);
        assert HitsAgree(t, items, key.id, 0, now) && HitsAgree(t, items, key.id, key.version, now);
      }
    }
    if AllCurrent(t, live) {
      forall id: KeyId, version: int, at: Time | at >= now ensures HitsAgree(t, items, id, version, at) {
        LiveHitAgrees(t, items, now, id, version, at);
      }
    }
  }

  lemma LiveHitAgrees(t: Table, items: CacheItems, now: Time, id: KeyId, version: int, at: Time)
    requires AllWellKeyed(items) && AllCurrent(t, Swept(items, now)) && at >= now
    ensures HitsAgree(t, items, id, version, at)
  {
    if Lookup(items, CacheKey(id, version), at).Some? {
      if version == 0 { LatestHit(t, Swept(items, now), id); } else { VersionHit(t, Swept(items, now), id, version); }
    }
  }

  /** A batch revocation leaves all later reads right, if they were, exactly when the entries of the
      listed ids that are still live already show it. */
  lemma BatchRevokeReadsIff(t: Table, items: CacheItems, ids: seq<KeyId>, now: Time)
    requires AllWellKeyed(items) && ReadsAgree(t, items, now)
    ensures ReadsAgree(RevokeBatch(t, ids, now), items, now) <==> ShowsRevocation(Swept(items, now), ids, now)
  {
    ReadsAgreeIff(t, items, now);
    ReadsAgreeIff(RevokeBatch(t, ids, now), items, now);
    BatchRevokeStaleIff(t, Swept(items, now), ids, now);
  }

  /** So does a batch update, exactly when the live entries for the latest versions of the listed ids
      already show what is written. */
  lemma BatchUpdateReadsIff(t: Table, items: CacheItems, updates: seq<BatchUpdate>, now: Time)
    requires AllWellKeyed(items) && ReadsAgree(t, items, now)
    ensures ReadsAgree(UpdateBatch(t, updates), items, now) <==> ShowsUpdates(t, Swept(items, now), updates)
  {
    ReadsAgreeIff(t, items, now);
    ReadsAgreeIff(UpdateBatch(t, updates), items, now);
    BatchUpdateStaleIff(t, Swept(items, now), updates);
  }

  // ---------------------------------------------------------------- where the cache and the repository part

  /** One stored version and the entry GetKey leaves of it. */
  function OneRow(id: KeyId, row: Row): Table { map[(id, 1) := row] }

  function OneEntry(id: KeyId, row: Row, now: Time): CacheItems {
    map[CacheKey(id, 0) := NewItem(Key(id, 1, row), 0, now, CACHE_TTL)]
  }

  lemma OneEntryIsCurrent(id: KeyId, row: Row, now: Time)
    ensures AllWellKeyed(OneEntry(id, row, now)) && AllCurrent(OneRow(id, row), OneEntry(id, row, now))
    ensures Latest(OneRow(id, row), id) == Some(1)
  {
    LatestIs(OneRow(id, row), id, 1);
    assert (id, 1) in OneRow(id, row);
  }

  /** A coherent cache that a batch revocation makes stale: any unrevoked key that has just been read. */
  lemma BatchRevokeMakesStale(id: KeyId, row: Row, now: Time)
    requires row.status != Revoked
    ensures AllCurrent(OneRow(id, row), OneEntry(id, row, now))
    ensures !AllCurrent(RevokeBatch(OneRow(id, row), [id], now), OneEntry(id, row, now))
  {
    OneEntryIsCurrent(id, row, now);
    BatchRevokeStaleIff(OneRow(id, row), OneEntry(id, row, now), [id], now);
    assert CacheKey(id, 0) in OneEntry(id, row, now);
  }

  /** And one that a batch update makes stale: any key that has just been read, given other metadata. */
  lemma BatchUpdateMakesStale(id: KeyId, row: Row, metadata: Metadata, now: Time)
    requires metadata != row.metadata
    ensures AllCurrent(OneRow(id, row), OneEntry(id, row, now))
    ensures !AllCurrent(UpdateBatch(OneRow(id, row), [BatchUpdate(id, Some(metadata), now)]), OneEntry(id, row, now))
  {
    var updates := [BatchUpdate(id, Some(metadata), now)];
    OneEntryIsCurrent(id, row, now);
    BatchUpdateStaleIff(OneRow(id, row), OneEntry(id, row, now), updates);
    assert LastFor(updates, id) == Some(updates[0]);
    assert CacheKey(id, 0) in OneEntry(id, row, now);
  }

  /** A coherent cached repository that answers a request for version 0 with the latest key, where the
      repository alone refuses: any key that has just been read. */
  method VersionZeroAnswersLatest(key: NewKey, now: Time) returns (cached: Repository, r: Result<Key, TableError>)
    requires key.metadata.Some? && key.encryptedDek != []
    ensures fresh(cached) && fresh(cached.repo) && fresh(cached.cache) && cached.Valid()
    ensures r == KeyTable.GetKey(cached.repo.keys, key.id) == Ok(Key(key.id, key.version, NewRow(key)))
    ensures KeyTable.GetKeyByVersion(cached.repo.keys, key.id, 0) == Err(InvalidVersion)
  {
    var adapter := new Adapter();
    cached := new Repository(adapter);
    var _ := cached.CreateKey(Some(key));
    LatestIs(adapter.keys, key.id, key.version);
    var _ := cached.GetKey(key.id, now);
    r := cached.GetKeyByVersion(key.id, 0, now);
  }
}
