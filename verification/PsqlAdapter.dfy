/** The PostgreSQL repository (internal/infra/persistence/psql_adapter.go) as one client sees it
    when nobody else writes: an object whose methods change the `keys` table.
    Concurrent rotations are the subject of `RotationProtocol`. */
module PsqlAdapter {
  import opened Domain
  import opened KeyTable

  class Adapter {
    var keys: Table

    constructor ()
      ensures keys == map[] && WellFormed(keys)
    {
      keys := map[];
      EmptyIsWellFormed();
    }

    method GetKey(id: KeyId) returns (r: Result<Key, TableError>)
      ensures r == KeyTable.GetKey(keys, id)
    {
      var v := Latest(keys, id);
      if v.None? {
        return Err(KeyNotFound);
      }
      return Ok(Key(id, v.value, keys[(id, v.value)]));
    }

    method GetKeyByVersion(id: KeyId, version: int) returns (r: Result<Key, TableError>)
      ensures r == KeyTable.GetKeyByVersion(keys, id, version)
    {
      if version <= 0 {
        return Err(InvalidVersion);
      }
      if (id, version) !in keys {
        return Err(KeyNotFound);
      }
      return Ok(Key(id, version, keys[(id, version)]));
    }

    method Exists(id: KeyId) returns (r: bool)
      ensures r == KeyTable.Exists(keys, id)
    {
      r := Latest(keys, id).Some?;
    }

    method CreateKey(key: Option<NewKey>) returns (r: Result<(), TableError>)
      modifies this
      ensures var spec := Create(old(keys), key);
        if spec.Ok? then keys == spec.value && r == Ok(()) else keys == old(keys) && r == Err(spec.error)
      ensures old(WellFormed(keys)) && r.Ok? && key.value.version == 1 && FreshRow(NewRow(key.value)) ==>
        WellFormed(keys) && Evolves(old(keys), keys)
    {
      if key.None? {
        return Err(MissingKey);
      }
      var k := key.value;
      if k.metadata.None? {
        return Err(MissingMetadata);
      }
      if k.encryptedDek == [] {
        return Err(EmptyDek);
      }
      if (k.id, k.version) in keys {
        return Err(KeyAlreadyExists);
      }
      ghost var before := keys;
      keys := keys[(k.id, k.version) := NewRow(k)];
      if WellFormed(before) && k.version == 1 && FreshRow(NewRow(k)) {
        ApplyKeepsWellFormed(before, CreateOp(k.id, NewRow(k)));
      }
      return Ok(());
    }

    method CreateBatchKeys(batch: seq<Key>) returns (r: Result<(), TableError>)
      modifies this
      ensures r.Ok? <==> Insertable(old(keys), batch)
      ensures if r.Ok? then CopyFrom(old(keys), batch) == Ok(keys) && r == Ok(())
        else keys == old(keys) && r == Err(KeyAlreadyExists)
      ensures old(WellFormed(keys)) && r.Ok? && (forall i :: 0 <= i < |batch| ==> batch[i].version == 1 && FreshRow(batch[i].row)) ==>
        WellFormed(keys) && Evolves(old(keys), keys)
    {
      CopyFromInsertsAll(keys, batch);
      // The copied rows become visible together, when the last of them has been accepted.
      var copied := keys;
      for i := 0 to |batch|
        invariant keys == old(keys)
        invariant CopyFrom(keys, batch) == CopyFrom(copied, batch[i..])
      {
        assert batch[i..][0] == batch[i] && batch[i..][1..] == batch[i + 1..];
        if (batch[i].id, batch[i].version) in copied {
          return Err(KeyAlreadyExists);
        }
        copied := copied[(batch[i].id, batch[i].version) := batch[i].row];
      }
      if WellFormed(keys) && forall i :: 0 <= i < |batch| ==> batch[i].version == 1 && FreshRow(batch[i].row) {
        CopyFromKeepsWellFormed(keys, batch);
      }
      keys := copied;
      return Ok(());
    }

    method UpdateKeyMetadata(id: KeyId, metadata: Option<Metadata>, now: Time) returns (r: Result<(), TableError>)
      modifies this
      ensures var spec := UpdateMetadata(old(keys), id, metadata, now);
        if spec.Ok? then keys == spec.value && r == Ok(()) else keys == old(keys) && r == Err(spec.error)
      ensures old(WellFormed(keys)) && r.Ok? && VersionPreserving(old(keys)[(id, Latest(old(keys), id).value)], metadata.value) ==>
        WellFormed(keys) && Evolves(old(keys), keys)
    {
      if metadata.None? {
        return Err(MissingMetadata);
      }
      var v := Latest(keys, id);
      if v.None? {
        return Err(KeyNotFound);
      }
      ghost var before := keys;
      keys := keys[(id, v.value) := keys[(id, v.value)].(metadata := metadata.value, updatedAt := now)];
      if WellFormed(before) && VersionPreserving(before[(id, v.value)], metadata.value) {
        ApplyKeepsWellFormed(before, UpdateRowOp(id, v.value, metadata.value, now));
      }
      return Ok(());
    }

    method RotateKey(id: KeyId, newDek: Bytes, now: Time) returns (r: Result<Key, TableError>)
      modifies this
      ensures var spec := Rotate(old(keys), id, newDek, now);
        if spec.Ok? then keys == spec.value.0 && r == Ok(spec.value.1) else keys == old(keys) && r == Err(spec.error)
      ensures r.Ok? ==>
        && Latest(old(keys), id).Some?
        && IsRotation(old(keys), keys, id, Latest(old(keys), id).value, r.value.version, newDek, now)
        && r.value == Key(id, r.value.version, keys[(id, r.value.version)])
      ensures old(WellFormed(keys)) ==> WellFormed(keys) && Evolves(old(keys), keys)
    {
      if newDek == [] {
        return Err(EmptyDek);
      }
      var v := Latest(keys, id);
      if v.None? {
        return Err(KeyNotFound);
      }
      var current := keys[(id, v.value)];
      var next := current.metadata.version + 1;
      if next > MAX_INT32 {
        return Err(VersionOutOfRange);
      }
      if (id, next) in keys {
        return Err(DuplicateVersion);
      }
      ghost var before := keys;
      RotateWrites(keys, id, newDek, now);
      var row := SuccessorRow(current, newDek, now);
      keys := keys[(id, v.value) := RotatedRow(current, now)];
      keys := keys[(id, next) := row];
      if WellFormed(before) {
        ApplyKeepsWellFormed(before, RotateOp(id, newDek, now));
      }
      return Ok(Key(id, next, row));
    }

    method RevokeKey(id: KeyId, now: Time) returns (r: Result<(), TableError>)
      modifies this
      ensures var spec := Revoke(old(keys), id, now);
        if spec.Ok? then keys == spec.value && r == Ok(()) else keys == old(keys) && r == Err(spec.error)
      ensures r.Ok? ==> AllRevoked(keys, id)
      ensures old(WellFormed(keys)) ==> WellFormed(keys) && Evolves(old(keys), keys)
    {
      RevokeRevokesAll(keys, id, now);
      if Latest(keys, id).None? {
        return Err(KeyNotFound);
      }
      ghost var before := keys;
      keys := RevokeRows(keys, id, Versions(keys, id), now);
      if WellFormed(before) {
        ApplyKeepsWellFormed(before, RevokeRowsOp(id, Versions(before, id), now));
      }
      return Ok(());
    }

    method RevokeBatchKeys(ids: seq<KeyId>, now: Time)
      modifies this
      ensures keys == RevokeBatch(old(keys), ids, now)
      ensures forall id: KeyId :: id in ids && KeyTable.Exists(old(keys), id) ==> AllRevoked(keys, id)
      ensures keys.Keys == old(keys).Keys && forall k :: k in keys && k.0 !in ids ==> keys[k] == old(keys)[k]
      ensures old(WellFormed(keys)) ==> WellFormed(keys)
      ensures Evolves(old(keys), keys)
    {
      RevokeBatchRevokesAll(keys, ids, now);
      keys := RevokeBatch(keys, ids, now);
    }

    /** Nothing is sent when any entry lacks metadata.  Otherwise of each listed id the latest row gets
        the metadata queued last, and the table stays well formed exactly when all of those fit. */
    method UpdateBatchKeyMetadata(updates: seq<BatchUpdate>) returns (r: Result<(), TableError>)
      modifies this
      ensures r == if exists i :: 0 <= i < |updates| && updates[i].metadata.None? then Err(MissingMetadata) else Ok(())
      ensures keys == if r.Ok? then UpdateBatch(old(keys), updates) else old(keys)
      ensures old(WellFormed(keys)) && r.Ok? ==>
        (WellFormed(keys) <==> forall id: KeyId :: BatchFits(old(keys), updates, id))
    {
      for i := 0 to |updates|
        invariant forall j :: 0 <= j < i ==> updates[j].metadata.Some?
      {
        if updates[i].metadata.None? {
          return Err(MissingMetadata);
        }
      }
      if WellFormed(keys) { UpdateBatchKeepsWellFormedIff(keys, updates); }
      for i := 0 to |updates|
        invariant UpdateBatch(old(keys), updates) == UpdateBatch(keys, updates[i..])
      {
        assert updates[i..][0] == updates[i] && updates[i..][1..] == updates[i + 1..];
        var _ := UpdateKeyMetadata(updates[i].id, updates[i].metadata, updates[i].at);
      }
      return Ok(());
    }
  }
}
