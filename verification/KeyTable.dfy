/** The `keys` table and the statements that read and write it, each as one atomic function
    on the whole table (internal/constants/queries.go, internal/infra/persistence/psql_adapter.go).

    The second half states what every run of those statements keeps. */
module KeyTable {
  import opened Domain

  /** Primary key (id, version). */
  type Table = map<(KeyId, int), Row>

  datatype TableError =
    | KeyNotFound | InvalidVersion | KeyAlreadyExists
    | MissingKey | MissingMetadata | EmptyDek
    | VersionOutOfRange | DuplicateVersion

  /** What CreateKey is given: the metadata may be missing. */
  datatype NewKey = NewKey(
    id: KeyId, version: int, metadata: Option<Metadata>, encryptedDek: Bytes,
    status: KeyStatus, createdAt: Time, updatedAt: Time)

  // ---------------------------------------------------------------- queries

  function Versions(t: Table, id: KeyId): set<int> {
    set k | k in t && k.0 == id :: k.1
  }

  function MaxOf(s: set<int>): (m: int)
    requires s != {}
    ensures m in s && forall x :: x in s ==> x <= m
  {
    HasMaximum(s);
    var m :| m in s && forall x :: x in s ==> x <= m;
    m
  }

  lemma {:induction false} HasMaximum(s: set<int>)
    requires s != {}
    ensures exists m :: m in s && forall x :: x in s ==> x <= m
    decreases |s|
  {
    var y := Member(s);
    var rest := s - {y};
    if rest == {} {
      forall x | x in s ensures x <= y { assert x == y || x in rest; }
    } else {
      HasMaximum(rest);
      var m :| m in rest && forall x :: x in rest ==> x <= m;
      var top := if m < y then y else m;
      assert top in s && forall x :: x in s ==> x <= top by {
        forall x | x in s ensures x <= top { assert x == y || x in rest; }
      }
    }
  }

  lemma Member(s: set<int>) returns (y: int)
    requires s != {}
    ensures y in s
  {
    if forall x :: x !in s {
      assert false;
    }
    y :| y in s;
  }

  /** MAX(version) over the rows of one id. */
  function Latest(t: Table, id: KeyId): (v: Option<int>)
    ensures v.None? <==> forall w :: (id, w) !in t
    ensures v.Some? ==> (id, v.value) in t && forall w :: (id, w) in t ==> w <= v.value
  {
    var vs := Versions(t, id);
    assert forall w :: (id, w) in t <==> w in vs by {
      forall w | (id, w) in t ensures w in vs { assert (id, w).0 == id && (id, w).1 == w; }
    }
    if vs == {} then None else Some(MaxOf(vs))
  }

  /** ORDER BY version DESC LIMIT 1. */
  function GetKey(t: Table, id: KeyId): Result<Key, TableError> {
    match Latest(t, id)
    case None => Err(KeyNotFound)
    case Some(v) => Ok(Key(id, v, t[(id, v)]))
  }

  function GetKeyByVersion(t: Table, id: KeyId, version: int): Result<Key, TableError> {
    if version <= 0 then Err(InvalidVersion)
    else if (id, version) !in t then Err(KeyNotFound)
    else Ok(Key(id, version, t[(id, version)]))
  }

  predicate Exists(t: Table, id: KeyId) {
    Latest(t, id).Some?
  }

  // ---------------------------------------------------------------- statements

  function NewRow(k: NewKey): Row
    requires k.metadata.Some?
  {
    Row(k.metadata.value, k.encryptedDek, k.status, k.createdAt, k.updatedAt, None)
  }

  function Create(t: Table, key: Option<NewKey>): Result<Table, TableError> {
    if key.None? then Err(MissingKey)
    else if key.value.metadata.None? then Err(MissingMetadata)
    else if key.value.encryptedDek == [] then Err(EmptyDek)
    else if (key.value.id, key.value.version) in t then Err(KeyAlreadyExists)
    else Ok(t[(key.value.id, key.value.version) := NewRow(key.value)])
  }

  function UpdateRow(t: Table, id: KeyId, version: int, metadata: Metadata, now: Time): Table
    requires (id, version) in t
  {
    t[(id, version) := t[(id, version)].(metadata := metadata, updatedAt := now)]
  }

  function UpdateMetadata(t: Table, id: KeyId, metadata: Option<Metadata>, now: Time): Result<Table, TableError> {
    if metadata.None? then Err(MissingMetadata)
    else match Latest(t, id)
      case None => Err(KeyNotFound)
      case Some(v) => Ok(UpdateRow(t, id, v, metadata.value, now))
  }

  function RevokedRow(row: Row, now: Time): Row {
    row.(status := Revoked, revokedAt := Some(now))
  }

  function RevokeRows(t: Table, id: KeyId, versions: set<int>, now: Time): Table {
    map k | k in t :: if k.0 == id && k.1 in versions then RevokedRow(t[k], now) else t[k]
  }

  function Revoke(t: Table, id: KeyId, now: Time): Result<Table, TableError> {
    if !Exists(t, id) then Err(KeyNotFound) else Ok(RevokeRows(t, id, Versions(t, id), now))
  }

  function RotatedRow(row: Row, now: Time): Row {
    row.(status := Rotated, updatedAt := now)
  }

  function SuccessorRow(row: Row, dek: Bytes, now: Time): Row {
    Row(row.metadata.(version := row.metadata.version + 1), dek, Active, now, now, None)
  }

  /** The rotate statement: it marks the latest row rotated and inserts its successor.  The new
      version number comes from the row's metadata, not from its version column. */
  function Rotate(t: Table, id: KeyId, dek: Bytes, now: Time): Result<(Table, Key), TableError> {
    if dek == [] then Err(EmptyDek)
    else match Latest(t, id)
      case None => Err(KeyNotFound)
      case Some(v) =>
        var current := t[(id, v)];
        var next := current.metadata.version + 1;
        if next > MAX_INT32 then Err(VersionOutOfRange)
        else if (id, next) in t then Err(DuplicateVersion)
        else
          var row := SuccessorRow(current, dek, now);
          Ok((t[(id, v) := RotatedRow(current, now)][(id, next) := row], Key(id, next, row)))
  }

  /** A key's primary key. */
  function At(key: Key): (KeyId, int) {
    (key.id, key.version)
  }

  /** COPY of several rows: all of them, or none when any primary key is taken. */
  function CopyFrom(t: Table, keys: seq<Key>): Result<Table, TableError>
    decreases |keys|
  {
    if keys == [] then Ok(t)
    else if At(keys[0]) in t then Err(KeyAlreadyExists)
    else CopyFrom(t[At(keys[0]) := keys[0].row], keys[1..])
  }

  function RevokeBatch(t: Table, ids: seq<KeyId>, now: Time): Table {
    map k | k in t :: if k.0 in ids then RevokedRow(t[k], now) else t[k]
  }

  /** One entry of a batch update; each statement carries the time at which it was queued. */
  datatype BatchUpdate = BatchUpdate(id: KeyId, metadata: Option<Metadata>, at: Time)

  /** The queued update statements run in order; an id without rows is passed over. */
  function UpdateBatch(t: Table, updates: seq<BatchUpdate>): Table
    decreases |updates|
  {
    if updates == [] then t
    else
      var r := UpdateMetadata(t, updates[0].id, updates[0].metadata, updates[0].at);
      UpdateBatch(if r.Ok? then r.value else t, updates[1..])
  }

  // ---------------------------------------------------------------- the table invariant

  ghost predicate RowOk(t: Table, id: KeyId, n: int, v: int)
    requires (id, 1) in t && (id, v) in t
  {
    var row := t[(id, v)];
    && row.metadata.version == v
    && row.metadata.storageType == t[(id, 1)].metadata.storageType
    && row.encryptedDek != []
    && (v < n ==> row.status != Active)
    && (v == n ==> row.status != Rotated)
  }

  /** The versions of an id are exactly 1..n, only the last may be active, and the storage
      profile is the same in all of them. */
  ghost predicate IdOk(t: Table, id: KeyId) {
    match Latest(t, id)
    case None => true
    case Some(n) =>
      && n >= 1
      && (forall v :: (id, v) in t <==> 1 <= v <= n)
      && (forall v :: 1 <= v <= n ==> RowOk(t, id, n, v))
  }

  ghost predicate WellFormed(t: Table) {
    forall id: KeyId :: IdOk(t, id)
  }

  /** What no statement ever takes back: rows stay, with their DEK, creation time and profile. */
  ghost predicate Evolves(t: Table, t': Table) {
    forall k :: k in t ==>
      && k in t'
      && t'[k].encryptedDek == t[k].encryptedDek
      && t'[k].createdAt == t[k].createdAt
      && t'[k].metadata.storageType == t[k].metadata.storageType
      && t'[k].metadata.version == t[k].metadata.version
  }

  /** The atomic effects a committed statement can have on the table.

      A whole-id revoke is `RevokeRowsOp` with all versions.  A subset is included because a
      revoke that waited for a rotation to commit only touches the rows it first saw; for the
      same reason `UpdateRowOp` may hit a version that is no longer the latest. */
  datatype Op =
    | CreateOp(id: KeyId, row: Row)
    | RotateOp(id: KeyId, dek: Bytes, now: Time)
    | UpdateRowOp(id: KeyId, version: int, metadata: Metadata, now: Time)
    | RevokeRowsOp(id: KeyId, versions: set<int>, now: Time)

  /** The row `createKeyObject` builds: version 1, active, sealed. */
  predicate FreshRow(row: Row) {
    row.metadata.version == 1 && row.status == Active && row.encryptedDek != []
  }

  /** The metadata written back carries the version and profile of the row it lands on. */
  predicate VersionPreserving(row: Row, metadata: Metadata) {
    metadata.version == row.metadata.version && metadata.storageType == row.metadata.storageType
  }

  predicate Enabled(t: Table, op: Op) {
    match op
    case CreateOp(id, row) => (id, 1) !in t && FreshRow(row)
    case RotateOp(id, dek, now) => Rotate(t, id, dek, now).Ok?
    case UpdateRowOp(id, version, metadata, now) =>
      (id, version) in t && VersionPreserving(t[(id, version)], metadata)
    case RevokeRowsOp(id, versions, now) => true
  }

  function Apply(t: Table, op: Op): Table
    requires Enabled(t, op)
  {
    match op
    case CreateOp(id, row) => t[(id, 1) := row]
    case RotateOp(id, dek, now) => Rotate(t, id, dek, now).value.0
    case UpdateRowOp(id, version, metadata, now) => UpdateRow(t, id, version, metadata, now)
    case RevokeRowsOp(id, versions, now) => RevokeRows(t, id, versions, now)
  }

  lemma LatestIs(t: Table, id: KeyId, n: int)
    requires (id, n) in t && forall w :: (id, w) in t ==> w <= n
    ensures Latest(t, id) == Some(n)
  {
    assert (id, Latest(t, id).value) in t;
  }

  lemma SameIdSameLatest(t: Table, t': Table, id: KeyId)
    requires forall w :: (id, w) in t <==> (id, w) in t'
    ensures Latest(t, id) == Latest(t', id)
  {
    if Latest(t, id).Some? {
      LatestIs(t', id, Latest(t, id).value);
    }
  }

  /** An id none of whose rows is touched keeps its part of the invariant. */
  lemma UntouchedIdOk(t: Table, t': Table, id: KeyId)
    requires IdOk(t, id)
    requires forall w :: (id, w) in t <==> (id, w) in t'
    requires forall w :: (id, w) in t ==> t'[(id, w)] == t[(id, w)]
    ensures IdOk(t', id)
  {
    SameIdSameLatest(t, t', id);
    if Latest(t, id).Some? {
      var n := Latest(t, id).value;
      forall v | 1 <= v <= n ensures RowOk(t', id, n, v) { assert RowOk(t, id, n, v); }
    }
  }

  /** Same rows, each changed only in ways the invariant does not mind. */
  lemma TouchedIdOk(t: Table, t': Table, id: KeyId)
    requires IdOk(t, id)
    requires forall w :: (id, w) in t <==> (id, w) in t'
    requires forall w :: (id, w) in t ==>
      && VersionPreserving(t[(id, w)], t'[(id, w)].metadata)
      && t'[(id, w)].encryptedDek == t[(id, w)].encryptedDek
      && (t'[(id, w)].status == t[(id, w)].status || t'[(id, w)].status == Revoked)
    ensures IdOk(t', id)
  {
    SameIdSameLatest(t, t', id);
    if Latest(t, id).Some? {
      var n := Latest(t, id).value;
      forall v | 1 <= v <= n ensures RowOk(t', id, n, v) {
        assert RowOk(t, id, n, v);
        assert (id, 1) in t && (id, v) in t;
      }
    }
  }

  lemma FreshIdOk(t: Table, id: KeyId, row: Row)
    requires IdOk(t, id) && (id, 1) !in t && FreshRow(row)
    ensures IdOk(t[(id, 1) := row], id)
  {
    var t' := t[(id, 1) := row];
    assert Latest(t, id).None?;
    LatestIs(t', id, 1);
  }

  /** Two rows that agree in all but status and updatedAt. */
  predicate SameButStatusAndTime(a: Row, b: Row) {
    && a.metadata == b.metadata && a.encryptedDek == b.encryptedDek
    && a.createdAt == b.createdAt && a.revokedAt == b.revokedAt
  }

  /** Two metadata that agree in all but the version. */
  predicate SameButVersion(a: Metadata, b: Metadata) {
    && a.keyType == b.keyType && a.updatedAt == b.updatedAt && a.expiresAt == b.expiresAt
    && a.authorizedContexts == b.authorizedContexts && a.accessPolicies == b.accessPolicies
    && a.description == b.description && a.tags == b.tags
    && a.dataClassification == b.dataClassification && a.storageType == b.storageType
  }

  /** What a rotation of `id` from version n to version m leaves, row by row and field by field: the old
      row is marked rotated, the new one is active with the new DEK, and no other row changes. */
  ghost predicate IsRotation(t: Table, t': Table, id: KeyId, n: int, m: int, dek: Bytes, now: Time) {
    && (id, n) in t && (id, m) !in t && t'.Keys == t.Keys + {(id, m)}
    && (forall k :: k in t && k != (id, n) ==> t'[k] == t[k])
    && SameButStatusAndTime(t'[(id, n)], t[(id, n)])
    && t'[(id, n)].status == Rotated && t'[(id, n)].updatedAt == now
    && var row := t'[(id, m)];
    && SameButVersion(row.metadata, t[(id, n)].metadata) && row.metadata.version == m
    && row.encryptedDek == dek && row.status == Active
    && row.createdAt == now && row.updatedAt == now && row.revokedAt == None
  }

  /** On any table: which rows a rotation writes, and what it returns. */
  lemma RotateWrites(t: Table, id: KeyId, dek: Bytes, now: Time)
    requires Rotate(t, id, dek, now).Ok?
    ensures
      var (t', key) := Rotate(t, id, dek, now).value;
      && Latest(t, id).Some?
      && key.id == id && key.version == t[(id, Latest(t, id).value)].metadata.version + 1
      && IsRotation(t, t', id, Latest(t, id).value, key.version, dek, now)
      && key.row == t'[(id, key.version)]
  {
  }

  /** On a well-formed id a rotation fails only for want of a DEK, of rows or of version numbers. */
  lemma RotateFailsIff(t: Table, id: KeyId, dek: Bytes, now: Time)
    requires IdOk(t, id)
    ensures
      var r := Rotate(t, id, dek, now);
      && (r == Err(EmptyDek) <==> dek == [])
      && (r == Err(KeyNotFound) <==> dek != [] && forall v :: (id, v) !in t)
      && (r == Err(VersionOutOfRange) <==> dek != [] && (id, MAX_INT32) in t)
      && (r.Ok? <==> dek != [] && (exists v :: (id, v) in t) && (id, MAX_INT32) !in t)
  {
    if Latest(t, id).Some? {
      var n := Latest(t, id).value;
      assert RowOk(t, id, n, n);
      assert (id, n) in t;
    }
  }

  /** On a well-formed id the rotate statement extends the chain by exactly one version. */
  lemma RotateExtends(t: Table, id: KeyId, dek: Bytes, now: Time)
    requires IdOk(t, id) && Rotate(t, id, dek, now).Ok?
    ensures
      var (t', key) := Rotate(t, id, dek, now).value;
      && Latest(t, id).Some?
      && Latest(t', id) == Some(Latest(t, id).value + 1) == Some(key.version)
      && IdOk(t', id)
      && GetKey(t', id) == Ok(key)
      && key.row.encryptedDek == dek && key.row.status == Active
      && (forall k :: k in t' <==> k in t || k == (id, key.version))
      && IsRotation(t, t', id, Latest(t, id).value, key.version, dek, now)
  {
    RotateWrites(t, id, dek, now);
    var n := Latest(t, id).value;
    var t' := Rotate(t, id, dek, now).value.0;
    assert RowOk(t, id, n, n);
    LatestIs(t', id, n + 1);
    forall v | 1 <= v <= n + 1 ensures (id, v) in t' && RowOk(t', id, n + 1, v) {
      if v <= n { assert RowOk(t, id, n, v); }
    }
  }

  lemma RevokeRowsAt(t: Table, id: KeyId, versions: set<int>, now: Time, k: (KeyId, int))
    ensures var t' := RevokeRows(t, id, versions, now);
      && (k in t' <==> k in t)
      && (k in t ==> t'[k] == if k.0 == id && k.1 in versions then RevokedRow(t[k], now) else t[k])
  {
  }

  lemma ApplyKeepsIdOk(t: Table, op: Op, id: KeyId)
    requires IdOk(t, id) && IdOk(t, op.id) && Enabled(t, op)
    ensures IdOk(Apply(t, op), id)
  {
    var t' := Apply(t, op);
    match op
    case CreateOp(id', row) =>
      if id' == id { FreshIdOk(t, id, row); } else { UntouchedIdOk(t, t', id); }
    case RotateOp(id', dek, now) =>
      if id' == id { RotateExtends(t, id, dek, now); } else { UntouchedIdOk(t, t', id); }
    case UpdateRowOp(id', version, metadata, now) =>
      TouchedIdOk(t, t', id);
    case RevokeRowsOp(id', versions, now) =>
      forall w ensures ((id, w) in t <==> (id, w) in t') { RevokeRowsAt(t, id', versions, now, (id, w)); }
      TouchedIdOk(t, t', id);
  }

  lemma ApplyEvolves(t: Table, op: Op)
    requires IdOk(t, op.id) && Enabled(t, op)
    ensures Evolves(t, Apply(t, op))
  {
    if op.RotateOp? { RotateExtends(t, op.id, op.dek, op.now); }
  }

  lemma ApplyKeepsWellFormed(t: Table, op: Op)
    requires WellFormed(t) && Enabled(t, op)
    ensures WellFormed(Apply(t, op)) && Evolves(t, Apply(t, op))
  {
    ApplyEvolves(t, op);
    forall id: KeyId ensures IdOk(Apply(t, op), id) { ApplyKeepsIdOk(t, op, id); }
  }

  // ---------------------------------------------------------------- whole runs

  ghost predicate CanRun(t: Table, ops: seq<Op>)
    decreases |ops|
  {
    ops == [] || (Enabled(t, ops[0]) && CanRun(Apply(t, ops[0]), ops[1..]))
  }

  ghost function Run(t: Table, ops: seq<Op>): Table
    requires CanRun(t, ops)
    decreases |ops|
  {
    if ops == [] then t else Run(Apply(t, ops[0]), ops[1..])
  }

  function RotationsOf(ops: seq<Op>, id: KeyId): nat {
    if ops == [] then 0
    else (if ops[0].RotateOp? && ops[0].id == id then 1 else 0) + RotationsOf(ops[1..], id)
  }

  lemma EvolvesTransitive(a: Table, b: Table, c: Table)
    requires Evolves(a, b) && Evolves(b, c)
    ensures Evolves(a, c)
  {
  }

  /** Every run of creates, rotates, version-preserving updates and revokes keeps the table
      well formed, and no row it holds ever loses its DEK, version or profile. */
  lemma {:induction false} RunKeepsWellFormed(t: Table, ops: seq<Op>)
    requires WellFormed(t) && CanRun(t, ops)
    ensures WellFormed(Run(t, ops)) && Evolves(t, Run(t, ops))
    decreases |ops|
  {
    if ops != [] {
      ApplyKeepsWellFormed(t, ops[0]);
      RunKeepsWellFormed(Apply(t, ops[0]), ops[1..]);
      EvolvesTransitive(t, Apply(t, ops[0]), Run(t, ops));
    }
  }

  /** A rotation of the id adds one to its latest version; nothing else moves it. */
  lemma ApplyMovesLatest(t: Table, op: Op, id: KeyId)
    requires WellFormed(t) && Enabled(t, op) && Exists(t, id)
    ensures WellFormed(Apply(t, op))
    ensures Latest(Apply(t, op), id) == Some(Latest(t, id).value + if op.RotateOp? && op.id == id then 1 else 0)
  {
    var t' := Apply(t, op);
    ApplyKeepsWellFormed(t, op);
    assert IdOk(t, id);
    if op.RotateOp? && op.id == id {
      RotateExtends(t, id, op.dek, op.now);
    } else {
      if op.RevokeRowsOp? {
        forall w ensures ((id, w) in t <==> (id, w) in t') { RevokeRowsAt(t, op.id, op.versions, op.now, (id, w)); }
      }
      assert op.CreateOp? ==> op.id != id;
      SameIdSameLatest(t, t', id);
    }
  }

  /** The latest version counts the rotations, whatever else happened in between. */
  lemma {:induction false} LatestCountsRotations(t: Table, ops: seq<Op>, id: KeyId)
    requires WellFormed(t) && CanRun(t, ops) && Exists(t, id)
    ensures Latest(Run(t, ops), id) == Some(Latest(t, id).value + RotationsOf(ops, id))
    decreases |ops|
  {
    if ops != [] {
      ApplyMovesLatest(t, ops[0], id);
      LatestCountsRotations(Apply(t, ops[0]), ops[1..], id);
    }
  }

  lemma EmptyIsWellFormed()
    ensures WellFormed(map[])
  {
    forall id: KeyId ensures IdOk(map[], id) { assert Latest(map[], id) == None; }
  }

  // ---------------------------------------------------------------- batch inserts

  /** The batch's primary keys are pairwise distinct and none is taken. */
  ghost predicate Insertable(t: Table, keys: seq<Key>) {
    && (forall i, j :: 0 <= i < j < |keys| ==> At(keys[i]) != At(keys[j]))
    && (forall i :: 0 <= i < |keys| ==> At(keys[i]) !in t)
  }

  lemma InsertableSplits(t: Table, keys: seq<Key>)
    requires keys != []
    ensures Insertable(t, keys) <==> At(keys[0]) !in t && Insertable(t[At(keys[0]) := keys[0].row], keys[1..])
  {
    var rest := keys[1..];
    assert forall i :: 1 <= i < |keys| ==> keys[i] == rest[i - 1];
    if At(keys[0]) !in t && Insertable(t[At(keys[0]) := keys[0].row], rest) {
      forall i | 0 <= i < |keys| ensures At(keys[i]) !in t && (i > 0 ==> At(keys[i]) != At(keys[0])) {
        if i > 0 { assert At(rest[i - 1]) !in t[At(keys[0]) := keys[0].row]; }
      }
    }
  }

  lemma FromRest(t: Table, keys: seq<Key>, k: (KeyId, int))
    requires keys != []
    requires k in t[At(keys[0]) := keys[0].row] || exists i :: 0 <= i < |keys[1..]| && k == At(keys[1..][i])
    ensures k in t || exists i :: 0 <= i < |keys| && k == At(keys[i])
  {
    if i :| 0 <= i < |keys[1..]| && k == At(keys[1..][i]) {
      assert k == At(keys[i + 1]);
    }
  }

  /** A batch insert succeeds exactly when its primary keys are new and distinct, and then the
      table holds the old rows and the batch's rows and nothing else. */
  lemma {:induction false} CopyFromInsertsAll(t: Table, keys: seq<Key>)
    ensures CopyFrom(t, keys).Ok? <==> Insertable(t, keys)
    ensures CopyFrom(t, keys).Ok? ==>
      var t' := CopyFrom(t, keys).value;
      && (forall k :: k in t ==> k in t' && t'[k] == t[k])
      && (forall i :: 0 <= i < |keys| ==> At(keys[i]) in t' && t'[At(keys[i])] == keys[i].row)
      && (forall k :: k in t' ==> k in t || exists i :: 0 <= i < |keys| && k == At(keys[i]))
    decreases |keys|
  {
    if keys != [] {
      var rest := keys[1..];
      InsertableSplits(t, keys);
      CopyFromInsertsAll(t[At(keys[0]) := keys[0].row], rest);
      assert forall i :: 1 <= i < |keys| ==> keys[i] == rest[i - 1];
      if CopyFrom(t, keys).Ok? {
        var t' := CopyFrom(t, keys).value;
        forall k | k in t' ensures k in t || exists i :: 0 <= i < |keys| && k == At(keys[i]) {
          FromRest(t, keys, k);
        }
        forall i | 0 <= i < |keys| ensures At(keys[i]) in t' && t'[At(keys[i])] == keys[i].row {
          if i > 0 { assert At(rest[i - 1]) in t'; }
        }
      }
    }
  }

  // ---------------------------------------------------------------- revocation

  ghost predicate AllRevoked(t: Table, id: KeyId) {
    Exists(t, id) && forall v :: (id, v) in t ==> t[(id, v)].status == Revoked
  }

  lemma RevokeRevokesAll(t: Table, id: KeyId, now: Time)
    ensures Revoke(t, id, now).Ok? <==> Exists(t, id)
    ensures Revoke(t, id, now).Ok? ==> AllRevoked(Revoke(t, id, now).value, id)
  {
    if Exists(t, id) {
      var t' := Revoke(t, id, now).value;
      forall w ensures ((id, w) in t <==> (id, w) in t') && ((id, w) in t ==> t'[(id, w)].status == Revoked) {
        RevokeRowsAt(t, id, Versions(t, id), now, (id, w));
        if (id, w) in t { assert (id, w).0 == id && (id, w).1 == w; }
      }
      SameIdSameLatest(t, t', id);
    }
  }

  /** A revoked id stays wholly revoked under exactly the operations that are not a rotation of
      that id: the rotate statement does not look at the status. */
  lemma RevokedUntilRotated(t: Table, op: Op, id: KeyId)
    requires WellFormed(t) && AllRevoked(t, id) && Enabled(t, op)
    ensures AllRevoked(Apply(t, op), id) <==> !(op.RotateOp? && op.id == id)
  {
    var t' := Apply(t, op);
    assert IdOk(t, id);
    if op.RotateOp? && op.id == id {
      RotateExtends(t, id, op.dek, op.now);
    } else {
      if op.RevokeRowsOp? {
        forall w ensures ((id, w) in t <==> (id, w) in t') && ((id, w) in t ==> t'[(id, w)].status == Revoked) {
          RevokeRowsAt(t, op.id, op.versions, op.now, (id, w));
        }
      }
      SameIdSameLatest(t, t', id);
    }
  }

  // ---------------------------------------------------------------- stale metadata writes

  /** A metadata write keeps the id well formed exactly when it carries the latest row's own
      version and profile.  A write prepared before a rotation and stored after it does not. */
  lemma UpdateKeepsIdOkIff(t: Table, id: KeyId, metadata: Metadata, now: Time)
    requires IdOk(t, id) && Exists(t, id)
    ensures
      var n := Latest(t, id).value;
      IdOk(UpdateMetadata(t, id, Some(metadata), now).value, id) <==>
        metadata.version == n && (n == 1 || metadata.storageType == t[(id, n)].metadata.storageType)
  {
    var n := Latest(t, id).value;
    var t' := UpdateMetadata(t, id, Some(metadata), now).value;
    SameIdSameLatest(t, t', id);
    assert RowOk(t, id, n, n) && (id, 1) in t;
    if metadata.version == n && (n == 1 || metadata.storageType == t[(id, n)].metadata.storageType) {
      forall v | 1 <= v <= n ensures RowOk(t', id, n, v) { assert RowOk(t, id, n, v); }
    }
    if IdOk(t', id) { assert RowOk(t', id, n, n) && RowOk(t', id, n, 1); }
  }

  /** After such a write the key can be rotated exactly when the version it carries plus one is
      still free; a write carrying an older version makes the next rotation fail. */
  lemma RotatesAfterUpdateIff(t: Table, id: KeyId, metadata: Metadata, dek: Bytes, now: Time)
    requires IdOk(t, id) && Exists(t, id) && dek != []
    ensures
      var n := Latest(t, id).value;
      var t' := UpdateMetadata(t, id, Some(metadata), now).value;
      Rotate(t', id, dek, now).Ok? <==>
        metadata.version < MAX_INT32 && !(1 <= metadata.version + 1 <= n)
  {
    var t' := UpdateMetadata(t, id, Some(metadata), now).value;
    SameIdSameLatest(t, t', id);
  }

  // ---------------------------------------------------------------- batch writes

  /** A batch of fresh first versions keeps the table well formed. */
  lemma {:induction false} CopyFromKeepsWellFormed(t: Table, keys: seq<Key>)
    requires WellFormed(t) && CopyFrom(t, keys).Ok?
    requires forall i :: 0 <= i < |keys| ==> keys[i].version == 1 && FreshRow(keys[i].row)
    ensures WellFormed(CopyFrom(t, keys).value) && Evolves(t, CopyFrom(t, keys).value)
    decreases |keys|
  {
    if keys != [] {
      var op := CreateOp(keys[0].id, keys[0].row);
      ApplyKeepsWellFormed(t, op);
      CopyFromKeepsWellFormed(Apply(t, op), keys[1..]);
      EvolvesTransitive(t, Apply(t, op), CopyFrom(t, keys).value);
    }
  }

  /** A batch revocation revokes every version of every listed id that exists, touches no other row, and
      keeps the table well formed. */
  lemma RevokeBatchRevokesAll(t: Table, ids: seq<KeyId>, now: Time)
    ensures
      var t' := RevokeBatch(t, ids, now);
      && (forall id: KeyId :: id in ids && Exists(t, id) ==> AllRevoked(t', id))
      && t'.Keys == t.Keys
      && (forall k :: k in t && k.0 !in ids ==> t'[k] == t[k])
      && Evolves(t, t')
      && (WellFormed(t) ==> WellFormed(t'))
  {
    var t' := RevokeBatch(t, ids, now);
    assert forall k :: k in t' <==> k in t;
    forall id: KeyId | id in ids && Exists(t, id) ensures AllRevoked(t', id) { SameIdSameLatest(t, t', id); }
    if WellFormed(t) {
      forall id: KeyId ensures IdOk(t', id) {
        assert IdOk(t, id);
        TouchedIdOk(t, t', id);
      }
    }
  }

  /** The update of `id` that is queued last. */
  function LastFor(updates: seq<BatchUpdate>, id: KeyId): (u: Option<BatchUpdate>)
    ensures u.Some? ==> u.value.id == id && u.value.metadata.Some?
    decreases |updates|
  {
    if updates == [] then None
    else
      var later := LastFor(updates[1..], id);
      if later.Some? then later
      else if updates[0].id == id && updates[0].metadata.Some? then Some(updates[0])
      else None
  }

  function UpdatedBy(row: Row, u: BatchUpdate): Row
    requires u.metadata.Some?
  {
    row.(metadata := u.metadata.value, updatedAt := u.at)
  }

  /** What a batch update leaves in a row: of each id only the latest version is touched, and the
      update queued last wins. */
  lemma {:induction false} UpdateBatchAt(t: Table, updates: seq<BatchUpdate>, k: (KeyId, int))
    ensures
      var t' := UpdateBatch(t, updates);
      var u := LastFor(updates, k.0);
      && (k in t' <==> k in t)
      && (k in t ==> t'[k] == if u.Some? && Latest(t, k.0) == Some(k.1) then UpdatedBy(t[k], u.value) else t[k])
    decreases |updates|
  {
    if updates != [] {
      var r := UpdateMetadata(t, updates[0].id, updates[0].metadata, updates[0].at);
      var t1 := if r.Ok? then r.value else t;
      SameIdSameLatest(t, t1, k.0);
      UpdateBatchAt(t1, updates[1..], k);
    }
  }

  /** The metadata that lands on the latest row of `id`, if any, carries that row's version and (beyond
      version 1) its profile. */
  predicate BatchFits(t: Table, updates: seq<BatchUpdate>, id: KeyId) {
    var u, n := LastFor(updates, id), Latest(t, id);
    u.Some? && n.Some? ==>
      var md := u.value.metadata.value;
      md.version == n.value && (n.value == 1 || md.storageType == t[(id, n.value)].metadata.storageType)
  }

  /** A batch update keeps an id well formed if and only if the update of it queued last fits. */
  lemma UpdateBatchKeepsIdOkIff(t: Table, updates: seq<BatchUpdate>, id: KeyId)
    requires IdOk(t, id)
    ensures IdOk(UpdateBatch(t, updates), id) <==> BatchFits(t, updates, id)
  {
    var t' := UpdateBatch(t, updates);
    var u := LastFor(updates, id);
    forall v ensures ((id, v) in t' <==> (id, v) in t) { UpdateBatchAt(t, updates, (id, v)); }
    if u.Some? && Exists(t, id) {
      var one := UpdateMetadata(t, id, u.value.metadata, u.value.at).value;
      UpdateKeepsIdOkIff(t, id, u.value.metadata.value, u.value.at);
      forall v | (id, v) in t ensures t'[(id, v)] == one[(id, v)] { UpdateBatchAt(t, updates, (id, v)); }
      SameRowsSameIdOk(one, t', id);
    } else {
      forall v | (id, v) in t ensures t'[(id, v)] == t[(id, v)] { UpdateBatchAt(t, updates, (id, v)); }
      UntouchedIdOk(t, t', id);
    }
  }

  lemma SameRowsSameIdOk(t: Table, t': Table, id: KeyId)
    requires forall v :: (id, v) in t <==> (id, v) in t'
    requires forall v :: (id, v) in t ==> t'[(id, v)] == t[(id, v)]
    ensures IdOk(t, id) <==> IdOk(t', id)
  {
    if IdOk(t, id) { UntouchedIdOk(t, t', id); }
    if IdOk(t', id) { UntouchedIdOk(t', t, id); }
  }

  lemma UpdateBatchKeepsWellFormedIff(t: Table, updates: seq<BatchUpdate>)
    requires WellFormed(t)
    ensures WellFormed(UpdateBatch(t, updates)) <==> forall id: KeyId :: BatchFits(t, updates, id)
  {
    forall id: KeyId ensures IdOk(UpdateBatch(t, updates), id) <==> BatchFits(t, updates, id) {
      assert IdOk(t, id);
      UpdateBatchKeepsIdOkIff(t, updates, id);
    }
  }

  // ---------------------------------------------------------------- the statements, row by row

  /** A read of the latest version finds the row with the largest version, or there is none. */
  lemma GetKeyFinds(t: Table, id: KeyId)
    ensures
      var r := GetKey(t, id);
      && (r.Err? <==> forall v :: (id, v) !in t)
      && (r.Err? ==> r.error == KeyNotFound)
      && (r.Ok? ==>
            && r.value.id == id && (id, r.value.version) in t && r.value.row == t[(id, r.value.version)]
            && forall v :: (id, v) in t ==> v <= r.value.version)
  {
  }

  lemma GetKeyByVersionFinds(t: Table, id: KeyId, version: int)
    ensures
      var r := GetKeyByVersion(t, id, version);
      && (r == Err(InvalidVersion) <==> version < 1)
      && (r == Err(KeyNotFound) <==> version >= 1 && (id, version) !in t)
      && (r.Ok? <==> version >= 1 && (id, version) in t)
      && (r.Ok? ==> r.value.id == id && r.value.version == version && r.value.row == t[(id, version)])
  {
  }

  /** A create adds exactly the one row it is given, or says what was missing. */
  lemma CreateAdds(t: Table, key: NewKey)
    ensures
      var r := Create(t, Some(key));
      && (r.Ok? <==> key.metadata.Some? && key.encryptedDek != [] && (key.id, key.version) !in t)
      && (r == Err(KeyAlreadyExists) <==> key.metadata.Some? && key.encryptedDek != [] && (key.id, key.version) in t)
      && (r.Ok? ==>
            && r.value.Keys == t.Keys + {(key.id, key.version)}
            && (forall k :: k in t ==> r.value[k] == t[k])
            && var row := r.value[(key.id, key.version)];
            && Some(row.metadata) == key.metadata && row.encryptedDek == key.encryptedDek && row.status == key.status
            && row.createdAt == key.createdAt && row.updatedAt == key.updatedAt && row.revokedAt == None)
  {
  }

  /** A metadata update writes the metadata and the time of the latest row, and nothing else. */
  lemma UpdateWrites(t: Table, id: KeyId, metadata: Metadata, now: Time)
    ensures
      var r := UpdateMetadata(t, id, Some(metadata), now);
      && (r.Ok? <==> exists v :: (id, v) in t)
      && (r.Ok? ==>
            && r.value.Keys == t.Keys
            && forall k :: k in t ==>
                 var row := r.value[k];
                 if k.0 == id && (forall v :: (id, v) in t ==> v <= k.1) then
                   && row.metadata == metadata && row.updatedAt == now
                   && row.encryptedDek == t[k].encryptedDek && row.status == t[k].status
                   && row.createdAt == t[k].createdAt && row.revokedAt == t[k].revokedAt
                 else row == t[k])
  {
    if Latest(t, id).Some? {
      var n := Latest(t, id).value;
      var r := UpdateMetadata(t, id, Some(metadata), now).value;
      assert (id, n) in t;
      forall k | k in t && k.0 == id && k != (id, n) ensures exists v :: (id, v) in t && v > k.1 { assert n > k.1; }
    }
  }

  /** A revocation writes the status and the revocation time of every version of the id, and nothing else. */
  lemma RevokeWrites(t: Table, id: KeyId, now: Time)
    requires Exists(t, id)
    ensures
      var r := Revoke(t, id, now);
      && r.Ok? && r.value.Keys == t.Keys
      && forall k :: k in t ==> if k.0 == id then IsRevoked(t[k], r.value[k], now) else r.value[k] == t[k]
  {
    var t' := Revoke(t, id, now).value;
    forall k | k in t ensures if k.0 == id then IsRevoked(t[k], t'[k], now) else t'[k] == t[k] {
      assert k.0 == id ==> k.1 in Versions(t, id);
      RevokeRowsAt(t, id, Versions(t, id), now, k);
    }
    assert t'.Keys == t.Keys;
  }

  /** `b` is `a` revoked at `now`. */
  predicate IsRevoked(a: Row, b: Row, now: Time) {
    && b.status == Revoked && b.revokedAt == Some(now)
    && b.metadata == a.metadata && b.encryptedDek == a.encryptedDek
    && b.createdAt == a.createdAt && b.updatedAt == a.updatedAt
  }

  lemma RevokeBatchWrites(t: Table, ids: seq<KeyId>, now: Time)
    ensures
      var t' := RevokeBatch(t, ids, now);
      && t'.Keys == t.Keys
      && forall k :: k in t ==> if k.0 in ids then IsRevoked(t[k], t'[k], now) else t'[k] == t[k]
  {
  }

  /** Every statement that succeeds is one of the operations runs are made of, with the same effect: a create of a
      fresh first version, a rotation, a version-preserving update of the latest row, a revocation of all
      versions. */
  lemma StatementsAreOps(t: Table, id: KeyId, key: NewKey, dek: Bytes, metadata: Metadata, now: Time)
    ensures Create(t, Some(key)).Ok? && key.version == 1 && FreshRow(NewRow(key)) ==>
      var op := CreateOp(key.id, NewRow(key)); Enabled(t, op) && Apply(t, op) == Create(t, Some(key)).value
    ensures Rotate(t, id, dek, now).Ok? ==>
      var op := RotateOp(id, dek, now); Enabled(t, op) && Apply(t, op) == Rotate(t, id, dek, now).value.0
    ensures Latest(t, id).Some? && VersionPreserving(t[(id, Latest(t, id).value)], metadata) ==>
      var op := UpdateRowOp(id, Latest(t, id).value, metadata, now);
      Enabled(t, op) && UpdateMetadata(t, id, Some(metadata), now) == Ok(Apply(t, op))
    ensures Latest(t, id).Some? ==>
      var op := RevokeRowsOp(id, Versions(t, id), now);
      Enabled(t, op) && Revoke(t, id, now) == Ok(Apply(t, op))
  {
  }

  // ---------------------------------------------------------------- status over runs

  /** Some revocation in the run reaches version k.1 of id k.0. */
  predicate Revokes(ops: seq<Op>, k: (KeyId, int)) {
    exists i :: 0 <= i < |ops| && ops[i].RevokeRowsOp? && ops[i].id == k.0 && k.1 in ops[i].versions
  }

  lemma ApplyKeepsUnrevoked(t: Table, op: Op, k: (KeyId, int))
    requires IdOk(t, op.id) && Enabled(t, op) && !(op.RevokeRowsOp? && op.id == k.0 && k.1 in op.versions)
    requires k in Apply(t, op) && (k in t ==> t[k].status != Revoked)
    ensures Apply(t, op)[k].status != Revoked
  {
    if op.RotateOp? { RotateExtends(t, op.id, op.dek, op.now); }
    if op.RevokeRowsOp? { RevokeRowsAt(t, op.id, op.versions, op.now, k); }
  }

  lemma {:induction false} UnrevokedStaysUnrevoked(t: Table, ops: seq<Op>, k: (KeyId, int))
    requires WellFormed(t) && CanRun(t, ops) && !Revokes(ops, k)
    requires k in t ==> t[k].status != Revoked
    ensures k in Run(t, ops) ==> Run(t, ops)[k].status != Revoked
    decreases |ops|
  {
    if ops != [] {
      var t' := Apply(t, ops[0]);
      ApplyKeepsWellFormed(t, ops[0]);
      assert IdOk(t, ops[0].id);
      if k in t' { ApplyKeepsUnrevoked(t, ops[0], k); }
      assert !Revokes(ops[1..], k) by {
        forall i | 0 <= i < |ops[1..]| ensures !(ops[1..][i].RevokeRowsOp? && ops[1..][i].id == k.0 && k.1 in ops[1..][i].versions) {
          assert ops[1..][i] == ops[i + 1];
        }
      }
      UnrevokedStaysUnrevoked(t', ops[1..], k);
    }
  }

  /** From the empty table on, a version that no revocation has reached is active while it is the latest and
      rotated afterwards, never revoked. */
  lemma UnrevokedStatus(ops: seq<Op>, id: KeyId, v: int)
    requires CanRun(map[], ops) && !Revokes(ops, (id, v)) && (id, v) in Run(map[], ops)
    ensures
      var t := Run(map[], ops);
      t[(id, v)].status == if Latest(t, id) == Some(v) then Active else Rotated
  {
    EmptyIsWellFormed();
    RunKeepsWellFormed(map[], ops);
    UnrevokedStaysUnrevoked(map[], ops, (id, v));
    var t := Run(map[], ops);
    assert IdOk(t, id);
    assert RowOk(t, id, Latest(t, id).value, v);
  }
}
