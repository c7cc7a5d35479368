/** The key service on top of the table, the rotation protocol and the KMS
    (internal/service/key_creator.go, key_retriever.go, key_manager.go, key_service.go). */
module KeyService {
  import opened Domain
  import opened KeyTable
  import opened Kms
  import opened Descriptions
  import PsqlAdapter
  import RP = RotationProtocol

  datatype ServiceError =
    | InvalidInput | UnsupportedKeyType | ProviderMissing | KeyRevoked
    | KmsFailure(kms: KmsError) | Repository(table: TableError)

  // ---------------------------------------------------------------- creating keys

  datatype CreateItem = CreateItem(
    keyType: KeyType, description: string, expiresAt: Option<Time>, authorizedContexts: seq<string>,
    accessPolicies: map<string, string>, tags: map<string, string>, dataClassification: int)

  function CreateKeyObject(
    cfg: Config, id: KeyId, item: CreateItem, profile: StorageProfile, dek: Bytes, nonce: Bytes, now: Time)
    : Result<Key, ServiceError>
  {
    if NewDescription(item.description).None? then Err(InvalidInput)
    else if item.keyType != Aes256 then Err(UnsupportedKeyType)
    else match ProviderFor(cfg, profile)
      case None => Err(ProviderMissing)
      case Some(provider) =>
        match Encrypt(cfg, provider, id, nonce, dek)
        case Err(e) => Err(KmsFailure(e))
        case Ok(sealed) =>
          var metadata := Metadata(
            item.keyType, 1, now, item.expiresAt, item.authorizedContexts, item.accessPolicies,
            NewDescription(item.description).value, item.tags, item.dataClassification, profile);
          Ok(Key(id, 1, Row(metadata, sealed, Active, now, now, None)))
  }

  function AsNewKey(key: Key): NewKey {
    NewKey(key.id, key.version, Some(key.row.metadata), key.row.encryptedDek, key.row.status, key.row.createdAt, key.row.updatedAt)
  }

  /** `sealed` is an encryption of `dek` for `id` by the provider that `profile` selects. */
  ghost predicate SealedBy(cfg: Config, profile: StorageProfile, id: KeyId, sealed: Bytes, dek: Bytes) {
    exists nonce :: SealedWith(cfg, profile, id, nonce, sealed, dek)
  }

  ghost predicate SealedWith(cfg: Config, profile: StorageProfile, id: KeyId, nonce: Bytes, sealed: Bytes, dek: Bytes) {
    && |nonce| == NONCE_SIZE
    && ProviderFor(cfg, profile).Some?
    && Encrypt(cfg, ProviderFor(cfg, profile).value, id, nonce, dek) == Ok(sealed)
  }

  /** The provider that `profile` selects opens `sealed` to `dek`. */
  predicate Opens(cfg: Config, profile: StorageProfile, id: KeyId, sealed: Bytes, dek: Bytes) {
    && ProviderFor(cfg, profile).Some?
    && Decrypt(cfg, ProviderFor(cfg, profile).value, id, sealed) == Ok(dek)
  }

  lemma SealedOpens(cfg: Config, profile: StorageProfile, id: KeyId, sealed: Bytes, dek: Bytes)
    requires ConfigLawful(cfg) && SealedBy(cfg, profile, id, sealed, dek)
    ensures Opens(cfg, profile, id, sealed, dek)
  {
    var nonce :| SealedWith(cfg, profile, id, nonce, sealed, dek);
    ProviderRoundTrip(cfg, profile, id, nonce, dek);
  }

  /** A key object is made exactly for an acceptable description, a supported type and a provider that can
      seal; it is the first version, active, and holds what the item says. */
  lemma CreatedKeyHolds(
    cfg: Config, id: KeyId, item: CreateItem, profile: StorageProfile, dek: Bytes, nonce: Bytes, now: Time)
    ensures
      var r := CreateKeyObject(cfg, id, item, profile, dek, nonce, now);
      && (r == Err(InvalidInput) <==> ByteLength(TrimSpace(item.description)) > 255)
      && (r == Err(UnsupportedKeyType) <==> ByteLength(TrimSpace(item.description)) <= 255 && item.keyType != Aes256)
      && (r.Ok? <==>
            && ByteLength(TrimSpace(item.description)) <= 255 && item.keyType == Aes256
            && ProviderFor(cfg, profile).Some? && Encrypt(cfg, ProviderFor(cfg, profile).value, id, nonce, dek).Ok?)
      && (r.Ok? ==>
            var key, md := r.value, r.value.row.metadata;
            && key.id == id && key.version == 1
            && Ok(key.row.encryptedDek) == Encrypt(cfg, ProviderFor(cfg, profile).value, id, nonce, dek)
            && key.row.status == Active && key.row.createdAt == now && key.row.updatedAt == now && key.row.revokedAt == None
            && md.keyType == Aes256 && md.version == 1 && md.updatedAt == now && md.expiresAt == item.expiresAt
            && md.authorizedContexts == item.authorizedContexts && md.accessPolicies == item.accessPolicies
            && md.description == TrimSpace(item.description) && md.tags == item.tags
            && md.dataClassification == item.dataClassification && md.storageType == profile)
  {
  }

  /** What the service creates and the repository accepts is exactly a `CreateOp` of a fresh row
      whose DEK opens again. */
  lemma CreatedKeyOpens(
    cfg: Config, t: Table, id: KeyId, item: CreateItem, profile: StorageProfile, dek: Bytes, nonce: Bytes, now: Time)
    requires ConfigLawful(cfg) && |nonce| == NONCE_SIZE
    requires CreateKeyObject(cfg, id, item, profile, dek, nonce, now).Ok?
    ensures
      var key := CreateKeyObject(cfg, id, item, profile, dek, nonce, now).value;
      var r := Create(t, Some(AsNewKey(key)));
      var op := CreateOp(id, key.row);
      && (r.Ok? <==> Enabled(t, op))
      && (r.Ok? ==> r.value == Apply(t, op))
      && Opens(cfg, key.row.metadata.storageType, id, key.row.encryptedDek, dek)
  {
    ProviderRoundTrip(cfg, profile, id, nonce, dek);
  }

  // ---------------------------------------------------------------- every version still opens

  /** The plaintext DEKs generated: one per created id, one per RotateKey call. */
  datatype Secrets = Secrets(created: KeyId -> Bytes, rotated: RP.CallId -> Bytes)

  /** The service's discipline: a created row holds the sealed DEK generated for it, and a rotation
      is invoked with a DEK sealed for the profile of a version of that key the service has read. */
  ghost predicate Disciplined(cfg: Config, secrets: Secrets, s: RP.State, step: RP.Step) {
    match step
    case Write(CreateOp(id, row)) =>
      SealedBy(cfg, row.metadata.storageType, id, row.encryptedDek, secrets.created(id))
    case Invoke(c, id, dek) =>
      exists v :: (id, v) in s.db.table &&
        SealedBy(cfg, s.db.table[(id, v)].metadata.storageType, id, dek, secrets.rotated(c))
    case _ => true
  }

  ghost predicate DisciplinedRun(cfg: Config, secrets: Secrets, lockOf: KeyId -> int, s: RP.State, steps: seq<RP.Step>)
    requires RP.CanRun(lockOf, s, steps)
    decreases |steps|
  {
    steps == [] ||
    (Disciplined(cfg, secrets, s, steps[0]) &&
     DisciplinedRun(cfg, secrets, lockOf, RP.Do(lockOf, s, steps[0]), steps[1..]))
  }

  ghost predicate FirstVersionOpens(cfg: Config, secrets: Secrets, t: Table, id: KeyId) {
    (id, 1) in t ==> Opens(cfg, t[(id, 1)].metadata.storageType, id, t[(id, 1)].encryptedDek, secrets.created(id))
  }

  ghost predicate CallOpens(cfg: Config, secrets: Secrets, s: RP.State, c: RP.CallId)
    requires c in s.calls
  {
    var id := s.calls[c].id;
    && (id, 1) in s.db.table
    && Opens(cfg, s.db.table[(id, 1)].metadata.storageType, id, s.calls[c].dek, secrets.rotated(c))
  }

  ghost predicate AllOpen(cfg: Config, secrets: Secrets, s: RP.State) {
    && (forall id: KeyId :: FirstVersionOpens(cfg, secrets, s.db.table, id))
    && (forall c :: c in s.calls ==> CallOpens(cfg, secrets, s, c))
  }

  /** A row of version 1 that a step adds is the row some client created. */
  ghost predicate NewIsCreated(t: Table, t': Table, step: RP.Step) {
    forall id: KeyId :: (id, 1) in t' && (id, 1) !in t ==>
      step.Write? && step.op.CreateOp? && step.op.id == id && t'[(id, 1)] == step.op.row
  }

  /** A rotation adds no row of version 1. */
  lemma RotateAddsLater(t: Table, id: KeyId, dek: Bytes, now: Time)
    requires IdOk(t, id) && Rotate(t, id, dek, now).Ok?
    ensures forall k: KeyId :: (k, 1) in Rotate(t, id, dek, now).value.0 ==> (k, 1) in t
  {
    RotateExtends(t, id, dek, now);
  }

  lemma CommitEvolves(lockOf: KeyId -> int, s: RP.State, c: RP.CallId)
    requires RP.Inv(lockOf, s) && RP.Can(lockOf, s, RP.Commit(c))
    ensures Evolves(s.db.table, RP.WriteBack(s.calls[c], s.db.table))
    ensures NewIsCreated(s.db.table, RP.WriteBack(s.calls[c], s.db.table), RP.Commit(c))
  {
    assert RP.CallOk(lockOf, s, c);
    var call := s.calls[c];
    RP.CommitIsRotate(s, c);
    ApplyEvolves(s.db.table, RotateOp(call.id, call.dek, call.pc.now));
    assert IdOk(s.db.table, call.id);
    RotateAddsLater(s.db.table, call.id, call.dek, call.pc.now);
  }

  lemma StepEvolves(lockOf: KeyId -> int, s: RP.State, step: RP.Step)
    requires RP.Inv(lockOf, s) && RP.Can(lockOf, s, step)
    ensures Evolves(s.db.table, RP.Do(lockOf, s, step).db.table)
    ensures NewIsCreated(s.db.table, RP.Do(lockOf, s, step).db.table, step)
  {
    if step.Write? {
      ApplyEvolves(s.db.table, step.op);
    } else if step.Commit? {
      CommitEvolves(lockOf, s, step.c);
    } else {
      assert RP.Do(lockOf, s, step).db == s.db;
    }
  }

  lemma StepKeepsFirstOpen(cfg: Config, secrets: Secrets, s: RP.State, s': RP.State, step: RP.Step, id: KeyId)
    requires ConfigLawful(cfg) && Disciplined(cfg, secrets, s, step)
    requires Evolves(s.db.table, s'.db.table) && NewIsCreated(s.db.table, s'.db.table, step)
    requires FirstVersionOpens(cfg, secrets, s.db.table, id)
    ensures FirstVersionOpens(cfg, secrets, s'.db.table, id)
  {
    if (id, 1) in s'.db.table && (id, 1) !in s.db.table {
      SealedOpens(cfg, step.op.row.metadata.storageType, id, step.op.row.encryptedDek, secrets.created(id));
    }
  }

  /** No step changes the id or the DEK of a call, and only Invoke adds one. */
  lemma CallsKeepTheirDek(lockOf: KeyId -> int, s: RP.State, step: RP.Step, c: RP.CallId)
    requires RP.Can(lockOf, s, step) && c in RP.Do(lockOf, s, step).calls
    ensures
      var call' := RP.Do(lockOf, s, step).calls[c];
      if c in s.calls then call'.id == s.calls[c].id && call'.dek == s.calls[c].dek
      else step == RP.Invoke(c, call'.id, call'.dek)
  {
  }

  lemma StepKeepsCallOpen(
    cfg: Config, secrets: Secrets, lockOf: KeyId -> int, s: RP.State, step: RP.Step, c: RP.CallId)
    requires ConfigLawful(cfg) && WellFormed(s.db.table)
    requires RP.Can(lockOf, s, step) && Disciplined(cfg, secrets, s, step) && c in RP.Do(lockOf, s, step).calls
    requires Evolves(s.db.table, RP.Do(lockOf, s, step).db.table)
    requires c in s.calls ==> CallOpens(cfg, secrets, s, c)
    ensures CallOpens(cfg, secrets, RP.Do(lockOf, s, step), c)
  {
    CallsKeepTheirDek(lockOf, s, step, c);
    if c !in s.calls {
      InvokedCallOpens(cfg, secrets, s, step);
    }
  }

  lemma StepKeepsOpen(cfg: Config, secrets: Secrets, lockOf: KeyId -> int, s: RP.State, step: RP.Step)
    requires ConfigLawful(cfg) && RP.Inv(lockOf, s) && AllOpen(cfg, secrets, s)
    requires RP.Can(lockOf, s, step) && Disciplined(cfg, secrets, s, step)
    ensures AllOpen(cfg, secrets, RP.Do(lockOf, s, step))
  {
    var s' := RP.Do(lockOf, s, step);
    StepEvolves(lockOf, s, step);
    forall id: KeyId ensures FirstVersionOpens(cfg, secrets, s'.db.table, id) {
      StepKeepsFirstOpen(cfg, secrets, s, s', step, id);
    }
    forall c | c in s'.calls ensures CallOpens(cfg, secrets, s', c) {
      StepKeepsCallOpen(cfg, secrets, lockOf, s, step, c);
    }
  }

  lemma InvokedCallOpens(cfg: Config, secrets: Secrets, s: RP.State, step: RP.Step)
    requires ConfigLawful(cfg) && WellFormed(s.db.table) && step.Invoke? && Disciplined(cfg, secrets, s, step)
    ensures (step.id, 1) in s.db.table
    ensures Opens(cfg, s.db.table[(step.id, 1)].metadata.storageType, step.id, step.dek, secrets.rotated(step.c))
  {
    var t := s.db.table;
    var v :| (step.id, v) in t && SealedBy(cfg, t[(step.id, v)].metadata.storageType, step.id, step.dek, secrets.rotated(step.c));
    assert IdOk(t, step.id);
    assert RowOk(t, step.id, Latest(t, step.id).value, v);
    SealedOpens(cfg, t[(step.id, v)].metadata.storageType, step.id, step.dek, secrets.rotated(step.c));
  }

  lemma {:induction false} RunKeepsOpen(
    cfg: Config, secrets: Secrets, lockOf: KeyId -> int, s: RP.State, steps: seq<RP.Step>)
    requires ConfigLawful(cfg) && RP.Inv(lockOf, s) && AllOpen(cfg, secrets, s)
    requires RP.CanRun(lockOf, s, steps) && DisciplinedRun(cfg, secrets, lockOf, s, steps)
    ensures RP.Inv(lockOf, RP.Run(lockOf, s, steps)) && AllOpen(cfg, secrets, RP.Run(lockOf, s, steps))
    decreases |steps|
  {
    if steps != [] {
      RP.StepKeepsInv(lockOf, s, steps[0]);
      StepKeepsOpen(cfg, secrets, lockOf, s, steps[0]);
      RunKeepsOpen(cfg, secrets, lockOf, RP.Do(lockOf, s, steps[0]), steps[1..]);
    }
  }

  /** The DEK generated for a version: at creation for version 1, by the rotation that made it for
      the others. */
  ghost predicate GeneratedFor(secrets: Secrets, s: RP.State, id: KeyId, v: int, dek: Bytes) {
    if v == 1 then dek == secrets.created(id)
    else exists c :: RP.Won(s, c, id, v) && dek == secrets.rotated(c)
  }

  lemma StoredVersionOpens(cfg: Config, secrets: Secrets, lockOf: KeyId -> int, s: RP.State, id: KeyId, v: int)
    requires RP.Inv(lockOf, s) && AllOpen(cfg, secrets, s) && (id, v) in s.db.table
    ensures
      var row := s.db.table[(id, v)];
      exists dek :: GeneratedFor(secrets, s, id, v, dek) && Opens(cfg, row.metadata.storageType, id, row.encryptedDek, dek)
  {
    var t := s.db.table;
    assert IdOk(t, id);
    assert RowOk(t, id, Latest(t, id).value, v);
    if v == 1 {
      assert FirstVersionOpens(cfg, secrets, t, id);
      assert GeneratedFor(secrets, s, id, v, secrets.created(id));
    } else {
      assert RP.ChainOk(s, id);
      var c :| RP.Won(s, c, id, v);
      assert RP.CallOk(lockOf, s, c) && CallOpens(cfg, secrets, s, c);
      assert GeneratedFor(secrets, s, id, v, secrets.rotated(c));
    }
  }

  /** No run takes a row away, or its DEK, version or profile. */
  lemma {:induction false} RunEvolves(lockOf: KeyId -> int, s: RP.State, steps: seq<RP.Step>)
    requires RP.Inv(lockOf, s) && RP.CanRun(lockOf, s, steps)
    ensures Evolves(s.db.table, RP.Run(lockOf, s, steps).db.table)
    decreases |steps|
  {
    if steps != [] {
      var s' := RP.Do(lockOf, s, steps[0]);
      StepEvolves(lockOf, s, steps[0]);
      RP.StepKeepsInv(lockOf, s, steps[0]);
      RunEvolves(lockOf, s', steps[1..]);
      EvolvesTransitive(s.db.table, s'.db.table, RP.Run(lockOf, s, steps).db.table);
    }
  }

  /** Every version ever made, at whatever point of whatever interleaving of creations, rotations, metadata
      updates and revocations, is at every later point still there, with the same sealed DEK, and
      opens, by the provider its own row then selects, to the DEK generated for it. */
  lemma EveryVersionOpens(
    cfg: Config, secrets: Secrets, lockOf: KeyId -> int, before: seq<RP.Step>, after: seq<RP.Step>, id: KeyId, v: int)
    requires ConfigLawful(cfg)
    requires RP.CanRun(lockOf, RP.INITIAL, before) && DisciplinedRun(cfg, secrets, lockOf, RP.INITIAL, before)
    requires RP.CanRun(lockOf, RP.Run(lockOf, RP.INITIAL, before), after)
    requires (id, v) in RP.Run(lockOf, RP.INITIAL, before).db.table
    ensures
      var s := RP.Run(lockOf, RP.INITIAL, before);
      var later := RP.Run(lockOf, s, after).db.table;
      && (id, v) in later
      && later[(id, v)].encryptedDek == s.db.table[(id, v)].encryptedDek
      && exists dek ::
           && GeneratedFor(secrets, s, id, v, dek)
           && Opens(cfg, later[(id, v)].metadata.storageType, id, later[(id, v)].encryptedDek, dek)
  {
    var s := RP.Run(lockOf, RP.INITIAL, before);
    RP.InitialInv(lockOf);
    RunKeepsOpen(cfg, secrets, lockOf, RP.INITIAL, before);
    RunEvolves(lockOf, s, after);
    StoredVersionOpens(cfg, secrets, lockOf, s, id, v);
    var row := s.db.table[(id, v)];
    var later := RP.Run(lockOf, s, after).db.table[(id, v)];
    var dek :| GeneratedFor(secrets, s, id, v, dek) && Opens(cfg, row.metadata.storageType, id, row.encryptedDek, dek);
    assert Opens(cfg, later.metadata.storageType, id, later.encryptedDek, dek);
  }

  // ---------------------------------------------------------------- reading keys

  datatype Material = Material(encryptedKeyData: Bytes, checksum: Bytes)

  /** getKeyByRequest: a positive version is looked up, anything else means the latest. */
  function KeyByRequest(t: Table, id: KeyId, version: int): Result<Key, TableError> {
    if version > 0 then GetKeyByVersion(t, id, version) else GetKey(t, id)
  }

  function GetKeyMaterial(cfg: Config, sha256: Bytes -> Bytes, t: Table, id: KeyId, version: int)
    : Result<Material, ServiceError>
  {
    match KeyByRequest(t, id, version)
    case Err(e) => Err(Repository(e))
    case Ok(key) =>
      if key.row.status == Revoked then Err(KeyRevoked)
      else match ProviderFor(cfg, key.row.metadata.storageType)
        case None => Err(ProviderMissing)
        case Some(provider) =>
          match Decrypt(cfg, provider, id, key.row.encryptedDek)
          case Err(e) => Err(KmsFailure(e))
          case Ok(dek) =>
            if key.row.metadata.keyType != Aes256 then Err(UnsupportedKeyType)
            else Ok(Material(key.row.encryptedDek, sha256(dek)))
  }

  /** The answer `r` is the one for version v of `id`: given exactly when that version is stored, not revoked
      and of the supported type, and then holding its sealed DEK and the checksum of the DEK generated for it. */
  ghost predicate Answers(
    secrets: Secrets, s: RP.State, sha256: Bytes -> Bytes, id: KeyId, v: int, r: Result<Material, ServiceError>)
  {
    var t := s.db.table;
    && (r.Ok? <==> (id, v) in t && t[(id, v)].status != Revoked && t[(id, v)].metadata.keyType == Aes256)
    && (r == Err(Repository(KeyNotFound)) <==> (id, v) !in t)
    && (r == Err(KeyRevoked) <==> (id, v) in t && t[(id, v)].status == Revoked)
    && (r.Ok? ==>
          && r.value.encryptedKeyData == t[(id, v)].encryptedDek
          && exists dek :: GeneratedFor(secrets, s, id, v, dek) && r.value.checksum == sha256(dek))
  }

  /** End to end, on every reachable table: a request with a positive version is answered for that version,
      and any other for the largest version stored, if there is one. */
  lemma GetKeyServesEveryVersion(
    cfg: Config, secrets: Secrets, lockOf: KeyId -> int, steps: seq<RP.Step>,
    sha256: Bytes -> Bytes, id: KeyId, version: int, v: int)
    requires ConfigLawful(cfg)
    requires RP.CanRun(lockOf, RP.INITIAL, steps) && DisciplinedRun(cfg, secrets, lockOf, RP.INITIAL, steps)
    requires
      var t := RP.Run(lockOf, RP.INITIAL, steps).db.table;
      if version > 0 then v == version
      else ((id, v) in t && forall w :: (id, w) in t ==> w <= v) || (forall w :: (id, w) !in t)
    ensures
      var s := RP.Run(lockOf, RP.INITIAL, steps);
      Answers(secrets, s, sha256, id, v, GetKeyMaterial(cfg, sha256, s.db.table, id, version))
  {
    var s := RP.Run(lockOf, RP.INITIAL, steps);
    var t := s.db.table;
    if (id, v) in t {
      if version <= 0 { LatestIs(t, id, v); }
      EveryVersionOpens(cfg, secrets, lockOf, steps, [], id, v);
      var row := t[(id, v)];
      var dek :| GeneratedFor(secrets, s, id, v, dek) && Opens(cfg, row.metadata.storageType, id, row.encryptedDek, dek);
      assert KeyByRequest(t, id, version) == Ok(Key(id, v, row));
    } else {
      assert KeyByRequest(t, id, version) == Err(KeyNotFound);
    }
  }

  // ---------------------------------------------------------------- metadata updates

  datatype UpdateRequest = UpdateRequest(
    description: Option<string>, expiresAt: Option<Time>, dataClassification: Option<int>,
    tagsToAdd: map<string, string>, tagsToRemove: seq<string>)

  /** The metadata an update asks for: the fields it names, and tags added before removed. */
  function Updated(md: Metadata, req: UpdateRequest, now: Time): Metadata {
    md.(description := if req.description.Some? then TrimSpace(req.description.value) else md.description,
        expiresAt := if req.expiresAt.Some? then req.expiresAt else md.expiresAt,
        dataClassification := if req.dataClassification.Some? then req.dataClassification.value else md.dataClassification,
        tags := (md.tags + req.tagsToAdd) - (set tag | tag in req.tagsToRemove),
        updatedAt := now)
  }

  /** What an update changes, field by field: a tag that is removed is gone even if it is also added, one that is
      added has its new value, and the version and profile never change. */
  lemma UpdateChanges(md: Metadata, req: UpdateRequest, now: Time, tag: string)
    ensures
      var r := Updated(md, req, now);
      && (req.description.None? ==> r.description == md.description)
      && (req.description.Some? ==> r.description == TrimSpace(req.description.value))
      && r.expiresAt == (if req.expiresAt.Some? then req.expiresAt else md.expiresAt)
      && (req.dataClassification.None? ==> r.dataClassification == md.dataClassification)
      && (req.dataClassification.Some? ==> r.dataClassification == req.dataClassification.value)
      && (tag in r.tags <==> tag !in req.tagsToRemove && (tag in req.tagsToAdd || tag in md.tags))
      && (tag in r.tags && tag in req.tagsToAdd ==> r.tags[tag] == req.tagsToAdd[tag])
      && (tag in r.tags && tag !in req.tagsToAdd ==> r.tags[tag] == md.tags[tag])
      && r.updatedAt == now && r.keyType == md.keyType && r.version == md.version && r.storageType == md.storageType
      && r.authorizedContexts == md.authorizedContexts && r.accessPolicies == md.accessPolicies
  {
  }

  /** Read, modify, write back.  With no rotation in between, the update lands on the version it
      was read from and keeps the table well formed. */
  method UpdateKeyMetadata(repo: PsqlAdapter.Adapter, id: KeyId, req: UpdateRequest, now: Time)
    returns (r: Result<(), ServiceError>)
    modifies repo
    ensures r.Ok? <==> Exists(old(repo.keys), id) && (req.description.Some? ==> NewDescription(req.description.value).Some?)
    ensures r.Ok? ==>
      var v := Latest(old(repo.keys), id).value;
      repo.keys == UpdateRow(old(repo.keys), id, v, Updated(old(repo.keys)[(id, v)].metadata, req, now), now)
    ensures r.Err? ==> repo.keys == old(repo.keys)
    ensures old(WellFormed(repo.keys)) ==> WellFormed(repo.keys) && Evolves(old(repo.keys), repo.keys)
  {
    var key := repo.GetKey(id);
    if key.Err? {
      return Err(Repository(key.error));
    }
    var metadata := key.value.row.metadata;
    if req.description.Some? {
      var description := NewDescription(req.description.value);
      if description.None? {
        return Err(InvalidInput);
      }
      metadata := metadata.(description := description.value);
    }
    if req.expiresAt.Some? {
      metadata := metadata.(expiresAt := req.expiresAt);
    }
    if req.dataClassification.Some? {
      metadata := metadata.(dataClassification := req.dataClassification.value);
    }
    var tags := metadata.tags + req.tagsToAdd;
    for i := 0 to |req.tagsToRemove|
      invariant tags == (metadata.tags + req.tagsToAdd) - (set tag | tag in req.tagsToRemove[..i])
    {
      assert req.tagsToRemove[..i + 1] == req.tagsToRemove[..i] + [req.tagsToRemove[i]];
      tags := tags - {req.tagsToRemove[i]};
    }
    assert req.tagsToRemove[..|req.tagsToRemove|] == req.tagsToRemove;
    metadata := metadata.(tags := tags, updatedAt := now);
    assert metadata == Updated(key.value.row.metadata, req, now);
    var w := repo.UpdateKeyMetadata(id, Some(metadata), now);
    return Ok(());
  }

  /** The operations of the service on the table, one at a time; one that fails leaves it as it was. */
  datatype ServiceOp =
    | CreateKey(id: KeyId, row: Row)
    | RotateKey(id: KeyId, dek: Bytes, at: Time)
    | ChangeMetadata(id: KeyId, req: UpdateRequest, at: Time)
    | RevokeKey(id: KeyId, at: Time)
    | RevokeKeys(ids: seq<KeyId>, at: Time)

  function Serve(t: Table, op: ServiceOp): Table {
    match op
    case CreateKey(id, row) => var r := Create(t, Some(FirstVersion(id, row))); if r.Ok? then r.value else t
    case RotateKey(id, dek, at) => var r := Rotate(t, id, dek, at); if r.Ok? then r.value.0 else t
    case ChangeMetadata(id, req, at) =>
      if Latest(t, id).None? || (req.description.Some? && NewDescription(req.description.value).None?) then t
      else
        var v := Latest(t, id).value;
        UpdateRow(t, id, v, Updated(t[(id, v)].metadata, req, at), at)
    case RevokeKey(id, at) => var r := Revoke(t, id, at); if r.Ok? then r.value else t
    case RevokeKeys(ids, at) => RevokeBatch(t, ids, at)
  }

  function FirstVersion(id: KeyId, row: Row): NewKey {
    NewKey(id, 1, Some(row.metadata), row.encryptedDek, row.status, row.createdAt, row.updatedAt)
  }

  /** The repository and the update handler, doing what `Serve` says. */
  method Perform(repo: PsqlAdapter.Adapter, op: ServiceOp)
    modifies repo
    ensures repo.keys == Serve(old(repo.keys), op)
  {
    match op
    case CreateKey(id, row) => var _ := repo.CreateKey(Some(FirstVersion(id, row)));
    case RotateKey(id, dek, at) => var _ := repo.RotateKey(id, dek, at);
    case ChangeMetadata(id, req, at) => var _ := UpdateKeyMetadata(repo, id, req, at);
    case RevokeKey(id, at) => var _ := repo.RevokeKey(id, at);
    case RevokeKeys(ids, at) => repo.RevokeBatchKeys(ids, at);
  }

  function ServeAll(t: Table, ops: seq<ServiceOp>): Table
    decreases |ops|
  {
    if ops == [] then t else ServeAll(Serve(t, ops[0]), ops[1..])
  }

  /** The metadata of the latest row of `id` names a version whose successor is taken. */
  predicate Stranded(t: Table, id: KeyId) {
    && (id, 1) in t && Latest(t, id).Some?
    && (id, t[(id, Latest(t, id).value)].metadata.version + 1) in t
  }

  lemma StrandedCannotRotate(t: Table, id: KeyId, dek: Bytes, at: Time)
    requires Stranded(t, id)
    ensures !Rotate(t, id, dek, at).Ok?
  {
  }

  /** The same rows of `id`, the latest with the same version in its metadata. */
  lemma StrandedCarries(t: Table, t': Table, id: KeyId)
    requires Stranded(t, id)
    requires forall v :: (id, v) in t <==> (id, v) in t'
    requires forall v :: (id, v) in t ==> t'[(id, v)].metadata.version == t[(id, v)].metadata.version
    ensures Stranded(t', id)
  {
    SameIdSameLatest(t, t', id);
  }

  /** Every operation reads the version from the row it writes, so none puts it right. */
  lemma StaysStranded(t: Table, op: ServiceOp, id: KeyId)
    requires Stranded(t, id)
    ensures Stranded(Serve(t, op), id)
  {
    var t' := Serve(t, op);
    if op.RotateKey? && op.id == id { StrandedCannotRotate(t, id, op.dek, op.at); }
    if op.RevokeKey? && Exists(t, op.id) {
      forall v ensures ((id, v) in t <==> (id, v) in t') && ((id, v) in t ==> t'[(id, v)].metadata == t[(id, v)].metadata) {
        RevokeRowsAt(t, op.id, Versions(t, op.id), op.at, (id, v));
      }
    }
    StrandedCarries(t, t', id);
  }

  lemma {:induction false} StrandedForGood(t: Table, ops: seq<ServiceOp>, id: KeyId)
    requires Stranded(t, id)
    ensures Stranded(ServeAll(t, ops), id)
    decreases |ops|
  {
    if ops != [] {
      StaysStranded(t, ops[0], id);
      StrandedForGood(Serve(t, ops[0]), ops[1..], id);
    }
  }

  /** A rotation that falls between the read and the write of a metadata update breaks the key for good:
      the write puts the old version number on the new row, and after any run of creations, rotations,
      updates and revocations every rotation of the key fails, whenever and with whatever DEK. */
  lemma InterleavedUpdateStopsRotation(
    t: Table, id: KeyId, req: UpdateRequest, dek: Bytes, rotatedAt: Time, writtenAt: Time, ops: seq<ServiceOp>, dek': Bytes, later: Time)
    requires WellFormed(t) && Exists(t, id) && Rotate(t, id, dek, rotatedAt).Ok?
    ensures
      var read := t[(id, Latest(t, id).value)].metadata;
      var rotated := Rotate(t, id, dek, rotatedAt).value.0;
      var w := UpdateMetadata(rotated, id, Some(Updated(read, req, writtenAt)), writtenAt);
      && w.Ok?
      && !IdOk(w.value, id)
      && !Rotate(ServeAll(w.value, ops), id, dek', later).Ok?
  {
    var n := Latest(t, id).value;
    var read := t[(id, n)].metadata;
    var rotated := Rotate(t, id, dek, rotatedAt).value.0;
    assert IdOk(t, id) && RowOk(t, id, n, n);
    RotateExtends(t, id, dek, rotatedAt);
    UpdateKeepsIdOkIff(rotated, id, Updated(read, req, writtenAt), writtenAt);
    var w := UpdateMetadata(rotated, id, Some(Updated(read, req, writtenAt)), writtenAt).value;
    SameIdSameLatest(rotated, w, id);
    assert Stranded(w, id);
    StrandedForGood(w, ops, id);
    StrandedCannotRotate(ServeAll(w, ops), id, dek', later);
  }
}
