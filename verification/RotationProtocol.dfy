/** Concurrent key rotation: any number of `RotateKey` calls against one PostgreSQL database,
    interleaved step by step with each other and with the other writers
    (internal/infra/persistence/psql_adapter.go, transaction_manager.go, pkg/postgres/client.go).

    A call begins a SERIALIZABLE transaction, whose snapshot is fixed when its first statement
    starts; that statement tries the advisory lock, so the snapshot is OLDER than the lock.  It then runs
    the rotate statement against the snapshot, and commits or is told 40001 and starts over.

    Of the database the model uses only this: writing a row whose stored version is not the one in
    the snapshot fails with 40001 (every write gives the row a fresh stamp); a row written by an open transaction is locked
    until it ends; an advisory lock has one holder and is released at commit or rollback.  40001 may also
    come at any other time. */
module RotationProtocol {
  import opened Domain
  import opened KeyTable
  import Transactions

  type CallId = nat

  /** The stored rows, with the stamp of the write that produced each.  `next` is the next
      unused stamp. */
  datatype Db = Db(table: Table, stamp: map<(KeyId, int), nat>, next: nat)

  datatype Outcome = Succeeded(version: int) | RefusedByLock | NotFound | Exhausted | OtherError

  datatype Pc =
    | Ready
    | Snapped(snap: Db)
    | Locked(snap: Db)
    | Written(snap: Db, base: int, now: Time)
    | Returned(outcome: Outcome)

  /** One RotateKey call: `attempt` counts the attempts that ended in 40001. */
  datatype Call = Call(id: KeyId, dek: Bytes, attempt: nat, pc: Pc)

  datatype State = State(db: Db, locks: map<int, CallId>, calls: map<CallId, Call>)

  datatype Step =
    | Invoke(c: CallId, id: KeyId, dek: Bytes)
    | Snapshot(c: CallId)
    | TryLock(c: CallId)
    | Execute(c: CallId, now: Time)
    | Serialization(c: CallId)
    | Fail(c: CallId)
    | Commit(c: CallId)
    | Write(op: Op)

  const INITIAL := State(Db(map[], map[], 0), map[], map[])

  predicate InTransaction(pc: Pc) {
    pc.Snapped? || pc.Locked? || pc.Written?
  }

  /** The rows a write of some other client changes. */
  function Touched(t: Table, op: Op): set<(KeyId, int)> {
    match op
    case CreateOp(id, _) => {(id, 1)}
    case RotateOp(id, _, _) => {}
    case UpdateRowOp(id, version, _, _) => {(id, version)}
    case RevokeRowsOp(id, versions, _) => set k | k in t && k.0 == id && k.1 in versions
  }

  /** Rows written by a transaction that has not ended. */
  function RowLocks(s: State): set<(KeyId, int)> {
    set c | c in s.calls && s.calls[c].pc.Written? :: (s.calls[c].id, s.calls[c].pc.base)
  }

  function Store(db: Db, table: Table, touched: set<(KeyId, int)>): Db {
    Db(table,
       map k | k in table :: if k in touched || k !in db.stamp then db.next else db.stamp[k],
       db.next + 1)
  }

  /** What a commit writes: computed by the rotate statement from the snapshot alone. */
  function WriteBack(call: Call, t: Table): Table
    requires call.pc.Written? && (call.id, call.pc.base) in call.pc.snap.table
  {
    var current := call.pc.snap.table[(call.id, call.pc.base)];
    t[(call.id, call.pc.base) := RotatedRow(current, call.pc.now)]
     [(call.id, current.metadata.version + 1) := SuccessorRow(current, call.dek, call.pc.now)]
  }

  predicate Can(lockOf: KeyId -> int, s: State, step: Step) {
    match step
    case Invoke(c, id, dek) => c !in s.calls && dek != []
    case Snapshot(c) => c in s.calls && s.calls[c].pc.Ready?
    case TryLock(c) => c in s.calls && s.calls[c].pc.Snapped?
    case Execute(c, now) =>
      && c in s.calls && s.calls[c].pc.Locked?
      && var call := s.calls[c];
      var snap := call.pc.snap;
      var r := Rotate(snap.table, call.id, call.dek, now);
      r.Ok? ==>
        // Neither row conflicts with a write made since the snapshot.
        && var base := (call.id, Latest(snap.table, call.id).value);
        && base in s.db.stamp && base in snap.stamp && s.db.stamp[base] == snap.stamp[base]
        && (call.id, r.value.1.version) !in s.db.table
    case Serialization(c) => c in s.calls && InTransaction(s.calls[c].pc)
    case Fail(c) => c in s.calls && !s.calls[c].pc.Returned?
    case Commit(c) =>
      && c in s.calls && s.calls[c].pc.Written?
      && (s.calls[c].id, s.calls[c].pc.base) in s.calls[c].pc.snap.table
    case Write(op) => !op.RotateOp? && Enabled(s.db.table, op) && Touched(s.db.table, op) !! RowLocks(s)
  }

  function At(s: State, c: CallId, pc: Pc): State
    requires c in s.calls
  {
    s.(calls := s.calls[c := s.calls[c].(pc := pc)])
  }

  /** The end of a transaction releases its advisory lock. */
  function Unlocked(s: State, c: CallId): State {
    s.(locks := map l | l in s.locks && s.locks[l] != c :: s.locks[l])
  }

  function Do(lockOf: KeyId -> int, s: State, step: Step): State
    requires Can(lockOf, s, step)
  {
    match step
    case Invoke(c, id, dek) => s.(calls := s.calls[c := Call(id, dek, 0, Ready)])
    case Snapshot(c) => At(s, c, Snapped(s.db))
    case TryLock(c) =>
      var lock := lockOf(s.calls[c].id);
      if lock in s.locks then At(s, c, Returned(RefusedByLock))
      else At(s.(locks := s.locks[lock := c]), c, Locked(s.calls[c].pc.snap))
    case Execute(c, now) =>
      var call := s.calls[c];
      var r := Rotate(call.pc.snap.table, call.id, call.dek, now);
      if r.Ok? then At(s, c, Written(call.pc.snap, Latest(call.pc.snap.table, call.id).value, now))
      else At(Unlocked(s, c), c, Returned(if r.error == KeyNotFound then NotFound else OtherError))
    case Serialization(c) =>
      var call := s.calls[c];
      var s' := Unlocked(s, c);
      if call.attempt + 1 < Transactions.MAX_RETRIES
      then s'.(calls := s'.calls[c := call.(attempt := call.attempt + 1, pc := Ready)])
      else At(s', c, Returned(Exhausted))
    case Fail(c) => At(Unlocked(s, c), c, Returned(OtherError))
    case Commit(c) =>
      var call := s.calls[c];
      var current := call.pc.snap.table[(call.id, call.pc.base)];
      var next := current.metadata.version + 1;
      var db' := Store(s.db, WriteBack(call, s.db.table), {(call.id, call.pc.base), (call.id, next)});
      At(Unlocked(s.(db := db'), c), c, Returned(Succeeded(next)))
    case Write(op) =>
      s.(db := Store(s.db, Apply(s.db.table, op), Touched(s.db.table, op)))
  }

  // ---------------------------------------------------------------- invariant

  ghost predicate DbOk(db: Db) {
    && WellFormed(db.table)
    && db.stamp.Keys == db.table.Keys
    && forall k :: k in db.stamp ==> db.stamp[k] < db.next
  }

  /** `later` is reached from `earlier` by writes: what was not rewritten since is the same, and
      if the latest version moved on then the row that was latest has been rewritten. */
  ghost predicate Follows(earlier: Db, later: Db, id: KeyId) {
    && earlier.next <= later.next
    && (forall v :: (id, v) in earlier.table && (id, v) in earlier.stamp ==>
          && (id, v) in later.table && (id, v) in later.stamp
          && (later.stamp[(id, v)] < earlier.next ==>
                && later.stamp[(id, v)] == earlier.stamp[(id, v)]
                && later.table[(id, v)] == earlier.table[(id, v)]))
    && var m := Latest(earlier.table, id);
    (m.Some? && (id, m.value) in later.stamp ==>
       Latest(later.table, id) == m || later.stamp[(id, m.value)] >= earlier.next)
  }

  ghost predicate Holds(lockOf: KeyId -> int, s: State, c: CallId, id: KeyId) {
    lockOf(id) in s.locks && s.locks[lockOf(id)] == c
  }

  /** The pending rotation is the one the table itself would make now. */
  ghost predicate Pending(db: Db, call: Call)
    requires call.pc.Written?
  {
    var base := call.pc.base;
    && Latest(db.table, call.id) == Some(base)
    && (call.id, base) in call.pc.snap.table
    && db.table[(call.id, base)] == call.pc.snap.table[(call.id, base)]
    && Rotate(db.table, call.id, call.dek, call.pc.now).Ok?
  }

  ghost predicate SnapOk(db: Db, snap: Db, id: KeyId) {
    DbOk(snap) && Follows(snap, db, id)
  }

  ghost predicate CallOk(lockOf: KeyId -> int, s: State, c: CallId)
    requires c in s.calls
  {
    var call := s.calls[c];
    && call.dek != []
    && call.attempt < Transactions.MAX_RETRIES
    && match call.pc
       case Ready => true
       case Snapped(snap) => SnapOk(s.db, snap, call.id)
       case Locked(snap) => SnapOk(s.db, snap, call.id) && Holds(lockOf, s, c, call.id)
       case Written(snap, _, _) => SnapOk(s.db, snap, call.id) && Holds(lockOf, s, c, call.id) && Pending(s.db, call)
       case Returned(outcome) =>
         outcome.Succeeded? ==>
           && outcome.version >= 2
           && (call.id, outcome.version) in s.db.table
           && s.db.table[(call.id, outcome.version)].encryptedDek == call.dek
  }

  /** Every advisory lock belongs to a call that is still inside its transaction. */
  ghost predicate LocksOk(lockOf: KeyId -> int, s: State) {
    forall l :: l in s.locks ==>
      && s.locks[l] in s.calls
      && (s.calls[s.locks[l]].pc.Locked? || s.calls[s.locks[l]].pc.Written?)
      && lockOf(s.calls[s.locks[l]].id) == l
  }

  /** Call `c` reported that it rotated `id` to version `v`. */
  predicate Won(s: State, c: CallId, id: KeyId, v: int) {
    c in s.calls && s.calls[c].id == id && s.calls[c].pc == Returned(Succeeded(v))
  }

  /** The calls that rotated `id` and said so. */
  function Winners(s: State, id: KeyId): set<CallId> {
    set c | c in s.calls && s.calls[c].id == id && s.calls[c].pc.Returned? && s.calls[c].pc.outcome.Succeeded?
  }

  /** Versions 2..n of an id and its successful calls correspond one to one. */
  ghost predicate ChainOk(s: State, id: KeyId) {
    && (match Latest(s.db.table, id)
        case None => Winners(s, id) == {}
        case Some(n) => n == 1 + |Winners(s, id)|)
    && (forall c, c', v :: Won(s, c, id, v) && Won(s, c', id, v) ==> c == c')
    && (forall v :: v >= 2 && (id, v) in s.db.table ==> exists c :: Won(s, c, id, v))
  }

  ghost predicate Inv(lockOf: KeyId -> int, s: State) {
    && DbOk(s.db)
    && LocksOk(lockOf, s)
    && (forall c :: c in s.calls ==> CallOk(lockOf, s, c))
    && (forall id: KeyId :: ChainOk(s, id))
  }

  // ---------------------------------------------------------------- database steps

  lemma FollowsSelf(db: Db, id: KeyId)
    requires DbOk(db)
    ensures Follows(db, db, id)
  {
  }

  lemma FollowsTransitive(a: Db, b: Db, c: Db, id: KeyId)
    requires DbOk(a) && DbOk(b) && Follows(a, b, id) && Follows(b, c, id)
    ensures Follows(a, c, id)
  {
    if Latest(a.table, id).Some? {
      var m := Latest(a.table, id).value;
      assert (id, m) in a.table && (id, m) in b.table && (id, m) in c.table;
    }
  }

  lemma StoreIsOk(db: Db, table: Table, touched: set<(KeyId, int)>)
    requires DbOk(db) && WellFormed(table)
    ensures DbOk(Store(db, table, touched))
  {
  }

  /** A write follows the database it is made on, provided the latest row of an id that gains a
      version is among the rows written. */
  lemma StoreFollows(db: Db, table: Table, touched: set<(KeyId, int)>, id: KeyId)
    requires DbOk(db)
    requires forall v :: (id, v) in db.table ==> (id, v) in table
    requires forall v :: (id, v) in db.table && (id, v) !in touched ==> table[(id, v)] == db.table[(id, v)]
    requires var m := Latest(db.table, id); m.None? || Latest(table, id) == m || (id, m.value) in touched
    ensures Follows(db, Store(db, table, touched), id)
  {
  }

  /** What a write by another client does to the rows of `id`. */
  lemma WriteEffect(t: Table, op: Op, id: KeyId)
    requires WellFormed(t) && !op.RotateOp? && Enabled(t, op)
    ensures
      var t' := Apply(t, op);
      && (forall v :: (id, v) in t && (id, v) !in Touched(t, op) ==> (id, v) in t' && t'[(id, v)] == t[(id, v)])
      && (Exists(t, id) ==> Latest(t', id) == Latest(t, id) && forall v :: (id, v) in t' <==> (id, v) in t)
      && (!Exists(t, id) ==> forall v :: (id, v) in t' ==> v == 1)
  {
    var t' := Apply(t, op);
    assert IdOk(t, id);
    forall v ensures op.RevokeRowsOp? ==> ((id, v) in t' <==> (id, v) in t) {
      if op.RevokeRowsOp? { RevokeRowsAt(t, op.id, op.versions, op.now, (id, v)); }
    }
    if Exists(t, id) {
      assert (id, 1) in t;
      SameIdSameLatest(t, t', id);
    }
  }

  /** The commit of a pending rotation is exactly the atomic rotate statement. */
  lemma CommitIsRotate(s: State, c: CallId)
    requires DbOk(s.db) && c in s.calls && s.calls[c].pc.Written? && Pending(s.db, s.calls[c])
    ensures
      var call := s.calls[c];
      var r := Rotate(s.db.table, call.id, call.dek, call.pc.now);
      && r.value.0 == WriteBack(call, s.db.table)
      && r.value.1.version == call.pc.base + 1 == call.pc.snap.table[(call.id, call.pc.base)].metadata.version + 1
  {
    var call := s.calls[c];
    assert IdOk(s.db.table, call.id);
    assert RowOk(s.db.table, call.id, call.pc.base, call.pc.base);
  }

  /** What a commit does to the rows of `id`. */
  lemma CommitEffect(s: State, c: CallId, id: KeyId)
    requires DbOk(s.db) && c in s.calls && s.calls[c].pc.Written? && Pending(s.db, s.calls[c])
    ensures
      var call := s.calls[c];
      var t := s.db.table;
      var t' := WriteBack(call, t);
      var next := call.pc.base + 1;
      && (id != call.id ==>
            && Latest(t', id) == Latest(t, id)
            && forall v :: ((id, v) in t' <==> (id, v) in t) && ((id, v) in t ==> t'[(id, v)] == t[(id, v)]))
      && (id == call.id ==>
            && Latest(t', id) == Some(next)
            && (id, next) in t' && t'[(id, next)].encryptedDek == call.dek
            && (forall v :: (id, v) in t' <==> (id, v) in t || v == next)
            && (forall v :: (id, v) in t && v != call.pc.base ==> t'[(id, v)] == t[(id, v)]))
  {
    var call := s.calls[c];
    CommitIsRotate(s, c);
    assert IdOk(s.db.table, call.id);
    if id == call.id {
      RotateExtends(s.db.table, id, call.dek, call.pc.now);
    } else {
      SameIdSameLatest(s.db.table, WriteBack(call, s.db.table), id);
    }
  }

  // ---------------------------------------------------------------- preservation

  /** A call keeps its invariant when the database moves on, its lock stays its own, and a
      pending rotation stays pending. */
  lemma CallOkCarries(lockOf: KeyId -> int, s: State, s': State, c: CallId)
    requires c in s.calls && CallOk(lockOf, s, c) && DbOk(s.db)
    requires c in s'.calls && s'.calls[c] == s.calls[c]
    requires Follows(s.db, s'.db, s.calls[c].id) && Evolves(s.db.table, s'.db.table)
    requires Holds(lockOf, s, c, s.calls[c].id) ==> Holds(lockOf, s', c, s.calls[c].id)
    requires s.calls[c].pc.Written? ==> Pending(s'.db, s.calls[c])
    ensures CallOk(lockOf, s', c)
  {
    var call := s.calls[c];
    if InTransaction(call.pc) {
      FollowsTransitive(call.pc.snap, s.db, s'.db, call.id);
    }
  }

  /** Two calls that both have uncommitted rows of one id. */
  predicate SameIdWriters(s: State, c: CallId, c': CallId) {
    && c in s.calls && c' in s.calls
    && s.calls[c].pc.Written? && s.calls[c'].pc.Written?
    && s.calls[c].id == s.calls[c'].id
  }

  /** Both hold the same lock, so they are the same call. */
  lemma OneWriterPerId(lockOf: KeyId -> int, s: State, c: CallId, c': CallId)
    requires Inv(lockOf, s) && SameIdWriters(s, c, c')
    ensures c == c'
  {
    assert CallOk(lockOf, s, c) && CallOk(lockOf, s, c');
  }

  lemma PendingCarries(db: Db, db': Db, call: Call)
    requires call.pc.Written? && Pending(db, call)
    requires forall v :: (call.id, v) in db.table <==> (call.id, v) in db'.table
    requires (call.id, call.pc.base) in db'.table
    requires db'.table[(call.id, call.pc.base)] == db.table[(call.id, call.pc.base)]
    ensures Pending(db', call)
  {
    SameIdSameLatest(db.table, db'.table, call.id);
  }

  /** A local step of one call leaves every other call as it was. */
  lemma LocalStepKeepsOthers(lockOf: KeyId -> int, s: State, step: Step, c: CallId)
    requires Can(lockOf, s, step) && !step.Write? && !step.Commit?
    requires c in s.calls && c != step.c && CallOk(lockOf, s, c)
    ensures CallOk(lockOf, Do(lockOf, s, step), c)
  {
    LocalStepLeavesOthers(lockOf, s, step, c);
  }

  /** Neither the database nor another call, nor a lock it holds, is touched by a local step. */
  lemma LocalStepLeavesOthers(lockOf: KeyId -> int, s: State, step: Step, c: CallId)
    requires Can(lockOf, s, step) && !step.Write? && !step.Commit? && c in s.calls && c != step.c
    ensures
      var s' := Do(lockOf, s, step);
      && s'.db == s.db && c in s'.calls && s'.calls[c] == s.calls[c]
      && (Holds(lockOf, s, c, s.calls[c].id) ==> Holds(lockOf, s', c, s.calls[c].id))
  {
  }

  lemma LocalStepKeepsSelf(lockOf: KeyId -> int, s: State, step: Step)
    requires DbOk(s.db) && Can(lockOf, s, step) && !step.Write? && !step.Commit?
    requires step.c in s.calls ==> CallOk(lockOf, s, step.c)
    ensures CallOk(lockOf, Do(lockOf, s, step), step.c)
  {
    if step.Snapshot? {
      FollowsSelf(s.db, s.calls[step.c].id);
    } else if step.Execute? {
      var call := s.calls[step.c];
      if Rotate(call.pc.snap.table, call.id, call.dek, step.now).Ok? {
        ExecuteIsPending(s, call, step.now);
      }
    }
  }

  lemma LocalStepKeepsLocks(lockOf: KeyId -> int, s: State, step: Step)
    requires LocksOk(lockOf, s) && Can(lockOf, s, step) && !step.Write? && !step.Commit?
    ensures LocksOk(lockOf, Do(lockOf, s, step))
  {
  }

  /** Steps of one call that leave the database alone. */
  lemma LocalStepKeepsInv(lockOf: KeyId -> int, s: State, step: Step)
    requires Inv(lockOf, s) && Can(lockOf, s, step) && !step.Write? && !step.Commit?
    ensures Inv(lockOf, Do(lockOf, s, step))
  {
    var s' := Do(lockOf, s, step);
    LocalStepKeepsLocks(lockOf, s, step);
    LocalStepKeepsSelf(lockOf, s, step);
    forall c | c in s'.calls && c != step.c ensures CallOk(lockOf, s', c) { LocalStepKeepsOthers(lockOf, s, step, c); }
    LocalStepKeepsDb(lockOf, s, step);
    forall id: KeyId ensures ChainOk(s', id) {
      forall c, v ensures Won(s, c, id, v) <==> Won(s', c, id, v) { LocalStepKeepsWinners(lockOf, s, step, c, id, v); }
      ChainCarries(s, s', id);
    }
  }

  lemma LocalStepKeepsDb(lockOf: KeyId -> int, s: State, step: Step)
    requires Can(lockOf, s, step) && !step.Write? && !step.Commit?
    ensures Do(lockOf, s, step).db == s.db
  {
  }

  lemma LocalStepKeepsWinners(lockOf: KeyId -> int, s: State, step: Step, c: CallId, id: KeyId, v: int)
    requires Can(lockOf, s, step) && !step.Write? && !step.Commit?
    ensures Won(s, c, id, v) <==> Won(Do(lockOf, s, step), c, id, v)
  {
  }

  /** The stamp comparison makes up for the snapshot being older than the lock: when it passes,
      nobody has rotated the key since the snapshot. */
  lemma ExecuteIsPending(s: State, call: Call, now: Time)
    requires DbOk(s.db) && call.pc.Locked? && SnapOk(s.db, call.pc.snap, call.id)
    requires Rotate(call.pc.snap.table, call.id, call.dek, now).Ok?
    requires
      var m := Latest(call.pc.snap.table, call.id).value;
      && (call.id, m) in s.db.stamp && (call.id, m) in call.pc.snap.stamp
      && s.db.stamp[(call.id, m)] == call.pc.snap.stamp[(call.id, m)]
      && (call.id, Rotate(call.pc.snap.table, call.id, call.dek, now).value.1.version) !in s.db.table
    ensures Pending(s.db, call.(pc := Written(call.pc.snap, Latest(call.pc.snap.table, call.id).value, now)))
  {
    var snap := call.pc.snap;
    var m := Latest(snap.table, call.id).value;
    assert snap.stamp[(call.id, m)] < snap.next;
    assert s.db.table[(call.id, m)] == snap.table[(call.id, m)];
  }

  /** The correspondence of versions and winners survives a step that adds neither. */
  lemma ChainCarries(s: State, s': State, id: KeyId)
    requires ChainOk(s, id)
    requires forall c, v :: Won(s, c, id, v) <==> Won(s', c, id, v)
    requires Latest(s'.db.table, id) == Latest(s.db.table, id) || (Latest(s.db.table, id) == None && Latest(s'.db.table, id) == Some(1))
    requires forall v :: v >= 2 && (id, v) in s'.db.table ==> (id, v) in s.db.table
    ensures ChainOk(s', id)
  {
    assert Winners(s', id) == Winners(s, id) by { WinnersWon(s, id); WinnersWon(s', id); }
    forall v | v >= 2 && (id, v) in s'.db.table ensures exists c :: Won(s', c, id, v) {
      var c :| Won(s, c, id, v);
      assert Won(s', c, id, v);
    }
  }

  lemma WinnersWon(s: State, id: KeyId)
    ensures forall c :: c in Winners(s, id) <==> exists v :: Won(s, c, id, v)
  {
    forall c | c in Winners(s, id) ensures exists v :: Won(s, c, id, v) {
      assert Won(s, c, id, s.calls[c].pc.outcome.version);
    }
  }

  lemma WriteKeepsCall(lockOf: KeyId -> int, s: State, op: Op, c: CallId)
    requires DbOk(s.db) && Can(lockOf, s, Write(op)) && c in s.calls && CallOk(lockOf, s, c)
    ensures CallOk(lockOf, Do(lockOf, s, Write(op)), c)
  {
    var s' := Do(lockOf, s, Write(op));
    var call := s.calls[c];
    WriteEffect(s.db.table, op, call.id);
    ApplyEvolves(s.db.table, op);
    StoreFollows(s.db, s'.db.table, Touched(s.db.table, op), call.id);
    if call.pc.Written? {
      assert (call.id, call.pc.base) in RowLocks(s);
      PendingCarries(s.db, s'.db, call);
    }
    CallOkCarries(lockOf, s, s', c);
  }

  lemma WriteKeepsInv(lockOf: KeyId -> int, s: State, op: Op)
    requires Inv(lockOf, s) && Can(lockOf, s, Write(op))
    ensures Inv(lockOf, Do(lockOf, s, Write(op)))
  {
    var s' := Do(lockOf, s, Write(op));
    ApplyKeepsWellFormed(s.db.table, op);
    StoreIsOk(s.db, s'.db.table, Touched(s.db.table, op));
    forall c | c in s'.calls ensures CallOk(lockOf, s', c) { WriteKeepsCall(lockOf, s, op, c); }
    forall id: KeyId ensures ChainOk(s', id) {
      WriteEffect(s.db.table, op, id);
      if !Exists(s.db.table, id) && Exists(s'.db.table, id) {
        assert (id, Latest(s'.db.table, id).value) in s'.db.table;
      }
      ChainCarries(s, s', id);
    }
  }

  lemma CommitFollows(lockOf: KeyId -> int, s: State, c: CallId, id: KeyId)
    requires DbOk(s.db) && Can(lockOf, s, Commit(c)) && Pending(s.db, s.calls[c])
    ensures Follows(s.db, Do(lockOf, s, Commit(c)).db, id)
    ensures Evolves(s.db.table, Do(lockOf, s, Commit(c)).db.table)
  {
    var call := s.calls[c];
    CommitIsRotate(s, c);
    CommitEffect(s, c, id);
    ApplyEvolves(s.db.table, RotateOp(call.id, call.dek, call.pc.now));
    StoreFollows(s.db, WriteBack(call, s.db.table), {(call.id, call.pc.base), (call.id, call.pc.base + 1)}, id);
  }

  /** A rotation pending on another id is not disturbed. */
  lemma CommitKeepsPending(lockOf: KeyId -> int, s: State, c: CallId, c': CallId)
    requires Inv(lockOf, s) && Can(lockOf, s, Commit(c)) && c' in s.calls && c' != c && s.calls[c'].pc.Written?
    ensures Pending(Do(lockOf, s, Commit(c)).db, s.calls[c'])
  {
    assert CallOk(lockOf, s, c) && CallOk(lockOf, s, c');
    if s.calls[c'].id == s.calls[c].id { OneWriterPerId(lockOf, s, c, c'); }
    CommitEffect(s, c, s.calls[c'].id);
    PendingCarries(s.db, Do(lockOf, s, Commit(c)).db, s.calls[c']);
  }

  lemma CommitKeepsOthers(lockOf: KeyId -> int, s: State, c: CallId, c': CallId)
    requires Inv(lockOf, s) && Can(lockOf, s, Commit(c)) && c' in s.calls && c' != c
    ensures CallOk(lockOf, Do(lockOf, s, Commit(c)), c')
  {
    assert CallOk(lockOf, s, c) && CallOk(lockOf, s, c');
    CommitFollows(lockOf, s, c, s.calls[c'].id);
    if s.calls[c'].pc.Written? { CommitKeepsPending(lockOf, s, c, c'); }
    CallOkCarries(lockOf, s, Do(lockOf, s, Commit(c)), c');
  }

  lemma CommitKeepsSelf(lockOf: KeyId -> int, s: State, c: CallId)
    requires Inv(lockOf, s) && Can(lockOf, s, Commit(c))
    ensures CallOk(lockOf, Do(lockOf, s, Commit(c)), c)
  {
    assert CallOk(lockOf, s, c);
    CommitIsRotate(s, c);
    CommitEffect(s, c, s.calls[c].id);
    assert IdOk(s.db.table, s.calls[c].id);
  }

  lemma CommitKeepsOtherChain(lockOf: KeyId -> int, s: State, c: CallId, id: KeyId)
    requires DbOk(s.db) && Can(lockOf, s, Commit(c)) && Pending(s.db, s.calls[c]) && ChainOk(s, id) && id != s.calls[c].id
    ensures ChainOk(Do(lockOf, s, Commit(c)), id)
  {
    var s' := Do(lockOf, s, Commit(c));
    CommitEffect(s, c, id);
    forall c', v ensures Won(s, c', id, v) <==> Won(s', c', id, v) {}
    ChainCarries(s, s', id);
  }

  lemma WinnersAreStored(lockOf: KeyId -> int, s: State, c: CallId, id: KeyId, v: int)
    requires Inv(lockOf, s) && Won(s, c, id, v)
    ensures (id, v) in s.db.table
  {
    assert CallOk(lockOf, s, c);
  }

  lemma CommitExtendsChain(lockOf: KeyId -> int, s: State, c: CallId)
    requires Inv(lockOf, s) && Can(lockOf, s, Commit(c)) && Pending(s.db, s.calls[c])
    ensures ChainOk(Do(lockOf, s, Commit(c)), s.calls[c].id)
  {
    var s' := Do(lockOf, s, Commit(c));
    var call := s.calls[c];
    CommitIsRotate(s, c);
    CommitEffect(s, c, call.id);
    forall c', v | Won(s, c', call.id, v) ensures v <= call.pc.base { WinnersAreStored(lockOf, s, c', call.id, v); }
    NewWinner(s, s', c, call.id, call.pc.base);
  }

  lemma CommitKeepsChain(lockOf: KeyId -> int, s: State, c: CallId, id: KeyId)
    requires Inv(lockOf, s) && Can(lockOf, s, Commit(c))
    ensures ChainOk(Do(lockOf, s, Commit(c)), id)
  {
    assert CallOk(lockOf, s, c) && ChainOk(s, id);
    if id != s.calls[c].id {
      CommitKeepsOtherChain(lockOf, s, c, id);
    } else {
      CommitExtendsChain(lockOf, s, c);
    }
  }

  /** One more version and one more winner, whose version is the new one. */
  lemma NewWinner(s: State, s': State, c: CallId, id: KeyId, n: int)
    requires ChainOk(s, id) && Latest(s.db.table, id) == Some(n) && Latest(s'.db.table, id) == Some(n + 1)
    requires c in s.calls && s.calls[c].id == id && !s.calls[c].pc.Returned?
    requires s'.calls == s.calls[c := s.calls[c].(pc := Returned(Succeeded(n + 1)))]
    requires forall c', v :: Won(s, c', id, v) ==> v <= n
    requires forall v :: (id, v) in s'.db.table <==> (id, v) in s.db.table || v == n + 1
    ensures ChainOk(s', id)
  {
    assert Winners(s', id) == Winners(s, id) + {c};
    forall c', v | Won(s', c', id, v) ensures (c' == c && v == n + 1) || (c' != c && Won(s, c', id, v)) {}
    forall v | v >= 2 && (id, v) in s'.db.table ensures exists c' :: Won(s', c', id, v) {
      if v == n + 1 {
        assert Won(s', c, id, v);
      } else {
        var c' :| Won(s, c', id, v);
        assert Won(s', c', id, v);
      }
    }
  }

  lemma CommitKeepsLocks(lockOf: KeyId -> int, s: State, c: CallId)
    requires LocksOk(lockOf, s) && Can(lockOf, s, Commit(c))
    ensures LocksOk(lockOf, Do(lockOf, s, Commit(c)))
  {
  }

  lemma CommitKeepsDb(lockOf: KeyId -> int, s: State, c: CallId)
    requires DbOk(s.db) && Can(lockOf, s, Commit(c)) && Pending(s.db, s.calls[c])
    ensures DbOk(Do(lockOf, s, Commit(c)).db)
  {
    var s' := Do(lockOf, s, Commit(c));
    var call := s.calls[c];
    CommitIsRotate(s, c);
    ApplyKeepsWellFormed(s.db.table, RotateOp(call.id, call.dek, call.pc.now));
    StoreIsOk(s.db, s'.db.table, {(call.id, call.pc.base), (call.id, call.pc.base + 1)});
  }

  lemma CommitKeepsInv(lockOf: KeyId -> int, s: State, c: CallId)
    requires Inv(lockOf, s) && Can(lockOf, s, Commit(c))
    ensures Inv(lockOf, Do(lockOf, s, Commit(c)))
  {
    var s' := Do(lockOf, s, Commit(c));
    assert CallOk(lockOf, s, c);
    CommitKeepsDb(lockOf, s, c);
    CommitKeepsLocks(lockOf, s, c);
    forall c' | c' in s'.calls ensures CallOk(lockOf, s', c') {
      if c' == c { CommitKeepsSelf(lockOf, s, c); } else { CommitKeepsOthers(lockOf, s, c, c'); }
    }
    forall id: KeyId ensures ChainOk(s', id) { CommitKeepsChain(lockOf, s, c, id); }
  }

  lemma StepKeepsInv(lockOf: KeyId -> int, s: State, step: Step)
    requires Inv(lockOf, s) && Can(lockOf, s, step)
    ensures Inv(lockOf, Do(lockOf, s, step))
  {
    match step
    case Write(op) => WriteKeepsInv(lockOf, s, op);
    case Commit(c) => CommitKeepsInv(lockOf, s, c);
    case _ => LocalStepKeepsInv(lockOf, s, step);
  }

  // ---------------------------------------------------------------- whole runs

  ghost predicate CanRun(lockOf: KeyId -> int, s: State, steps: seq<Step>)
    decreases |steps|
  {
    steps == [] || (Can(lockOf, s, steps[0]) && CanRun(lockOf, Do(lockOf, s, steps[0]), steps[1..]))
  }

  ghost function Run(lockOf: KeyId -> int, s: State, steps: seq<Step>): State
    requires CanRun(lockOf, s, steps)
    decreases |steps|
  {
    if steps == [] then s else Run(lockOf, Do(lockOf, s, steps[0]), steps[1..])
  }

  lemma InitialInv(lockOf: KeyId -> int)
    ensures Inv(lockOf, INITIAL)
  {
    EmptyIsWellFormed();
    forall id: KeyId ensures ChainOk(INITIAL, id) {
      assert Latest(INITIAL.db.table, id) == None;
      assert Winners(INITIAL, id) == {};
    }
  }

  lemma {:induction false} RunKeepsInv(lockOf: KeyId -> int, s: State, steps: seq<Step>)
    requires Inv(lockOf, s) && CanRun(lockOf, s, steps)
    ensures Inv(lockOf, Run(lockOf, s, steps))
    decreases |steps|
  {
    if steps != [] {
      StepKeepsInv(lockOf, s, steps[0]);
      RunKeepsInv(lockOf, Do(lockOf, s, steps[0]), steps[1..]);
    }
  }

  /** The atomic operations a run amounts to, in commit order. */
  ghost function Serialized(lockOf: KeyId -> int, s: State, steps: seq<Step>): seq<Op>
    requires CanRun(lockOf, s, steps)
    decreases |steps|
  {
    if steps == [] then []
    else
      var rest := Serialized(lockOf, Do(lockOf, s, steps[0]), steps[1..]);
      match steps[0]
      case Commit(c) => [RotateOp(s.calls[c].id, s.calls[c].dek, s.calls[c].pc.now)] + rest
      case Write(op) => [op] + rest
      case _ => rest
  }

  /** Serializability: every interleaving of transactions, refusals, serialization failures and
      retries leaves the table that its commits, taken one at a time as atomic statements, would
      leave; whatever did not commit left no trace. */
  lemma {:induction false} RunIsSerializable(lockOf: KeyId -> int, s: State, steps: seq<Step>)
    requires Inv(lockOf, s) && CanRun(lockOf, s, steps)
    ensures
      var ops := Serialized(lockOf, s, steps);
      KeyTable.CanRun(s.db.table, ops) && KeyTable.Run(s.db.table, ops) == Run(lockOf, s, steps).db.table
    decreases |steps|
  {
    if steps != [] {
      var step := steps[0];
      var s' := Do(lockOf, s, step);
      StepKeepsInv(lockOf, s, step);
      RunIsSerializable(lockOf, s', steps[1..]);
      var rest := Serialized(lockOf, s', steps[1..]);
      if step.Commit? {
        assert CallOk(lockOf, s, step.c);
        CommitIsRotate(s, step.c);
        var op := RotateOp(s.calls[step.c].id, s.calls[step.c].dek, s.calls[step.c].pc.now);
        assert Apply(s.db.table, op) == s'.db.table && ([op] + rest)[1..] == rest;
      } else if step.Write? {
        assert Apply(s.db.table, step.op) == s'.db.table && ([step.op] + rest)[1..] == rest;
      }
    }
  }

  /** In every reachable state the latest version of a key is one more than the number of
      RotateKey calls on it that returned success; each success reported its own version, holding
      the DEK it was given, and every version above 1 was reported by some success. */
  lemma LatestIsOnePlusSuccesses(lockOf: KeyId -> int, steps: seq<Step>, id: KeyId)
    requires CanRun(lockOf, INITIAL, steps)
    ensures
      var s := Run(lockOf, INITIAL, steps);
      && WellFormed(s.db.table)
      && (match Latest(s.db.table, id)
          case None => Winners(s, id) == {}
          case Some(n) => n == 1 + |Winners(s, id)|)
      && (forall c, v :: Won(s, c, id, v) ==> (id, v) in s.db.table && s.db.table[(id, v)].encryptedDek == s.calls[c].dek)
      && (forall c, c', v :: Won(s, c, id, v) && Won(s, c', id, v) ==> c == c')
      && (forall v :: v >= 2 && (id, v) in s.db.table ==> exists c :: Won(s, c, id, v))
  {
    var s := Run(lockOf, INITIAL, steps);
    InitialInv(lockOf);
    RunKeepsInv(lockOf, INITIAL, steps);
    assert ChainOk(s, id);
    forall c, v | Won(s, c, id, v) ensures (id, v) in s.db.table && s.db.table[(id, v)].encryptedDek == s.calls[c].dek {
      assert CallOk(lockOf, s, c);
    }
  }

  /** At most one call has uncommitted rows of a given id, whatever the lock hash; and a call that
      has returned holds no lock. */
  lemma NoOverlappingRotations(lockOf: KeyId -> int, steps: seq<Step>)
    requires CanRun(lockOf, INITIAL, steps)
    ensures
      var s := Run(lockOf, INITIAL, steps);
      && (forall c, c' :: SameIdWriters(s, c, c') ==> c == c')
      && (forall l :: l in s.locks ==> s.locks[l] in s.calls && !s.calls[s.locks[l]].pc.Returned?)
  {
    var s := Run(lockOf, INITIAL, steps);
    InitialInv(lockOf);
    RunKeepsInv(lockOf, INITIAL, steps);
    forall c, c' | SameIdWriters(s, c, c') ensures c == c' { OneWriterPerId(lockOf, s, c, c'); }
  }

  /** A call is refused exactly when a call on an id with the same lock hash, not necessarily the
      same id, is inside its transaction with the lock; a refusal changes nothing else. */
  lemma RefusedIffHashHeld(lockOf: KeyId -> int, s: State, c: CallId)
    requires Inv(lockOf, s) && Can(lockOf, s, TryLock(c))
    ensures
      var s' := Do(lockOf, s, TryLock(c));
      && (s'.calls[c].pc == Returned(RefusedByLock) <==>
            exists c' :: c' in s.calls && (s.calls[c'].pc.Locked? || s.calls[c'].pc.Written?) && lockOf(s.calls[c'].id) == lockOf(s.calls[c].id))
      && s'.db == s.db
      && (s'.calls[c].pc.Returned? ==> s'.locks == s.locks)
  {
    var lock := lockOf(s.calls[c].id);
    if lock in s.locks {
      var c' := s.locks[lock];
      assert c' in s.calls && (s.calls[c'].pc.Locked? || s.calls[c'].pc.Written?) && lockOf(s.calls[c'].id) == lock;
    }
    forall c' | c' in s.calls && (s.calls[c'].pc.Locked? || s.calls[c'].pc.Written?) && lockOf(s.calls[c'].id) == lock
      ensures lock in s.locks
    {
      assert CallOk(lockOf, s, c');
    }
  }

  // ---------------------------------------------------------------- retries

  /** How often call `c` is told 40001 in a run. */
  function Serializations(steps: seq<Step>, c: CallId): nat {
    if steps == [] then 0 else (if steps[0] == Serialization(c) then 1 else 0) + Serializations(steps[1..], c)
  }

  /** Told 40001 `k` times so far: out of attempts at five, and not before. */
  predicate Counted(s: State, c: CallId, k: nat) {
    if c !in s.calls then k == 0
    else if s.calls[c].pc == Returned(Exhausted) then k == 5
    else k < 5 && s.calls[c].attempt == k
  }

  lemma StepCounts(lockOf: KeyId -> int, s: State, step: Step, c: CallId, k: nat)
    requires Can(lockOf, s, step) && Counted(s, c, k)
    ensures Counted(Do(lockOf, s, step), c, k + if step == Serialization(c) then 1 else 0)
  {
    if step.Write? {
    } else if step.c != c {
      StepLeavesOtherCalls(lockOf, s, step, c);
    }
  }

  lemma StepLeavesOtherCalls(lockOf: KeyId -> int, s: State, step: Step, c: CallId)
    requires Can(lockOf, s, step) && !step.Write? && step.c != c
    ensures c in Do(lockOf, s, step).calls <==> c in s.calls
    ensures c in s.calls ==> Do(lockOf, s, step).calls[c] == s.calls[c]
  {
  }

  lemma {:induction false} RunCounts(lockOf: KeyId -> int, s: State, steps: seq<Step>, c: CallId, k: nat)
    requires CanRun(lockOf, s, steps) && Counted(s, c, k)
    ensures Counted(Run(lockOf, s, steps), c, k + Serializations(steps, c))
    decreases |steps|
  {
    if steps != [] {
      StepCounts(lockOf, s, steps[0], c, k);
      RunCounts(lockOf, Do(lockOf, s, steps[0]), steps[1..], c, k + if steps[0] == Serialization(c) then 1 else 0);
    }
  }

  /** In every run a call gives up for serialization failures exactly when it has met five of them. */
  lemma ExhaustedIffFive(lockOf: KeyId -> int, steps: seq<Step>, c: CallId)
    requires CanRun(lockOf, INITIAL, steps) && c in Run(lockOf, INITIAL, steps).calls
    ensures Serializations(steps, c) <= 5
    ensures Run(lockOf, INITIAL, steps).calls[c].pc == Returned(Exhausted) <==> Serializations(steps, c) == 5
  {
    RunCounts(lockOf, INITIAL, steps, c, 0);
  }

  /** After each of the first four the call starts over: it holds no lock, its transaction has left no
      trace, and its next snapshot is of the table as it is then. */
  lemma RetriesUntilFive(lockOf: KeyId -> int, steps: seq<Step>, c: CallId)
    requires CanRun(lockOf, INITIAL, steps) && Can(lockOf, Run(lockOf, INITIAL, steps), Serialization(c))
    ensures
      var s := Run(lockOf, INITIAL, steps);
      var s' := Do(lockOf, s, Serialization(c));
      && s'.db == s.db && (forall l :: l in s'.locks ==> s'.locks[l] != c)
      && if Serializations(steps, c) < 4
         then Can(lockOf, s', Snapshot(c)) && Do(lockOf, s', Snapshot(c)).calls[c].pc == Snapped(s.db)
         else s'.calls[c].pc == Returned(Exhausted)
  {
    RunCounts(lockOf, INITIAL, steps, c, 0);
  }

  // ---------------------------------------------------------------- a call left to itself

  function AnswerOf(r: Result<(Table, Key), TableError>): Outcome {
    match r
    case Ok(rotated) => Succeeded(rotated.1.version)
    case Err(e) => if e == KeyNotFound then NotFound else OtherError
  }

  /** From every reachable state, a call that finds its lock free and is not disturbed rotates the table as it
      is, or reports why that cannot be done; either way it ends with every lock as it was. */
  lemma UndisturbedCallRotates(lockOf: KeyId -> int, s: State, c: CallId, now: Time)
    requires Inv(lockOf, s) && c in s.calls && s.calls[c].pc.Ready? && lockOf(s.calls[c].id) !in s.locks
    ensures
      var r := Rotate(s.db.table, s.calls[c].id, s.calls[c].dek, now);
      var steps := [Snapshot(c), TryLock(c), Execute(c, now)] + if r.Ok? then [Commit(c)] else [];
      && CanRun(lockOf, s, steps)
      && var s' := Run(lockOf, s, steps);
      && s'.db.table == (if r.Ok? then r.value.0 else s.db.table)
      && c in s'.calls && s'.calls[c].pc == Returned(AnswerOf(r))
      && s'.locks == s.locks
  {
    var r := Rotate(s.db.table, s.calls[c].id, s.calls[c].dek, now);
    var s2 := LockedState(lockOf, s, c);
    LockedCanExecute(lockOf, s, c, now);
    var s3 := Do(lockOf, s2, Execute(c, now));
    var rest: seq<Step> := [];
    if r.Ok? {
      CommitReleases(lockOf, s, c, now);
      rest := Before(lockOf, s3, Commit(c), []);
    }
    assert rest == if r.Ok? then [Commit(c)] else [];
    var r2 := Before(lockOf, s2, Execute(c, now), rest);
    FromTheStart(lockOf, s, c, r2);
    assert [Snapshot(c), TryLock(c)] + r2 == [Snapshot(c), TryLock(c), Execute(c, now)] + if r.Ok? then [Commit(c)] else [];
  }

  lemma FromTheStart(lockOf: KeyId -> int, s: State, c: CallId, rest: seq<Step>)
    requires c in s.calls && s.calls[c].pc.Ready? && lockOf(s.calls[c].id) !in s.locks
    requires CanRun(lockOf, LockedState(lockOf, s, c), rest)
    ensures CanRun(lockOf, s, [Snapshot(c), TryLock(c)] + rest)
    ensures Run(lockOf, s, [Snapshot(c), TryLock(c)] + rest) == Run(lockOf, LockedState(lockOf, s, c), rest)
  {
    var s1 := Do(lockOf, s, Snapshot(c));
    assert Do(lockOf, s1, TryLock(c)) == LockedState(lockOf, s, c);
    var r1 := Before(lockOf, s1, TryLock(c), rest);
    var r0 := Before(lockOf, s, Snapshot(c), r1);
    assert r0 == [Snapshot(c), TryLock(c)] + rest;
  }

  lemma Before(lockOf: KeyId -> int, s: State, step: Step, rest: seq<Step>) returns (steps: seq<Step>)
    requires Can(lockOf, s, step) && CanRun(lockOf, Do(lockOf, s, step), rest)
    ensures steps == [step] + rest
    ensures CanRun(lockOf, s, steps) && Run(lockOf, s, steps) == Run(lockOf, Do(lockOf, s, step), rest)
  {
    steps := [step] + rest;
    assert steps[1..] == rest;
  }

  /** The call inside its transaction: the table as it was, its lock and nobody else's taken. */
  function LockedState(lockOf: KeyId -> int, s: State, c: CallId): State
    requires c in s.calls
  {
    At(s.(locks := s.locks[lockOf(s.calls[c].id) := c]), c, Locked(s.db))
  }

  lemma LockedCanExecute(lockOf: KeyId -> int, s: State, c: CallId, now: Time)
    requires Inv(lockOf, s) && c in s.calls && s.calls[c].pc.Ready? && lockOf(s.calls[c].id) !in s.locks
    ensures
      var s1 := Do(lockOf, s, Snapshot(c));
      && Can(lockOf, s1, TryLock(c)) && Do(lockOf, s1, TryLock(c)) == LockedState(lockOf, s, c)
      && Can(lockOf, LockedState(lockOf, s, c), Execute(c, now))
      && var r := Rotate(s.db.table, s.calls[c].id, s.calls[c].dek, now);
      r.Err? ==>
        var s3 := Do(lockOf, LockedState(lockOf, s, c), Execute(c, now));
        s3.db == s.db && s3.calls[c].pc == Returned(AnswerOf(r)) && s3.locks == s.locks
  {
    var call := s.calls[c];
    var s2 := LockedState(lockOf, s, c);
    assert Do(lockOf, Do(lockOf, s, Snapshot(c)), TryLock(c)) == s2;
    ReadyHoldsNothing(lockOf, s, c);
    var r := Rotate(s.db.table, call.id, call.dek, now);
    if r.Ok? {
      RotateWrites(s.db.table, call.id, call.dek, now);
      assert (call.id, Latest(s.db.table, call.id).value) in s.db.stamp;
    } else {
      UnlockRestores(s, s2, c, lockOf(call.id));
    }
  }

  lemma ReadyHoldsNothing(lockOf: KeyId -> int, s: State, c: CallId)
    requires LocksOk(lockOf, s) && c in s.calls && s.calls[c].pc.Ready?
    ensures forall l :: l in s.locks ==> s.locks[l] != c
  {
  }

  lemma UnlockRestores(s: State, s': State, c: CallId, lock: int)
    requires lock !in s.locks && (forall l :: l in s.locks ==> s.locks[l] != c) && s'.locks == s.locks[lock := c]
    ensures Unlocked(s', c).locks == s.locks
  {
    var locks := Unlocked(s', c).locks;
    assert forall l :: l in locks <==> l in s.locks;
    assert forall l :: l in locks ==> locks[l] == s.locks[l];
  }

  lemma CommitReleases(lockOf: KeyId -> int, s: State, c: CallId, now: Time)
    requires Inv(lockOf, s) && c in s.calls && s.calls[c].pc.Ready? && lockOf(s.calls[c].id) !in s.locks
    requires Rotate(s.db.table, s.calls[c].id, s.calls[c].dek, now).Ok? && Can(lockOf, LockedState(lockOf, s, c), Execute(c, now))
    ensures
      var s3 := Do(lockOf, LockedState(lockOf, s, c), Execute(c, now));
      && Can(lockOf, s3, Commit(c))
      && var s4 := Do(lockOf, s3, Commit(c));
      var r := Rotate(s.db.table, s.calls[c].id, s.calls[c].dek, now);
      s4.db.table == r.value.0 && s4.calls[c].pc == Returned(AnswerOf(r)) && s4.locks == s.locks
  {
    var call := s.calls[c];
    var s2 := LockedState(lockOf, s, c);
    var s3 := Do(lockOf, s2, Execute(c, now));
    ReadyHoldsNothing(lockOf, s, c);
    assert Pending(s3.db, s3.calls[c]);
    CommitIsRotate(s3, c);
    UnlockRestores(s, s3, c, lockOf(call.id));
  }

  predicate NoOpenRotation(s: State, id: KeyId) {
    forall d :: d in s.calls && s.calls[d].pc.Written? ==> s.calls[d].id != id
  }

  /** Any other writer can write whenever no rotation has uncommitted rows of its id, and a failing call leaves
      no trace but its answer. */
  lemma OthersProceed(lockOf: KeyId -> int, s: State, op: Op, c: CallId)
    ensures !op.RotateOp? && Enabled(s.db.table, op) && NoOpenRotation(s, op.id) ==> Can(lockOf, s, Write(op))
    ensures c in s.calls && !s.calls[c].pc.Returned? ==>
        && Can(lockOf, s, Fail(c))
        && var s' := Do(lockOf, s, Fail(c));
        s'.db == s.db && s'.calls[c].pc == Returned(OtherError) && forall l :: l in s'.locks <==> l in s.locks && s.locks[l] != c
  {
  }

  /** A version that no committed revocation has reached is active while it is the latest and rotated
      afterwards, in every interleaving. */
  lemma UnrevokedInEveryRun(lockOf: KeyId -> int, steps: seq<Step>, id: KeyId, v: int)
    requires CanRun(lockOf, INITIAL, steps) && (id, v) in Run(lockOf, INITIAL, steps).db.table
    requires !Revokes(Serialized(lockOf, INITIAL, steps), (id, v))
    ensures
      var t := Run(lockOf, INITIAL, steps).db.table;
      t[(id, v)].status == if Latest(t, id) == Some(v) then Active else Rotated
  {
    InitialInv(lockOf);
    RunIsSerializable(lockOf, INITIAL, steps);
    UnrevokedStatus(Serialized(lockOf, INITIAL, steps), id, v);
  }
}
