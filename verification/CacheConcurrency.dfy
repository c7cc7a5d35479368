/** The cached repository under concurrency: any number of goroutines reading through the cache,
    invalidating keys and sweeping, interleaved at every lock operation, while the repository
    underneath changes in any way at any time
    (internal/infra/persistence/cached_repository.go, pkg/cache/generic_cache.go).

    There are two locks, `mu` of the cache and `cacheIndexMux`.  Which locks a goroutine holds is a
    function of where it is; an acquiring step is enabled when nobody holds the lock in a
    conflicting mode. */
module CacheConcurrency {
  import opened Domain
  import opened KeyTable
  import opened CacheKeys
  import opened CachedRepository
  import TtlCache

  type Tid = nat

  /** A cached key, with the request it answers and its provenance: who stored it, from which
      repository state, and when. */
  datatype Entry = Entry(id: KeyId, version: int, key: Key, expiresAt: Time, filler: Tid, readFrom: nat, setAt: Time)

  datatype Purpose = ForDelete(rest: set<string>) | ForSweep(now: Time, rest: set<string>)

  datatype Pc =
    | Idle
    | GetWantMu(id: KeyId, version: int)
    | GetHasMu(id: KeyId, version: int)
    | ReadRepo(id: KeyId, version: int)
    | FillWantMu(id: KeyId, version: int, key: Key, readFrom: nat)
    | FillHasMu(id: KeyId, version: int, key: Key, readFrom: nat)
    | FillWantIdx(id: KeyId, version: int)
    | FillHasIdx(id: KeyId, version: int)
    | InvWantIdx(id: KeyId)
    | InvHasIdx(id: KeyId)
    | DelNext(rest: set<string>)
    | DelWantMu(ck: string, rest: set<string>)
    | DelHasMu(ck: string, rest: set<string>)
    | SweepWantMu
    | SweepHasMu(now: Time, rest: set<string>)
    | EvictWantIdx(ck: string, owner: KeyId, purpose: Purpose)
    | EvictHasIdx(ck: string, owner: KeyId, purpose: Purpose)

  predicate HoldsMuRead(pc: Pc) { pc.GetHasMu? }

  predicate HoldsMuWrite(pc: Pc) {
    pc.FillHasMu? || pc.DelHasMu? || pc.SweepHasMu? || pc.EvictWantIdx? || pc.EvictHasIdx?
  }

  predicate HoldsIdxRead(pc: Pc) { pc.InvHasIdx? }

  predicate HoldsIdxWrite(pc: Pc) { pc.FillHasIdx? || pc.EvictHasIdx? }

  predicate WantsMu(pc: Pc) { pc.GetWantMu? || pc.FillWantMu? || pc.DelWantMu? || pc.SweepWantMu? }

  predicate WantsIdx(pc: Pc) { pc.FillWantIdx? || pc.InvWantIdx? || pc.EvictWantIdx? }

  /** What a request that hit the cache was given. */
  datatype Hit = Hit(id: KeyId, version: int, key: Key, at: Time, readFrom: nat, setAt: Time)

  /** `repo` lists the states the repository has been in; the last one is the present. */
  datatype State = State(
    clock: Time, repo: seq<Table>, items: map<string, Entry>, index: Index,
    threads: map<Tid, Pc>, hits: seq<Hit>)

  datatype Step =
    | Tick(elapsed: nat)
    | WriteRepo(table: Table)
    | StartGet(t: Tid, id: KeyId, version: int)
    | StartInvalidate(t: Tid, id: KeyId)
    | StartSweep(t: Tid)
    | Act(t: Tid, pick: string)

  /** What the repository answers to a request; version 0 asks for the latest. */
  function Read(t: Table, id: KeyId, version: int): Result<Key, TableError> {
    if version == 0 then GetKey(t, id) else GetKeyByVersion(t, id, version)
  }

  predicate MuWriteFree(s: State) { forall t :: t in s.threads ==> !HoldsMuWrite(s.threads[t]) }

  predicate MuFree(s: State) { MuWriteFree(s) && forall t :: t in s.threads ==> !HoldsMuRead(s.threads[t]) }

  predicate IdxWriteFree(s: State) { forall t :: t in s.threads ==> !HoldsIdxWrite(s.threads[t]) }

  predicate IdxFree(s: State) { IdxWriteFree(s) && forall t :: t in s.threads ==> !HoldsIdxRead(s.threads[t]) }

  predicate CanAct(s: State, t: Tid, pick: string)
    requires t in s.threads
  {
    match s.threads[t]
    case Idle => false
    case GetWantMu(_, _) => MuWriteFree(s)
    case FillWantMu(_, _, _, _) => MuFree(s)
    case DelWantMu(_, _) => MuFree(s)
    case SweepWantMu => MuFree(s)
    case FillWantIdx(_, _) => IdxFree(s)
    case EvictWantIdx(_, _, _) => IdxFree(s)
    case InvWantIdx(_) => IdxWriteFree(s)
    case DelNext(rest) => rest == {} || pick in rest
    case SweepHasMu(_, rest) => rest == {} || pick in rest
    case _ => true
  }

  predicate IsIdle(s: State, t: Tid) { t !in s.threads || s.threads[t].Idle? }

  predicate Can(s: State, step: Step) {
    match step
    case Tick(_) => true
    case WriteRepo(_) => true
    case StartGet(t, _, _) => IsIdle(s, t)
    case StartInvalidate(t, _) => IsIdle(s, t)
    case StartSweep(t) => IsIdle(s, t)
    case Act(t, pick) => t in s.threads && CanAct(s, t, pick)
  }

  function At(s: State, t: Tid, pc: Pc): State {
    s.(threads := s.threads[t := pc])
  }

  predicate Live(s: State, ck: string) {
    ck in s.items && s.clock <= s.items[ck].expiresAt
  }

  function DoAct(s: State, t: Tid, pick: string): State
    requires t in s.threads && CanAct(s, t, pick) && s.repo != []
  {
    match s.threads[t]
    case Idle => s
    case GetWantMu(id, v) => At(s, t, GetHasMu(id, v))
    case GetHasMu(id, v) =>
      var ck := CacheKey(id, v);
      if Live(s, ck) then
        var e := s.items[ck];
        At(s.(hits := s.hits + [Hit(id, v, e.key, s.clock, e.readFrom, e.setAt)]), t, Idle)
      else At(s, t, ReadRepo(id, v))
    case ReadRepo(id, v) =>
      var r := Read(s.repo[|s.repo| - 1], id, v);
      At(s, t, if r.Ok? then FillWantMu(id, v, r.value, |s.repo| - 1) else Idle)
    case FillWantMu(id, v, key, readFrom) => At(s, t, FillHasMu(id, v, key, readFrom))
    case FillHasMu(id, v, key, readFrom) =>
      var e := Entry(id, v, key, s.clock + CACHE_TTL, t, readFrom, s.clock);
      At(s.(items := s.items[CacheKey(id, v) := e]), t, FillWantIdx(id, v))
    case FillWantIdx(id, v) => At(s, t, FillHasIdx(id, v))
    case FillHasIdx(id, v) => At(s.(index := Inserted(s.index, id, CacheKey(id, v))), t, Idle)
    case InvWantIdx(id) => At(s, t, InvHasIdx(id))
    case InvHasIdx(id) => At(s, t, DelNext(if id in s.index then s.index[id] else {}))
    case DelNext(rest) => At(s, t, if rest == {} then Idle else DelWantMu(pick, rest - {pick}))
    case DelWantMu(ck, rest) => At(s, t, DelHasMu(ck, rest))
    case DelHasMu(ck, rest) =>
      if ck in s.items then At(s.(items := s.items - {ck}), t, EvictWantIdx(ck, s.items[ck].id, ForDelete(rest)))
      else At(s, t, DelNext(rest))
    case SweepWantMu => At(s, t, SweepHasMu(s.clock, s.items.Keys))
    case SweepHasMu(now, rest) =>
      if rest == {} then At(s, t, Idle)
      else if pick in s.items && now > s.items[pick].expiresAt then
        At(s.(items := s.items - {pick}), t, EvictWantIdx(pick, s.items[pick].id, ForSweep(now, rest - {pick})))
      else At(s, t, SweepHasMu(now, rest - {pick}))
    case EvictWantIdx(ck, owner, purpose) => At(s, t, EvictHasIdx(ck, owner, purpose))
    case EvictHasIdx(ck, owner, purpose) =>
      At(s.(index := Evicted(s.index, owner, ck)), t,
         if purpose.ForDelete? then DelNext(purpose.rest) else SweepHasMu(purpose.now, purpose.rest))
  }

  function Do(s: State, step: Step): State
    requires Can(s, step) && s.repo != []
  {
    match step
    case Tick(elapsed) => s.(clock := s.clock + elapsed)
    case WriteRepo(table) => s.(repo := s.repo + [table])
    case StartGet(t, id, v) => At(s, t, GetWantMu(id, v))
    case StartInvalidate(t, id) => At(s, t, InvWantIdx(id))
    case StartSweep(t) => At(s, t, SweepWantMu)
    case Act(t, pick) => DoAct(s, t, pick)
  }

  function Initial(clock: Time, table: Table): State {
    State(clock, [table], map[], map[], map[], [])
  }

  // ---------------------------------------------------------------- invariant

  /** Writers exclude everybody else, on either lock. */
  ghost predicate Exclusive(s: State) {
    forall t, t' :: t in s.threads && t' in s.threads && t != t' ==>
      && !(HoldsMuWrite(s.threads[t]) && (HoldsMuWrite(s.threads[t']) || HoldsMuRead(s.threads[t'])))
      && !(HoldsIdxWrite(s.threads[t]) && (HoldsIdxWrite(s.threads[t']) || HoldsIdxRead(s.threads[t'])))
  }

  /** `key` was the repository's answer to (id, version) in a state it has been in. */
  ghost predicate WasCurrent(s: State, id: KeyId, version: int, key: Key, readFrom: nat) {
    readFrom < |s.repo| && Read(s.repo[readFrom], id, version) == Ok(key)
  }

  ghost predicate PcOk(s: State, pc: Pc) {
    && ((pc.FillWantMu? || pc.FillHasMu?) ==> WasCurrent(s, pc.id, pc.version, pc.key, pc.readFrom))
    && ((pc.EvictWantIdx? || pc.EvictHasIdx?) ==> pc.ck !in s.items)
  }

  /** The goroutine that stored the entry still owes its index insertion. */
  predicate OwesIndex(s: State, e: Entry) {
    && e.filler in s.threads
    && s.threads[e.filler] in {FillWantIdx(e.id, e.version), FillHasIdx(e.id, e.version)}
  }

  ghost predicate EntryOk(s: State, ck: string)
    requires ck in s.items
  {
    var e := s.items[ck];
    && ck == CacheKey(e.id, e.version)
    && WasCurrent(s, e.id, e.version, e.key, e.readFrom)
    && e.setAt <= s.clock && e.expiresAt == e.setAt + CACHE_TTL
    && (Listed(s.index, e.id, ck) || OwesIndex(s, e))
  }

  ghost predicate HitOk(s: State, h: Hit) {
    && WasCurrent(s, h.id, h.version, h.key, h.readFrom)
    && h.setAt <= h.at <= h.setAt + CACHE_TTL
  }

  ghost predicate Inv(s: State) {
    && s.repo != []
    && Exclusive(s)
    && (forall t :: t in s.threads ==> PcOk(s, s.threads[t]))
    && (forall ck :: ck in s.items ==> EntryOk(s, ck))
    && (forall i :: 0 <= i < |s.hits| ==> HitOk(s, s.hits[i]))
  }

  /** What one step of goroutine `t` may do to the locks. */
  ghost predicate LockEffect(s: State, s': State, t: Tid) {
    && t in s.threads && t in s'.threads
    && var pc, pc' := s.threads[t], s'.threads[t];
    && (HoldsMuWrite(pc') ==> HoldsMuWrite(pc) || MuFree(s))
    && (HoldsMuRead(pc') ==> HoldsMuRead(pc) || MuWriteFree(s))
    && (HoldsIdxWrite(pc') ==> HoldsIdxWrite(pc) || IdxFree(s))
    && (HoldsIdxRead(pc') ==> HoldsIdxRead(pc) || IdxWriteFree(s))
  }

  /** And to the shared state other than the items. */
  ghost predicate Effect(s: State, s': State, t: Tid) {
    && t in s.threads && t in s'.threads && s'.threads == s.threads[t := s'.threads[t]]
    && s'.repo == s.repo && s'.clock == s.clock
    && var pc, pc' := s.threads[t], s'.threads[t];
    && s'.index ==
         (if pc.FillHasIdx? then Inserted(s.index, pc.id, CacheKey(pc.id, pc.version))
          else if pc.EvictHasIdx? then Evicted(s.index, pc.owner, pc.ck)
          else s.index)
    && (pc.FillWantIdx? ==> pc' == FillHasIdx(pc.id, pc.version))
  }

  lemma ActLockEffect(s: State, t: Tid, pick: string)
    requires t in s.threads && CanAct(s, t, pick) && s.repo != []
    ensures LockEffect(s, DoAct(s, t, pick), t)
  {
  }

  lemma ActEffect(s: State, t: Tid, pick: string)
    requires t in s.threads && CanAct(s, t, pick) && s.repo != []
    ensures Effect(s, DoAct(s, t, pick), t)
  {
  }

  lemma EffectKeepsExclusive(s: State, s': State, t: Tid)
    requires Exclusive(s) && Effect(s, s', t) && LockEffect(s, s', t)
    ensures Exclusive(s')
  {
  }

  /** Only a filler, which holds the cache lock, adds entries. */
  lemma OnlyFillersAdd(s: State, t: Tid, pick: string)
    requires t in s.threads && CanAct(s, t, pick) && s.repo != []
    ensures s.threads[t].FillHasMu? || DoAct(s, t, pick).items.Keys <= s.items.Keys
  {
  }

  /** Readers and fillers on these steps end up neither carrying a key nor evicting an entry. */
  lemma ReadersCarryNothing(s: State, t: Tid, pick: string)
    requires t in s.threads && CanAct(s, t, pick) && s.repo != []
    requires
      var pc := s.threads[t];
      pc.GetWantMu? || pc.GetHasMu? || pc.FillHasMu? || pc.FillWantIdx? || pc.FillHasIdx?
    ensures PcOk(DoAct(s, t, pick), DoAct(s, t, pick).threads[t])
  {
  }

  /** Nor do these steps of invalidations and sweeps. */
  lemma DroppersCarryNothing(s: State, t: Tid, pick: string)
    requires t in s.threads && CanAct(s, t, pick) && s.repo != []
    requires
      var pc := s.threads[t];
      pc.InvWantIdx? || pc.InvHasIdx? || pc.DelNext? || pc.DelWantMu? || pc.SweepWantMu? || pc.EvictHasIdx?
    ensures PcOk(DoAct(s, t, pick), DoAct(s, t, pick).threads[t])
  {
  }

  lemma ActKeepsFillPc(s: State, t: Tid, pick: string)
    requires t in s.threads && CanAct(s, t, pick) && s.repo != [] && PcOk(s, s.threads[t])
    requires s.threads[t].ReadRepo? || s.threads[t].FillWantMu?
    ensures PcOk(DoAct(s, t, pick), DoAct(s, t, pick).threads[t])
  {
  }

  lemma ActKeepsEvictPc(s: State, t: Tid, pick: string)
    requires t in s.threads && CanAct(s, t, pick) && s.repo != [] && PcOk(s, s.threads[t])
    requires s.threads[t].DelHasMu? || s.threads[t].SweepHasMu? || s.threads[t].EvictWantIdx?
    ensures PcOk(DoAct(s, t, pick), DoAct(s, t, pick).threads[t])
  {
  }

  lemma ActKeepsOwnPc(s: State, t: Tid, pick: string)
    requires t in s.threads && CanAct(s, t, pick) && s.repo != [] && PcOk(s, s.threads[t])
    ensures PcOk(DoAct(s, t, pick), DoAct(s, t, pick).threads[t])
  {
    var pc := s.threads[t];
    if pc.ReadRepo? || pc.FillWantMu? { ActKeepsFillPc(s, t, pick); }
    else if pc.DelHasMu? || pc.SweepHasMu? || pc.EvictWantIdx? { ActKeepsEvictPc(s, t, pick); }
    else if pc.GetWantMu? || pc.GetHasMu? || pc.FillHasMu? || pc.FillWantIdx? || pc.FillHasIdx? {
      ReadersCarryNothing(s, t, pick);
    } else {
      DroppersCarryNothing(s, t, pick);
    }
  }

  lemma ActKeepsPcs(s: State, t: Tid, pick: string, t': Tid)
    requires Inv(s) && t in s.threads && CanAct(s, t, pick) && t' in s.threads
    requires Effect(s, DoAct(s, t, pick), t)
    ensures PcOk(DoAct(s, t, pick), DoAct(s, t, pick).threads[t'])
  {
    assert PcOk(s, s.threads[t]) && PcOk(s, s.threads[t']);
    OnlyFillersAdd(s, t, pick);
    if t' == t { ActKeepsOwnPc(s, t, pick); }
  }

  lemma EvictedOthers(index: Index, owner: KeyId, ck: string, id: KeyId, ck': string)
    requires ck' != ck
    ensures Listed(Evicted(index, owner, ck), id, ck') <==> Listed(index, id, ck')
  {
    if Listed(index, id, ck') && id == owner { assert ck' in index[owner] - {ck}; }
  }

  /** An entry that was there stays well kept: its index line is only removed after the entry. */
  lemma EffectKeepsEntry(s: State, s': State, t: Tid, ck: string)
    requires Effect(s, s', t) && PcOk(s, s.threads[t])
    requires ck in s.items && ck in s'.items && s'.items[ck] == s.items[ck] && EntryOk(s, ck)
    ensures EntryOk(s', ck)
  {
    var e := s.items[ck];
    if s.threads[t].EvictHasIdx? {
      EvictedOthers(s.index, s.threads[t].owner, s.threads[t].ck, e.id, ck);
    }
  }

  /** An entry that is new, or not what it was, has just been filled. */
  lemma NewEntriesAreFilled(s: State, t: Tid, pick: string, ck: string)
    requires t in s.threads && CanAct(s, t, pick) && s.repo != [] && ck in DoAct(s, t, pick).items
    ensures (ck in s.items && DoAct(s, t, pick).items[ck] == s.items[ck]) ||
      (s.threads[t].FillHasMu? && ck == CacheKey(s.threads[t].id, s.threads[t].version))
  {
  }

  lemma FilledEntryOk(s: State, t: Tid, pick: string)
    requires t in s.threads && CanAct(s, t, pick) && s.repo != [] && s.threads[t].FillHasMu? && PcOk(s, s.threads[t])
    ensures
      var ck := CacheKey(s.threads[t].id, s.threads[t].version);
      ck in DoAct(s, t, pick).items && EntryOk(DoAct(s, t, pick), ck)
  {
  }

  lemma ActKeepsEntries(s: State, t: Tid, pick: string, ck: string)
    requires Inv(s) && t in s.threads && CanAct(s, t, pick) && ck in DoAct(s, t, pick).items
    ensures EntryOk(DoAct(s, t, pick), ck)
  {
    var s' := DoAct(s, t, pick);
    assert PcOk(s, s.threads[t]);
    NewEntriesAreFilled(s, t, pick, ck);
    if ck in s.items && s'.items[ck] == s.items[ck] {
      assert EntryOk(s, ck);
      ActEffect(s, t, pick);
      EffectKeepsEntry(s, s', t, ck);
    } else {
      FilledEntryOk(s, t, pick);
    }
  }

  /** A hit is added only by a reader that finds a live entry, and tells where that comes from. */
  lemma HitsComeFromEntries(s: State, t: Tid, pick: string)
    requires t in s.threads && CanAct(s, t, pick) && s.repo != []
    ensures
      var pc, hits := s.threads[t], DoAct(s, t, pick).hits;
      || hits == s.hits
      || (&& pc.GetHasMu? && Live(s, CacheKey(pc.id, pc.version))
          && var e := s.items[CacheKey(pc.id, pc.version)];
          hits == s.hits + [Hit(pc.id, pc.version, e.key, s.clock, e.readFrom, e.setAt)])
  {
  }

  lemma HitCarries(s: State, s': State, h: Hit)
    requires HitOk(s, h) && s'.repo == s.repo
    ensures HitOk(s', h)
  {
  }

  lemma NewHitOk(s: State, id: KeyId, version: int)
    requires Inv(s) && Live(s, CacheKey(id, version))
    ensures var e := s.items[CacheKey(id, version)]; HitOk(s, Hit(id, version, e.key, s.clock, e.readFrom, e.setAt))
  {
    var ck := CacheKey(id, version);
    assert EntryOk(s, ck);
    CacheKeyInjective(id, version, s.items[ck].id, s.items[ck].version);
  }

  lemma ActKeepsHits(s: State, t: Tid, pick: string, i: nat)
    requires Inv(s) && t in s.threads && CanAct(s, t, pick) && i < |DoAct(s, t, pick).hits|
    requires Effect(s, DoAct(s, t, pick), t)
    ensures HitOk(DoAct(s, t, pick), DoAct(s, t, pick).hits[i])
  {
    HitsComeFromEntries(s, t, pick);
    if i < |s.hits| {
      assert HitOk(s, s.hits[i]);
    } else {
      NewHitOk(s, s.threads[t].id, s.threads[t].version);
    }
    HitCarries(s, DoAct(s, t, pick), DoAct(s, t, pick).hits[i]);
  }

  lemma ActKeepsInv(s: State, t: Tid, pick: string)
    requires Inv(s) && t in s.threads && CanAct(s, t, pick)
    ensures Inv(DoAct(s, t, pick))
  {
    var s' := DoAct(s, t, pick);
    ActEffect(s, t, pick);
    ActLockEffect(s, t, pick);
    EffectKeepsExclusive(s, s', t);
    forall t' | t' in s'.threads ensures PcOk(s', s'.threads[t']) { ActKeepsPcs(s, t, pick, t'); }
    forall ck | ck in s'.items ensures EntryOk(s', ck) { ActKeepsEntries(s, t, pick, ck); }
    forall i | 0 <= i < |s'.hits| ensures HitOk(s', s'.hits[i]) { ActKeepsHits(s, t, pick, i); }
  }

  /** Time passes or the repository changes. */
  lemma WorldKeepsInv(s: State, s': State)
    requires Inv(s) && s' == s.(clock := s'.clock, repo := s'.repo)
    requires s.clock <= s'.clock && s.repo <= s'.repo
    ensures Inv(s')
  {
    forall t | t in s'.threads ensures PcOk(s', s'.threads[t]) { assert PcOk(s, s.threads[t]); }
    forall ck | ck in s'.items ensures EntryOk(s', ck) { assert EntryOk(s, ck); }
    forall i | 0 <= i < |s'.hits| ensures HitOk(s', s'.hits[i]) { assert HitOk(s, s.hits[i]); }
  }

  predicate IsStart(pc: Pc) { pc.GetWantMu? || pc.InvWantIdx? || pc.SweepWantMu? }

  lemma StartKeepsExclusive(s: State, t: Tid, pc: Pc)
    requires Exclusive(s) && IsIdle(s, t) && IsStart(pc)
    ensures Exclusive(At(s, t, pc))
  {
  }

  lemma StartKeepsEntry(s: State, t: Tid, pc: Pc, ck: string)
    requires IsIdle(s, t) && IsStart(pc) && ck in s.items && EntryOk(s, ck)
    ensures EntryOk(At(s, t, pc), ck)
  {
  }

  /** An idle goroutine gets work. */
  lemma StartKeepsInv(s: State, t: Tid, pc: Pc)
    requires Inv(s) && IsIdle(s, t) && IsStart(pc)
    ensures Inv(At(s, t, pc))
  {
    var s' := At(s, t, pc);
    StartKeepsExclusive(s, t, pc);
    forall t' | t' in s'.threads ensures PcOk(s', s'.threads[t']) {
      if t' != t { assert PcOk(s, s.threads[t']); }
    }
    forall ck | ck in s'.items ensures EntryOk(s', ck) { StartKeepsEntry(s, t, pc, ck); }
    forall i | 0 <= i < |s'.hits| ensures HitOk(s', s'.hits[i]) { assert HitOk(s, s.hits[i]); }
  }

  lemma StepKeepsInv(s: State, step: Step)
    requires Inv(s) && Can(s, step)
    ensures Inv(Do(s, step))
  {
    match step
    case Act(t, pick) => ActKeepsInv(s, t, pick);
    case StartGet(t, id, v) => StartKeepsInv(s, t, GetWantMu(id, v));
    case StartInvalidate(t, id) => StartKeepsInv(s, t, InvWantIdx(id));
    case StartSweep(t) => StartKeepsInv(s, t, SweepWantMu);
    case Tick(_) => WorldKeepsInv(s, Do(s, step));
    case WriteRepo(_) => WorldKeepsInv(s, Do(s, step));
  }

  // ---------------------------------------------------------------- whole runs

  ghost predicate CanRun(s: State, steps: seq<Step>)
    decreases |steps|
  {
    s.repo != [] && (steps == [] || (Can(s, steps[0]) && CanRun(Do(s, steps[0]), steps[1..])))
  }

  ghost function Run(s: State, steps: seq<Step>): (s': State)
    requires CanRun(s, steps)
    ensures s'.repo != []
    decreases |steps|
  {
    if steps == [] then s else Run(Do(s, steps[0]), steps[1..])
  }

  lemma {:induction false} RunKeepsInv(s: State, steps: seq<Step>)
    requires Inv(s) && CanRun(s, steps)
    ensures Inv(Run(s, steps))
    decreases |steps|
  {
    if steps != [] {
      StepKeepsInv(s, steps[0]);
      RunKeepsInv(Do(s, steps[0]), steps[1..]);
    }
  }

  /** Bounded staleness, whatever writes and races there are: a hit is the answer to its own request
      in a state the repository has been in, and comes at most two minutes after it was stored. */
  lemma HitsAreBoundedlyStale(clock: Time, table: Table, steps: seq<Step>, i: nat)
    requires CanRun(Initial(clock, table), steps) && i < |Run(Initial(clock, table), steps).hits|
    ensures
      var s := Run(Initial(clock, table), steps);
      var h := s.hits[i];
      && h.readFrom < |s.repo| && Read(s.repo[h.readFrom], h.id, h.version) == Ok(h.key)
      && 0 <= h.at - h.setAt <= 2 * MINUTE
  {
    RunKeepsInv(Initial(clock, table), steps);
    assert HitOk(Run(Initial(clock, table), steps), Run(Initial(clock, table), steps).hits[i]);
  }

  /** Index completeness: a cached entry that the index does not list under its key id is one whose
      filler is about to list it. */
  lemma IndexIsComplete(clock: Time, table: Table, steps: seq<Step>, ck: string)
    requires CanRun(Initial(clock, table), steps) && ck in Run(Initial(clock, table), steps).items
    ensures
      var s := Run(Initial(clock, table), steps);
      && ck == CacheKey(s.items[ck].id, s.items[ck].version)
      && (Listed(s.index, s.items[ck].id, ck) || OwesIndex(s, s.items[ck]))
  {
    RunKeepsInv(Initial(clock, table), steps);
    assert EntryOk(Run(Initial(clock, table), steps), ck);
  }

  /** In every run the critical sections exclude each other: whoever changes the items, or evicts, is alone with
      them, and whoever changes the index is alone with it. */
  lemma CriticalSectionsExclude(clock: Time, table: Table, steps: seq<Step>, t: Tid, u: Tid)
    requires CanRun(Initial(clock, table), steps)
    requires var s := Run(Initial(clock, table), steps); t in s.threads && u in s.threads && t != u
    ensures
      var s := Run(Initial(clock, table), steps);
      var a, b := s.threads[t], s.threads[u];
      && (a.FillHasMu? || a.DelHasMu? || a.SweepHasMu? || a.EvictWantIdx? || a.EvictHasIdx? ==>
            !b.GetHasMu? && !b.FillHasMu? && !b.DelHasMu? && !b.SweepHasMu? && !b.EvictWantIdx? && !b.EvictHasIdx?)
      && (a.FillHasIdx? || a.EvictHasIdx? ==> !b.InvHasIdx? && !b.FillHasIdx? && !b.EvictHasIdx?)
  {
    RunKeepsInv(Initial(clock, table), steps);
    var s := Run(Initial(clock, table), steps);
    assert Exclusive(s);
  }

  /** The world outside is free: time can pass by any amount and the repository can become anything, at any moment;
      any idle goroutine can be given any work. */
  lemma WorldIsFree(s: State, elapsed: nat, table: Table, t: Tid, id: KeyId, version: int)
    requires s.repo != []
    ensures Can(s, Tick(elapsed)) && Do(s, Tick(elapsed)) == s.(clock := s.clock + elapsed)
    ensures Can(s, WriteRepo(table)) && Do(s, WriteRepo(table)) == s.(repo := s.repo + [table])
    ensures t !in s.threads || s.threads[t].Idle? ==>
      && Can(s, StartGet(t, id, version)) && Do(s, StartGet(t, id, version)) == s.(threads := s.threads[t := GetWantMu(id, version)])
      && Can(s, StartInvalidate(t, id)) && Do(s, StartInvalidate(t, id)) == s.(threads := s.threads[t := InvWantIdx(id)])
      && Can(s, StartSweep(t)) && Do(s, StartSweep(t)) == s.(threads := s.threads[t := SweepWantMu])
  {
  }

  /** A lookup under the lock hits exactly when the sequential cache would. */
  lemma HitsAsTheCacheDoes(s: State, t: Tid, pick: string)
    requires s.repo != [] && t in s.threads && s.threads[t].GetHasMu?
    ensures
      var pc := s.threads[t];
      var ck := CacheKey(pc.id, pc.version);
      var items := map k | k in s.items :: TtlCache.Item(s.items[k].key, s.items[k].expiresAt, false);
      var found := TtlCache.Lookup(items, ck, s.clock);
      var s' := DoAct(s, t, pick);
      if found.Some? then |s'.hits| == |s.hits| + 1 && s'.hits[|s.hits|].key == found.value && s'.threads[t].Idle?
      else s'.hits == s.hits && s'.threads[t] == ReadRepo(pc.id, pc.version)
  {
  }

  // ---------------------------------------------------------------- what an invalidation can miss

  /** The keys an invalidation under way has yet to drop. */
  function Pending(pc: Pc): set<string> {
    match pc
    case DelNext(rest) => rest
    case DelWantMu(ck, rest) => rest + {ck}
    case DelHasMu(ck, rest) => rest + {ck}
    case EvictWantIdx(_, _, ForDelete(rest)) => rest
    case EvictHasIdx(_, _, ForDelete(rest)) => rest
    case _ => {}
  }

  /** The step stores an entry under `ck`. */
  predicate IsFill(s: State, step: Step, ck: string) {
    && step.Act? && step.t in s.threads
    && s.threads[step.t].FillHasMu? && CacheKey(s.threads[step.t].id, s.threads[step.t].version) == ck
  }

  ghost predicate Fills(s: State, steps: seq<Step>, ck: string)
    requires CanRun(s, steps)
    decreases |steps|
  {
    steps != [] && (IsFill(s, steps[0], ck) || Fills(Do(s, steps[0]), steps[1..], ck))
  }

  /** An entry that is there is either left to `t` to drop or not there at all. */
  predicate LeftTo(s: State, t: Tid, ck: string) {
    t in s.threads && (ck in s.items ==> ck in Pending(s.threads[t]))
  }

  predicate Unchanged(s: State, s': State, ck: string) {
    ck in s'.items ==> ck in s.items && s'.items[ck] == s.items[ck]
  }

  lemma StepWithoutFill(s: State, step: Step, ck: string)
    requires Can(s, step) && s.repo != [] && !IsFill(s, step, ck)
    ensures Unchanged(s, Do(s, step), ck)
  {
    if step.Act? && ck in Do(s, step).items { NewEntriesAreFilled(s, step.t, step.pick, ck); }
  }

  /** A goroutine drops a key from its list only with the entry. */
  lemma ActKeepsLeft(s: State, t: Tid, pick: string, ck: string)
    requires t in s.threads && CanAct(s, t, pick) && s.repo != [] && LeftTo(s, t, ck) && Pending(s.threads[t]) != {}
    ensures LeftTo(DoAct(s, t, pick), t, ck)
  {
  }

  lemma StepKeepsLeft(s: State, step: Step, t: Tid, ck: string)
    requires Can(s, step) && s.repo != [] && !IsFill(s, step, ck) && LeftTo(s, t, ck)
    ensures LeftTo(Do(s, step), t, ck)
  {
    StepWithoutFill(s, step, ck);
    if step.Act? {
      ActEffect(s, step.t, step.pick);
      if step.t == t && Pending(s.threads[t]) != {} { ActKeepsLeft(s, t, step.pick, ck); }
    }
  }

  lemma {:induction false} RunKeepsLeft(s: State, steps: seq<Step>, t: Tid, ck: string)
    requires CanRun(s, steps) && !Fills(s, steps, ck)
    ensures Unchanged(s, Run(s, steps), ck)
    ensures LeftTo(s, t, ck) ==> LeftTo(Run(s, steps), t, ck)
    decreases |steps|
  {
    if steps != [] {
      StepWithoutFill(s, steps[0], ck);
      if LeftTo(s, t, ck) { StepKeepsLeft(s, steps[0], t, ck); }
      RunKeepsLeft(Do(s, steps[0]), steps[1..], t, ck);
    }
  }

  /** What an invalidation can miss: when it is done, an entry of its key id was either stored after
      the invalidation read the index, or its filler still owed the index insertion at that moment. */
  lemma InvalidationMissesOnlyFills(
    clock: Time, table: Table, before: seq<Step>, t: Tid, pick: string, after: seq<Step>, ck: string)
    requires CanRun(Initial(clock, table), before)
    requires
      var s := Run(Initial(clock, table), before);
      t in s.threads && s.threads[t].InvHasIdx? && CanRun(Do(s, Act(t, pick)), after)
    ensures
      var s := Run(Initial(clock, table), before);
      var read := Do(s, Act(t, pick));
      var end := Run(read, after);
      t in end.threads && Pending(end.threads[t]) == {} && ck in end.items && end.items[ck].id == s.threads[t].id ==>
        Fills(read, after, ck) || (ck in s.items && s.items[ck] == end.items[ck] && OwesIndex(s, s.items[ck]))
  {
    var s := Run(Initial(clock, table), before);
    var read := Do(s, Act(t, pick));
    if !Fills(read, after, ck) {
      RunKeepsLeft(read, after, t, ck);
      if ck in s.items { IndexIsComplete(clock, table, before, ck); }
    }
  }

  // ---------------------------------------------------------------- what readers see after an invalidation

  /** The entry, or what the goroutine is about to store, is an answer about `id` from before the write
      that led to repository state `w`. */
  predicate IsStale(e: Entry, id: KeyId, w: nat) { e.id == id && e.readFrom < w }

  predicate CarriesStale(pc: Pc, id: KeyId, w: nat) { (pc.FillWantMu? || pc.FillHasMu?) && pc.id == id && pc.readFrom < w }

  ghost predicate NobodyCarries(s: State, id: KeyId, w: nat) {
    w < |s.repo| && forall u :: u in s.threads ==> !CarriesStale(s.threads[u], id, w)
  }

  /** Stale entries of `id` are all left to `t` to drop. */
  ghost predicate StaleLeftTo(s: State, t: Tid, id: KeyId, w: nat) {
    t in s.threads && forall ck :: ck in s.items && IsStale(s.items[ck], id, w) ==> ck in Pending(s.threads[t])
  }

  ghost predicate NoneStale(s: State, id: KeyId, w: nat) {
    forall ck :: ck in s.items ==> !IsStale(s.items[ck], id, w)
  }

  /** A goroutine that read before the write has not yet listed what it stores. */
  ghost predicate StaleFillUnderWay(s: State, id: KeyId, w: nat) {
    || (exists u :: u in s.threads && CarriesStale(s.threads[u], id, w))
    || (exists ck :: ck in s.items && IsStale(s.items[ck], id, w) && OwesIndex(s, s.items[ck]))
  }

  /** What a goroutine carries it has just read, or carried before. */
  lemma CarriedIsReadOrKept(s: State, t: Tid, pick: string, id: KeyId, w: nat)
    requires t in s.threads && CanAct(s, t, pick) && w < |s.repo| && !CarriesStale(s.threads[t], id, w)
    ensures !CarriesStale(DoAct(s, t, pick).threads[t], id, w)
  {
  }

  lemma StepKeepsNobodyCarries(s: State, step: Step, id: KeyId, w: nat)
    requires Can(s, step) && NobodyCarries(s, id, w)
    ensures NobodyCarries(Do(s, step), id, w)
  {
    if step.Act? {
      ActEffect(s, step.t, step.pick);
      CarriedIsReadOrKept(s, step.t, step.pick, id, w);
    }
  }

  lemma FilledIsCarried(s: State, t: Tid, pick: string)
    requires t in s.threads && CanAct(s, t, pick) && s.repo != [] && s.threads[t].FillHasMu?
    ensures
      var pc := s.threads[t];
      var ck := CacheKey(pc.id, pc.version);
      ck in DoAct(s, t, pick).items && DoAct(s, t, pick).items[ck].id == pc.id && DoAct(s, t, pick).items[ck].readFrom == pc.readFrom
  {
  }

  /** A stale entry after a step was there before it. */
  lemma StaleIsOld(s: State, step: Step, id: KeyId, w: nat, ck: string)
    requires Can(s, step) && NobodyCarries(s, id, w) && ck in Do(s, step).items && IsStale(Do(s, step).items[ck], id, w)
    ensures ck in s.items && s.items[ck] == Do(s, step).items[ck] && !IsFill(s, step, ck)
  {
    if step.Act? {
      NewEntriesAreFilled(s, step.t, step.pick, ck);
      if s.threads[step.t].FillHasMu? { FilledIsCarried(s, step.t, step.pick); }
    }
  }

  lemma StepKeepsStaleLeft(s: State, step: Step, t: Tid, id: KeyId, w: nat)
    requires Can(s, step) && NobodyCarries(s, id, w) && StaleLeftTo(s, t, id, w)
    ensures StaleLeftTo(Do(s, step), t, id, w)
  {
    var s' := Do(s, step);
    if step.Act? { ActEffect(s, step.t, step.pick); }
    forall ck | ck in s'.items && IsStale(s'.items[ck], id, w) ensures ck in Pending(s'.threads[t]) {
      StaleIsOld(s, step, id, w, ck);
      StepKeepsLeft(s, step, t, ck);
    }
  }

  lemma {:induction false} RunKeepsStaleLeft(s: State, steps: seq<Step>, t: Tid, id: KeyId, w: nat)
    requires CanRun(s, steps) && NobodyCarries(s, id, w) && StaleLeftTo(s, t, id, w)
    ensures NobodyCarries(Run(s, steps), id, w) && StaleLeftTo(Run(s, steps), t, id, w)
    decreases |steps|
  {
    if steps != [] {
      StepKeepsNobodyCarries(s, steps[0], id, w);
      StepKeepsStaleLeft(s, steps[0], t, id, w);
      RunKeepsStaleLeft(Do(s, steps[0]), steps[1..], t, id, w);
    }
  }

  ghost predicate NewHitsAreFresh(s: State, s': State, id: KeyId, w: nat) {
    && s.hits <= s'.hits
    && forall i :: |s.hits| <= i < |s'.hits| && s'.hits[i].id == id ==> s'.hits[i].readFrom >= w
  }

  lemma StepHitsAreFresh(s: State, step: Step, id: KeyId, w: nat)
    requires Inv(s) && Can(s, step) && NobodyCarries(s, id, w) && NoneStale(s, id, w)
    ensures NewHitsAreFresh(s, Do(s, step), id, w) && NoneStale(Do(s, step), id, w)
  {
    var s' := Do(s, step);
    forall ck | ck in s'.items ensures !IsStale(s'.items[ck], id, w) {
      if IsStale(s'.items[ck], id, w) { StaleIsOld(s, step, id, w, ck); }
    }
    if step.Act? {
      HitsComeFromEntries(s, step.t, step.pick);
      var pc := s.threads[step.t];
      if pc.GetHasMu? && Live(s, CacheKey(pc.id, pc.version)) {
        var ck := CacheKey(pc.id, pc.version);
        assert EntryOk(s, ck);
        CacheKeyInjective(pc.id, pc.version, s.items[ck].id, s.items[ck].version);
      }
    }
  }

  lemma FreshHitsAddUp(a: State, b: State, c: State, id: KeyId, w: nat)
    requires NewHitsAreFresh(a, b, id, w) && NewHitsAreFresh(b, c, id, w)
    ensures NewHitsAreFresh(a, c, id, w)
  {
    forall i | |a.hits| <= i < |c.hits| && c.hits[i].id == id ensures c.hits[i].readFrom >= w {
      if i < |b.hits| { assert b.hits[i] == c.hits[i]; }
    }
  }

  lemma {:induction false} RunHitsAreFresh(s: State, steps: seq<Step>, id: KeyId, w: nat)
    requires Inv(s) && CanRun(s, steps) && NobodyCarries(s, id, w) && NoneStale(s, id, w)
    ensures NewHitsAreFresh(s, Run(s, steps), id, w)
    decreases |steps|
  {
    if steps != [] {
      StepKeepsInv(s, steps[0]);
      StepKeepsNobodyCarries(s, steps[0], id, w);
      StepHitsAreFresh(s, steps[0], id, w);
      RunHitsAreFresh(Do(s, steps[0]), steps[1..], id, w);
      FreshHitsAddUp(s, Do(s, steps[0]), Run(s, steps), id, w);
    }
  }

  /** Reading the index hands every stale entry that is listed to the invalidation. */
  lemma IndexReadTakesStale(s: State, t: Tid, pick: string, w: nat)
    requires Inv(s) && t in s.threads && s.threads[t].InvHasIdx? && !StaleFillUnderWay(s, s.threads[t].id, w)
    ensures StaleLeftTo(Do(s, Act(t, pick)), t, s.threads[t].id, w)
  {
    var id := s.threads[t].id;
    forall ck | ck in s.items && IsStale(s.items[ck], id, w) ensures Listed(s.index, id, ck) { assert EntryOk(s, ck); }
  }

  /** After the invalidation that follows a write, readers of that id see the write: if, when the
      invalidation read the index, no goroutine that had read the repository before the write was still
      storing or listing its answer, then from the moment the invalidation is done every hit on the id,
      in every interleaving, stems from the written state or a later one.  So a hit older than the write
      stems from such a goroutine. */
  lemma HitsAfterInvalidationAreFresh(
    clock: Time, table: Table, before: seq<Step>, t: Tid, pick: string, during: seq<Step>, after: seq<Step>, w: nat)
    requires CanRun(Initial(clock, table), before)
    requires
      var s := Run(Initial(clock, table), before);
      && w < |s.repo| && t in s.threads && s.threads[t].InvHasIdx? && !StaleFillUnderWay(s, s.threads[t].id, w)
      && CanRun(Do(s, Act(t, pick)), during)
      && var done := Run(Do(s, Act(t, pick)), during);
      t in done.threads && Pending(done.threads[t]) == {} && CanRun(done, after)
    ensures
      var s := Run(Initial(clock, table), before);
      var done := Run(Do(s, Act(t, pick)), during);
      NewHitsAreFresh(done, Run(done, after), s.threads[t].id, w)
  {
    var s := Run(Initial(clock, table), before);
    var id := s.threads[t].id;
    RunKeepsInv(Initial(clock, table), before);
    IndexReadTakesStale(s, t, pick, w);
    StepKeepsNobodyCarries(s, Act(t, pick), id, w);
    var read := Do(s, Act(t, pick));
    StepKeepsInv(s, Act(t, pick));
    RunKeepsInv(read, during);
    RunKeepsStaleLeft(read, during, t, id, w);
    var done := Run(read, during);
    assert NoneStale(done, id, w);
    RunHitsAreFresh(done, after, id, w);
  }

  // ---------------------------------------------------------------- what leaves the cache

  /** The keys a sweep under way has yet to look at. */
  function ToSweep(pc: Pc): set<string> {
    match pc
    case SweepHasMu(_, rest) => rest
    case EvictWantIdx(_, _, ForSweep(_, rest)) => rest
    case EvictHasIdx(_, _, ForSweep(_, rest)) => rest
    case _ => {}
  }

  /** The clock reading of a sweep under way. */
  function SweepTime(pc: Pc): Option<Time> {
    match pc
    case SweepHasMu(now, _) => Some(now)
    case EvictWantIdx(_, _, ForSweep(now, _)) => Some(now)
    case EvictHasIdx(_, _, ForSweep(now, _)) => Some(now)
    case _ => None
  }

  /** No entry under `ck` had expired by `now`, or the sweep that read `now` will come to it. */
  predicate SweepLeft(s: State, t: Tid, now: Time, ck: string) {
    && t in s.threads
    && (ck in s.items && now > s.items[ck].expiresAt ==> ck in ToSweep(s.threads[t]) && SweepTime(s.threads[t]) == Some(now))
  }

  lemma ActKeepsSweepLeft(s: State, t: Tid, pick: string, now: Time, ck: string)
    requires t in s.threads && CanAct(s, t, pick) && s.repo != [] && SweepLeft(s, t, now, ck) && ToSweep(s.threads[t]) != {}
    ensures SweepLeft(DoAct(s, t, pick), t, now, ck)
  {
  }

  lemma StepKeepsSweepLeft(s: State, step: Step, t: Tid, now: Time, ck: string)
    requires Can(s, step) && s.repo != [] && !IsFill(s, step, ck) && SweepLeft(s, t, now, ck)
    ensures SweepLeft(Do(s, step), t, now, ck)
  {
    StepWithoutFill(s, step, ck);
    if step.Act? {
      ActEffect(s, step.t, step.pick);
      if step.t == t && ToSweep(s.threads[t]) != {} { ActKeepsSweepLeft(s, t, step.pick, now, ck); }
    }
  }

  lemma {:induction false} RunKeepsSweepLeft(s: State, steps: seq<Step>, t: Tid, now: Time, ck: string)
    requires CanRun(s, steps) && !Fills(s, steps, ck) && SweepLeft(s, t, now, ck)
    ensures SweepLeft(Run(s, steps), t, now, ck)
    decreases |steps|
  {
    if steps != [] {
      StepKeepsSweepLeft(s, steps[0], t, now, ck);
      RunKeepsSweepLeft(Do(s, steps[0]), steps[1..], t, now, ck);
    }
  }

  /** When a sweep is done, every entry that had expired when it took the lock is gone, unless its key has
      been filled again since. */
  lemma SweepDropsExpired(s: State, t: Tid, pick: string, during: seq<Step>, ck: string)
    requires s.repo != [] && t in s.threads && s.threads[t].SweepWantMu? && CanAct(s, t, pick)
    requires CanRun(Do(s, Act(t, pick)), during) && !Fills(Do(s, Act(t, pick)), during, ck)
    ensures
      var end := Run(Do(s, Act(t, pick)), during);
      && t in end.threads
      && (ToSweep(end.threads[t]) == {} && ck in end.items ==> s.clock <= end.items[ck].expiresAt)
  {
    RunKeepsSweepLeft(Do(s, Act(t, pick)), during, t, s.clock, ck);
  }

  /** Sweeps under way read the clock before now. */
  ghost predicate SweepsAreDated(s: State) {
    forall t :: t in s.threads && SweepTime(s.threads[t]).Some? ==> SweepTime(s.threads[t]).value <= s.clock
  }

  lemma ActKeepsDate(s: State, t: Tid, pick: string)
    requires t in s.threads && CanAct(s, t, pick) && s.repo != []
    requires SweepTime(s.threads[t]).Some? ==> SweepTime(s.threads[t]).value <= s.clock
    ensures
      var pc := DoAct(s, t, pick).threads[t];
      SweepTime(pc).Some? ==> SweepTime(pc).value <= s.clock
  {
  }

  lemma {:induction false} RunKeepsDates(s: State, steps: seq<Step>)
    requires CanRun(s, steps) && SweepsAreDated(s)
    ensures SweepsAreDated(Run(s, steps))
    decreases |steps|
  {
    if steps != [] {
      if steps[0].Act? {
        ActEffect(s, steps[0].t, steps[0].pick);
        ActKeepsDate(s, steps[0].t, steps[0].pick);
      }
      RunKeepsDates(Do(s, steps[0]), steps[1..]);
    }
  }

  /** Who removes an entry: a goroutine deleting that very key, or a sweep that finds it expired. */
  lemma RemovedBy(s: State, t: Tid, pick: string, ck: string)
    requires t in s.threads && CanAct(s, t, pick) && s.repo != [] && ck in s.items && ck !in DoAct(s, t, pick).items
    ensures
      var pc := s.threads[t];
      (pc.DelHasMu? && pc.ck == ck) || (pc.SweepHasMu? && pick == ck && pc.now > s.items[ck].expiresAt)
  {
  }

  /** In every run an entry that could still be hit leaves the cache only by a deletion of its key: sweeps drop
      dead entries only. */
  lemma LiveEntriesAreOnlyDeleted(clock: Time, table: Table, steps: seq<Step>, step: Step, ck: string)
    requires CanRun(Initial(clock, table), steps) && Can(Run(Initial(clock, table), steps), step)
    ensures
      var s := Run(Initial(clock, table), steps);
      ck in s.items && ck !in Do(s, step).items && Live(s, ck) ==>
        step.Act? && s.threads[step.t].DelHasMu? && s.threads[step.t].ck == ck
  {
    var s := Run(Initial(clock, table), steps);
    RunKeepsDates(Initial(clock, table), steps);
    if step.Act? && ck in s.items && ck !in Do(s, step).items { RemovedBy(s, step.t, step.pick, ck); }
  }

  ghost predicate IsKeyOf(id: KeyId, ck: string) { exists v: int :: ck == CacheKey(id, v) }

  /** The index lists under an id only cache keys of that id. */
  ghost predicate IndexKeyed(index: Index) {
    forall id: KeyId, ck :: Listed(index, id, ck) ==> IsKeyOf(id, ck)
  }

  lemma {:induction false} RunKeepsKeyed(s: State, steps: seq<Step>)
    requires CanRun(s, steps) && IndexKeyed(s.index)
    ensures IndexKeyed(Run(s, steps).index)
    decreases |steps|
  {
    if steps != [] {
      if steps[0].Act? { ActKeepsKeyed(s, steps[0].t, steps[0].pick); }
      RunKeepsKeyed(Do(s, steps[0]), steps[1..]);
    }
  }

  lemma ActKeepsKeyed(s: State, t: Tid, pick: string)
    requires t in s.threads && CanAct(s, t, pick) && s.repo != [] && IndexKeyed(s.index)
    ensures IndexKeyed(DoAct(s, t, pick).index)
  {
    var index := DoAct(s, t, pick).index;
    ActEffect(s, t, pick);
    forall id: KeyId, ck | Listed(index, id, ck) ensures IsKeyOf(id, ck) {
      var pc := s.threads[t];
      if !Listed(s.index, id, ck) { assert id == pc.id && ck == CacheKey(pc.id, pc.version); }
    }
  }

  /** An invalidation takes on exactly what the index lists under its id, and that is cache keys of that id
      only: it never drops an entry of another. */
  lemma InvalidationTakesItsOwn(clock: Time, table: Table, steps: seq<Step>, t: Tid, pick: string, ck: string)
    requires CanRun(Initial(clock, table), steps)
    requires var s := Run(Initial(clock, table), steps); t in s.threads && s.threads[t].InvHasIdx?
    ensures
      var s := Run(Initial(clock, table), steps);
      var id := s.threads[t].id;
      && (ck in Pending(Do(s, Act(t, pick)).threads[t]) <==> Listed(s.index, id, ck))
      && (Listed(s.index, id, ck) ==> IsKeyOf(id, ck) && (ck in s.items ==> s.items[ck].id == id))
  {
    var s := Run(Initial(clock, table), steps);
    var id := s.threads[t].id;
    RunKeepsKeyed(Initial(clock, table), steps);
    RunKeepsInv(Initial(clock, table), steps);
    if Listed(s.index, id, ck) && ck in s.items {
      assert EntryOk(s, ck);
      var v: int :| ck == CacheKey(id, v);
      CacheKeyInjective(id, v, s.items[ck].id, s.items[ck].version);
    }
  }

  // ---------------------------------------------------------------- a racing fill

  lemma Before(s: State, step: Step, rest: seq<Step>) returns (steps: seq<Step>)
    requires s.repo != [] && Can(s, step) && CanRun(Do(s, step), rest)
    ensures CanRun(s, steps) && Run(s, steps) == Run(Do(s, step), rest)
  {
    steps := [step] + rest;
    assert steps[1..] == rest;
  }

  /** Goroutine 1 has read the key, the repository has changed, and goroutine 2 is about to read the index. */
  function Racing(clock: Time, table: Table, table': Table, key: Key): State {
    State(clock, [table, table'], map[], map[], map[1 := FillWantMu(key.id, 0, key, 0), 2 := InvHasIdx(key.id)], [])
  }

  /** Goroutine 1 has read the key and has not stored it. */
  function Carrying(clock: Time, table: Table, key: Key): State {
    State(clock, [table], map[], map[], map[1 := FillWantMu(key.id, 0, key, 0)], [])
  }

  lemma WriteOvertakes(clock: Time, table: Table, table': Table, key: Key) returns (steps: seq<Step>)
    ensures CanRun(Carrying(clock, table, key), steps)
    ensures Run(Carrying(clock, table, key), steps) == Racing(clock, table, table', key)
  {
    var s0 := Carrying(clock, table, key);
    var s1 := Do(s0, WriteRepo(table'));
    var s2 := Do(s1, StartInvalidate(2, key.id));
    assert Do(s2, Act(2, "")) == Racing(clock, table, table', key);
    var r2 := Before(s2, Act(2, ""), []);
    var r1 := Before(s1, StartInvalidate(2, key.id), r2);
    steps := Before(s0, WriteRepo(table'), r1);
  }

  lemma RaceBegins(clock: Time, table: Table, table': Table, key: Key) returns (steps: seq<Step>)
    requires GetKey(table, key.id) == Ok(key)
    ensures CanRun(Initial(clock, table), steps) && Run(Initial(clock, table), steps) == Racing(clock, table, table', key)
  {
    var s0 := Initial(clock, table);
    var s1 := Do(s0, StartGet(1, key.id, 0));
    var s2 := Do(s1, Act(1, ""));
    var s3 := Do(s2, Act(1, ""));
    assert Do(s3, Act(1, "")) == Carrying(clock, table, key);
    var rest := WriteOvertakes(clock, table, table', key);
    var r3 := Before(s3, Act(1, ""), rest);
    var r2 := Before(s2, Act(1, ""), r3);
    var r1 := Before(s1, Act(1, ""), r2);
    steps := Before(s0, StartGet(1, key.id, 0), r1);
  }

  /** Goroutine 2 is done, and goroutine 1 goes on. */
  function Dropped(clock: Time, table: Table, table': Table, key: Key): State {
    Racing(clock, table, table', key).(threads := map[1 := FillWantMu(key.id, 0, key, 0), 2 := Idle])
  }

  /** Goroutine 1 has stored the old answer. */
  function Stored(clock: Time, table: Table, table': Table, key: Key): State {
    State(clock, [table, table'], map[CacheKey(key.id, 0) := Entry(key.id, 0, key, clock + CACHE_TTL, 1, 0, clock)], map[],
          map[1 := FillWantIdx(key.id, 0), 2 := Idle], [])
  }

  lemma ThirdIsServed(clock: Time, table: Table, table': Table, key: Key) returns (steps: seq<Step>)
    ensures CanRun(Stored(clock, table, table', key), steps)
    ensures Run(Stored(clock, table, table', key), steps).hits == [Hit(key.id, 0, key, clock, 0, clock)]
  {
    var s0 := Stored(clock, table, table', key);
    var s1 := Do(s0, StartGet(3, key.id, 0));
    var s2 := Do(s1, Act(3, ""));
    var r2 := Before(s2, Act(3, ""), []);
    var r1 := Before(s1, Act(3, ""), r2);
    steps := Before(s0, StartGet(3, key.id, 0), r1);
  }

  lemma RaceEnds(clock: Time, table: Table, table': Table, key: Key) returns (steps: seq<Step>)
    ensures CanRun(Dropped(clock, table, table', key), steps)
    ensures Run(Dropped(clock, table, table', key), steps).hits == [Hit(key.id, 0, key, clock, 0, clock)]
  {
    var s0 := Dropped(clock, table, table', key);
    var s1 := Do(s0, Act(1, ""));
    assert Do(s1, Act(1, "")) == Stored(clock, table, table', key);
    var rest := ThirdIsServed(clock, table, table', key);
    var r1 := Before(s1, Act(1, ""), rest);
    steps := Before(s0, Act(1, ""), r1);
  }

  /** The exception is real: for any key and any write there is a run in which a goroutine reads before
      the write and stores after the invalidation is done, so that a third is given the old answer. */
  lemma RacingFillIsServed(clock: Time, table: Table, table': Table, key: Key)
    returns (before: seq<Step>, during: seq<Step>, after: seq<Step>)
    requires GetKey(table, key.id) == Ok(key)
    ensures CanRun(Initial(clock, table), before)
    ensures
      var s := Run(Initial(clock, table), before);
      && s.repo == [table, table'] && 2 in s.threads && s.threads[2] == InvHasIdx(key.id)
      && StaleFillUnderWay(s, key.id, 1) && CanRun(Do(s, Act(2, "")), during)
      && var done := Run(Do(s, Act(2, "")), during);
      && done.hits == [] && 2 in done.threads && done.threads[2].Idle? && CanRun(done, after)
      && Run(done, after).hits == [Hit(key.id, 0, key, clock, 0, clock)]
  {
    before := RaceBegins(clock, table, table', key);
    var s := Racing(clock, table, table', key);
    assert 1 in s.threads && CarriesStale(s.threads[1], key.id, 1);
    var read := Do(s, Act(2, ""));
    assert Do(read, Act(2, "")) == Dropped(clock, table, table', key);
    during := Before(read, Act(2, ""), []);
    after := RaceEnds(clock, table, table', key);
  }

  // ---------------------------------------------------------------- progress

  /** Steps a goroutine has left, at most, if nobody else moves. */
  function StepsLeft(s: State, pc: Pc): nat {
    match pc
    case Idle => 0
    case GetWantMu(_, _) => 7
    case GetHasMu(_, _) => 6
    case ReadRepo(_, _) => 5
    case FillWantMu(_, _, _, _) => 4
    case FillHasMu(_, _, _, _) => 3
    case FillWantIdx(_, _) => 2
    case FillHasIdx(_, _) => 1
    case InvWantIdx(id) => 5 * (if id in s.index then |s.index[id]| else 0) + 3
    case InvHasIdx(id) => 5 * (if id in s.index then |s.index[id]| else 0) + 2
    case DelNext(rest) => 5 * |rest| + 1
    case DelWantMu(_, rest) => 5 * |rest| + 5
    case DelHasMu(_, rest) => 5 * |rest| + 4
    case SweepWantMu => 3 * |s.items.Keys| + 2
    case SweepHasMu(_, rest) => 3 * |rest| + 1
    case EvictWantIdx(_, _, ForDelete(rest)) => 5 * |rest| + 3
    case EvictHasIdx(_, _, ForDelete(rest)) => 5 * |rest| + 2
    case EvictWantIdx(_, _, ForSweep(_, rest)) => 3 * |rest| + 3
    case EvictHasIdx(_, _, ForSweep(_, rest)) => 3 * |rest| + 2
  }

  lemma GetProgresses(s: State, t: Tid, pick: string)
    requires t in s.threads && CanAct(s, t, pick) && s.repo != []
    requires
      var pc := s.threads[t];
      pc.GetWantMu? || pc.GetHasMu? || pc.ReadRepo? || pc.FillWantMu? || pc.FillHasMu? || pc.FillWantIdx? || pc.FillHasIdx?
    ensures StepsLeft(DoAct(s, t, pick), DoAct(s, t, pick).threads[t]) < StepsLeft(s, s.threads[t])
  {
  }

  lemma IndexReadProgresses(s: State, t: Tid, pick: string)
    requires t in s.threads && CanAct(s, t, pick) && s.repo != []
    requires var pc := s.threads[t]; pc.InvWantIdx? || pc.InvHasIdx?
    ensures StepsLeft(DoAct(s, t, pick), DoAct(s, t, pick).threads[t]) < StepsLeft(s, s.threads[t])
  {
  }

  lemma DeletionProgresses(s: State, t: Tid, pick: string)
    requires t in s.threads && CanAct(s, t, pick) && s.repo != []
    requires var pc := s.threads[t]; pc.DelNext? || pc.DelWantMu? || pc.DelHasMu?
    ensures StepsLeft(DoAct(s, t, pick), DoAct(s, t, pick).threads[t]) < StepsLeft(s, s.threads[t])
  {
  }

  lemma SweepProgresses(s: State, t: Tid, pick: string)
    requires t in s.threads && CanAct(s, t, pick) && s.repo != []
    requires var pc := s.threads[t]; pc.SweepWantMu? || pc.SweepHasMu?
    ensures StepsLeft(DoAct(s, t, pick), DoAct(s, t, pick).threads[t]) < StepsLeft(s, s.threads[t])
  {
  }

  lemma EvictionProgresses(s: State, t: Tid, pick: string)
    requires t in s.threads && CanAct(s, t, pick) && s.repo != []
    requires var pc := s.threads[t]; pc.EvictWantIdx? || pc.EvictHasIdx?
    ensures StepsLeft(DoAct(s, t, pick), DoAct(s, t, pick).threads[t]) < StepsLeft(s, s.threads[t])
  {
  }

  /** Every step brings the goroutine that takes it nearer to its end, so together with the absence of deadlock
      every read, invalidation and sweep comes to an end. */
  lemma ActProgresses(s: State, t: Tid, pick: string)
    requires t in s.threads && CanAct(s, t, pick) && s.repo != []
    ensures StepsLeft(DoAct(s, t, pick), DoAct(s, t, pick).threads[t]) < StepsLeft(s, s.threads[t])
  {
    var pc := s.threads[t];
    if pc.InvWantIdx? || pc.InvHasIdx? { IndexReadProgresses(s, t, pick); }
    else if pc.DelNext? || pc.DelWantMu? || pc.DelHasMu? { DeletionProgresses(s, t, pick); }
    else if pc.SweepWantMu? || pc.SweepHasMu? { SweepProgresses(s, t, pick); }
    else if pc.EvictWantIdx? || pc.EvictHasIdx? { EvictionProgresses(s, t, pick); }
    else { GetProgresses(s, t, pick); }
  }

  /** Nobody waits for the cache lock while holding the index lock, and so the two locks cannot
      deadlock: whenever some goroutine is under way, some goroutine can take its next step. */
  lemma LocksDoNotDeadlock(s: State)
    requires exists t :: t in s.threads && !s.threads[t].Idle?
    ensures forall t :: t in s.threads && (HoldsIdxRead(s.threads[t]) || HoldsIdxWrite(s.threads[t])) ==> !WantsMu(s.threads[t])
    ensures exists t, pick :: t in s.threads && CanAct(s, t, pick)
  {
    if t :| t in s.threads && (HoldsIdxRead(s.threads[t]) || HoldsIdxWrite(s.threads[t])) {
      assert CanAct(s, t, "");
    } else if t :| t in s.threads && WantsIdx(s.threads[t]) {
      assert IdxFree(s);
      assert CanAct(s, t, "");
    } else if t :| t in s.threads && (HoldsMuRead(s.threads[t]) || HoldsMuWrite(s.threads[t])) {
      StepsWithPick(s, t);
    } else {
      var t :| t in s.threads && !s.threads[t].Idle?;
      assert MuFree(s);
      StepsWithPick(s, t);
    }
  }

  /** A goroutine that is not waiting for a lock someone holds can step, with a suitable choice of
      the next key to drop. */
  lemma StepsWithPick(s: State, t: Tid)
    requires t in s.threads && !s.threads[t].Idle? && !WantsIdx(s.threads[t])
    requires WantsMu(s.threads[t]) ==> MuFree(s)
    ensures exists pick :: CanAct(s, t, pick)
  {
    var pc := s.threads[t];
    if (pc.DelNext? || pc.SweepHasMu?) && pc.rest != {} {
      var pick :| pick in pc.rest;
      assert CanAct(s, t, pick);
    } else {
      assert CanAct(s, t, "");
    }
  }
}
