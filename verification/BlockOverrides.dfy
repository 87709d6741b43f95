/** Local block decisions that outlast storage syncs (internal/signal/meow_contacts.go). */
module BlockOverrides {
  import opened Wrappers
  import opened BlockedLists
  import opened StorageSnapshots
  import Sorting

  const NS_PER_MS := 1_000_000

  /** BlockOverrideTTL, seven days, in nanoseconds. */
  const TTL: nat := 7 * 24 * 3600 * 1_000_000_000

  /** An override: the decision, when it was made (whole milliseconds, in ns) and the storage
      service's manifest version it was made against. */
  datatype Override = Override(blocked: bool, setAt: nat, version: nat)

  datatype BlockTarget = BlockTarget(aci: Uuid, number: string)

  datatype GuardKind = GuardAci | GuardPni | GuardAccount

  /** A privacy guard of an imported account; value is its effective blocked state. */
  datatype PrivacyGuard = PrivacyGuard(kind: GuardKind, id: Uuid, isProtected: bool, blockedField: bool, value: bool)

  /** The stored overrides, the users whose stored flag says blocked, and the privacy guards. */
  datatype BlockState = BlockState(overrides: map<Uuid, Override>, flags: set<Uuid>, guards: seq<PrivacyGuard>)

  /** The numbers the recipient store has for users, and the PNIs it fails to look up. */
  datatype Env = Env(byAci: map<Uuid, string>, byPni: map<Uuid, string>, pniFails: set<Uuid>)

  function Millis(ns: nat): nat {
    ns / NS_PER_MS
  }

  predicate Expired(override: Override, now: nat) {
    now - override.setAt > TTL
  }

  predicate Superseded(override: Override, seen: Option<SnapshotValue>) {
    seen.Some? && override.version < seen.value.version
  }

  function StateIn(seen: Option<SnapshotValue>, aci: Uuid): Option<bool> {
    if seen.None? then None else seen.value.State(aci)
  }

  /** The blocked state shown for a user: an unexpired override, else the stored flag. */
  predicate Shown(st: BlockState, aci: Uuid, now: nat) {
    if aci in st.overrides && !Expired(st.overrides[aci], now) then st.overrides[aci].blocked else aci in st.flags
  }

  function KnownNumber(env: Env, aci: Uuid, number: string): string {
    if number != "" then number else if aci in env.byAci then env.byAci[aci] else ""
  }

  // ----- The list sent -----

  function SetPni(list: ListValue, env: Env, pni: Uuid, blocked: bool): Result<ListValue, BlockError> {
    var number := if pni in env.byPni then env.byPni[pni] else "";
    if pni in env.pniFails then Err(LookupFailed)
    else if number == "" then
      if blocked then Err(ListIncomplete) else Ok(list)
    else if blocked then
      Ok(if number in list.numbers then list else list.(numbers := list.numbers[number := 0]))
    else
      Ok(list.(numbers := list.numbers - {number}))
  }

  predicate Protects(guard: PrivacyGuard) {
    guard.isProtected && guard.blockedField
  }

  function Protect(list: ListValue, env: Env, guard: PrivacyGuard, now: nat): Result<ListValue, BlockError> {
    match guard.kind
    case GuardAci =>
      Ok(if list.IsBlocked(guard.id) != guard.value
         then list.Set(guard.id, KnownNumber(env, guard.id, ""), guard.value, Millis(now)) else list)
    case GuardPni => SetPni(list, env, guard.id, guard.value)
    case GuardAccount => Ok(list)
  }

  function ProtectAll(list: ListValue, env: Env, guards: seq<PrivacyGuard>, now: nat): Result<ListValue, BlockError> {
    if guards == [] then Ok(list)
    else
      var before := ProtectAll(list, env, guards[..|guards| - 1], now);
      var guard := guards[|guards| - 1];
      if before.Err? || !Protects(guard) then before else Protect(before.value, env, guard, now)
  }

  predicate Pending(override: Override, seen: SnapshotValue, now: nat) {
    !Expired(override, now) && !Superseded(override, Some(seen))
  }

  function WithPending(
    list: ListValue, overrides: map<Uuid, Override>, order: seq<Uuid>, env: Env, seen: SnapshotValue, now: nat): ListValue
    requires forall u :: u in order ==> u in overrides
  {
    if order == [] then list
    else
      var aci := order[|order| - 1];
      var before := WithPending(list, overrides, order[..|order| - 1], env, seen, now);
      var override := overrides[aci];
      if !Pending(override, seen, now) || before.IsBlocked(aci) == override.blocked then before
      else before.Set(aci, KnownNumber(env, aci, ""), override.blocked, Millis(override.setAt))
  }

  function WithTargets(list: ListValue, targets: seq<BlockTarget>, env: Env, blocked: bool, now: nat): ListValue {
    if targets == [] then list
    else
      var target := targets[|targets| - 1];
      WithTargets(list, targets[..|targets| - 1], env, blocked, now)
        .Set(target.aci, KnownNumber(env, target.aci, target.number), blocked, Millis(now))
  }

  /** The overridden users in the order the store lists them. */
  ghost function Order(overrides: map<Uuid, Override>): (order: seq<Uuid>)
    ensures Sorting.Ascending(Sorting.NatLess, order) && Sorting.Elements(order) == overrides.Keys
    ensures forall u :: u in order <==> u in overrides
  {
    Sorting.NatLessIsStrictOrder();
    var order := Sorting.Sorted(Sorting.NatLess, overrides.Keys);
    assert forall u :: u in order <==> u in Sorting.Elements(order);
    order
  }

  /** The blocked list with the protected decisions and then the pending overrides applied. */
  ghost function PendingList(st: BlockState, env: Env, seen: SnapshotValue, now: nat): Result<ListValue, BlockError> {
    var guarded := ProtectAll(seen.list, env, st.guards, now);
    if guarded.Err? then guarded
    else Ok(WithPending(guarded.value, st.overrides, Order(st.overrides), env, seen, now))
  }

  /** The list SetBlocked sends. */
  ghost function SentList(
    st: BlockState, env: Env, seen: SnapshotValue, targets: seq<BlockTarget>, blocked: bool, now: nat
  ): Result<ListValue, BlockError> {
    var pending := PendingList(st, env, seen, now);
    if pending.Err? then pending else Ok(WithTargets(pending.value, targets, env, blocked, now))
  }

  // ----- The store -----

  function WithFlag(flags: set<Uuid>, aci: Uuid, blocked: bool): set<Uuid> {
    if blocked then flags + {aci} else flags - {aci}
  }

  /** The protected decision on a user, if any. */
  function GuardState(guards: seq<PrivacyGuard>, aci: Uuid): Option<bool> {
    if guards == [] then None
    else
      var guard := guards[|guards| - 1];
      if Protects(guard) && guard.kind == GuardAci && guard.id == aci then Some(guard.value)
      else GuardState(guards[..|guards| - 1], aci)
  }

  /** A user's flag after writing it: nothing is written if it is the same, and a row that is written
      gets the protected value. */
  function Effective(flags: set<Uuid>, guards: seq<PrivacyGuard>, aci: Uuid, blocked: bool): bool {
    if (aci in flags) == blocked || GuardState(guards, aci).None? then blocked else GuardState(guards, aci).value
  }

  /** The guards after a local command on a user: an existing one is armed again with the new value. */
  function Rearmed(guards: seq<PrivacyGuard>, aci: Uuid, blocked: bool): seq<PrivacyGuard> {
    seq(|guards|, i requires 0 <= i < |guards| =>
      if guards[i].kind == GuardAci && guards[i].id == aci && guards[i].blockedField
      then guards[i].(isProtected := true, value := blocked) else guards[i])
  }

  /** The store after recording the change for some targets. */
  function Recorded(st: BlockState, seen: SnapshotValue, targets: seq<BlockTarget>, blocked: bool, now: nat): BlockState {
    if targets == [] then st
    else
      var before := Recorded(st, seen, targets[..|targets| - 1], blocked, now);
      var aci := targets[|targets| - 1].aci;
      BlockState(
        if seen.list.IsBlocked(aci) == blocked then before.overrides - {aci}
        else before.overrides[aci := Override(blocked, Millis(now) * NS_PER_MS, seen.version)],
        WithFlag(before.flags, aci, blocked),
        Rearmed(before.guards, aci, blocked))
  }

  /** Whether settling against seen drops an override. */
  predicate Drops(override: Override, aci: Uuid, seen: Option<SnapshotValue>, now: nat) {
    Expired(override, now) || (Superseded(override, seen) && StateIn(seen, aci).Some?)
  }

  /** The flag settling writes for an overridden user, if any: what seen knows once the override is
      over, the override's value while nothing newer was seen, and nothing in between. */
  function SettledFlag(override: Override, aci: Uuid, seen: Option<SnapshotValue>, now: nat): Option<bool> {
    if Drops(override, aci, seen, now) then StateIn(seen, aci)
    else if Superseded(override, seen) then None
    else Some(override.blocked)
  }

  /** The store after settling the overrides of the users in done. */
  function SettledOn(st: BlockState, done: set<Uuid>, seen: Option<SnapshotValue>, now: nat): BlockState {
    var written := map u | u in done && u in st.overrides && SettledFlag(st.overrides[u], u, seen, now).Some?
                     :: Effective(st.flags, st.guards, u, SettledFlag(st.overrides[u], u, seen, now).value);
    BlockState(
      map u | u in st.overrides && !(u in done && Drops(st.overrides[u], u, seen, now)) :: st.overrides[u],
      (set u | u in st.flags && u !in written) + (set u | u in written && written[u]),
      st.guards)
  }

  /** The store after settling one override. */
  function SettledOne(st: BlockState, aci: Uuid, override: Override, seen: Option<SnapshotValue>, now: nat): BlockState {
    var flag := SettledFlag(override, aci, seen, now);
    BlockState(
      if Drops(override, aci, seen, now) then st.overrides - {aci} else st.overrides,
      if flag.Some? then WithFlag(st.flags, aci, Effective(st.flags, st.guards, aci, flag.value)) else st.flags,
      st.guards)
  }

  /** The store after settling some of the overrides one after another. */
  function SettledAlong(st: BlockState, order: seq<Uuid>, seen: Option<SnapshotValue>, now: nat): BlockState
    requires forall u :: u in order ==> u in st.overrides
  {
    if order == [] then st
    else
      var aci := order[|order| - 1];
      SettledOne(SettledAlong(st, order[..|order| - 1], seen, now), aci, st.overrides[aci], seen, now)
  }

  /** The store after settling all overrides. */
  function Settled(st: BlockState, seen: Option<SnapshotValue>, now: nat): BlockState {
    SettledOn(st, st.overrides.Keys, seen, now)
  }

  /** The store after a successful SetBlocked. */
  function Applied(st: BlockState, seen: SnapshotValue, targets: seq<BlockTarget>, blocked: bool, now: nat): BlockState {
    Settled(Recorded(st, seen, targets, blocked, now), Some(seen), now)
  }

  // ----- The background check -----

  const MAX_VERSION: nat := 0xFFFF_FFFF_FFFF_FFFF

  /** An answer of the storage service to the question whether its manifest still has a version. */
  datatype FetchAnswer = FetchFailed | NoContent | Content(update: StorageUpdate)

  function AnswerSnapshot(answer: FetchAnswer, since: nat): Option<SnapshotValue> {
    match answer
    case FetchFailed => None
    case NoContent => Some(SnapshotValue(since, EMPTY_LIST, {}, false, None))
    case Content(update) => Some(ReadUpdate(update))
  }

  /** since is the version the background check asks about: the least one of the overrides. */
  ghost predicate IsLeastVersion(since: nat, overrides: map<Uuid, Override>) {
    && (forall u :: u in overrides ==> since <= overrides[u].version)
    && (since == MAX_VERSION || exists u :: u in overrides && overrides[u].version == since)
  }

  /** The account's data: block overrides and the recipient store. */
  class Client {
    var overrides: map<Uuid, Override>
    var flags: set<Uuid>
    var guards: seq<PrivacyGuard>
    const env: Env

    ghost function State(): BlockState
      reads this
    {
      BlockState(overrides, flags, guards)
    }

    constructor (env: Env, guards: seq<PrivacyGuard>)
      ensures this.env == env && State() == BlockState(map[], {}, guards)
    {
      this.env, this.guards := env, guards;
      overrides, flags := map[], {};
    }

    /** Writes a user's flag unless it is the same; a row that is written gets the protected value. */
    method WriteFlag(aci: Uuid, blocked: bool)
      modifies this`flags
      ensures flags == WithFlag(old(flags), aci, Effective(old(flags), guards, aci, blocked))
    {
      if (aci in flags) == blocked {
        return;
      }
      var guard := GuardState(guards, aci);
      flags := WithFlag(flags, aci, if guard.Some? then guard.value else blocked);
    }

    /** Arms the guard of a user again, if there is one, and writes the flag. */
    method SetRecipientBlocked(aci: Uuid, blocked: bool)
      modifies this`flags, this`guards
      ensures flags == WithFlag(old(flags), aci, blocked) && guards == Rearmed(old(guards), aci, blocked)
    {
      guards := Rearmed(guards, aci, blocked);
      RearmedState(old(guards), aci, blocked, aci);
      WriteFlag(aci, blocked);
    }

    /** The overridden users, ordered by ACI. */
    method BlockOverrides() returns (order: seq<Uuid>)
      ensures order == Order(overrides)
      ensures forall u :: u in order <==> u in overrides
    {
      Sorting.NatLessIsStrictOrder();
      order := Sorting.SortedKeys(Sorting.NatLess, overrides.Keys);
      Sorting.AscendingUnique(Sorting.NatLess, order, Order(overrides));
    }

    method PendingOverrides(now: nat) returns (pending: map<Uuid, bool>)
      ensures pending.Keys == set u | u in overrides && !Expired(overrides[u], now)
      ensures forall u :: u in pending ==> pending[u] == overrides[u].blocked
    {
      var order := BlockOverrides();
      pending := map[];
      for i := 0 to |order|
        invariant forall u :: u in pending <==> u in order[..i] && !Expired(overrides[u], now)
        invariant forall u :: u in pending ==> pending[u] == overrides[u].blocked
      {
        assert order[i] in order;
        if !Expired(overrides[order[i]], now) {
          pending := pending[order[i] := overrides[order[i]].blocked];
        }
      }
      assert order[..|order|] == order;
    }

    /** The blocked state Contact reports for a user; nobody has the nil ACI. */
    method ShownBlocked(aci: Uuid, now: nat) returns (blocked: bool)
      ensures aci != NIL_UUID ==> blocked == Shown(State(), aci, now)
      ensures aci == NIL_UUID ==> blocked == (aci in flags)
    {
      var pending := PendingOverrides(now);
      blocked := if aci != NIL_UUID && aci in pending then pending[aci] else aci in flags;
    }

    method ApplySetPni(list: BlockedList, pni: Uuid, blocked: bool) returns (problem: Option<BlockError>)
      modifies list
      ensures problem.None? == SetPni(old(list.Value()), env, pni, blocked).Ok?
      ensures problem.None? ==> list.Value() == SetPni(old(list.Value()), env, pni, blocked).value
      ensures problem.Some? ==> problem.value == SetPni(old(list.Value()), env, pni, blocked).error
    {
      var number := if pni in env.byPni then env.byPni[pni] else "";
      problem := None;
      if pni in env.pniFails {
        problem := Some(LookupFailed);
      } else if number == "" && blocked {
        problem := Some(ListIncomplete);
      } else if number == "" {
      } else if blocked {
        if number !in list.numbers {
          list.numbers := list.numbers[number := 0];
        }
      } else {
        list.numbers := list.numbers - {number};
      }
    }

    /** Applies the protected decisions of an imported account to list. */
    method ProtectBlocked(list: BlockedList, now: nat) returns (problem: Option<BlockError>)
      modifies list
      ensures problem.None? == ProtectAll(old(list.Value()), env, guards, now).Ok?
      ensures problem.None? ==> list.Value() == ProtectAll(old(list.Value()), env, guards, now).value
      ensures problem.Some? ==> problem.value == ProtectAll(old(list.Value()), env, guards, now).error
    {
      ghost var start := list.Value();
      problem := None;
      for i := 0 to |guards|
        invariant problem.None? && ProtectAll(start, env, guards[..i], now) == Ok(list.Value())
      {
        assert guards[..i + 1][..i] == guards[..i];
        var guard := guards[i];
        if Protects(guard) {
          match guard.kind {
            case GuardAci =>
              if list.IsBlocked(guard.id) != guard.value {
                list.Set(guard.id, KnownNumber(env, guard.id, ""), guard.value, Millis(now));
              }
            case GuardPni =>
              problem := ApplySetPni(list, guard.id, guard.value);
            case GuardAccount =>
          }
          if problem.Some? {
            ProtectErrorStays(start, env, guards, i + 1, now);
            return;
          }
        }
      }
      assert guards[..|guards|] == guards;
    }

    /** A clone of seen's list with the protected decisions and the pending overrides applied. */
    method PendingBlockedList(seen: StorageSnapshot, now: nat) returns (r: Result<BlockedList, BlockError>)
      ensures r.Ok? == PendingList(State(), env, seen.Value(), now).Ok?
      ensures r.Ok? ==> fresh(r.value) && r.value.Value() == PendingList(State(), env, seen.Value(), now).value
      ensures r.Err? ==> r.error == PendingList(State(), env, seen.Value(), now).error
    {
      var list := seen.list.Clone();
      var problem := ProtectBlocked(list, now);
      if problem.Some? {
        return Err(problem.value);
      }
      ghost var guarded := list.Value();
      var order := BlockOverrides();
      for i := 0 to |order|
        invariant list.Value() == WithPending(guarded, overrides, order[..i], env, seen.Value(), now)
      {
        PendingAlong(guarded, overrides, order, i, env, seen.Value(), now);
        var aci := order[i];
        var override := overrides[aci];
        if Expired(override, now) || seen.Supersedes(override.version) {
          continue;
        }
        if list.IsBlocked(aci) == override.blocked {
          continue;
        }
        list.Set(aci, KnownNumber(env, aci, ""), override.blocked, Millis(override.setAt));
      }
      assert order[..|order|] == order;
      r := Ok(list);
    }

    /** Settles one override: over, superseded without knowing more, or re-applied. */
    method SettleOverride(aci: Uuid, override: Override, seen: StorageSnapshot?, now: nat)
      modifies this
      ensures State() == SettledOne(old(State()), aci, override, SeenValue(seen), now)
    {
      var known := if seen == null then None else seen.State(aci);
      var superseded := seen != null && seen.Supersedes(override.version);
      if Expired(override, now) || (superseded && known.Some?) {
        if known.Some? {
          WriteFlag(aci, known.value);
        }
        overrides := overrides - {aci};
      } else if superseded {
      } else {
        WriteFlag(aci, override.blocked);
      }
    }

    /** Settles the overrides one after another. */
    method SettleInOrder(order: seq<Uuid>, seen: StorageSnapshot?, now: nat)
      requires forall u :: u in order ==> u in overrides
      modifies this
      ensures State() == SettledAlong(old(State()), order, SeenValue(seen), now)
    {
      ghost var start, value := State(), SeenValue(seen);
      var rows := overrides;
      for i := 0 to |order|
        invariant State() == SettledAlong(start, order[..i], value, now)
      {
        SettledAlongNext(start, order, i, value, now);
        SettleOverride(order[i], rows[order[i]], seen, now);
      }
      assert order[..|order|] == order;
    }

    /** Settles the overrides against seen, what a fetch found (null if nothing was fetched). */
    method SettleOverrides(seen: StorageSnapshot?, now: nat)
      modifies this
      ensures State() == Settled(old(State()), SeenValue(seen), now)
    {
      var order := BlockOverrides();
      SettledAlongAll(State(), order, SeenValue(seen), now);
      SettleInOrder(order, seen, now);
    }

    /** Records the change in the store once the list went out, and settles the other overrides. */
    method StoreBlocked(seen: StorageSnapshot, targets: seq<BlockTarget>, blocked: bool, now: nat)
      modifies this
      ensures State() == Applied(old(State()), seen.Value(), targets, blocked, now)
    {
      ghost var start := State();
      for i := 0 to |targets|
        invariant State() == Recorded(start, seen.Value(), targets[..i], blocked, now)
      {
        assert targets[..i + 1][..i] == targets[..i];
        var aci := targets[i].aci;
        if seen.list.IsBlocked(aci) == blocked {
          overrides := overrides - {aci};
        } else {
          overrides := overrides[aci := Override(blocked, Millis(now) * NS_PER_MS, seen.version)];
        }
        SetRecipientBlocked(aci, blocked);
      }
      assert targets[..|targets|] == targets;
      SettleOverrides(seen, now);
    }

    /** SetBlocked against the storage service as just fetched: sends the complete new list and then
        updates the store. sendOk is whether sending succeeds; sent is the message handed out. */
    method ApplyBlocked(
      update: Option<StorageUpdate>, targets: seq<BlockTarget>, blocked: bool, now: nat, sendOk: bool
    ) returns (problem: Option<BlockError>, sent: Option<SyncMessage>)
      modifies this
      ensures CompleteUpdate(update).Err? ==>
                problem == Some(CompleteUpdate(update).error) && sent.None? && State() == old(State())
      ensures CompleteUpdate(update).Ok? ==>
                var seen := CompleteUpdate(update).value;
                var list := SentList(old(State()), env, seen, targets, blocked, now);
                && (list.Err? ==> problem == Some(list.error) && sent.None? && State() == old(State()))
                && (list.Ok? ==> sent.Some? && IsMessageOf(sent.value, list.value))
                && (list.Ok? && !sendOk ==> problem == Some(SendFailed) && State() == old(State()))
                && (list.Ok? && sendOk ==> problem.None? && State() == Applied(old(State()), seen, targets, blocked, now))
    {
      problem, sent := None, None;
      var complete := CompleteStorage(update);
      if complete.Err? {
        return Some(complete.error), None;
      }
      var seen := complete.value;
      var pending := PendingBlockedList(seen, now);
      if pending.Err? {
        return Some(pending.error), None;
      }
      var list := pending.value;
      ghost var start := list.Value();
      for i := 0 to |targets|
        invariant State() == old(State()) && seen.Value() == CompleteUpdate(update).value
        invariant list.Value() == WithTargets(start, targets[..i], env, blocked, now)
      {
        assert targets[..i + 1][..i] == targets[..i];
        list.Set(targets[i].aci, KnownNumber(env, targets[i].aci, targets[i].number), blocked, Millis(now));
      }
      assert targets[..|targets|] == targets;
      var msg := list.ToSyncMessage();
      sent := Some(msg);
      if !sendOk {
        return Some(SendFailed), sent;
      }
      StoreBlocked(seen, targets, blocked, now);
    }

    /** Whether a background sync that changed the users changed touched an overridden one, and the
        version to ask the storage service about. */
    method SyncCheck(changed: set<Uuid>) returns (affected: bool, since: nat)
      ensures affected <==> exists u :: u in changed && u in overrides && u != NIL_UUID
      ensures (forall u :: u in overrides ==> overrides[u].version <= MAX_VERSION) ==> IsLeastVersion(since, overrides)
      ensures since <= MAX_VERSION && forall u :: u in overrides ==> since <= overrides[u].version
    {
      var order := BlockOverrides();
      affected, since := false, MAX_VERSION;
      for i := 0 to |order|
        invariant affected <==> exists u :: u in order[..i] && u in changed && u != NIL_UUID
        invariant since <= MAX_VERSION && forall u :: u in order[..i] ==> since <= overrides[u].version
        invariant since == MAX_VERSION || exists u :: u in order[..i] && overrides[u].version == since
      {
        assert order[i] in order;
        assert order[..i + 1] == order[..i] + [order[i]];
        affected := affected || (order[i] in changed && order[i] != NIL_UUID);
        since := if overrides[order[i]].version < since then overrides[order[i]].version else since;
        assert order[i] in order[..i + 1];
      }
      assert order[..|order|] == order;
    }

    /** Settles after a background sync, with the answer to the question about since. */
    method SettleAnswer(answer: FetchAnswer, since: nat, now: nat)
      modifies this
      ensures State() == Settled(old(State()), AnswerSnapshot(answer, since), now)
    {
      match answer {
        case FetchFailed =>
          SettleOverrides(null, now);
        case NoContent =>
          var empty := new StorageSnapshot(since, false);
          SettleOverrides(empty, now);
        case Content(update) =>
          var seen := ReadStorage(update);
          SettleOverrides(seen, now);
      }
    }
  }

  /** Arming a guard again changes the protected decision on its user only. */
  lemma {:induction false} RearmedState(guards: seq<PrivacyGuard>, aci: Uuid, blocked: bool, user: Uuid)
    ensures user != aci ==> GuardState(Rearmed(guards, aci, blocked), user) == GuardState(guards, user)
    ensures GuardState(Rearmed(guards, aci, blocked), aci) in {None, Some(blocked)}
    ensures GuardState(guards, aci).Some? ==> GuardState(Rearmed(guards, aci, blocked), aci) == Some(blocked)
  {
    if guards != [] {
      var front := guards[..|guards| - 1];
      RearmedState(front, aci, blocked, user);
      assert Rearmed(guards, aci, blocked)[..|guards| - 1] == Rearmed(front, aci, blocked);
    }
  }

  ghost function SeenValue(seen: StorageSnapshot?): Option<SnapshotValue>
    reads if seen == null then {} else {seen, seen.list}
  {
    if seen == null then None else Some(seen.Value())
  }

  lemma {:induction false} ProtectErrorStays(list: ListValue, env: Env, guards: seq<PrivacyGuard>, n: nat, now: nat)
    requires n <= |guards| && ProtectAll(list, env, guards[..n], now).Err?
    ensures ProtectAll(list, env, guards, now) == ProtectAll(list, env, guards[..n], now)
    decreases |guards|
  {
    if n == |guards| {
      assert guards[..n] == guards;
    } else {
      var front := guards[..|guards| - 1];
      assert front[..n] == guards[..n];
      ProtectErrorStays(list, env, front, n, now);
    }
  }

  lemma PendingAlong(
    list: ListValue, overrides: map<Uuid, Override>, order: seq<Uuid>, i: nat, env: Env, seen: SnapshotValue, now: nat)
    requires i < |order| && forall u :: u in order ==> u in overrides
    ensures order[i] in overrides && forall u :: u in order[..i] + order[..i + 1] ==> u in overrides
    ensures var before, aci := WithPending(list, overrides, order[..i], env, seen, now), order[i];
            WithPending(list, overrides, order[..i + 1], env, seen, now)
            == if !Pending(overrides[aci], seen, now) || before.IsBlocked(aci) == overrides[aci].blocked then before
               else before.Set(aci, KnownNumber(env, aci, ""), overrides[aci].blocked, Millis(overrides[aci].setAt))
  {
    assert order[..i + 1][..i] == order[..i];
  }

  lemma SettleOneMore(st: BlockState, done: set<Uuid>, aci: Uuid, seen: Option<SnapshotValue>, now: nat)
    requires aci !in done && aci in st.overrides
    ensures SettledOne(SettledOn(st, done, seen, now), aci, st.overrides[aci], seen, now) == SettledOn(st, done + {aci}, seen, now)
  {
    var step := SettledOne(SettledOn(st, done, seen, now), aci, st.overrides[aci], seen, now);
    var whole := SettledOn(st, done + {aci}, seen, now);
    assert step.overrides == whole.overrides;
    assert step.flags == whole.flags;
  }

  /** Settling the overrides one after another settles each on its own. */
  lemma {:induction false} SettledAlongOn(st: BlockState, order: seq<Uuid>, seen: Option<SnapshotValue>, now: nat)
    requires forall u :: u in order ==> u in st.overrides
    requires Sorting.Ascending(Sorting.NatLess, order)
    ensures SettledAlong(st, order, seen, now) == SettledOn(st, Sorting.Elements(order), seen, now)
  {
    if order == [] {
      assert SettledOn(st, {}, seen, now) == st;
    } else {
      var front, aci := order[..|order| - 1], order[|order| - 1];
      SettledAlongOn(st, front, seen, now);
      assert forall k :: 0 <= k < |front| ==> front[k] < aci;
      SettleOneMore(st, Sorting.Elements(front), aci, seen, now);
      assert order == front + [aci];
      assert Sorting.Elements(order) == Sorting.Elements(front) + {aci};
    }
  }

  lemma SettledAlongNext(st: BlockState, order: seq<Uuid>, i: nat, seen: Option<SnapshotValue>, now: nat)
    requires i < |order| && forall u :: u in order ==> u in st.overrides
    ensures order[i] in st.overrides
    ensures SettledAlong(st, order[..i + 1], seen, now)
         == SettledOne(SettledAlong(st, order[..i], seen, now), order[i], st.overrides[order[i]], seen, now)
  {
    assert order[..i + 1][..i] == order[..i];
  }

  lemma SettledAlongAll(st: BlockState, order: seq<Uuid>, seen: Option<SnapshotValue>, now: nat)
    requires order == Order(st.overrides)
    ensures SettledAlong(st, order, seen, now) == Settled(st, seen, now)
  {
    SettledAlongOn(st, order, seen, now);
  }
}
