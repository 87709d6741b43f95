/** What the overrides guarantee: the list sent, its agreement with the store, and whole runs
    (internal/signal/meow_contacts.go). */
module BlockOverrideRuns {
  import opened Wrappers
  import opened BlockedLists
  import opened StorageSnapshots
  import opened BlockOverrides
  import Sorting

  predicate IsTarget(targets: seq<BlockTarget>, aci: Uuid) {
    exists i :: 0 <= i < |targets| && targets[i].aci == aci
  }

  // ----- Precedence in the list sent -----

  lemma {:induction false} ProtectedStates(list: ListValue, env: Env, guards: seq<PrivacyGuard>, now: nat, aci: Uuid)
    requires ProtectAll(list, env, guards, now).Ok?
    ensures ProtectAll(list, env, guards, now).value.IsBlocked(aci)
            == (if GuardState(guards, aci).Some? then GuardState(guards, aci).value else list.IsBlocked(aci))
  {
    if guards != [] {
      ProtectedStates(list, env, guards[..|guards| - 1], now, aci);
    }
  }

  lemma {:induction false} PendingStates(
    list: ListValue, overrides: map<Uuid, Override>, order: seq<Uuid>, env: Env, seen: SnapshotValue, now: nat, aci: Uuid)
    requires forall u :: u in order ==> u in overrides
    ensures WithPending(list, overrides, order, env, seen, now).IsBlocked(aci)
            == (if aci in order && Pending(overrides[aci], seen, now) then overrides[aci].blocked else list.IsBlocked(aci))
  {
    if order != [] {
      var front, last := order[..|order| - 1], order[|order| - 1];
      PendingStates(list, overrides, front, env, seen, now, aci);
      assert order == front + [last];
      assert aci in order <==> aci in front || aci == last;
    }
  }

  lemma TargetsOfFront(targets: seq<BlockTarget>, aci: Uuid)
    requires targets != []
    ensures IsTarget(targets, aci) <==> IsTarget(targets[..|targets| - 1], aci) || targets[|targets| - 1].aci == aci
  {
    var front := targets[..|targets| - 1];
    assert forall i :: 0 <= i < |front| ==> targets[i] == front[i];
    assert IsTarget(front, aci) ==> exists i :: 0 <= i < |front| && targets[i].aci == aci;
  }

  lemma {:induction false} TargetStates(
    list: ListValue, targets: seq<BlockTarget>, env: Env, blocked: bool, now: nat, aci: Uuid)
    ensures WithTargets(list, targets, env, blocked, now).IsBlocked(aci)
            == (if IsTarget(targets, aci) then blocked else list.IsBlocked(aci))
  {
    if targets != [] {
      var front, last := targets[..|targets| - 1], targets[|targets| - 1];
      TargetStates(list, front, env, blocked, now, aci);
      TargetsOfFront(targets, aci);
    }
  }

  /** In the list sent, a user's state is the request for a target, else a live override, else the
      protected decision, else what the storage service has. */
  lemma SentState(
    st: BlockState, env: Env, seen: SnapshotValue, targets: seq<BlockTarget>, blocked: bool, now: nat, aci: Uuid)
    requires SentList(st, env, seen, targets, blocked, now).Ok?
    ensures SentList(st, env, seen, targets, blocked, now).value.IsBlocked(aci) ==
            if IsTarget(targets, aci) then blocked
            else if aci in st.overrides && Pending(st.overrides[aci], seen, now) then st.overrides[aci].blocked
            else if GuardState(st.guards, aci).Some? then GuardState(st.guards, aci).value
            else seen.list.IsBlocked(aci)
  {
    var guarded := ProtectAll(seen.list, env, st.guards, now).value;
    var pending := PendingList(st, env, seen, now).value;
    ProtectedStates(seen.list, env, st.guards, now, aci);
    PendingStates(guarded, st.overrides, Order(st.overrides), env, seen, now, aci);
    TargetStates(pending, targets, env, blocked, now, aci);
  }

  // ----- Nobody else is unblocked -----

  /** The users whose entry in the list the change may set. */
  ghost predicate Touched(st: BlockState, env: Env, seen: SnapshotValue, targets: seq<BlockTarget>, now: nat, aci: Uuid) {
    || IsTarget(targets, aci)
    || (aci in st.overrides && Pending(st.overrides[aci], seen, now))
    || GuardState(st.guards, aci).Some?
  }

  ghost function TouchedUsers(st: BlockState, env: Env, seen: SnapshotValue, targets: seq<BlockTarget>, now: nat): set<Uuid> {
    (set i | 0 <= i < |targets| :: targets[i].aci)
    + (set u | u in st.overrides && Pending(st.overrides[u], seen, now))
    + (set i | 0 <= i < |st.guards| && Protects(st.guards[i]) && st.guards[i].kind == GuardAci :: st.guards[i].id)
  }

  /** The numbers attributed to the touched users: the one of their entry in the storage service,
      the one the store has, the one given with a target, and those of protected PNI-only users. */
  ghost function AttributedNumbers(
    st: BlockState, env: Env, seen: SnapshotValue, targets: seq<BlockTarget>, now: nat): set<string>
  {
    var users := TouchedUsers(st, env, seen, targets, now);
    (set u | u in users && u in seen.list.acis :: seen.list.acis[u].number)
    + (set u | u in users && u in env.byAci :: env.byAci[u])
    + (set i | 0 <= i < |targets| :: targets[i].number)
    + (set i | 0 <= i < |st.guards| && Protects(st.guards[i]) && st.guards[i].kind == GuardPni && st.guards[i].id in env.byPni
         :: env.byPni[st.guards[i].id])
  }

  lemma {:induction false} GuardIsTouched(
    guards: seq<PrivacyGuard>, aci: Uuid)
    ensures GuardState(guards, aci).Some? <==>
              exists i :: 0 <= i < |guards| && Protects(guards[i]) && guards[i].kind == GuardAci && guards[i].id == aci
  {
    if guards != [] {
      var front := guards[..|guards| - 1];
      GuardIsTouched(front, aci);
      if i :| 0 <= i < |guards| && Protects(guards[i]) && guards[i].kind == GuardAci && guards[i].id == aci {
        assert i == |guards| - 1 || front[i] == guards[i];
      }
      if i :| 0 <= i < |front| && Protects(front[i]) && front[i].kind == GuardAci && front[i].id == aci {
        assert guards[i] == front[i];
      }
    }
  }

  lemma {:induction false} ProtectStaysWithin(
    list: ListValue, env: Env, guards: seq<PrivacyGuard>, now: nat, users: set<Uuid>, numbers: set<string>)
    requires ProtectAll(list, env, guards, now).Ok? && ChangedWithin(list, list, users, numbers)
    requires forall i :: 0 <= i < |guards| && Protects(guards[i]) && guards[i].kind == GuardAci
               ==> guards[i].id in users && (guards[i].id in env.byAci ==> env.byAci[guards[i].id] in numbers)
    requires forall i :: 0 <= i < |guards| && Protects(guards[i]) && guards[i].kind == GuardPni && guards[i].id in env.byPni
               ==> env.byPni[guards[i].id] in numbers
    ensures ChangedWithin(list, ProtectAll(list, env, guards, now).value, users, numbers)
  {
    if guards != [] {
      var front, last := guards[..|guards| - 1], guards[|guards| - 1];
      ProtectStaysWithin(list, env, front, now, users, numbers);
      var before := ProtectAll(list, env, front, now).value;
      if Protects(last) && last.kind == GuardAci {
        SetStaysWithin(list, before, users, numbers, last.id, KnownNumber(env, last.id, ""), last.value, Millis(now));
      }
    }
  }

  lemma {:induction false} PendingStaysWithin(
    list: ListValue, start: ListValue, overrides: map<Uuid, Override>, order: seq<Uuid>, env: Env, seen: SnapshotValue,
    now: nat, users: set<Uuid>, numbers: set<string>)
    requires ChangedWithin(list, start, users, numbers)
    requires forall u :: u in order ==> u in overrides
    requires forall u :: u in order && Pending(overrides[u], seen, now)
               ==> u in users && (u in env.byAci ==> env.byAci[u] in numbers)
    ensures ChangedWithin(list, WithPending(start, overrides, order, env, seen, now), users, numbers)
  {
    if order != [] {
      var front, last := order[..|order| - 1], order[|order| - 1];
      PendingStaysWithin(list, start, overrides, front, env, seen, now, users, numbers);
      var before := WithPending(start, overrides, front, env, seen, now);
      if Pending(overrides[last], seen, now) {
        SetStaysWithin(list, before, users, numbers, last, KnownNumber(env, last, ""), overrides[last].blocked,
                       Millis(overrides[last].setAt));
      }
    }
  }

  lemma {:induction false} TargetsStayWithin(
    list: ListValue, start: ListValue, targets: seq<BlockTarget>, env: Env, blocked: bool, now: nat,
    users: set<Uuid>, numbers: set<string>)
    requires ChangedWithin(list, start, users, numbers)
    requires forall i :: 0 <= i < |targets| ==> targets[i].aci in users && targets[i].number in numbers
    requires forall i :: 0 <= i < |targets| && targets[i].aci in env.byAci ==> env.byAci[targets[i].aci] in numbers
    ensures ChangedWithin(list, WithTargets(start, targets, env, blocked, now), users, numbers)
  {
    if targets != [] {
      var front, last := targets[..|targets| - 1], targets[|targets| - 1];
      TargetsStayWithin(list, start, front, env, blocked, now, users, numbers);
      SetStaysWithin(list, WithTargets(start, front, env, blocked, now), users, numbers,
                     last.aci, KnownNumber(env, last.aci, last.number), blocked, Millis(now));
    }
  }

  lemma SentWithin(
    st: BlockState, env: Env, seen: SnapshotValue, targets: seq<BlockTarget>, blocked: bool, now: nat)
    requires SentList(st, env, seen, targets, blocked, now).Ok?
    ensures ChangedWithin(seen.list, SentList(st, env, seen, targets, blocked, now).value,
                          TouchedUsers(st, env, seen, targets, now), AttributedNumbers(st, env, seen, targets, now))
  {
    var users := TouchedUsers(st, env, seen, targets, now);
    var numbers := AttributedNumbers(st, env, seen, targets, now);
    var guarded := ProtectAll(seen.list, env, st.guards, now).value;
    var pending := PendingList(st, env, seen, now).value;
    ProtectStaysWithin(seen.list, env, st.guards, now, users, numbers);
    PendingStaysWithin(seen.list, guarded, st.overrides, Order(st.overrides), env, seen, now, users, numbers);
    TargetsStayWithin(seen.list, pending, targets, env, blocked, now, users, numbers);
  }

  /** A change unblocks no bystander: every group stays, an untouched user keeps the exact entry, and
      a number that isn't attributed to a touched user is in the message exactly when it was listed. */
  lemma BystandersKept(
    st: BlockState, env: Env, seen: SnapshotValue, targets: seq<BlockTarget>, blocked: bool, now: nat, msg: SyncMessage)
    requires SentList(st, env, seen, targets, blocked, now).Ok?
    requires IsMessageOf(msg, SentList(st, env, seen, targets, blocked, now).value)
    ensures forall g: string, t :: (g, t) in msg.groups <==> g in seen.list.groups && t == OptionalTimestamp(seen.list.groups[g])
    ensures forall u: Uuid, t :: !Touched(st, env, seen, targets, now, u)
              ==> ((u, t) in msg.acis <==> u in seen.list.acis && t == OptionalTimestamp(seen.list.acis[u].at))
    ensures forall n: string :: n != "" && n !in AttributedNumbers(st, env, seen, targets, now)
              ==> ((exists t :: (n, t) in msg.numbers) <==> seen.list.Lists(n))
  {
    var list := SentList(st, env, seen, targets, blocked, now).value;
    var users := TouchedUsers(st, env, seen, targets, now);
    var numbers := AttributedNumbers(st, env, seen, targets, now);
    SentWithin(st, env, seen, targets, blocked, now);
    MessageContents(msg, list);
    forall u: Uuid, t | !Touched(st, env, seen, targets, now, u)
      ensures (u, t) in msg.acis <==> u in seen.list.acis && t == OptionalTimestamp(seen.list.acis[u].at)
    {
      GuardIsTouched(st.guards, u);
      assert u !in users;
    }
    forall n: string | n != "" && n !in numbers
      ensures (exists t :: (n, t) in msg.numbers) <==> seen.list.Lists(n)
    {
      UnrelatedNumberKept(seen.list, list, users, numbers, n);
    }
  }

  // ----- Agreement of the store with the list sent -----

  /** A protected decision on an overridden user is the override's, and the stored flag has it. */
  ghost predicate Consistent(st: BlockState) {
    forall u :: u in st.overrides && GuardState(st.guards, u).Some? ==>
      GuardState(st.guards, u).value == st.overrides[u].blocked == (u in st.flags)
  }

  lemma {:induction false} RecordedStates(
    st: BlockState, seen: SnapshotValue, targets: seq<BlockTarget>, blocked: bool, now: nat, aci: Uuid)
    ensures var after := Recorded(st, seen, targets, blocked, now);
            if IsTarget(targets, aci) then
              && (aci in after.flags <==> blocked)
              && GuardState(after.guards, aci) in {None, Some(blocked)}
              && (if seen.list.IsBlocked(aci) == blocked then aci !in after.overrides
                  else aci in after.overrides && after.overrides[aci] == Override(blocked, Millis(now) * NS_PER_MS, seen.version))
            else
              && (aci in after.flags <==> aci in st.flags)
              && GuardState(after.guards, aci) == GuardState(st.guards, aci)
              && (aci in after.overrides <==> aci in st.overrides)
              && (aci in st.overrides ==> after.overrides[aci] == st.overrides[aci])
  {
    if targets != [] {
      var front, last := targets[..|targets| - 1], targets[|targets| - 1];
      RecordedStates(st, seen, front, blocked, now, aci);
      RearmedState(Recorded(st, seen, front, blocked, now).guards, last.aci, blocked, aci);
      TargetsOfFront(targets, aci);
    }
  }

  lemma RecordedConsistent(st: BlockState, seen: SnapshotValue, targets: seq<BlockTarget>, blocked: bool, now: nat)
    requires Consistent(st)
    ensures Consistent(Recorded(st, seen, targets, blocked, now))
  {
    var after := Recorded(st, seen, targets, blocked, now);
    forall u | u in after.overrides && GuardState(after.guards, u).Some?
      ensures GuardState(after.guards, u).value == after.overrides[u].blocked == (u in after.flags)
    {
      RecordedStates(st, seen, targets, blocked, now, u);
    }
  }

  lemma SettledConsistent(st: BlockState, seen: Option<SnapshotValue>, now: nat)
    requires Consistent(st)
    ensures Consistent(Settled(st, seen, now))
  {
  }

  lemma FreshOverride(now: nat)
    ensures Millis(now) * NS_PER_MS <= now < Millis(now) * NS_PER_MS + NS_PER_MS
  {
  }

  /** After a successful SetBlocked, the state shown for a target or for anyone who had an override is
      the one in the list sent, at any later time. */
  lemma ShownAgreesWithSent(
    st: BlockState, env: Env, seen: SnapshotValue, targets: seq<BlockTarget>, blocked: bool, now: nat, aci: Uuid, later: nat)
    requires Consistent(st) && seen.complete && SentList(st, env, seen, targets, blocked, now).Ok?
    requires IsTarget(targets, aci) || aci in st.overrides
    ensures Shown(Applied(st, seen, targets, blocked, now), aci, later)
            == SentList(st, env, seen, targets, blocked, now).value.IsBlocked(aci)
  {
    SentState(st, env, seen, targets, blocked, now, aci);
    RecordedStates(st, seen, targets, blocked, now, aci);
    FreshOverride(now);
  }

  // ----- Settling -----

  /** Settling leaves exactly the unexpired overrides that aren't both superseded and known. It writes the
      override of a user if it stays and isn't superseded, what was seen if it goes and the user is known,
      and nothing else; a write that changes the flag of a user with a protected decision keeps that. */
  lemma SettleMeaning(st: BlockState, seen: Option<SnapshotValue>, now: nat, aci: Uuid)
    ensures var after := Settled(st, seen, now);
            && (aci in after.overrides <==>
                  && aci in st.overrides && !Expired(st.overrides[aci], now)
                  && !(Superseded(st.overrides[aci], seen) && StateIn(seen, aci).Some?))
            && (aci in after.overrides ==> after.overrides[aci] == st.overrides[aci])
            && after.guards == st.guards
            && (aci in after.flags)
               == (if aci !in st.overrides then aci in st.flags
                   else if aci in after.overrides && !Superseded(st.overrides[aci], seen)
                     then Effective(st.flags, st.guards, aci, st.overrides[aci].blocked)
                   else if aci !in after.overrides && StateIn(seen, aci).Some?
                     then Effective(st.flags, st.guards, aci, StateIn(seen, aci).value)
                   else aci in st.flags)
  {
  }

  /** What is shown after settling: the override if it stays, else the protected decision, else what was
      seen, else the stored flag. */
  lemma SettledShown(st: BlockState, seen: Option<SnapshotValue>, now: nat, aci: Uuid)
    requires Consistent(st)
    ensures var after := Settled(st, seen, now);
            Shown(after, aci, now)
               == (if aci !in st.overrides then aci in st.flags
                   else if aci in after.overrides then st.overrides[aci].blocked
                   else if GuardState(st.guards, aci).Some? then GuardState(st.guards, aci).value
                   else if StateIn(seen, aci).Some? then StateIn(seen, aci).value
                   else aci in st.flags)
  {
    SettleMeaning(st, seen, now, aci);
  }

  /** Settling twice against the same snapshot is settling once. */
  lemma SettleIdempotent(st: BlockState, seen: Option<SnapshotValue>, now: nat)
    ensures Settled(Settled(st, seen, now), seen, now) == Settled(st, seen, now)
  {
    var once := Settled(st, seen, now);
    var twice := Settled(once, seen, now);
    assert twice.overrides == once.overrides;
    assert twice.flags == once.flags;
  }

  /** An answer of "no content" drops no unexpired override, whatever version was asked about. */
  lemma NoContentDropsNothing(st: BlockState, since: nat, now: nat)
    ensures Settled(st, AnswerSnapshot(NoContent, since), now).overrides
            == map u | u in st.overrides && !Expired(st.overrides[u], now) :: st.overrides[u]
  {
  }

  /** It re-applies an unexpired override exactly when the version asked about isn't later than the
      override's; otherwise a flag that a sync undid stays undone. */
  lemma NoContentReapplies(st: BlockState, since: nat, now: nat, aci: Uuid)
    requires Consistent(st) && aci in st.overrides && !Expired(st.overrides[aci], now)
    requires (aci in st.flags) != st.overrides[aci].blocked
    ensures (aci in Settled(st, AnswerSnapshot(NoContent, since), now).flags) == st.overrides[aci].blocked
            <==> since <= st.overrides[aci].version
  {
  }

  /** The records say whether the user is blocked: all were read, or one of them is the user's contact. */
  ghost predicate RecordsKnow(update: StorageUpdate, aci: Uuid) {
    || update.missing == 0
    || exists r :: r in update.records && r.ContactRecord? && r.aci == aci && aci != NIL_UUID
  }

  ghost predicate RecordsBlock(update: StorageUpdate, aci: Uuid) {
    exists r :: r in update.records && BlocksUser(r, aci)
  }

  lemma RecordsState(update: StorageUpdate, since: nat, aci: Uuid)
    ensures var seen := AnswerSnapshot(Content(update), since);
            && seen.Some? && seen.value.version == update.version
            && StateIn(seen, aci) == if RecordsKnow(update, aci) then Some(RecordsBlock(update, aci)) else None
  {
    ReadRecordsMeaning(update, update.records);
  }

  /** An answer with records drops an override exactly if it expired, or if the records are of a later version
      and know the user; then, without a protected decision, the user is shown as they say. An override of the
      records' version or a later one is in the flags again, and the flag is left alone in between. */
  lemma ContentSettles(st: BlockState, update: StorageUpdate, since: nat, now: nat, aci: Uuid)
    requires aci in st.overrides && GuardState(st.guards, aci).None?
    ensures var override, after := st.overrides[aci], Settled(st, AnswerSnapshot(Content(update), since), now);
            && (aci in after.overrides
                <==> !Expired(override, now) && !(update.version > override.version && RecordsKnow(update, aci)))
            && (aci in after.overrides ==> after.overrides[aci] == override)
            && (aci in after.flags)
               == (if aci !in after.overrides && RecordsKnow(update, aci) then RecordsBlock(update, aci)
                   else if aci in after.overrides && update.version <= override.version then override.blocked
                   else aci in st.flags)
  {
    RecordsState(update, since, aci);
    SettleMeaning(st, AnswerSnapshot(Content(update), since), now, aci);
  }

  /** A protected decision on an overridden user stays in the flags, whatever the records say, and the override
      goes as without one. */
  lemma ContentSettlesGuarded(st: BlockState, update: StorageUpdate, since: nat, now: nat, aci: Uuid)
    requires Consistent(st) && aci in st.overrides && GuardState(st.guards, aci).Some?
    ensures var override, after := st.overrides[aci], Settled(st, AnswerSnapshot(Content(update), since), now);
            && (aci in after.overrides
                <==> !Expired(override, now) && !(update.version > override.version && RecordsKnow(update, aci)))
            && (aci in after.flags) == GuardState(st.guards, aci).value
  {
    RecordsState(update, since, aci);
    SettleMeaning(st, AnswerSnapshot(Content(update), since), now, aci);
  }

  // ----- Runs -----

  /** What happens to the store: a successful SetBlocked, a sync or another write of recipient rows, which
      may release guards first, and a settle against whatever a fetch found. */
  datatype Step =
    | SetBlocked(seen: SnapshotValue, targets: seq<BlockTarget>, blocked: bool, setNow: nat)
    | Sync(written: map<Uuid, bool>, released: set<Uuid>)
    | Settle(found: Option<SnapshotValue>, settleNow: nat)

  function Released(guards: seq<PrivacyGuard>, released: set<Uuid>): seq<PrivacyGuard> {
    seq(|guards|, i requires 0 <= i < |guards| =>
      if guards[i].kind == GuardAci && guards[i].id in released then guards[i].(isProtected := false) else guards[i])
  }

  /** The rows written get the values given, or the decisions that are still protected. */
  function Synced(st: BlockState, written: map<Uuid, bool>, released: set<Uuid>): BlockState {
    var guards := Released(st.guards, released);
    BlockState(
      st.overrides,
      (set u | u in st.flags && u !in written)
      + (set u | u in written && if GuardState(guards, u).Some? then GuardState(guards, u).value else written[u]),
      guards)
  }

  lemma {:induction false} ReleasedState(guards: seq<PrivacyGuard>, released: set<Uuid>, aci: Uuid)
    ensures GuardState(Released(guards, released), aci) == if aci in released then None else GuardState(guards, aci)
  {
    if guards != [] {
      ReleasedState(guards[..|guards| - 1], released, aci);
      assert Released(guards, released)[..|guards| - 1] == Released(guards[..|guards| - 1], released);
    }
  }

  lemma SyncedConsistent(st: BlockState, written: map<Uuid, bool>, released: set<Uuid>)
    requires Consistent(st)
    ensures Consistent(Synced(st, written, released))
  {
    var after := Synced(st, written, released);
    forall u | u in after.overrides && GuardState(after.guards, u).Some?
      ensures GuardState(after.guards, u).value == after.overrides[u].blocked == (u in after.flags)
    {
      ReleasedState(st.guards, released, u);
    }
  }

  function Apply(st: BlockState, step: Step): BlockState {
    match step
    case SetBlocked(seen, targets, blocked, now) => Applied(st, seen, targets, blocked, now)
    case Sync(written, released) => Synced(st, written, released)
    case Settle(found, now) => Settled(st, found, now)
  }

  function Run(st: BlockState, steps: seq<Step>): BlockState
    decreases steps
  {
    if steps == [] then st else Run(Apply(st, steps[0]), steps[1..])
  }

  /** Every run keeps guards, overrides and flags consistent; without overrides they are. */
  lemma {:induction false} RunConsistent(st: BlockState, steps: seq<Step>)
    requires Consistent(st)
    ensures Consistent(Run(st, steps))
    decreases steps
  {
    if steps != [] {
      match steps[0] {
        case SetBlocked(seen, targets, blocked, now) =>
          RecordedConsistent(st, seen, targets, blocked, now);
          SettledConsistent(Recorded(st, seen, targets, blocked, now), Some(seen), now);
        case Sync(written, released) => SyncedConsistent(st, written, released);
        case Settle(found, now) => SettledConsistent(st, found, now);
      }
      RunConsistent(Apply(st, steps[0]), steps[1..]);
    }
  }

  /** So shown and sent agree after every run that begins without overrides. */
  lemma ShownAgreesInRuns(
    start: BlockState, steps: seq<Step>, env: Env, seen: SnapshotValue, targets: seq<BlockTarget>, blocked: bool, now: nat,
    aci: Uuid, later: nat)
    requires start.overrides == map[] && seen.complete
    requires SentList(Run(start, steps), env, seen, targets, blocked, now).Ok?
    requires IsTarget(targets, aci) || aci in Run(start, steps).overrides
    ensures Shown(Run(start, steps + [SetBlocked(seen, targets, blocked, now)]), aci, later)
            == SentList(Run(start, steps), env, seen, targets, blocked, now).value.IsBlocked(aci)
  {
    RunConsistent(start, steps);
    RunThenStep(start, steps, SetBlocked(seen, targets, blocked, now));
    ShownAgreesWithSent(Run(start, steps), env, seen, targets, blocked, now, aci, later);
  }

  lemma {:induction false} RunThenStep(st: BlockState, steps: seq<Step>, step: Step)
    ensures Run(st, steps + [step]) == Apply(Run(st, steps), step)
    decreases steps
  {
    if steps == [] {
      assert steps + [step] == [step] && [step][1..] == [];
      assert Run(Apply(st, step), []) == Apply(st, step);
    } else {
      assert (steps + [step])[1..] == steps[1..] + [step];
      RunThenStep(Apply(st, steps[0]), steps[1..], step);
    }
  }

  /** A background sync undoes no decision: whatever rows it wrote and guards it released, if the service
      answers that nothing was written since (or doesn't answer), every unexpired override is in the
      flags again. */
  lemma BackgroundSyncUndone(
    before: BlockState, written: map<Uuid, bool>, released: set<Uuid>, changed: set<Uuid>, affected: bool, since: nat,
    answer: FetchAnswer, now: nat, aci: Uuid)
    requires Consistent(before) && !answer.Content? && NIL_UUID !in before.overrides
    requires forall u :: u !in changed ==> (u in Synced(before, written, released).flags <==> u in before.flags)
    requires affected <==> exists u :: u in changed && u in before.overrides && u != NIL_UUID
    requires forall u :: u in before.overrides ==> since <= before.overrides[u].version
    requires aci in before.overrides && !Expired(before.overrides[aci], now)
    requires (aci in before.flags) == before.overrides[aci].blocked
    ensures var synced := Synced(before, written, released);
            var after := if affected then Settled(synced, AnswerSnapshot(answer, since), now) else synced;
            && (aci in after.flags) == before.overrides[aci].blocked
            && aci in after.overrides && after.overrides[aci] == before.overrides[aci]
  {
    SyncedConsistent(before, written, released);
  }

  /** The version asked about is the least one only among the overrides present when it was read: from
      early, a decision stored meanwhile against an older fetch, and undone by a sync, is not re-applied by
      the settle, although it is still in force. */
  lemma LateOverrideNotReapplied() returns (early: BlockState, decision: Step, sync: Step, since: nat, aci: Uuid, now: nat)
    ensures Consistent(early) && IsLeastVersion(since, early.overrides) && decision.SetBlocked? && sync.Sync?
    ensures var late := Run(early, [decision, sync]);
            && aci in late.overrides && !Expired(late.overrides[aci], now)
            && (aci in Settled(late, AnswerSnapshot(NoContent, since), now).flags) != late.overrides[aci].blocked
  {
    early, since, aci, now := BlockState(map[1 := Override(true, 0, 5)], {1}, []), 5, 2, 0;
    var seen, targets := SnapshotValue(4, EMPTY_LIST, {}, true, None), [BlockTarget(2, "")];
    decision, sync := SetBlocked(seen, targets, true, 0), Sync(map[2 := false], {});
    assert 1 in early.overrides && targets[0].aci == 2;
    RecordedStates(early, seen, targets, true, 0, 2);
    var stored := Apply(early, decision);
    assert stored.overrides[2] == Override(true, 0, 4);
    var late := Synced(stored, map[2 := false], {});
    assert [decision, sync][1..] == [sync] && [sync][1..] == [];
    assert Run(early, [decision, sync]) == Run(stored, [sync]) == Run(late, []) == late;
    assert Recorded(early, seen, targets[..0], true, 0) == early;
    assert late.guards == [] && 2 !in late.flags;
  }

  /** A snapshot that knows the user, of a later version than the decision's: the phone has written. */
  predicate PhoneWrote(seen: SnapshotValue, aci: Uuid, version: nat) {
    seen.version > version && (aci in seen.list.acis || seen.complete || aci in seen.read)
  }

  /** The step overrules a decision on a user made at setAt against a manifest version. */
  predicate Overrules(step: Step, aci: Uuid, version: nat, setAt: nat) {
    match step
    case SetBlocked(seen, targets, _, now) => IsTarget(targets, aci) || PhoneWrote(seen, aci, version) || now - setAt > TTL
    case Sync(_, _) => false
    case Settle(found, now) => (found.Some? && PhoneWrote(found.value, aci, version)) || now - setAt > TTL
  }

  /** A step keeps another user's override if and only if it doesn't overrule it. */
  lemma StepKeepsOverride(st: BlockState, step: Step, aci: Uuid)
    requires aci in st.overrides
    requires step.SetBlocked? ==> !IsTarget(step.targets, aci)
    ensures aci in Apply(st, step).overrides <==> !Overrules(step, aci, st.overrides[aci].version, st.overrides[aci].setAt)
    ensures aci in Apply(st, step).overrides ==> Apply(st, step).overrides[aci] == st.overrides[aci]
  {
    if step.SetBlocked? {
      RecordedStates(st, step.seen, step.targets, step.blocked, step.setNow, aci);
    }
  }

  lemma {:induction false} OverrideSurvives(st: BlockState, steps: seq<Step>, aci: Uuid)
    requires aci in st.overrides
    requires forall i :: 0 <= i < |steps| ==> !Overrules(steps[i], aci, st.overrides[aci].version, st.overrides[aci].setAt)
    ensures aci in Run(st, steps).overrides && Run(st, steps).overrides[aci] == st.overrides[aci]
    decreases steps
  {
    if steps != [] {
      assert !Overrules(steps[0], aci, st.overrides[aci].version, st.overrides[aci].setAt);
      StepKeepsOverride(st, steps[0], aci);
      OverrideSurvives(Apply(st, steps[0]), steps[1..], aci);
    }
  }

  /** A decision made against a storage service that says otherwise stays the state shown for its user
      through every run, until another SetBlocked on the user, a snapshot in which the phone wrote
      later, or the TTL. */
  lemma DecisionSurvives(
    st: BlockState, seen: SnapshotValue, targets: seq<BlockTarget>, blocked: bool, now: nat, steps: seq<Step>, aci: Uuid, t: nat)
    requires IsTarget(targets, aci) && seen.list.IsBlocked(aci) != blocked
    requires forall i :: 0 <= i < |steps| ==> !Overrules(steps[i], aci, seen.version, Millis(now) * NS_PER_MS)
    requires t - Millis(now) * NS_PER_MS <= TTL
    ensures Shown(Run(Applied(st, seen, targets, blocked, now), steps), aci, t) == blocked
  {
    RecordedStates(st, seen, targets, blocked, now, aci);
    FreshOverride(now);
    OverrideSurvives(Applied(st, seen, targets, blocked, now), steps, aci);
  }

  /** The step writes nothing about a user without an override. */
  predicate Passes(step: Step, aci: Uuid) {
    match step
    case SetBlocked(_, targets, _, _) => !IsTarget(targets, aci)
    case Sync(written, _) => aci !in written
    case Settle(_, _) => true
  }

  lemma {:induction false} FlagStays(st: BlockState, steps: seq<Step>, aci: Uuid)
    requires aci !in st.overrides && forall i :: 0 <= i < |steps| ==> Passes(steps[i], aci)
    ensures aci !in Run(st, steps).overrides && (aci in Run(st, steps).flags <==> aci in st.flags)
    decreases steps
  {
    if steps != [] {
      assert Passes(steps[0], aci);
      if steps[0].SetBlocked? {
        RecordedStates(st, steps[0].seen, steps[0].targets, steps[0].blocked, steps[0].setNow, aci);
      }
      FlagStays(Apply(st, steps[0]), steps[1..], aci);
    }
  }

  /** The phone has the last word, except on a protected decision: once a settle sees that it wrote later,
      what it wrote is shown through every run, until a sync or a SetBlocked writes the user's row. */
  lemma PhoneOverrules(st: BlockState, seen: SnapshotValue, now: nat, steps: seq<Step>, aci: Uuid, t: nat)
    requires Consistent(st) && aci in st.overrides && PhoneWrote(seen, aci, st.overrides[aci].version)
    requires forall i :: 0 <= i < |steps| ==> Passes(steps[i], aci)
    ensures Shown(Run(Settled(st, Some(seen), now), steps), aci, t)
            == if GuardState(st.guards, aci).Some? then GuardState(st.guards, aci).value else seen.list.IsBlocked(aci)
  {
    SettleMeaning(st, Some(seen), now, aci);
    FlagStays(Settled(st, Some(seen), now), steps, aci);
  }
}
