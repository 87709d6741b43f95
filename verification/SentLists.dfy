/** What the list sent says of each user and number (internal/signal/meow_contacts.go). */
module SentLists {
  import opened Wrappers
  import opened BlockedLists
  import opened StorageSnapshots
  import opened BlockOverrides
  import opened BlockOverrideRuns

  /** n is the number of a user: the one given, else the one the store has. */
  predicate HasNumber(env: Env, aci: Uuid, given: string, n: string) {
    n != "" && if given != "" then n == given else aci in env.byAci && n == env.byAci[aci]
  }

  /** n is the number of a target, or of the target's entry. */
  predicate IsNumberOf(list: ListValue, env: Env, target: BlockTarget, n: string) {
    HasNumber(env, target.aci, target.number, n) || (n != "" && target.aci in list.acis && list.acis[target.aci].number == n)
  }

  predicate IsTargetNumber(list: ListValue, env: Env, targets: seq<BlockTarget>, n: string) {
    exists i :: 0 <= i < |targets| && IsNumberOf(list, env, targets[i], n)
  }

  lemma TargetNumbersOfFront(list: ListValue, env: Env, targets: seq<BlockTarget>, n: string)
    requires targets != []
    ensures IsTargetNumber(list, env, targets, n)
            <==> IsTargetNumber(list, env, targets[..|targets| - 1], n) || IsNumberOf(list, env, targets[|targets| - 1], n)
  {
    var front := targets[..|targets| - 1];
    if i :| 0 <= i < |front| && IsNumberOf(list, env, front[i], n) { assert targets[i] == front[i]; }
  }

  lemma EarlierTargetNumber(list: ListValue, env: Env, targets: seq<BlockTarget>, aci: Uuid, n: string)
    requires IsTarget(targets, aci) && n != "" && aci in list.acis && list.acis[aci].number == n
    ensures IsTargetNumber(list, env, targets, n)
  {
    var i :| 0 <= i < |targets| && targets[i].aci == aci;
    assert IsNumberOf(list, env, targets[i], n);
  }

  // ----- Targets -----

  /** Unblocking takes out exactly the targets and, from the numbers without a user, exactly theirs. */
  lemma {:induction false} TargetsUnblocked(list: ListValue, targets: seq<BlockTarget>, env: Env, now: nat)
    ensures var after := WithTargets(list, targets, env, false, now);
            && (forall u :: u in after.acis <==> u in list.acis && !IsTarget(targets, u))
            && (forall u :: u in after.acis ==> after.acis[u] == list.acis[u])
            && (forall n :: n in after.numbers <==> n in list.numbers && !IsTargetNumber(list, env, targets, n))
            && (forall n :: n in after.numbers ==> after.numbers[n] == list.numbers[n])
            && after.groups == list.groups
  {
    if targets != [] {
      var front, last := targets[..|targets| - 1], targets[|targets| - 1];
      TargetsUnblocked(list, front, env, now);
      var before, after := WithTargets(list, front, env, false, now), WithTargets(list, targets, env, false, now);
      forall u ensures u in after.acis <==> u in list.acis && !IsTarget(targets, u) {
        TargetsOfFront(targets, u);
      }
      forall n ensures n in after.numbers <==> n in list.numbers && !IsTargetNumber(list, env, targets, n) {
        TargetNumbersOfFront(list, env, targets, n);
        if n != "" && last.aci in list.acis && list.acis[last.aci].number == n && last.aci !in before.acis {
          EarlierTargetNumber(list, env, front, last.aci, n);
        }
      }
    }
  }

  /** A target without a known number. */
  predicate Numberless(env: Env, target: BlockTarget) {
    target.number == "" && (target.aci !in env.byAci || env.byAci[target.aci] == "")
  }

  /** Blocking gives each target an entry with its time, and with the number known last; that number isn't
      listed without a user, too. Everybody else keeps the entry. */
  lemma {:induction false} TargetBlocked(list: ListValue, targets: seq<BlockTarget>, env: Env, now: nat, u: Uuid)
    ensures var after := WithTargets(list, targets, env, true, now);
            && (u in after.acis <==> u in list.acis || IsTarget(targets, u))
            && (!IsTarget(targets, u) && u in list.acis ==> after.acis[u] == list.acis[u])
            && (IsTarget(targets, u) ==>
                  && after.acis[u].at == (if u in list.acis then list.acis[u].at else Millis(now))
                  && after.acis[u].number !in after.numbers)
            && ((IsTarget(targets, u) && forall i :: 0 <= i < |targets| && targets[i].aci == u ==> Numberless(env, targets[i]))
                ==> after.acis[u].number == if u in list.acis then list.acis[u].number else "")
            && forall i, n :: 0 <= i < |targets| && targets[i].aci == u && HasNumber(env, u, targets[i].number, n)
                       && (forall j :: i < j < |targets| && targets[j].aci == u ==> Numberless(env, targets[j]))
                 ==> after.acis[u].number == n
  {
    if targets != [] {
      var front, last := targets[..|targets| - 1], targets[|targets| - 1];
      TargetBlocked(list, front, env, now, u);
      TargetsOfFront(targets, u);
      assert forall i :: 0 <= i < |front| ==> targets[i] == front[i];
      var after := WithTargets(list, targets, env, true, now);
      forall i, n | 0 <= i < |targets| && targets[i].aci == u && HasNumber(env, u, targets[i].number, n)
                    && (forall j :: i < j < |targets| && targets[j].aci == u ==> Numberless(env, targets[j]))
        ensures after.acis[u].number == n
      {
        if i < |front| {
          assert front[i] == targets[i];
          assert last == targets[|front|];
        }
      }
    }
  }

  /** Blocking takes from the numbers without a user none but those of targets. */
  lemma {:induction false} NumbersOfBlocked(list: ListValue, targets: seq<BlockTarget>, env: Env, now: nat)
    ensures var after := WithTargets(list, targets, env, true, now);
            && after.groups == list.groups
            && (forall n :: n in after.numbers ==> n in list.numbers && after.numbers[n] == list.numbers[n])
            && (forall u, n :: n != "" && u in after.acis && after.acis[u].number == n ==>
                  (u in list.acis && list.acis[u].number == n) || IsTargetNumber(list, env, targets, n))
            && forall n :: n != "" && n in list.numbers && !IsTargetNumber(list, env, targets, n) ==> n in after.numbers
  {
    if targets != [] {
      var front, last := targets[..|targets| - 1], targets[|targets| - 1];
      NumbersOfBlocked(list, front, env, now);
      var before, after := WithTargets(list, front, env, true, now), WithTargets(list, targets, env, true, now);
      forall n | n != "" ensures IsTargetNumber(list, env, targets, n)
                           <==> IsTargetNumber(list, env, front, n) || IsNumberOf(list, env, last, n)
      {
        TargetNumbersOfFront(list, env, targets, n);
      }
      assert forall u :: u in after.acis && u != last.aci ==> u in before.acis && after.acis[u] == before.acis[u];
    }
  }

  // ----- Overrides and guards -----

  predicate Live(overrides: map<Uuid, Override>, order: seq<Uuid>, seen: SnapshotValue, now: nat, u: Uuid) {
    u in order && u in overrides && Pending(overrides[u], seen, now)
  }

  /** The entry of somebody who becomes blocked at a time. */
  ghost predicate NewEntry(env: Env, u: Uuid, at: nat, entry: Entry) {
    && entry.at == at
    && (forall n :: HasNumber(env, u, "", n) ==> entry.number == n)
    && ((forall n :: !HasNumber(env, u, "", n)) ==> entry.number == "")
  }

  lemma KnownIsNewEntry(env: Env, u: Uuid, at: nat)
    ensures NewEntry(env, u, at, Entry(KnownNumber(env, u, ""), at))
    ensures forall n :: HasNumber(env, u, "", n) <==> n != "" && n == KnownNumber(env, u, "")
  {
    assert KnownNumber(env, u, "") != "" ==> HasNumber(env, u, "", KnownNumber(env, u, ""));
  }

  /** A live override that differs from the list blocks its user with the stored number and the time of the
      decision, or takes the user and the number out; any other user keeps the entry. */
  lemma {:induction false} PendingEntry(
    list: ListValue, overrides: map<Uuid, Override>, order: seq<Uuid>, env: Env, seen: SnapshotValue, now: nat, u: Uuid)
    requires forall v :: v in order ==> v in overrides
    ensures var after := WithPending(list, overrides, order, env, seen, now);
            && (forall n :: n in after.numbers ==> n in list.numbers && after.numbers[n] == list.numbers[n])
            && (Live(overrides, order, seen, now, u) ==>
                  if overrides[u].blocked then
                    && u in after.acis
                    && (if u in list.acis then after.acis[u] == list.acis[u]
                        else NewEntry(env, u, Millis(overrides[u].setAt), after.acis[u]) && after.acis[u].number !in after.numbers)
                  else
                    && u !in after.acis
                    && (u in list.acis ==> forall n :: IsNumberOf(list, env, BlockTarget(u, ""), n) ==> n !in after.numbers))
            && (!Live(overrides, order, seen, now, u) ==>
                  (u in after.acis <==> u in list.acis) && (u in after.acis ==> after.acis[u] == list.acis[u]))
  {
    if order != [] {
      var front, last := order[..|order| - 1], order[|order| - 1];
      PendingEntry(list, overrides, front, env, seen, now, u);
      KnownIsNewEntry(env, last, Millis(overrides[last].setAt));
      assert order == front + [last];
      assert u in order <==> u in front || u == last;
    }
  }

  predicate GuardsUser(guard: PrivacyGuard, u: Uuid) {
    Protects(guard) && guard.kind == GuardAci && guard.id == u
  }

  /** Each user has at most one protected decision. */
  ghost predicate OneGuard(guards: seq<PrivacyGuard>, u: Uuid) {
    forall i, j :: 0 <= i < j < |guards| ==> !(GuardsUser(guards[i], u) && GuardsUser(guards[j], u))
  }

  lemma {:induction false} GuardedEntry(list: ListValue, env: Env, guards: seq<PrivacyGuard>, now: nat, u: Uuid)
    requires ProtectAll(list, env, guards, now).Ok? && OneGuard(guards, u)
    ensures var after := ProtectAll(list, env, guards, now).value;
            match GuardState(guards, u)
            case None => (u in after.acis <==> u in list.acis) && (u in after.acis ==> after.acis[u] == list.acis[u])
            case Some(false) => u !in after.acis
            case Some(true) =>
              && u in after.acis
              && if u in list.acis then after.acis[u] == list.acis[u] else NewEntry(env, u, Millis(now), after.acis[u])
  {
    if guards != [] {
      var front, last := guards[..|guards| - 1], guards[|guards| - 1];
      assert forall i :: 0 <= i < |front| ==> guards[i] == front[i];
      GuardedEntry(list, env, front, now, u);
      KnownIsNewEntry(env, u, Millis(now));
      if GuardsUser(last, u) {
        GuardIsTouched(front, u);
        assert GuardState(front, u) == None;
      }
    }
  }

  /** The protected decision on a number: the one of a user known by PNI only who has it. */
  function NumberGuard(guards: seq<PrivacyGuard>, env: Env, n: string): Option<bool> {
    if guards == [] then None
    else
      var guard := guards[|guards| - 1];
      if Protects(guard) && guard.kind == GuardPni && guard.id in env.byPni && env.byPni[guard.id] == n then Some(guard.value)
      else NumberGuard(guards[..|guards| - 1], env, n)
  }

  lemma {:induction false} GuardedNumbers(list: ListValue, env: Env, guards: seq<PrivacyGuard>, now: nat, n: string)
    requires ProtectAll(list, env, guards, now).Ok? && n != ""
    requires forall u :: GuardState(guards, u).Some? ==> !IsNumberOf(list, env, BlockTarget(u, ""), n)
    ensures var after := ProtectAll(list, env, guards, now).value;
            && (n in after.numbers <==> if NumberGuard(guards, env, n).Some? then NumberGuard(guards, env, n).value else n in list.numbers)
            && forall u :: u in after.acis && after.acis[u].number == n ==> u in list.acis && list.acis[u].number == n
  {
    if guards != [] {
      var front, last := guards[..|guards| - 1], guards[|guards| - 1];
      GuardedNumbers(list, env, front, now, n);
      if Protects(last) && last.kind == GuardAci {
        assert GuardState(guards, last.id).Some?;
        assert !IsNumberOf(list, env, BlockTarget(last.id, ""), n);
      }
    }
  }

  predicate CannotProtect(env: Env, guard: PrivacyGuard) {
    && Protects(guard) && guard.kind == GuardPni
    && (guard.id in env.pniFails || (guard.value && (guard.id !in env.byPni || env.byPni[guard.id] == "")))
  }

  /** The decisions can't be applied exactly if the number of a blocked user known by PNI only isn't known, or
      the lookup of one fails; the first such decision says which. */
  lemma {:induction false} GuardsFail(list: ListValue, env: Env, guards: seq<PrivacyGuard>, now: nat)
    ensures var r := ProtectAll(list, env, guards, now);
            && (r.Err? <==> exists i :: 0 <= i < |guards| && CannotProtect(env, guards[i]))
            && forall i :: 0 <= i < |guards| && CannotProtect(env, guards[i]) && (forall j :: 0 <= j < i ==> !CannotProtect(env, guards[j]))
                 ==> r == Err(if guards[i].id in env.pniFails then LookupFailed else ListIncomplete)
  {
    if guards != [] {
      var front, last := guards[..|guards| - 1], guards[|guards| - 1];
      GuardsFail(list, env, front, now);
      assert forall i :: 0 <= i < |front| ==> guards[i] == front[i];
      if i :| 0 <= i < |front| && CannotProtect(env, front[i]) { assert CannotProtect(env, guards[i]); }
    }
  }

  // ----- The list sent -----

  /** After unblocking, no target is in the list sent, and no number of one is listed without a user; in the
      message, such a number comes only with an entry of somebody else who stays blocked. */
  lemma SentUnblocked(st: BlockState, env: Env, seen: SnapshotValue, targets: seq<BlockTarget>, now: nat, msg: SyncMessage)
    requires SentList(st, env, seen, targets, false, now).Ok?
    requires IsMessageOf(msg, SentList(st, env, seen, targets, false, now).value)
    ensures var pending, list := PendingList(st, env, seen, now).value, SentList(st, env, seen, targets, false, now).value;
            && (forall u :: IsTarget(targets, u) ==> u !in list.acis && forall at :: (u, at) !in msg.acis)
            && (forall n :: IsTargetNumber(pending, env, targets, n) ==> n !in list.numbers)
            && forall n :: IsTargetNumber(pending, env, targets, n) ==>
                 ((exists at :: (n, at) in msg.numbers)
                  <==> exists u :: u in pending.acis && !IsTarget(targets, u) && pending.acis[u].number == n)
  {
    var pending, list := PendingList(st, env, seen, now).value, SentList(st, env, seen, targets, false, now).value;
    TargetsUnblocked(pending, targets, env, now);
    MessageContents(msg, list);
    forall n | IsTargetNumber(pending, env, targets, n)
      ensures (exists at :: (n, at) in msg.numbers)
              <==> exists u :: u in pending.acis && !IsTarget(targets, u) && pending.acis[u].number == n
    {
      assert n != "" && n !in list.numbers;
      assert (exists at :: (n, at) in msg.numbers) <==> list.Lists(n);
      if u :| u in list.acis && list.acis[u].number == n {
        assert u in pending.acis && !IsTarget(targets, u) && pending.acis[u].number == n;
      }
      if u :| u in pending.acis && !IsTarget(targets, u) && pending.acis[u].number == n {
        assert u in list.acis && list.acis[u].number == n;
      }
    }
  }

  /** After blocking, each target is in the list sent with the time of blocking, and with the number known
      last, which isn't listed without a user, too; the message has both. */
  lemma SentBlocked(
    st: BlockState, env: Env, seen: SnapshotValue, targets: seq<BlockTarget>, now: nat, msg: SyncMessage, i: nat, n: string)
    requires SentList(st, env, seen, targets, true, now).Ok?
    requires IsMessageOf(msg, SentList(st, env, seen, targets, true, now).value)
    requires i < |targets| && HasNumber(env, targets[i].aci, targets[i].number, n)
    requires forall j :: i < j < |targets| && targets[j].aci == targets[i].aci ==> Numberless(env, targets[j])
    ensures var pending, list, u := PendingList(st, env, seen, now).value, SentList(st, env, seen, targets, true, now).value, targets[i].aci;
            && u in list.acis && list.acis[u] == Entry(n, if u in pending.acis then pending.acis[u].at else Millis(now))
            && n !in list.numbers
            && (u, OptionalTimestamp(list.acis[u].at)) in msg.acis && exists at :: (n, at) in msg.numbers
  {
    var list, u := SentList(st, env, seen, targets, true, now).value, targets[i].aci;
    assert IsTarget(targets, u);
    TargetBlocked(PendingList(st, env, seen, now).value, targets, env, now, u);
    MessageContents(msg, list);
    assert list.Lists(n);
  }

  /** A user without a protected decision or a live override is in the list the targets are applied to as the
      storage service has the user. */
  lemma UndecidedEntry(st: BlockState, env: Env, seen: SnapshotValue, now: nat, u: Uuid)
    requires PendingList(st, env, seen, now).Ok? && !Touched(st, env, seen, [], now, u)
    ensures var pending := PendingList(st, env, seen, now).value;
            (u in pending.acis <==> u in seen.list.acis) && (u in pending.acis ==> pending.acis[u] == seen.list.acis[u])
  {
    assert SentList(st, env, seen, [], true, now) == PendingList(st, env, seen, now);
    SentWithin(st, env, seen, [], true, now);
    GuardIsTouched(st.guards, u);
    assert u !in TouchedUsers(st, env, seen, [], now);
  }

  /** A user who is no target is in the list sent as the live override says, with the stored number and the
      time of the decision if it blocks somebody who wasn't; a number it frees isn't listed without a user. */
  lemma SentOverride(
    st: BlockState, env: Env, seen: SnapshotValue, targets: seq<BlockTarget>, blocked: bool, now: nat, u: Uuid)
    requires SentList(st, env, seen, targets, blocked, now).Ok? && !IsTarget(targets, u)
    requires u in st.overrides && Pending(st.overrides[u], seen, now)
    ensures var guarded, list := ProtectAll(seen.list, env, st.guards, now).value, SentList(st, env, seen, targets, blocked, now).value;
            if st.overrides[u].blocked then
              && u in list.acis
              && if u in guarded.acis then list.acis[u] == guarded.acis[u]
                 else NewEntry(env, u, Millis(st.overrides[u].setAt), list.acis[u]) && list.acis[u].number !in list.numbers
            else
              && u !in list.acis
              && (u in guarded.acis ==> forall n :: IsNumberOf(guarded, env, BlockTarget(u, ""), n) ==> n !in list.numbers)
  {
    var guarded := ProtectAll(seen.list, env, st.guards, now).value;
    var pending := PendingList(st, env, seen, now).value;
    PendingEntry(guarded, st.overrides, Order(st.overrides), env, seen, now, u);
    assert Live(st.overrides, Order(st.overrides), seen, now, u);
    if blocked {
      TargetBlocked(pending, targets, env, now, u);
      NumbersOfBlocked(pending, targets, env, now);
    } else {
      TargetsUnblocked(pending, targets, env, now);
    }
  }

  /** A user with only a protected decision is in the list sent as that says. */
  lemma SentGuarded(
    st: BlockState, env: Env, seen: SnapshotValue, targets: seq<BlockTarget>, blocked: bool, now: nat, u: Uuid)
    requires SentList(st, env, seen, targets, blocked, now).Ok? && !IsTarget(targets, u) && OneGuard(st.guards, u)
    requires !(u in st.overrides && Pending(st.overrides[u], seen, now)) && GuardState(st.guards, u).Some?
    ensures var list := SentList(st, env, seen, targets, blocked, now).value;
            if GuardState(st.guards, u).value then
              && u in list.acis
              && if u in seen.list.acis then list.acis[u] == seen.list.acis[u] else NewEntry(env, u, Millis(now), list.acis[u])
            else u !in list.acis
  {
    var guarded := ProtectAll(seen.list, env, st.guards, now).value;
    var pending := PendingList(st, env, seen, now).value;
    GuardedEntry(seen.list, env, st.guards, now, u);
    PendingEntry(guarded, st.overrides, Order(st.overrides), env, seen, now, u);
    if blocked {
      TargetBlocked(pending, targets, env, now, u);
    } else {
      TargetsUnblocked(pending, targets, env, now);
    }
  }

  /** The numbers of the touched users themselves. */
  ghost function UserNumbers(st: BlockState, env: Env, seen: SnapshotValue, targets: seq<BlockTarget>, now: nat): set<string> {
    var users := TouchedUsers(st, env, seen, targets, now);
    (set u | u in users && u in seen.list.acis :: seen.list.acis[u].number)
    + (set u | u in users && u in env.byAci :: env.byAci[u])
    + (set i | 0 <= i < |targets| :: targets[i].number)
  }

  lemma {:induction false} GuardedWithin(
    list: ListValue, env: Env, guards: seq<PrivacyGuard>, now: nat, users: set<Uuid>, numbers: set<string>)
    requires ProtectAll(list, env, guards, now).Ok?
    requires forall u :: u in users && u in list.acis ==> list.acis[u].number in numbers || list.acis[u].number == ""
    requires forall u :: u in users && u in env.byAci ==> env.byAci[u] in numbers
    ensures var after := ProtectAll(list, env, guards, now).value;
            forall u :: u in users && u in after.acis ==> after.acis[u].number in numbers || after.acis[u].number == ""
  {
    if guards != [] {
      GuardedWithin(list, env, guards[..|guards| - 1], now, users, numbers);
    }
  }

  /** A number of none of the touched users is listed without a user as the protected decision on somebody
      known by PNI only says, else as in the storage service. */
  lemma SentNumbers(
    st: BlockState, env: Env, seen: SnapshotValue, targets: seq<BlockTarget>, blocked: bool, now: nat, n: string)
    requires SentList(st, env, seen, targets, blocked, now).Ok?
    requires n != "" && n !in UserNumbers(st, env, seen, targets, now)
    ensures n in SentList(st, env, seen, targets, blocked, now).value.numbers
            <==> if NumberGuard(st.guards, env, n).Some? then NumberGuard(st.guards, env, n).value else n in seen.list.numbers
  {
    var users, numbers := TouchedUsers(st, env, seen, targets, now), UserNumbers(st, env, seen, targets, now);
    var guarded := ProtectAll(seen.list, env, st.guards, now).value;
    var pending := PendingList(st, env, seen, now).value;
    forall u | GuardState(st.guards, u).Some? ensures !IsNumberOf(seen.list, env, BlockTarget(u, ""), n) {
      GuardIsTouched(st.guards, u);
      assert u in users;
    }
    GuardedNumbers(seen.list, env, st.guards, now, n);
    GuardedWithin(seen.list, env, st.guards, now, users, numbers);
    PendingStaysWithin(guarded, guarded, st.overrides, Order(st.overrides), env, seen, now, users, numbers);
    TargetsStayWithin(guarded, pending, targets, env, blocked, now, users, numbers);
  }
}
