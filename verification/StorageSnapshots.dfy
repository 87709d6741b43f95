/** What one fetch of the storage service says about blocking (internal/signal/meow_contacts.go). */
module StorageSnapshots {
  import opened Wrappers
  import opened BlockedLists

  datatype BlockError = ListIncomplete | GroupIdFailure | LookupFailed | SendFailed

  const GROUP_MASTER_KEY_LENGTH := 32

  /** A storage record. An ACI that is missing or can't be parsed is NIL_UUID; id is the group ID
      derived from the master key, if that succeeds. */
  datatype Record =
    | ContactRecord(aci: Uuid, e164: string, contactBlocked: bool, at: nat)
    | GroupRecord(groupBlocked: bool, keyLength: nat, id: Option<string>)
    | OtherRecord

  datatype StorageUpdate = StorageUpdate(version: nat, records: seq<Record>, missing: nat)

  datatype SnapshotValue = SnapshotValue(
    version: nat, list: ListValue, read: set<Uuid>, complete: bool, problem: Option<BlockError>)
  {
    /** The blocked state known for a user, if any. */
    function State(aci: Uuid): Option<bool> {
      if list.IsBlocked(aci) then Some(true) else if complete || aci in read then Some(false) else None
    }
  }

  /** The error a record makes the list incomplete with. */
  function RecordProblem(record: Record): Option<BlockError> {
    match record
    case ContactRecord(aci, e164, blocked, _) =>
      if blocked && aci == NIL_UUID && e164 == "" then Some(ListIncomplete) else None
    case GroupRecord(blocked, keyLength, id) =>
      if !blocked then None
      else if keyLength != GROUP_MASTER_KEY_LENGTH then Some(ListIncomplete)
      else if id.None? then Some(GroupIdFailure)
      else None
    case OtherRecord => None
  }

  function WithRecord(list: ListValue, record: Record): ListValue {
    match record
    case ContactRecord(aci, e164, blocked, at) =>
      if !blocked then list
      else if aci != NIL_UUID then list.(acis := list.acis[aci := Entry(e164, at)])
      else if e164 != "" then list.(numbers := list.numbers[e164 := at])
      else list
    case GroupRecord(blocked, _, id) =>
      if blocked && RecordProblem(record).None? then list.(groups := list.groups[id.value := 0]) else list
    case OtherRecord => list
  }

  function ReadRecords(start: SnapshotValue, records: seq<Record>): SnapshotValue {
    if records == [] then start
    else
      var before := ReadRecords(start, records[..|records| - 1]);
      var record := records[|records| - 1];
      before.(
        list := WithRecord(before.list, record),
        read := if record.ContactRecord? && record.aci != NIL_UUID then before.read + {record.aci} else before.read,
        problem := if before.problem.None? then RecordProblem(record) else before.problem)
  }

  function StartOf(update: StorageUpdate): SnapshotValue {
    SnapshotValue(update.version, EMPTY_LIST, {}, update.missing == 0,
                  if update.missing == 0 then None else Some(ListIncomplete))
  }

  /** The snapshot of an update. */
  function ReadUpdate(update: StorageUpdate): SnapshotValue {
    ReadRecords(StartOf(update), update.records)
  }

  /** The snapshot of an update that must hold the complete blocked list. */
  function CompleteUpdate(update: Option<StorageUpdate>): Result<SnapshotValue, BlockError> {
    if update.None? then Err(ListIncomplete)
    else
      var seen := ReadUpdate(update.value);
      if seen.problem.Some? then Err(seen.problem.value) else Ok(seen)
  }

  ghost predicate BlocksUser(record: Record, aci: Uuid) {
    record.ContactRecord? && record.contactBlocked && record.aci == aci && aci != NIL_UUID
  }

  ghost predicate BlocksNumber(record: Record, number: string) {
    record.ContactRecord? && record.contactBlocked && record.aci == NIL_UUID && record.e164 == number && number != ""
  }

  ghost predicate BlocksGroup(record: Record, id: string) {
    record.GroupRecord? && record.groupBlocked && record.keyLength == GROUP_MASTER_KEY_LENGTH && record.id == Some(id)
  }

  /** A record that a sync message can carry, or needn't: a blocked contact has an ACI or a number, and a
      blocked group a master key of the right length with an ID. */
  predicate CanBeSent(record: Record) {
    match record
    case ContactRecord(aci, e164, blocked, _) => blocked ==> aci != NIL_UUID || e164 != ""
    case GroupRecord(blocked, keyLength, id) => blocked ==> keyLength == GROUP_MASTER_KEY_LENGTH && id.Some?
    case OtherRecord => true
  }

  /** What one more record adds. */
  lemma RecordAdds(start: SnapshotValue, records: seq<Record>)
    requires records != []
    ensures var before, seen, last := ReadRecords(start, records[..|records| - 1]), ReadRecords(start, records), records[|records| - 1];
            && (forall u :: u in seen.list.acis <==> u in before.list.acis || BlocksUser(last, u))
            && (forall n :: n in seen.list.numbers <==> n in before.list.numbers || BlocksNumber(last, n))
            && (forall g :: g in seen.list.groups <==> g in before.list.groups || BlocksGroup(last, g))
            && (forall u :: u in seen.read <==> u in before.read || (last.ContactRecord? && last.aci == u && u != NIL_UUID))
  {
  }

  /** The snapshot means: a user, number or group is blocked exactly when some record blocks it, a
      user is read exactly when some contact record names them, and the first record that can't be
      carried is reported. */
  lemma {:induction false} ReadRecordsMeaning(update: StorageUpdate, records: seq<Record>)
    ensures var seen := ReadRecords(StartOf(update), records);
            && seen.version == update.version && seen.complete == (update.missing == 0)
            && (forall u :: u in seen.list.acis <==> exists r :: r in records && BlocksUser(r, u))
            && (forall n :: n in seen.list.numbers <==> exists r :: r in records && BlocksNumber(r, n))
            && (forall g :: g in seen.list.groups <==> exists r :: r in records && BlocksGroup(r, g))
            && (forall u :: u in seen.read <==> exists r :: r in records && r.ContactRecord? && r.aci == u && u != NIL_UUID)
            && (seen.problem.None? <==> update.missing == 0 && forall r :: r in records ==> RecordProblem(r).None?)
  {
    if records != [] {
      var front, last := records[..|records| - 1], records[|records| - 1];
      ReadRecordsMeaning(update, front);
      assert records == front + [last];
      assert forall r :: r in records <==> r in front || r == last;
      RecordAdds(StartOf(update), records);
    }
  }

  /** The last record that blocks a user or a number says the number and the time; groups have no time. */
  lemma {:induction false} ReadEntries(start: SnapshotValue, records: seq<Record>, i: nat)
    requires i < |records|
    ensures var seen, r := ReadRecords(start, records), records[i];
            && (forall u :: BlocksUser(r, u) && (forall j :: i < j < |records| ==> !BlocksUser(records[j], u))
                  ==> u in seen.list.acis && seen.list.acis[u] == Entry(r.e164, r.at))
            && (forall n :: BlocksNumber(r, n) && (forall j :: i < j < |records| ==> !BlocksNumber(records[j], n))
                  ==> n in seen.list.numbers && seen.list.numbers[n] == r.at)
            && forall g :: BlocksGroup(r, g) ==> g in seen.list.groups && seen.list.groups[g] == 0
  {
    var front, last := records[..|records| - 1], |records| - 1;
    assert forall j :: 0 <= j < |front| ==> front[j] == records[j];
    if i < last {
      ReadEntries(start, front, i);
      assert forall u :: (forall j :: i < j < |records| ==> !BlocksUser(records[j], u)) ==> !BlocksUser(records[last], u);
      assert forall n :: (forall j :: i < j < |records| ==> !BlocksNumber(records[j], n)) ==> !BlocksNumber(records[last], n);
    }
  }

  predicate FirstUnsendable(records: seq<Record>, i: int) {
    0 <= i < |records| && !CanBeSent(records[i]) && forall j :: 0 <= j < i ==> CanBeSent(records[j])
  }

  /** A fetch has a problem exactly if a record wasn't read or can't be sent; a missing record is reported
      first, then the first record that can't be sent. */
  lemma {:induction false} ReadProblem(update: StorageUpdate, records: seq<Record>)
    ensures var problem := ReadRecords(StartOf(update), records).problem;
            && (problem.None? <==> update.missing == 0 && forall r :: r in records ==> CanBeSent(r))
            && (update.missing > 0 ==> problem == Some(ListIncomplete))
            && forall i :: update.missing == 0 && FirstUnsendable(records, i) ==>
                 problem == Some(if records[i].GroupRecord? && records[i].keyLength == GROUP_MASTER_KEY_LENGTH
                                 then GroupIdFailure else ListIncomplete)
  {
    if records != [] {
      var front, last := records[..|records| - 1], records[|records| - 1];
      ReadProblem(update, front);
      assert records == front + [last];
      assert forall j :: 0 <= j < |front| ==> front[j] == records[j];
      assert forall r :: r in records <==> r in front || r == last;
      assert forall i :: 0 <= i < |front| ==> (FirstUnsendable(records, i) <==> FirstUnsendable(front, i));
      if FirstUnsendable(records, |front|) {
        assert forall r :: r in front ==> CanBeSent(r);
      }
    }
  }

  /** A fetch passes as complete exactly when every record was read and every blocked entry can be
      sent; then the list has each blocked entry of the records and no other, and every user is known. */
  lemma CompleteUpdateMeaning(update: StorageUpdate)
    ensures CompleteUpdate(Some(update)).Ok? <==> update.missing == 0 && forall r :: r in update.records ==> CanBeSent(r)
    ensures CompleteUpdate(Some(update)).Ok? ==>
              var seen := CompleteUpdate(Some(update)).value;
              && seen.complete && seen.version == update.version
              && (forall u :: seen.State(u) == Some(exists r :: r in update.records && BlocksUser(r, u)))
              && (forall n :: n in seen.list.numbers <==> exists r :: r in update.records && BlocksNumber(r, n))
              && (forall g :: g in seen.list.groups <==> exists r :: r in update.records && BlocksGroup(r, g))
  {
    ReadRecordsMeaning(update, update.records);
    ReadProblem(update, update.records);
  }

  /** A snapshot; its list is cloned before it is changed. */
  class StorageSnapshot {
    var version: nat
    const list: BlockedList
    var read: set<Uuid>
    var complete: bool
    var problem: Option<BlockError>

    ghost function Value(): SnapshotValue
      reads this, list
    {
      SnapshotValue(version, list.Value(), read, complete, problem)
    }

    constructor (version: nat, complete: bool)
      ensures fresh(list) && Value() == SnapshotValue(version, EMPTY_LIST, {}, complete, None)
    {
      this.version, this.complete, read, problem := version, complete, {}, None;
      list := new BlockedList();
    }

    /** Whether the phone has written the storage service since an override at the version. */
    predicate Supersedes(overrideVersion: nat)
      reads this
    {
      overrideVersion < version
    }

    /** The blocked state known for a user, if any. */
    function State(aci: Uuid): (known: Option<bool>)
      reads this, list
      ensures known == Value().State(aci)
    {
      if list.IsBlocked(aci) then Some(true)
      else if complete || aci in read then Some(false)
      else None
    }
  }

  /** Adds the user of a contact record, if it is blocked. */
  method AddContact(list: BlockedList, record: Record) returns (problem: Option<BlockError>)
    requires record.ContactRecord?
    modifies list
    ensures list.Value() == WithRecord(old(list.Value()), record) && problem == RecordProblem(record)
  {
    problem := None;
    if !record.contactBlocked {
      return;
    }
    if record.aci != NIL_UUID {
      list.acis := list.acis[record.aci := Entry(record.e164, record.at)];
    } else if record.e164 != "" {
      list.numbers := list.numbers[record.e164 := record.at];
    } else {
      problem := Some(ListIncomplete);
    }
  }

  /** Adds the group of a group record, if it is blocked. */
  method AddGroup(list: BlockedList, record: Record) returns (problem: Option<BlockError>)
    requires record.GroupRecord?
    modifies list
    ensures list.Value() == WithRecord(old(list.Value()), record) && problem == RecordProblem(record)
  {
    problem := None;
    if !record.groupBlocked {
      return;
    }
    if record.keyLength != GROUP_MASTER_KEY_LENGTH {
      return Some(ListIncomplete);
    }
    if record.id.None? {
      return Some(GroupIdFailure);
    }
    list.groups := list.groups[record.id.value := 0];
  }

  method ReadStorage(update: StorageUpdate) returns (seen: StorageSnapshot)
    ensures fresh(seen) && fresh(seen.list) && seen.Value() == ReadUpdate(update)
  {
    seen := new StorageSnapshot(update.version, update.missing == 0);
    if !seen.complete {
      seen.problem := Some(ListIncomplete);
    }
    for i := 0 to |update.records|
      invariant fresh(seen) && fresh(seen.list)
      invariant seen.Value() == ReadRecords(StartOf(update), update.records[..i])
    {
      assert update.records[..i + 1][..i] == update.records[..i];
      var record := update.records[i];
      var problem: Option<BlockError> := None;
      match record {
        case ContactRecord(aci, _, _, _) =>
          if aci != NIL_UUID {
            seen.read := seen.read + {aci};
          }
          problem := AddContact(seen.list, record);
        case GroupRecord(_, _, _) =>
          problem := AddGroup(seen.list, record);
        case OtherRecord =>
      }
      if problem.Some? && seen.problem.None? {
        seen.problem := problem;
      }
    }
    assert update.records[..|update.records|] == update.records;
  }

  method CompleteStorage(update: Option<StorageUpdate>) returns (r: Result<StorageSnapshot, BlockError>)
    ensures r.Ok? == CompleteUpdate(update).Ok?
    ensures r.Err? ==> r.error == CompleteUpdate(update).error
    ensures r.Ok? ==> fresh(r.value) && fresh(r.value.list) && r.value.Value() == CompleteUpdate(update).value
  {
    if update.None? {
      return Err(ListIncomplete);
    }
    var seen := ReadStorage(update.value);
    if seen.problem.Some? {
      return Err(seen.problem.value);
    }
    r := Ok(seen);
  }
}
