/** Accepting a group invitation, once (internal/signal/meow_groups_accept.go). The operations it
    calls return whatever they like; every run is recorded as the sequence of its calls. */
module GroupAccept {
  import opened Wrappers
  import opened Groups
  import opened GroupChanges
  import opened GroupRuns

  type GroupId = string
  type MasterKey = string

  /** A group as the server sends it; records may be missing (None) or name nobody. */
  datatype RawGroup = RawGroup(
    gid: GroupId, key: MasterKey, title: string, revision: nat,
    members: seq<Option<(Uuid, Role)>>, pending: seq<Option<(ServiceId, Role)>>,
    requesting: seq<Option<Uuid>>, banned: seq<Option<ServiceId>>)

  function RecipientOf(id: ServiceId): Recipient {
    match id
    case AciService(uuid) => Aci(Canonical(uuid))
    case PniService(uuid) => Pni(Canonical(uuid))
  }

  /** The values that are present, in order. */
  function Present<T>(s: seq<Option<T>>): seq<T> {
    if s == [] then []
    else Present(s[..|s| - 1]) + if s[|s| - 1].Some? then [s[|s| - 1].value] else []
  }

  /** The group record of a raw group; missing records are skipped. */
  function Converted(raw: RawGroup): Group {
    var members, pending := Present(raw.members), Present(raw.pending);
    var requesting, banned := Present(raw.requesting), Present(raw.banned);
    Group(
      seq(|members|, i requires 0 <= i < |members| => Member(Aci(Canonical(members[i].0)), members[i].1)),
      seq(|pending|, i requires 0 <= i < |pending| => Invitation(RecipientOf(pending[i].0), pending[i].1)),
      seq(|requesting|, i requires 0 <= i < |requesting| => JoinRequest(Aci(Canonical(requesting[i])))),
      seq(|banned|, i requires 0 <= i < |banned| => Groups.Ban(RecipientOf(banned[i]), 0)),
      raw.revision, false, NotInGroup, RoleUnknown)
  }

  predicate ValidRecord(id: Option<ServiceId>) {
    id.Some? && id.value.uuid != NIL_UUID
  }

  /** Whether a fetched group is the one asked for, with nothing that conversion would skip. */
  predicate SnapshotOk(raw: Option<RawGroup>, gid: GroupId, key: MasterKey) {
    && raw.Some? && raw.value.gid == gid && raw.value.key == key
    && (forall m :: m in raw.value.members ==> m.Some? && m.value.0 != NIL_UUID)
    && (forall p :: p in raw.value.pending ==> p.Some? && p.value.0.uuid != NIL_UUID)
    && (forall q :: q in raw.value.requesting ==> q.Some? && q.value != NIL_UUID)
    && (forall b :: b in raw.value.banned ==> ValidRecord(b))
  }

  method CheckAcceptSnapshot(raw: Option<RawGroup>, gid: GroupId, key: MasterKey) returns (ok: bool)
    ensures ok == SnapshotOk(raw, gid, key)
  {
    if raw.None? || raw.value.gid != gid || raw.value.key != key {
      return false;
    }
    var group := raw.value;
    for i := 0 to |group.members|
      invariant forall k :: 0 <= k < i ==> group.members[k].Some? && group.members[k].value.0 != NIL_UUID
    {
      if group.members[i].None? || group.members[i].value.0 == NIL_UUID {
        assert group.members[i] in group.members;
        return false;
      }
    }
    for i := 0 to |group.pending|
      invariant forall k :: 0 <= k < i ==> group.pending[k].Some? && group.pending[k].value.0.uuid != NIL_UUID
    {
      if group.pending[i].None? || group.pending[i].value.0.uuid == NIL_UUID {
        assert group.pending[i] in group.pending;
        return false;
      }
    }
    for i := 0 to |group.requesting|
      invariant forall k :: 0 <= k < i ==> group.requesting[k].Some? && group.requesting[k].value != NIL_UUID
    {
      if group.requesting[i].None? || group.requesting[i].value == NIL_UUID {
        assert group.requesting[i] in group.requesting;
        return false;
      }
    }
    for i := 0 to |group.banned|
      invariant forall k :: 0 <= k < i ==> ValidRecord(group.banned[k])
    {
      if !ValidRecord(group.banned[i]) {
        assert group.banned[i] in group.banned;
        return false;
      }
    }
    ok := true;
  }

  lemma {:induction false} PresentAll<T>(s: seq<Option<T>>)
    requires forall x :: x in s ==> x.Some?
    ensures |Present(s)| == |s| && forall i :: 0 <= i < |s| ==> s[i] == Some(Present(s)[i])
  {
    if s != [] {
      PresentAll(s[..|s| - 1]);
    }
  }

  /** A checked snapshot converts without loss, into entries of one usable identity each. */
  lemma CheckedConversion(raw: RawGroup, gid: GroupId, key: MasterKey)
    requires SnapshotOk(Some(raw), gid, key)
    ensures var g := Converted(raw);
            && WellTyped(g)
            && |g.members| == |raw.members| && |g.pending| == |raw.pending|
            && |g.requesting| == |raw.requesting| && |g.banned| == |raw.banned| && g.revision == raw.revision
            && (forall i :: 0 <= i < |g.members| ==>
                  raw.members[i] == Some((Identity(g.members[i].recipient.aci), g.members[i].role)))
            && (forall i :: 0 <= i < |g.pending| ==>
                  raw.pending[i] == Some((ServiceOf(g.pending[i].recipient), g.pending[i].role)))
            && (forall i :: 0 <= i < |g.requesting| ==> raw.requesting[i] == Some(Identity(g.requesting[i].recipient.aci)))
            && (forall i :: 0 <= i < |g.banned| ==> raw.banned[i] == Some(ServiceOf(g.banned[i].recipient)))
  {
    PresentAll(raw.members);
    PresentAll(raw.pending);
    PresentAll(raw.requesting);
    PresentAll(raw.banned);
    var g := Converted(raw);
    forall m | m in g.members ensures Usable(m.recipient.aci) && m.recipient.pni == NoId {
      var i :| 0 <= i < |g.members| && g.members[i] == m;
      assert raw.members[i] in raw.members;
    }
    forall p | p in g.pending ensures TypedEntry(p.recipient) {
      var i :| 0 <= i < |g.pending| && g.pending[i] == p;
      assert raw.pending[i] in raw.pending;
    }
    forall q | q in g.requesting ensures Usable(q.recipient.aci) && q.recipient.pni == NoId {
      var i :| 0 <= i < |g.requesting| && g.requesting[i] == q;
      assert raw.requesting[i] in raw.requesting;
    }
  }

  // ----- Calls and results -----

  datatype AcceptOutcome = AcceptOutcome(
    attempted: bool, accepted: bool, verified: bool, revision: nat, hasContext: bool, hasChange: bool)

  /** A call of an operation with what it returned; failed means that it returned an error. */
  datatype Call =
    | CallResolve(resolved: Option<(GroupId, MasterKey)>)
    | CallInvalidate(invalidated: GroupId)
    | CallFetch(fetchKey: MasterKey, fetched: Option<RawGroup>, failed: bool)
    | CallAccept(acceptKey: MasterKey, revision: nat, identity: Recipient, outcome: AcceptOutcome, failed: bool)
    | CallCache(cached: Group, title: string, stored: bool)
    | CallNotify(notified: bool)

  datatype AcceptResult = AcceptResult(
    id: GroupId, title: string, revision: nat, changed: bool, accepted: bool, verified: bool)

  const NO_RESULT := AcceptResult("", "", 0, false, false, false)

  datatype AcceptError =
    | UnknownReference | Cancelled | OperationFailed | InvalidChange | NoLongerMember | Refused(reason: GroupError)

  /** What each check of the context finds, in the order of the checks: cancelled or not. */
  type Context = nat -> bool

  // The operations return anything.

  method Resolve() returns (call: Call)
    ensures call.CallResolve?
  {
    var resolved: Option<(GroupId, MasterKey)> := *;
    call := CallResolve(resolved);
  }

  method Fetch(key: MasterKey) returns (call: Call)
    ensures call.CallFetch? && call.fetchKey == key
  {
    var fetched: Option<RawGroup>, failed: bool := *, *;
    call := CallFetch(key, fetched, failed);
  }

  method AcceptOnce(key: MasterKey, revision: nat, identity: Recipient) returns (call: Call)
    ensures call.CallAccept? && call.acceptKey == key && call.revision == revision && call.identity == identity
  {
    var outcome: AcceptOutcome, failed: bool := *, *;
    call := CallAccept(key, revision, identity, outcome, failed);
  }

  method StoreInCache(group: Group, title: string) returns (call: Call)
    ensures call.CallCache? && call.cached == group && call.title == title
  {
    var stored: bool := *;
    call := CallCache(group, title, stored);
  }

  method Notify() returns (call: Call)
    ensures call.CallNotify?
  {
    var notified: bool := *;
    call := CallNotify(notified);
  }

  // ----- The protocol -----

  /** The stored key and ID a resolve call gives, if the ID really derives from the key. */
  function Bound(call: Call, derive: MasterKey -> Option<GroupId>): Option<(GroupId, MasterKey)> {
    if call.CallResolve? && call.resolved.Some? && derive(call.resolved.value.1) == Some(call.resolved.value.0)
    then call.resolved else None
  }

  /** A fetch that returned a group. */
  predicate Fetched(call: Call) {
    call.CallFetch? && !call.failed && call.fetched.Some?
  }

  /** What a fetch decides, if its snapshot passes. */
  function Decision(call: Call, gid: GroupId, key: MasterKey, decide: Decider): Result<Option<Recipient>, GroupError> {
    if Fetched(call) && SnapshotOk(call.fetched, gid, key) then decide(Converted(call.fetched.value))
    else Err(InvalidResponse)
  }

  /** How a fetched group decides: nothing to do, accept as an identity, or refuse. */
  type Decider = Group -> Result<Option<Recipient>, GroupError>

  function DecideFor(self: Recipient): Decider {
    (g: Group) => AcceptDecision(g, self)
  }

  ghost predicate Decides(decide: Decider, self: Recipient) {
    forall g {:trigger AcceptDecision(g, self)} :: AcceptDecision(g, self) == decide(g)
  }

  /** CheckAcceptInvitation, as the decision of the run. */
  method Decide(group: Group, self: Recipient, ghost decide: Decider) returns (decision: Result<Option<Recipient>, GroupError>)
    requires Decides(decide, self)
    ensures decision == decide(group)
  {
    decision := CheckAcceptInvitation(group, self);
    assert decision == AcceptDecision(group, self);
  }

  /** An acceptance the server confirmed for the revision after the fetched one. */
  predicate Confirmed(call: Call) {
    && call.CallAccept? && !call.failed && call.outcome.accepted && call.outcome.verified
    && call.outcome.revision == call.revision + 1 && call.outcome.hasContext && call.outcome.hasChange
  }

  /** A fetch that shows that there is nothing left to do, at the accepted revision or later. */
  predicate Proves(fetch: Call, gid: GroupId, key: MasterKey, outcome: AcceptOutcome, decide: Decider) {
    Decision(fetch, gid, key, decide) == Ok(None) && fetch.fetched.value.revision >= outcome.revision
  }

  /** The calls after a confirmed acceptance: invalidation, a fresh fetch, caching and notification. */
  predicate Completes(later: seq<Call>, gid: GroupId, key: MasterKey, outcome: AcceptOutcome, decide: Decider) {
    && |later| <= 4
    && (|later| > 0 ==> later[0] == CallInvalidate(gid))
    && (|later| > 1 ==> later[1].CallFetch? && later[1].fetchKey == key)
    && (|later| > 2 ==>
          && Proves(later[1], gid, key, outcome, decide)
          && later[2].CallCache? && later[2].cached == Converted(later[1].fetched.value) && later[2].title == later[1].fetched.value.title)
    && (|later| > 3 ==> later[2].stored && later[3].CallNotify?)
  }

  /** The calls after a fetch that decided to accept as an identity. */
  predicate Submits(later: seq<Call>, gid: GroupId, key: MasterKey, revision: nat, identity: Recipient, decide: Decider) {
    && |later| > 0 && later[0].CallAccept?
    && later[0].acceptKey == key && later[0].revision == revision && later[0].identity == identity
    && (|later| > 1 ==> Confirmed(later[0]))
    && Completes(later[1..], gid, key, later[0].outcome, decide)
  }

  /** The calls after a fetch that decided something: caching if there is nothing to do, else accepting. */
  predicate FollowsDecision(later: seq<Call>, gid: GroupId, key: MasterKey, fetched: RawGroup, identity: Option<Recipient>, decide: Decider) {
    match identity
    case None => |later| == 1 && later[0].CallCache? && later[0].cached == Converted(fetched) && later[0].title == fetched.title
    case Some(id) => Submits(later, gid, key, fetched.revision, id, decide)
  }

  /** The calls between resolving and the final invalidation follow the stages of acceptance, and each
      stage starts only after the one before has succeeded. */
  predicate Stages(b: seq<Call>, decide: Decider, derive: MasterKey -> Option<GroupId>) {
    && (|b| > 0 ==> b[0].CallResolve?)
    && (|b| > 1 ==> Bound(b[0], derive).Some? && b[1] == CallInvalidate(Bound(b[0], derive).value.0))
    && (|b| > 2 ==> b[2].CallFetch? && b[2].fetchKey == Bound(b[0], derive).value.1)
    && (|b| > 3 ==>
          var (gid, key) := Bound(b[0], derive).value;
          var decision := Decision(b[2], gid, key, decide);
          decision.Ok? && FollowsDecision(b[3..], gid, key, b[2].fetched.value, decision.value, decide))
  }

  /** The snapshot that proves the own full membership, if the run got that far. */
  function Proof(b: seq<Call>, decide: Decider, derive: MasterKey -> Option<GroupId>): Option<RawGroup>
    requires Stages(b, decide, derive)
  {
    if |b| < 3 then None
    else
      var (gid, key) := Bound(b[0], derive).value;
      if Decision(b[2], gid, key, decide) == Ok(None) then b[2].fetched
      else if |b| > 5 && b[3].CallAccept? && Proves(b[5], gid, key, b[3].outcome, decide) then b[5].fetched
      else None
  }

  /** The evidence a run reports is determined by its calls. */
  function Evidence(b: seq<Call>, decide: Decider, derive: MasterKey -> Option<GroupId>): AcceptResult
    requires Stages(b, decide, derive)
  {
    if |b| == 0 || Bound(b[0], derive).None? then NO_RESULT
    else
      var (gid, key) := Bound(b[0], derive).value;
      var proof := Proof(b, decide, derive);
      var accepted := |b| > 3 && b[3].CallAccept? && b[3].outcome.accepted;
      var revision :=
        if proof.Some? then proof.value.revision
        else if |b| > 3 && b[3].CallAccept? && (b[3].outcome.attempted || b[3].outcome.accepted) then b[3].outcome.revision
        else if |b| > 2 && !b[2].failed && SnapshotOk(b[2].fetched, gid, key) then b[2].fetched.value.revision
        else 0;
      AcceptResult(gid, if proof.Some? then proof.value.title else "", revision, accepted, accepted, proof.Some?)
  }

  /** How the calls made so far end a run: with an error or none, or not before the next context check. */
  datatype Ending = Ends(err: Option<AcceptError>) | GoesOn

  function FetchEnding(call: Call, gid: GroupId, key: MasterKey): Ending
    requires call.CallFetch?
  {
    if call.failed then Ends(Some(OperationFailed))
    else if !SnapshotOk(call.fetched, gid, key) then Ends(Some(InvalidChange))
    else GoesOn
  }

  function CompletionEnding(later: seq<Call>, gid: GroupId, key: MasterKey, outcome: AcceptOutcome, decide: Decider): Ending
    requires Completes(later, gid, key, outcome, decide)
  {
    if |later| <= 1 then GoesOn
    else if |later| == 2 then
      var fetched := FetchEnding(later[1], gid, key);
      if fetched.Ends? then fetched
      else if later[1].fetched.value.revision < outcome.revision then Ends(Some(InvalidChange))
      else if Decision(later[1], gid, key, decide) != Ok(None) then Ends(Some(NoLongerMember))
      else GoesOn
    else if |later| == 3 then
      if later[2].stored then GoesOn else Ends(Some(OperationFailed))
    else Ends(if later[3].notified then None else Some(OperationFailed))
  }

  function SubmissionEnding(later: seq<Call>, gid: GroupId, key: MasterKey, revision: nat, identity: Recipient, decide: Decider): Ending
    requires Submits(later, gid, key, revision, identity, decide)
  {
    if later[0].failed then Ends(Some(OperationFailed))
    else if !Confirmed(later[0]) then Ends(Some(InvalidChange))
    else CompletionEnding(later[1..], gid, key, later[0].outcome, decide)
  }

  function EndingOf(b: seq<Call>, refValid: bool, decide: Decider, derive: MasterKey -> Option<GroupId>): Ending
    requires Stages(b, decide, derive)
  {
    if !refValid then Ends(Some(UnknownReference))
    else if |b| == 0 then GoesOn
    else if Bound(b[0], derive).None? then Ends(Some(if b[0].resolved.None? then OperationFailed else InvalidChange))
    else if |b| <= 2 then GoesOn
    else
      var (gid, key) := Bound(b[0], derive).value;
      var fetched := FetchEnding(b[2], gid, key);
      var decision := Decision(b[2], gid, key, decide);
      if fetched.Ends? then fetched
      else if decision.Err? then Ends(Some(Refused(decision.error)))
      else if |b| == 3 then GoesOn
      else if decision.value.None? then Ends(if b[3].stored then None else Some(OperationFailed))
      else SubmissionEnding(b[3..], gid, key, b[2].fetched.value.revision, decision.value.value, decide)
  }

  /** The number of context checks before the last of n calls; the next check has this number. */
  function ChecksBefore(n: nat): nat {
    if n == 0 then 0 else if n <= 2 then 1 else if n == 3 then 2 else if n == 4 then 3 else if n <= 6 then 4 else if n == 7 then 5 else 6
  }

  /** After n calls a run ends as they say; it ends between calls only when the context check there, the
      first since the given one to do so, finds it cancelled. */
  predicate EndsAs(ending: Ending, n: nat, err: Option<AcceptError>, first: nat, ctx: Context) {
    && (forall k :: first <= k < ChecksBefore(n) ==> !ctx(k))
    && match ending
       case Ends(e) => err == e
       case GoesOn => err == Some(Cancelled) && ctx(ChecksBefore(n))
  }

  predicate Explained(
    b: seq<Call>, err: Option<AcceptError>, refValid: bool, decide: Decider, derive: MasterKey -> Option<GroupId>, ctx: Context)
    requires Stages(b, decide, derive)
  {
    && |b| != 5 && (|b| == 1 ==> Bound(b[0], derive).None?) && (!refValid ==> b == [])
    && EndsAs(EndingOf(b, refValid, decide, derive), |b|, err, 0, ctx)
  }

  method ResolveAcceptanceKey(derive: MasterKey -> Option<GroupId>)
    returns (bound: Option<(GroupId, MasterKey)>, err: AcceptError, calls: seq<Call>)
    ensures |calls| == 1 && calls[0].CallResolve? && bound == Bound(calls[0], derive)
    ensures bound.None? ==> err == if calls[0].resolved.None? then OperationFailed else InvalidChange
  {
    var call := Resolve();
    calls := [call];
    if call.resolved.None? {
      return None, OperationFailed, calls;
    }
    var (gid, key) := call.resolved.value;
    var derived := derive(key);
    if derived.None? || derived.value != gid {
      return None, InvalidChange, calls;
    }
    return Some((gid, key)), InvalidChange, calls;
  }

  /** Fetches the group and checks that it is the one asked for. */
  method FetchSnapshot(gid: GroupId, key: MasterKey) returns (fetch: Call, problem: Option<AcceptError>)
    ensures fetch.CallFetch? && fetch.fetchKey == key
    ensures FetchEnding(fetch, gid, key) == if problem.Some? then Ends(problem) else GoesOn
  {
    fetch := Fetch(key);
    if fetch.failed {
      return fetch, Some(OperationFailed);
    }
    var ok := CheckAcceptSnapshot(fetch.fetched, gid, key);
    problem := if ok then None else Some(InvalidChange);
  }

  /** What completing adds to the evidence: the proof, if the fresh fetch gives one. */
  function Completed(
    before: AcceptResult, later: seq<Call>, gid: GroupId, key: MasterKey, outcome: AcceptOutcome, decide: Decider): AcceptResult
  {
    if |later| > 1 && Proves(later[1], gid, key, outcome, decide)
    then before.(title := later[1].fetched.value.title, revision := later[1].fetched.value.revision, verified := true)
    else before
  }

  /** What the answer to the accept request adds. */
  function Answered(before: AcceptResult, accept: Call): AcceptResult
    requires accept.CallAccept?
  {
    var outcome := accept.outcome;
    before.(revision := if outcome.attempted || outcome.accepted then outcome.revision else before.revision,
            accepted := outcome.accepted, changed := outcome.accepted)
  }

  method CompleteGroupAcceptance(
    self: Recipient, ghost decide: Decider, gid: GroupId, key: MasterKey, outcome: AcceptOutcome, before: AcceptResult, ctx: Context
  ) returns (result: AcceptResult, err: Option<AcceptError>, later: seq<Call>)
    requires Decides(decide, self)
    ensures Completes(later, gid, key, outcome, decide) && |later| != 1
    ensures result == Completed(before, later, gid, key, outcome, decide)
    ensures EndsAs(CompletionEnding(later, gid, key, outcome, decide), 4 + |later|, err, 3, ctx)
  {
    result, later := before, [];
    if ctx(3) {
      return result, Some(Cancelled), later;
    }
    var fetch, problem := FetchSnapshot(gid, key);
    later := [CallInvalidate(gid), fetch];
    if problem.Some? {
      return result, problem, later;
    }
    var raw := fetch.fetched.value;
    if raw.revision < outcome.revision {
      return result, Some(InvalidChange), later;
    }
    var group := Converted(raw);
    var decision := Decide(group, self, decide);
    if decision.Err? || decision.value.Some? {
      return result, Some(NoLongerMember), later;
    }
    result := result.(title := raw.title, revision := group.revision, verified := true);
    if ctx(4) {
      return result, Some(Cancelled), later;
    }
    var cache := StoreInCache(group, raw.title);
    later := later + [cache];
    if !cache.stored {
      return result, Some(OperationFailed), later;
    }
    if ctx(5) {
      return result, Some(Cancelled), later;
    }
    var notify := Notify();
    later := later + [notify];
    err := if notify.notified then None else Some(OperationFailed);
  }

  method SubmitGroupAcceptance(
    self: Recipient, ghost decide: Decider, gid: GroupId, key: MasterKey, group: Group, invited: Recipient, before: AcceptResult, ctx: Context
  ) returns (result: AcceptResult, err: Option<AcceptError>, later: seq<Call>)
    requires Decides(decide, self)
    ensures Submits(later, gid, key, group.revision, invited, decide) && |later| != 2
    ensures result == Completed(Answered(before, later[0]), later[1..], gid, key, later[0].outcome, decide)
    ensures EndsAs(SubmissionEnding(later, gid, key, group.revision, invited, decide), 3 + |later|, err, 3, ctx)
  {
    result := before;
    var accept := AcceptOnce(key, group.revision, invited);
    later := [accept];
    if accept.outcome.attempted || accept.outcome.accepted {
      result := result.(revision := accept.outcome.revision);
    }
    result := result.(accepted := accept.outcome.accepted, changed := accept.outcome.accepted);
    if accept.failed {
      return result, Some(OperationFailed), later;
    }
    if !accept.outcome.accepted || !accept.outcome.verified || accept.outcome.revision != group.revision + 1
      || !accept.outcome.hasContext || !accept.outcome.hasChange
    {
      return result, Some(InvalidChange), later;
    }
    var more;
    result, err, more := CompleteGroupAcceptance(self, decide, gid, key, accept.outcome, result, ctx);
    later := [accept] + more;
    assert later[1..] == more;
  }

  /** Caching ends a run whose fetch decided that there is nothing to do. */
  lemma CachingContinues(
    b: seq<Call>, cache: Call, decide: Decider, derive: MasterKey -> Option<GroupId>, err: Option<AcceptError>, ctx: Context)
    requires |b| == 3 && Stages(b, decide, derive) && !ctx(0) && !ctx(1) && !ctx(2)
    requires var (gid, key) := Bound(b[0], derive).value; Decision(b[2], gid, key, decide) == Ok(None)
    requires cache.CallCache? && cache.cached == Converted(b[2].fetched.value) && cache.title == b[2].fetched.value.title
    requires err == if cache.stored then None else Some(OperationFailed)
    ensures Stages(b + [cache], decide, derive) && Evidence(b + [cache], decide, derive) == Evidence(b, decide, derive)
    ensures Explained(b + [cache], err, true, decide, derive, ctx)
  {
    assert (b + [cache])[3..] == [cache];
  }

  /** Submitting continues a run whose fetch decided to accept. */
  lemma SubmissionContinues(
    b: seq<Call>, later: seq<Call>, invited: Recipient, decide: Decider, derive: MasterKey -> Option<GroupId>,
    result: AcceptResult, err: Option<AcceptError>, ctx: Context)
    requires |b| == 3 && Stages(b, decide, derive) && !ctx(0) && !ctx(1) && !ctx(2)
    requires var (gid, key) := Bound(b[0], derive).value;
             && Decision(b[2], gid, key, decide) == Ok(Some(invited))
             && Submits(later, gid, key, b[2].fetched.value.revision, invited, decide) && |later| != 2
             && result == Completed(Answered(Evidence(b, decide, derive), later[0]), later[1..], gid, key, later[0].outcome, decide)
             && EndsAs(SubmissionEnding(later, gid, key, b[2].fetched.value.revision, invited, decide), 3 + |later|, err, 3, ctx)
    ensures Stages(b + later, decide, derive) && Evidence(b + later, decide, derive) == result
    ensures Explained(b + later, err, true, decide, derive, ctx)
  {
    assert (b + later)[3..] == later;
    assert |later| > 2 ==> (b + later)[5] == later[1..][1];
  }

  /** Accepts the invitation up to the final invalidation. */
  method AcceptStages(self: Recipient, ghost decide: Decider, derive: MasterKey -> Option<GroupId>, refValid: bool, ctx: Context)
    returns (result: AcceptResult, err: Option<AcceptError>, calls: seq<Call>)
    requires Decides(decide, self)
    ensures Stages(calls, decide, derive) && result == Evidence(calls, decide, derive)
    ensures Explained(calls, err, refValid, decide, derive, ctx)
  {
    result, err, calls := NO_RESULT, None, [];
    if !refValid {
      return result, Some(UnknownReference), calls;
    }
    if ctx(0) {
      return result, Some(Cancelled), calls;
    }
    var bound, problem;
    bound, problem, calls := ResolveAcceptanceKey(derive);
    if bound.None? {
      return result, Some(problem), calls;
    }
    var (gid, key) := bound.value;
    result := result.(id := gid);
    calls := calls + [CallInvalidate(gid)];
    if ctx(1) {
      return result, Some(Cancelled), calls;
    }
    var fetch, broken := FetchSnapshot(gid, key);
    calls := calls + [fetch];
    if broken.Some? {
      return result, broken, calls;
    }
    var raw := fetch.fetched.value;
    var group := Converted(raw);
    result := result.(revision := group.revision);
    var decision := Decide(group, self, decide);
    if decision.Err? {
      return result, Some(Refused(decision.error)), calls;
    }
    var noop := decision.value.None?;
    if noop {
      result := result.(title := raw.title, revision := group.revision, verified := true);
    }
    if ctx(2) {
      return result, Some(Cancelled), calls;
    }
    if noop {
      var cache := StoreInCache(group, raw.title);
      err := if cache.stored then None else Some(OperationFailed);
      CachingContinues(calls, cache, decide, derive, err, ctx);
      return result, err, calls + [cache];
    }
    var later;
    ghost var before := calls;
    result, err, later := SubmitGroupAcceptance(self, decide, gid, key, group, decision.value.value, result, ctx);
    calls := calls + later;
    SubmissionContinues(before, later, decision.value.value, decide, derive, result, err, ctx);
  }

  /** A whole run: its stages b, and the invalidation on exit once an ID was exposed. */
  ghost predicate AcceptRun(
    b: seq<Call>, calls: seq<Call>, result: AcceptResult, err: Option<AcceptError>,
    decide: Decider, derive: MasterKey -> Option<GroupId>)
  {
    && Stages(b, decide, derive) && result == Evidence(b, decide, derive)
    && calls == (if |b| > 1 then b + [b[1]] else b)
    && (|b| == 1 ==> Bound(b[0], derive).None?)
    && (err.None? ==> (|b| == 4 && b[3].CallCache? && b[3].stored) || (|b| == 8 && b[7].notified))
  }

  method AcceptGroupWithOperations(self: Recipient, derive: MasterKey -> Option<GroupId>, refValid: bool, ctx: Context)
    returns (result: AcceptResult, err: Option<AcceptError>, calls: seq<Call>, ghost b: seq<Call>)
    ensures AcceptRun(b, calls, result, err, DecideFor(self), derive)
    ensures Explained(b, err, refValid, DecideFor(self), derive, ctx)
    ensures result.changed == result.accepted && (err.None? ==> result.verified)
    ensures result.id != "" ==> |calls| > 1 && calls[|calls| - 1] == CallInvalidate(result.id)
  {
    result, err, calls := AcceptStages(self, DecideFor(self), derive, refValid, ctx);
    b := calls;
    if |calls| > 1 {
      calls := calls + [CallInvalidate(result.id)];
    }
    ChangedEqualsAccepted(b, calls, result, err, DecideFor(self), derive);
    if err.None? {
      var _ := VerifiedByLastFetch(b, calls, result, err, DecideFor(self), derive);
    }
    if result.id != "" {
      ExposedIdIsBound(b, calls, result, err, DecideFor(self), derive);
    }
  }

  // ----- What every run keeps, whatever decides -----

  lemma StageKinds(b: seq<Call>, decide: Decider, derive: MasterKey -> Option<GroupId>, i: nat)
    requires Stages(b, decide, derive) && i < |b|
    ensures b[i].CallAccept? ==> i == 3
    ensures b[i].CallNotify? <==> i == 7
    ensures b[i].CallFetch? <==> i == 2 || i == 5
    ensures b[i].CallInvalidate? <==> i == 1 || i == 4
  {
  }

  /** The server is asked to accept at most once, and members are notified at most once. */
  lemma AcceptedAndNotifiedOnce(
    b: seq<Call>, calls: seq<Call>, result: AcceptResult, err: Option<AcceptError>, decide: Decider, derive: MasterKey -> Option<GroupId>, i: nat, j: nat)
    requires AcceptRun(b, calls, result, err, decide, derive) && i < j < |calls|
    ensures !(calls[i].CallAccept? && calls[j].CallAccept?)
    ensures !(calls[i].CallNotify? && calls[j].CallNotify?)
  {
    StageKinds(b, decide, derive, i);
    if j < |b| {
      StageKinds(b, decide, derive, j);
    }
  }

  /** Asking to accept follows a fetch that decided for it, at that revision and as that identity. */
  lemma AcceptStage(b: seq<Call>, decide: Decider, derive: MasterKey -> Option<GroupId>)
    requires Stages(b, decide, derive) && |b| > 3 && b[3].CallAccept?
    ensures Fetched(b[2]) && b[2].fetchKey == b[3].acceptKey
    ensures b[3].revision == Converted(b[2].fetched.value).revision
    ensures decide(Converted(b[2].fetched.value)) == Ok(Some(b[3].identity))
    ensures SnapshotOk(b[2].fetched, Evidence(b, decide, derive).id, b[3].acceptKey)
  {
  }

  lemma AcceptFollowsDecision(
    b: seq<Call>, calls: seq<Call>, result: AcceptResult, err: Option<AcceptError>, decide: Decider, derive: MasterKey -> Option<GroupId>, i: nat)
    requires AcceptRun(b, calls, result, err, decide, derive) && i < |calls| && calls[i].CallAccept?
    ensures i > 0 && Fetched(calls[i - 1]) && calls[i - 1].fetchKey == calls[i].acceptKey
    ensures calls[i].revision == Converted(calls[i - 1].fetched.value).revision
    ensures decide(Converted(calls[i - 1].fetched.value)) == Ok(Some(calls[i].identity))
    ensures calls[i - 1].fetched.value.gid == result.id && calls[i - 1].fetched.value.key == calls[i].acceptKey
  {
    StageKinds(b, decide, derive, i);
    assert i == 3 && calls[3] == b[3] && calls[2] == b[2];
    AcceptStage(b, decide, derive);
  }

  lemma NotifyStage(b: seq<Call>, decide: Decider, derive: MasterKey -> Option<GroupId>)
    requires Stages(b, decide, derive) && |b| == 8
    ensures Confirmed(b[3]) && Fetched(b[5])
    ensures decide(Converted(b[5].fetched.value)) == Ok(None) && b[5].fetched.value.revision >= b[3].outcome.revision
    ensures b[6].CallCache? && b[6].stored && b[6].cached == Converted(b[5].fetched.value)
  {
  }

  /** Members are notified only after (a) the server confirmed the acceptance, (f) a fresh fetch at that
      revision or later decided that there is nothing left to do, and (c) that group was cached. */
  lemma NotifiedAfterProof(
    b: seq<Call>, calls: seq<Call>, result: AcceptResult, err: Option<AcceptError>, decide: Decider, derive: MasterKey -> Option<GroupId>, i: nat
  ) returns (a: nat, f: nat, c: nat)
    requires AcceptRun(b, calls, result, err, decide, derive) && i < |calls| && calls[i].CallNotify?
    ensures a < f < c < i && calls[a].CallAccept? && !calls[a].failed
    ensures var outcome := calls[a].outcome;
            outcome.accepted && outcome.verified && outcome.revision == calls[a].revision + 1 && outcome.hasContext && outcome.hasChange
    ensures Fetched(calls[f])
    ensures decide(Converted(calls[f].fetched.value)) == Ok(None)
    ensures calls[f].fetched.value.revision >= calls[a].outcome.revision
    ensures calls[c].CallCache? && calls[c].stored && calls[c].cached == Converted(calls[f].fetched.value)
  {
    StageKinds(b, decide, derive, i);
    NotifyStage(b, decide, derive);
    a, f, c := 3, 5, 6;
  }

  /** The result says accepted, and changed, exactly when the server's answer did. */
  lemma ChangedEqualsAccepted(
    b: seq<Call>, calls: seq<Call>, result: AcceptResult, err: Option<AcceptError>, decide: Decider, derive: MasterKey -> Option<GroupId>)
    requires AcceptRun(b, calls, result, err, decide, derive)
    ensures result.changed == result.accepted
    ensures result.accepted <==> exists i :: 0 <= i < |calls| && calls[i].CallAccept? && calls[i].outcome.accepted
  {
    if result.accepted {
      assert calls[3].CallAccept? && calls[3].outcome.accepted;
    }
    if i :| 0 <= i < |calls| && calls[i].CallAccept? && calls[i].outcome.accepted {
      StageKinds(b, decide, derive, i);
    }
  }

  /** The fetch whose snapshot decided that there is nothing to do; no fetch or acceptance follows. */
  lemma ProofStage(b: seq<Call>, decide: Decider, derive: MasterKey -> Option<GroupId>) returns (f: nat)
    requires Stages(b, decide, derive) && Proof(b, decide, derive).Some?
    ensures f < |b| && b[f].CallFetch? && b[f].fetched == Proof(b, decide, derive)
    ensures decide(Converted(b[f].fetched.value)) == Ok(None)
    ensures f == 5 || (f == 2 && |b| <= 4 && (|b| == 4 ==> b[3].CallCache?))
    ensures b[f].fetched.value.gid == Evidence(b, decide, derive).id
  {
    var (gid, key) := Bound(b[0], derive).value;
    f := if Decision(b[2], gid, key, decide) == Ok(None) then 2 else 5;
  }

  lemma SuccessIsVerified(b: seq<Call>, decide: Decider, derive: MasterKey -> Option<GroupId>)
    requires Stages(b, decide, derive)
    requires (|b| == 4 && b[3].CallCache? && b[3].stored) || (|b| == 8 && b[7].notified)
    ensures Evidence(b, decide, derive).verified
  {
  }

  lemma VerifiedEvidence(b: seq<Call>, decide: Decider, derive: MasterKey -> Option<GroupId>)
    requires Stages(b, decide, derive) && Evidence(b, decide, derive).verified
    ensures Proof(b, decide, derive).Some?
    ensures Evidence(b, decide, derive).title == Proof(b, decide, derive).value.title
    ensures Evidence(b, decide, derive).revision == Proof(b, decide, derive).value.revision
  {
  }

  /** Success implies verified, and verified means that the last fetch (f), after any acceptance, decided
      that there is nothing to do; its title and revision are reported. */
  lemma VerifiedByLastFetch(
    b: seq<Call>, calls: seq<Call>, result: AcceptResult, err: Option<AcceptError>, decide: Decider, derive: MasterKey -> Option<GroupId>
  ) returns (f: nat)
    requires AcceptRun(b, calls, result, err, decide, derive) && (err.None? || result.verified)
    ensures result.verified
    ensures f < |calls| && Fetched(calls[f])
    ensures decide(Converted(calls[f].fetched.value)) == Ok(None)
    ensures result.title == calls[f].fetched.value.title && result.revision == calls[f].fetched.value.revision
    ensures calls[f].fetched.value.gid == result.id
    ensures forall i :: f < i < |calls| ==> !calls[i].CallAccept? && !calls[i].CallFetch?
  {
    if err.None? {
      SuccessIsVerified(b, decide, derive);
    }
    VerifiedEvidence(b, decide, derive);
    f := ProofStage(b, decide, derive);
    forall i | f < i < |calls| ensures !calls[i].CallAccept? && !calls[i].CallFetch? {
      if i < |b| { StageKinds(b, decide, derive, i); }
    }
  }

  /** An ID is exposed only if it derives from the stored key, and then the cached group is invalidated
      before each fetch and on exit. */
  lemma ExposedIdIsBound(
    b: seq<Call>, calls: seq<Call>, result: AcceptResult, err: Option<AcceptError>, decide: Decider, derive: MasterKey -> Option<GroupId>)
    requires AcceptRun(b, calls, result, err, decide, derive) && result.id != ""
    ensures |calls| > 1 && calls[0].CallResolve? && calls[0].resolved.Some?
    ensures calls[0].resolved.value.0 == result.id && derive(calls[0].resolved.value.1) == Some(result.id)
    ensures calls[|calls| - 1] == CallInvalidate(result.id)
    ensures forall i :: 0 < i < |calls| && calls[i].CallFetch? ==> calls[i - 1] == CallInvalidate(result.id)
  {
    forall i | 0 < i < |calls| && calls[i].CallFetch? ensures calls[i - 1] == CallInvalidate(result.id) {
      if i < |b| { StageKinds(b, decide, derive, i); }
    }
  }

  // ----- What that means for the own membership -----

  /** An accept request is made only for someone who is invited and no full member. */
  lemma AcceptOnlyInvited(
    b: seq<Call>, calls: seq<Call>, result: AcceptResult, err: Option<AcceptError>, self: Recipient, derive: MasterKey -> Option<GroupId>, i: nat)
    requires AcceptRun(b, calls, result, err, DecideFor(self), derive) && i < |calls| && calls[i].CallAccept?
    ensures i > 0 && Fetched(calls[i - 1])
    ensures SelfMembership(Converted(calls[i - 1].fetched.value), self).0 == Invited
  {
    AcceptFollowsDecision(b, calls, result, err, DecideFor(self), derive, i);
    var k := AcceptedInvitation(Converted(calls[i - 1].fetched.value), self);
  }

  /** A verified result, as after every success, was proved by a fetch that shows a full membership. */
  lemma VerifiedMeansMember(
    b: seq<Call>, calls: seq<Call>, result: AcceptResult, err: Option<AcceptError>, self: Recipient, derive: MasterKey -> Option<GroupId>)
    requires AcceptRun(b, calls, result, err, DecideFor(self), derive) && (err.None? || result.verified)
    ensures exists f :: 0 <= f < |calls| && Fetched(calls[f])
              && SelfMembership(Converted(calls[f].fetched.value), self).0 == FullMember
              && result.revision == calls[f].fetched.value.revision
  {
    var f := VerifiedByLastFetch(b, calls, result, err, DecideFor(self), derive);
    NoOpIffFullMember(Converted(calls[f].fetched.value), self);
  }
}
