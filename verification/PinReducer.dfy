/** Pinned messages from a bounded inbox snapshot (internal/app/pin_list.go, internal/signal/pin_check.go). */
module PinReducer {
  import opened Wrappers
  import opened Sorting
  import Inbox

  /** The canonical ACI a text is, if it is one. */
  type Aci = Option<Uuid>

  datatype Operation = PinOperation | UnpinOperation

  /** What an event is to the reducer. Other stands for the other events with an envelope. */
  datatype Content =
    | Pin(author: Aci, target: nat, seconds: nat, forever: bool)
    | Unpin(author: Aci, target: nat)
    | Delete(target: nat)
    | Unsupported(kind: string)
    | Other
    | NoEnvelope

  /** An inbox entry with the sender, timestamp and chat of its envelope; received is None for the zero
      time, and in nanoseconds. */
  datatype PinEntry = PinEntry(
    id: nat, chat: string, envelopeChat: string, sender: Aci, timestamp: nat, received: Option<int>, content: Content)

  /** A target message, by author and sent timestamp. */
  datatype Reference = Reference(author: Uuid, timestamp: nat)

  /** A control message, by sender and sent timestamp. */
  datatype Identity = Identity(sender: Uuid, timestamp: nat)

  datatype Payload = Payload(reference: Reference, operation: Operation, seconds: nat, forever: bool)

  datatype Observation = Observation(
    entryId: nat, identity: Identity, payload: Payload, received: int,
    expiresAt: Option<int>, expiryReached: bool, targetDeleted: bool)

  const NANOSECONDS := 1_000_000_000
  const TWO_TO_THE_32 := 0x1_0000_0000
  const TWO_TO_THE_63 := 0x8000_0000_0000_0000
  const TWO_TO_THE_64 := 0x1_0000_0000_0000_0000

  /** A 64-bit signed integer, as time.Duration is. */
  function Int64(x: int): int {
    (x + TWO_TO_THE_63) % TWO_TO_THE_64 - TWO_TO_THE_63
  }

  /** The product doesn't wrap around for any 32-bit number of seconds. */
  lemma DurationFits(seconds: nat)
    requires seconds < TWO_TO_THE_32
    ensures Int64(seconds * NANOSECONDS) == seconds * NANOSECONDS
  {
    assert seconds * NANOSECONDS < TWO_TO_THE_63;
  }

  // ----- Checks -----

  predicate Canonical(aci: Aci) {
    aci.Some? && aci.value != NIL_UUID
  }

  predicate InChat(chat: string, e: PinEntry) {
    e.content != NoEnvelope && e.envelopeChat == chat && e.chat == chat
  }

  predicate IsControl(e: PinEntry) {
    e.content.Pin? || e.content.Unpin?
  }

  /** A well-formed pin (for some seconds or forever, not both) or unpin. */
  predicate ValidControl(e: PinEntry) {
    && IsControl(e) && Canonical(e.sender) && Canonical(e.content.author)
    && e.timestamp != 0 && e.received.Some? && e.content.target != 0
    && (e.content.Pin? ==> (e.content.seconds > 0) != e.content.forever)
  }

  predicate ValidDelete(e: PinEntry) {
    e.content.Delete? && Canonical(e.sender) && e.timestamp != 0 && e.content.target != 0 && e.received.Some?
  }

  function IdentityOf(e: PinEntry): Identity
    requires ValidControl(e)
  {
    Identity(e.sender.value, e.timestamp)
  }

  function PayloadOf(e: PinEntry): Payload
    requires ValidControl(e)
  {
    var reference := Reference(e.content.author.value, e.content.target);
    match e.content
    case Pin(_, _, seconds, forever) => Payload(reference, PinOperation, seconds, forever)
    case Unpin(_, _) => Payload(reference, UnpinOperation, 0, false)
  }

  /** The observation of a control, which expires its seconds after it was received. */
  function Observed(e: PinEntry, now: int): Observation
    requires ValidControl(e)
  {
    var expires := if e.content.Pin? && !e.content.forever
                   then Some(e.received.value + Int64(e.content.seconds * NANOSECONDS)) else None;
    Observation(e.id, IdentityOf(e), PayloadOf(e), e.received.value, expires, expires.Some? && expires.value <= now, false)
  }

  // ----- What the reducer computes -----

  /** The payload with which an identity was first used. */
  function FirstUse(chat: string, entries: seq<PinEntry>, identity: Identity): Option<Payload> {
    if entries == [] then None
    else
      var e, first := entries[|entries| - 1], FirstUse(chat, entries[..|entries| - 1], identity);
      if first.None? && InChat(chat, e) && ValidControl(e) && IdentityOf(e) == identity then Some(PayloadOf(e)) else first
  }

  function Newest(chat: string, now: int, entries: seq<PinEntry>, reference: Reference): Option<Observation> {
    if entries == [] then None
    else
      var e, front := entries[|entries| - 1], entries[..|entries| - 1];
      if && InChat(chat, e) && ValidControl(e) && PayloadOf(e).reference == reference
         && FirstUse(chat, front, IdentityOf(e)).None?
      then Some(Observed(e, now)) else Newest(chat, now, front, reference)
  }

  function Conflicts(chat: string, entries: seq<PinEntry>): nat {
    if entries == [] then 0
    else
      var e, front := entries[|entries| - 1], entries[..|entries| - 1];
      Conflicts(chat, front) +
      if InChat(chat, e) && ValidControl(e) && FirstUse(chat, front, IdentityOf(e)) !in {None, Some(PayloadOf(e))} then 1 else 0
  }

  predicate Ignored(chat: string, e: PinEntry) {
    InChat(chat, e)
    && (e.content == Unsupported("invalidPin") || (e.content.Delete? && !ValidDelete(e)) || (IsControl(e) && !ValidControl(e)))
  }

  function IgnoredInvalid(chat: string, entries: seq<PinEntry>): nat {
    if entries == [] then 0
    else IgnoredInvalid(chat, entries[..|entries| - 1]) + if Ignored(chat, entries[|entries| - 1]) then 1 else 0
  }

  predicate Deletes(chat: string, e: PinEntry, reference: Reference) {
    InChat(chat, e) && ValidDelete(e) && Reference(e.sender.value, e.content.target) == reference
  }

  predicate Deleted(chat: string, entries: seq<PinEntry>, reference: Reference) {
    exists e :: e in entries && Deletes(chat, e, reference)
  }

  // ----- The reducer -----

  predicate ReferenceLess(a: Reference, b: Reference) {
    a.author < b.author || (a.author == b.author && a.timestamp < b.timestamp)
  }

  lemma ReferenceLessIsStrictOrder()
    ensures StrictOrder(ReferenceLess)
  {
  }

  class Reducer {
    const chat: string
    const now: int
    var observations: map<Reference, Observation>
    var identities: map<Identity, Payload>
    var deleted: set<Reference>
    var ignoredInvalid: nat
    var conflicts: nat
    var output: seq<Observation>

    /** The maps and counters are those of the entries observed so far. */
    ghost predicate Reduced(entries: seq<PinEntry>)
      reads this
    {
      && (forall r :: (r in observations <==> Newest(chat, now, entries, r).Some?)
                      && (r in observations ==> Newest(chat, now, entries, r) == Some(observations[r])))
      && (forall i :: (i in identities <==> FirstUse(chat, entries, i).Some?)
                      && (i in identities ==> FirstUse(chat, entries, i) == Some(identities[i])))
      && (forall r :: r in deleted <==> Deleted(chat, entries, r))
      && ignoredInvalid == IgnoredInvalid(chat, entries)
      && conflicts == Conflicts(chat, entries)
      && output == []
    }

    constructor (chat: string, now: int)
      ensures this.chat == chat && this.now == now && Reduced([])
    {
      this.chat, this.now := chat, now;
      observations, identities, deleted, ignoredInvalid, conflicts, output := map[], map[], {}, 0, 0, [];
    }

    method Observe(e: PinEntry, ghost before: seq<PinEntry>)
      requires Reduced(before)
      modifies this
      ensures Reduced(before + [e])
    {
      Along(before, e);
      if e.content == NoEnvelope || e.envelopeChat != chat || e.chat != chat {
        return;
      }
      match e.content {
        case Unsupported(kind) =>
          if kind == "invalidPin" {
            ignoredInvalid := ignoredInvalid + 1;
          }
        case Delete(_) => ObserveDelete(e, before);
        case Pin(_, _, _, _) => ObserveValid(e, before);
        case Unpin(_, _) => ObserveValid(e, before);
        case _ =>
      }
    }

    method ObserveDelete(e: PinEntry, ghost before: seq<PinEntry>)
      requires Reduced(before) && InChat(chat, e) && e.content.Delete?
      modifies this
      ensures Reduced(before + [e])
    {
      Along(before, e);
      if !ValidDelete(e) {
        ignoredInvalid := ignoredInvalid + 1;
        return;
      }
      deleted := deleted + {Reference(e.sender.value, e.content.target)};
    }

    method ObserveValid(e: PinEntry, ghost before: seq<PinEntry>)
      requires Reduced(before) && InChat(chat, e) && IsControl(e)
      modifies this
      ensures Reduced(before + [e])
    {
      Along(before, e);
      if !ValidControl(e) {
        ignoredInvalid := ignoredInvalid + 1;
        return;
      }
      var identity, payload := IdentityOf(e), PayloadOf(e);
      if identity in identities {
        if identities[identity] != payload {
          conflicts := conflicts + 1;
        }
        return;
      }
      identities := identities[identity := payload];
      observations := observations[payload.reference := Observed(e, now)];
    }

    lemma Along(before: seq<PinEntry>, e: PinEntry)
      ensures (before + [e])[..|before|] == before
      ensures forall r :: Deleted(chat, before + [e], r) <==> Deleted(chat, before, r) || Deletes(chat, e, r)
    {
    }

    /** Lists the observations by target, whatever order the map is traversed in. */
    method Finalize(ghost entries: seq<PinEntry>)
      requires Reduced(entries)
      modifies this`output
      ensures IsOutput(chat, now, entries, output)
    {
      ReferenceLessIsStrictOrder();
      var keys := SortedKeys(ReferenceLess, observations.Keys);
      assert forall i :: 0 <= i < |keys| ==> keys[i] in Elements(keys);
      for i := 0 to |keys|
        invariant |output| == i
        invariant forall k :: 0 <= k < i ==>
                    keys[k] in observations && output[k] == observations[keys[k]].(targetDeleted := keys[k] in deleted)
      {
        output := output + [observations[keys[i]].(targetDeleted := keys[i] in deleted)];
      }
      forall r | Newest(chat, now, entries, r).Some? ensures r in keys {
        assert r in Elements(keys);
      }
      OutputOf(chat, now, entries, keys, output);
    }
  }

  lemma OutputOf(chat: string, now: int, entries: seq<PinEntry>, keys: seq<Reference>, output: seq<Observation>)
    requires Ascending(ReferenceLess, keys) && |output| == |keys|
    requires forall k :: 0 <= k < |keys| ==> Listed(chat, now, entries, keys[k]) == Some(output[k])
    requires forall r :: Newest(chat, now, entries, r).Some? ==> r in keys
    ensures IsOutput(chat, now, entries, output)
  {
    forall k | 0 <= k < |keys| ensures output[k].payload.reference == keys[k] {
      NewestTarget(chat, now, entries, keys[k]);
    }
    forall r | Newest(chat, now, entries, r).Some? ensures exists i :: 0 <= i < |output| && output[i].payload.reference == r {
      var k :| 0 <= k < |keys| && keys[k] == r;
      assert output[k].payload.reference == r;
    }
  }

  lemma {:induction false} NewestTarget(chat: string, now: int, entries: seq<PinEntry>, reference: Reference)
    requires Newest(chat, now, entries, reference).Some?
    ensures Newest(chat, now, entries, reference).value.payload.reference == reference
  {
    var e, front := entries[|entries| - 1], entries[..|entries| - 1];
    if !(InChat(chat, e) && ValidControl(e) && PayloadOf(e).reference == reference && FirstUse(chat, front, IdentityOf(e)).None?) {
      NewestTarget(chat, now, front, reference);
    }
  }

  /** What is listed for a target. */
  function Listed(chat: string, now: int, entries: seq<PinEntry>, reference: Reference): Option<Observation> {
    var newest := Newest(chat, now, entries, reference);
    if newest.None? then None else Some(newest.value.(targetDeleted := Deleted(chat, entries, reference)))
  }

  /** The list has what is listed for each target, strictly ascending by target. */
  ghost predicate IsOutput(chat: string, now: int, entries: seq<PinEntry>, output: seq<Observation>) {
    && (forall i, j :: 0 <= i < j < |output| ==> ReferenceLess(output[i].payload.reference, output[j].payload.reference))
    && (forall i :: 0 <= i < |output| ==> Listed(chat, now, entries, output[i].payload.reference) == Some(output[i]))
    && forall r :: Newest(chat, now, entries, r).Some? ==> exists i :: 0 <= i < |output| && output[i].payload.reference == r
  }

  // ----- The snapshot -----

  predicate AscendingIds(entries: seq<PinEntry>) {
    forall i, j :: 0 <= i < j < |entries| ==> entries[i].id < entries[j].id
  }

  predicate DistinctIds(entries: seq<PinEntry>) {
    forall i, j :: 0 <= i < j < |entries| ==> entries[i].id != entries[j].id
  }

  datatype Snapshot = Snapshot(entries: seq<PinEntry>, truncated: bool, scanned: nat, firstEntryId: nat, lastEntryId: nat)

  lemma Inserted(sorted: seq<PinEntry>, i: nat, e: PinEntry, r: seq<PinEntry>)
    requires i <= |sorted| && r == sorted[..i] + [e] + sorted[i..]
    ensures multiset(r) == multiset(sorted) + multiset{e}
  {
    assert sorted == sorted[..i] + sorted[i..];
  }

  lemma InsertedAscending(sorted: seq<PinEntry>, i: nat, e: PinEntry, r: seq<PinEntry>)
    requires AscendingIds(sorted) && i <= |sorted| && r == sorted[..i] + [e] + sorted[i..]
    requires forall k :: 0 <= k < i ==> sorted[k].id < e.id
    requires i < |sorted| ==> e.id < sorted[i].id
    ensures AscendingIds(r)
  {
    assert forall k :: i <= k < |sorted| ==> sorted[i].id <= sorted[k].id;
    forall a, b | 0 <= a < b < |r| ensures r[a].id < r[b].id {
      assert r[a] == if a < i then sorted[a] else if a == i then e else sorted[a - 1];
      assert r[b] == if b < i then sorted[b] else if b == i then e else sorted[b - 1];
    }
  }

  /** Inserts an entry before the first one with a higher ID. */
  method InsertById(sorted: seq<PinEntry>, e: PinEntry) returns (r: seq<PinEntry>)
    requires AscendingIds(sorted) && forall x :: x in sorted ==> x.id != e.id
    ensures AscendingIds(r) && multiset(r) == multiset(sorted) + multiset{e}
  {
    var i := 0;
    while i < |sorted| && sorted[i].id < e.id
      invariant 0 <= i <= |sorted| && forall k :: 0 <= k < i ==> sorted[k].id < e.id
    {
      i := i + 1;
    }
    assert i < |sorted| ==> sorted[i] in sorted;
    r := sorted[..i] + [e] + sorted[i..];
    Inserted(sorted, i, e, r);
    InsertedAscending(sorted, i, e, r);
  }

  method SortById(entries: seq<PinEntry>) returns (r: seq<PinEntry>)
    requires DistinctIds(entries)
    ensures AscendingIds(r) && multiset(r) == multiset(entries)
  {
    r := [];
    for i := 0 to |entries|
      invariant AscendingIds(r) && multiset(r) == multiset(entries[..i])
    {
      assert entries[..i + 1] == entries[..i] + [entries[i]];
      forall x | x in r ensures x.id != entries[i].id {
        assert x in multiset(r);
        assert x in entries[..i];
      }
      r := InsertById(r, entries[i]);
    }
    assert entries[..|entries|] == entries;
  }

  /** The newest entries are kept: as many as the limit allows, and none is older than a dropped one. */
  ghost predicate KeepsNewest(entries: seq<PinEntry>, limit: nat, kept: seq<PinEntry>, dropped: seq<PinEntry>) {
    && AscendingIds(kept) && multiset(dropped) + multiset(kept) == multiset(entries)
    && |kept| == (if |entries| < limit then |entries| else limit)
    && forall d, e :: d in dropped && e in kept ==> d.id < e.id
  }

  lemma SameLength(a: seq<PinEntry>, b: seq<PinEntry>)
    requires multiset(a) == multiset(b)
    ensures |a| == |b|
  {
    assert |multiset(a)| == |multiset(b)|;
  }

  lemma CutSorted(entries: seq<PinEntry>, sorted: seq<PinEntry>, limit: nat, n: nat)
    requires AscendingIds(sorted) && multiset(sorted) == multiset(entries)
    requires n == if |sorted| > limit then |sorted| - limit else 0
    ensures |sorted| == |entries| && KeepsNewest(entries, limit, sorted[n..], sorted[..n])
  {
    SameLength(sorted, entries);
    assert sorted == sorted[..n] + sorted[n..];
    var kept, dropped := sorted[n..], sorted[..n];
    forall d, e | d in dropped && e in kept ensures d.id < e.id {
      var a, b :| 0 <= a < n && dropped[a] == d && 0 <= b < |kept| && kept[b] == e;
      assert sorted[a] == d && sorted[n + b] == e;
    }
  }

  function Scan(kept: seq<PinEntry>, truncated: bool): Snapshot {
    Snapshot(kept, truncated, |kept|, if kept == [] then 0 else kept[0].id, if kept == [] then 0 else kept[|kept| - 1].id)
  }

  /** Keeps the newest limit entries. */
  method BoundSnapshot(entries: seq<PinEntry>, limit: nat) returns (s: Snapshot, ghost dropped: seq<PinEntry>)
    requires DistinctIds(entries)
    ensures KeepsNewest(entries, limit, s.entries, dropped)
    ensures s == Scan(s.entries, |entries| > limit)
  {
    var sorted := SortById(entries);
    var n := if |sorted| > limit then |sorted| - limit else 0;
    CutSorted(entries, sorted, limit, n);
    var kept := sorted[n..];
    dropped := sorted[..n];
    s := Snapshot(kept, |sorted| > limit, |kept|, 0, 0);
    if |kept| > 0 {
      s := s.(firstEntryId := kept[0].id, lastEntryId := kept[|kept| - 1].id);
    }
  }

  const DEFAULT_SCAN_LIMIT := 1000
  const MAX_SCAN_LIMIT := 10000

  function ScanLimit(requested: int): Option<nat> {
    if requested < 0 || requested > MAX_SCAN_LIMIT then None
    else Some(if requested == 0 then DEFAULT_SCAN_LIMIT else requested)
  }

  /** Asking the inbox for one more than the limit is enough to keep the newest entries of the whole chat
      and to know whether there are older ones. */
  lemma NewestOfChat(all: seq<PinEntry>, limit: nat)
    requires AscendingIds(all)
    ensures var asked := Inbox.Last(all, limit + 1);
            && (|asked| > limit <==> |all| > limit)
            && Inbox.Last(asked, limit) == Inbox.Last(all, limit)
            && forall kept, dropped :: KeepsNewest(asked, limit, kept, dropped) ==> kept == Inbox.Last(all, limit)
  {
    var asked := Inbox.Last(all, limit + 1);
    forall kept, dropped | KeepsNewest(asked, limit, kept, dropped) ensures kept == Inbox.Last(all, limit) {
      KeptIsLast(asked, limit, kept, dropped);
    }
  }

  function EntryIds(entries: seq<PinEntry>): seq<nat> {
    seq(|entries|, i requires 0 <= i < |entries| => entries[i].id)
  }

  lemma IdsElements(a: seq<PinEntry>, b: seq<PinEntry>, id: nat)
    requires multiset(a) == multiset(b) && id in EntryIds(a)
    ensures id in EntryIds(b)
  {
    var k :| 0 <= k < |a| && EntryIds(a)[k] == id;
    assert a[k] in multiset(b);
    var j :| 0 <= j < |b| && b[j] == a[k];
    assert EntryIds(b)[j] == id;
  }

  lemma SortedUnique(a: seq<PinEntry>, b: seq<PinEntry>)
    requires AscendingIds(a) && AscendingIds(b) && multiset(a) == multiset(b)
    ensures a == b
  {
    forall id: nat ensures id in Elements(EntryIds(a)) <==> id in Elements(EntryIds(b)) {
      if id in EntryIds(a) { IdsElements(a, b, id); }
      if id in EntryIds(b) { IdsElements(b, a, id); }
    }
    NatLessIsStrictOrder();
    AscendingUnique(NatLess, EntryIds(a), EntryIds(b));
    SameLength(a, b);
    forall k | 0 <= k < |a| ensures a[k] == b[k] {
      assert a[k] in multiset(b);
      var j :| 0 <= j < |b| && b[j] == a[k];
      assert EntryIds(a)[k] == EntryIds(b)[k] == b[k].id;
    }
  }

  lemma KeptIsLast(entries: seq<PinEntry>, limit: nat, kept: seq<PinEntry>, dropped: seq<PinEntry>)
    requires AscendingIds(entries) && |entries| <= limit + 1 && KeepsNewest(entries, limit, kept, dropped)
    ensures kept == Inbox.Last(entries, limit)
  {
    var sorted := dropped + kept;
    assert multiset(sorted) == multiset(dropped) + multiset(kept);
    SameLength(sorted, entries);
    forall i, j | 0 <= i < j < |sorted| ensures sorted[i].id < sorted[j].id {
      if i < |dropped| { assert sorted[i] in dropped && sorted[j] in kept; }
    }
    SortedUnique(sorted, entries);
    assert sorted[|dropped|..] == kept;
  }

  datatype PinState = PinState(snapshot: Snapshot, observations: seq<Observation>, ignoredInvalid: nat, conflicts: nat)

  /** Inspects a chat, given all its entries in the inbox: the newest up to the scan limit, reduced. */
  method PinList(chat: string, now: int, all: seq<PinEntry>, requested: int) returns (r: Option<PinState>)
    requires AscendingIds(all)
    ensures r.None? <==> requested < 0 || requested > 10000
    ensures r.Some? ==>
              var limit, state := if requested == 0 then 1000 else requested, r.value;
              var newest := Inbox.Last(all, limit);
              && state.snapshot == Scan(newest, |all| > limit)
              && IsOutput(chat, now, newest, state.observations)
              && state.ignoredInvalid == IgnoredInvalid(chat, newest) && state.conflicts == Conflicts(chat, newest)
  {
    var limit := ScanLimit(requested);
    if limit.None? {
      return None;
    }
    var entries := Inbox.Last(all, limit.value + 1);
    NewestOfChat(all, limit.value);
    ghost var dropped;
    var snapshot;
    snapshot, dropped := BoundSnapshot(entries, limit.value);
    var reducer := Reduce(chat, now, snapshot.entries);
    r := Some(PinState(snapshot, reducer.output, reducer.ignoredInvalid, reducer.conflicts));
  }

  method Reduce(chat: string, now: int, entries: seq<PinEntry>) returns (reducer: Reducer)
    ensures fresh(reducer) && IsOutput(chat, now, entries, reducer.output)
    ensures reducer.ignoredInvalid == IgnoredInvalid(chat, entries) && reducer.conflicts == Conflicts(chat, entries)
  {
    reducer := new Reducer(chat, now);
    for i := 0 to |entries|
      invariant reducer.chat == chat && reducer.now == now && reducer.Reduced(entries[..i])
    {
      assert entries[..i + 1] == entries[..i] + [entries[i]];
      reducer.Observe(entries[i], entries[..i]);
    }
    assert entries[..|entries|] == entries;
    reducer.Finalize(entries);
  }

  // ----- What the list means -----

  predicate Uses(chat: string, e: PinEntry, identity: Identity) {
    InChat(chat, e) && ValidControl(e) && IdentityOf(e) == identity
  }

  /** A valid control that is the first of the chat to use its identity. */
  predicate IsFirstUse(chat: string, entries: seq<PinEntry>, i: nat)
    requires i < |entries|
  {
    && InChat(chat, entries[i]) && ValidControl(entries[i])
    && forall k :: 0 <= k < i ==> !Uses(chat, entries[k], IdentityOf(entries[i]))
  }

  lemma {:induction false} NotUsed(chat: string, entries: seq<PinEntry>, identity: Identity)
    ensures FirstUse(chat, entries, identity).None? <==> forall k :: 0 <= k < |entries| ==> !Uses(chat, entries[k], identity)
  {
    if entries != [] {
      NotUsed(chat, entries[..|entries| - 1], identity);
    }
  }

  lemma {:induction false} UsedFirst(chat: string, entries: seq<PinEntry>, i: nat)
    requires i < |entries| && IsFirstUse(chat, entries, i)
    ensures FirstUse(chat, entries, IdentityOf(entries[i])) == Some(PayloadOf(entries[i]))
  {
    var front := entries[..|entries| - 1];
    if i < |front| {
      UsedFirst(chat, front, i);
    } else {
      NotUsed(chat, front, IdentityOf(entries[i]));
    }
  }

  predicate Concerns(chat: string, entries: seq<PinEntry>, reference: Reference, i: nat)
    requires i < |entries|
  {
    IsFirstUse(chat, entries, i) && PayloadOf(entries[i]).reference == reference
  }

  lemma ConcernsLast(chat: string, entries: seq<PinEntry>, reference: Reference)
    requires entries != []
    ensures var e, front := entries[|entries| - 1], entries[..|entries| - 1];
            Concerns(chat, entries, reference, |entries| - 1) <==>
            && InChat(chat, e) && ValidControl(e) && PayloadOf(e).reference == reference
            && FirstUse(chat, front, IdentityOf(e)).None?
  {
    var e := entries[|entries| - 1];
    if InChat(chat, e) && ValidControl(e) {
      NotUsed(chat, entries[..|entries| - 1], IdentityOf(e));
    }
  }

  /** The observation of a target is of its newest valid pin or unpin that doesn't reuse an identity. */
  lemma {:induction false} NewestMeaning(chat: string, now: int, entries: seq<PinEntry>, reference: Reference, i: nat)
    requires i < |entries| && Concerns(chat, entries, reference, i)
    requires forall k :: i < k < |entries| ==> !Concerns(chat, entries, reference, k)
    ensures Newest(chat, now, entries, reference) == Some(Observed(entries[i], now))
  {
    ConcernsLast(chat, entries, reference);
    var front := entries[..|entries| - 1];
    if i < |front| {
      assert !Concerns(chat, entries, reference, |entries| - 1);
      forall k | i < k < |front| ensures !Concerns(chat, front, reference, k) {
        assert !Concerns(chat, entries, reference, k);
      }
      NewestMeaning(chat, now, front, reference, i);
    }
  }

  /** A target without one isn't listed. */
  lemma {:induction false} NewestNone(chat: string, now: int, entries: seq<PinEntry>, reference: Reference)
    requires forall k :: 0 <= k < |entries| ==> !Concerns(chat, entries, reference, k)
    ensures Newest(chat, now, entries, reference) == None
  {
    if entries != [] {
      ConcernsLast(chat, entries, reference);
      var front := entries[..|entries| - 1];
      assert !Concerns(chat, entries, reference, |entries| - 1);
      forall k | 0 <= k < |front| ensures !Concerns(chat, front, reference, k) {
        assert !Concerns(chat, entries, reference, k);
      }
      NewestNone(chat, now, front, reference);
    }
  }

  /** A valid control that reuses an identity with another payload than its first use. */
  ghost predicate IsConflict(chat: string, entries: seq<PinEntry>, i: nat)
    requires i < |entries|
  {
    && InChat(chat, entries[i]) && ValidControl(entries[i])
    && exists k :: 0 <= k < i && IsFirstUse(chat, entries, k)
                   && IdentityOf(entries[k]) == IdentityOf(entries[i]) && PayloadOf(entries[k]) != PayloadOf(entries[i])
  }

  ghost function ConflictAt(chat: string, entries: seq<PinEntry>): set<nat> {
    set i: nat | i < |entries| && IsConflict(chat, entries, i)
  }

  /** An identity that was used has a first use. */
  lemma {:induction false} FirstUseOf(chat: string, entries: seq<PinEntry>, identity: Identity) returns (k: nat)
    requires FirstUse(chat, entries, identity).Some?
    ensures k < |entries| && IsFirstUse(chat, entries, k) && IdentityOf(entries[k]) == identity
    ensures FirstUse(chat, entries, identity) == Some(PayloadOf(entries[k]))
  {
    var front := entries[..|entries| - 1];
    if FirstUse(chat, front, identity).Some? {
      k := FirstUseOf(chat, front, identity);
      assert IsFirstUse(chat, entries, k);
    } else {
      k := |front|;
      NotUsed(chat, front, identity);
      assert forall j :: 0 <= j < |front| ==> front[j] == entries[j];
    }
  }

  lemma LastConflicts(chat: string, entries: seq<PinEntry>)
    requires entries != []
    ensures var e, front := entries[|entries| - 1], entries[..|entries| - 1];
            IsConflict(chat, entries, |entries| - 1) <==>
            InChat(chat, e) && ValidControl(e) && FirstUse(chat, front, IdentityOf(e)) !in {None, Some(PayloadOf(e))}
  {
    var e, front, last := entries[|entries| - 1], entries[..|entries| - 1], |entries| - 1;
    if InChat(chat, e) && ValidControl(e) {
      if FirstUse(chat, front, IdentityOf(e)).Some? {
        var k := FirstUseOf(chat, front, IdentityOf(e));
        assert IsFirstUse(chat, entries, k);
      }
      if IsConflict(chat, entries, last) {
        var k :| 0 <= k < last && IsFirstUse(chat, entries, k)
                 && IdentityOf(entries[k]) == IdentityOf(e) && PayloadOf(entries[k]) != PayloadOf(e);
        assert IsFirstUse(chat, front, k);
        UsedFirst(chat, front, k);
      }
    }
  }

  lemma FirstUseInFront(chat: string, entries: seq<PinEntry>, k: nat)
    requires k < |entries| - 1
    ensures IsFirstUse(chat, entries, k) <==> IsFirstUse(chat, entries[..|entries| - 1], k)
  {
  }

  lemma ConflictInFront(chat: string, entries: seq<PinEntry>, i: nat)
    requires i < |entries| - 1
    ensures IsConflict(chat, entries, i) <==> IsConflict(chat, entries[..|entries| - 1], i)
  {
    var front := entries[..|entries| - 1];
    forall k: nat | k < i ensures front[k] == entries[k] && (IsFirstUse(chat, entries, k) <==> IsFirstUse(chat, front, k)) {
      FirstUseInFront(chat, entries, k);
    }
  }

  lemma ConflictAtIndex(chat: string, entries: seq<PinEntry>, i: nat)
    requires entries != []
    ensures i in ConflictAt(chat, entries) <==>
            || i in ConflictAt(chat, entries[..|entries| - 1])
            || (i == |entries| - 1 && IsConflict(chat, entries, |entries| - 1))
  {
    if i < |entries| - 1 { ConflictInFront(chat, entries, i); }
  }

  lemma ConflictsAlong(chat: string, entries: seq<PinEntry>)
    requires entries != []
    ensures var front, last := entries[..|entries| - 1], |entries| - 1;
            |ConflictAt(chat, entries)| == |ConflictAt(chat, front)| + if IsConflict(chat, entries, last) then 1 else 0
  {
    var last := |entries| - 1;
    var before, after := ConflictAt(chat, entries[..last]), ConflictAt(chat, entries);
    assert last !in before;
    forall i: nat ensures i in after <==> i in before || (i == last && IsConflict(chat, entries, last)) {
      ConflictAtIndex(chat, entries, i);
    }
    assert after == if IsConflict(chat, entries, last) then before + {last} else before;
  }

  /** Conflicts counts exactly the later reuses of an identity with another payload. */
  lemma {:induction false} ConflictsMeaning(chat: string, entries: seq<PinEntry>)
    ensures Conflicts(chat, entries) == |ConflictAt(chat, entries)|
  {
    if entries == [] {
      assert ConflictAt(chat, entries) == {};
    } else {
      ConflictsMeaning(chat, entries[..|entries| - 1]);
      LastConflicts(chat, entries);
      ConflictsAlong(chat, entries);
    }
  }

  // ----- Deletes -----

  lemma Fronts(a: seq<PinEntry>, d: PinEntry, b: seq<PinEntry>)
    ensures b == [] ==> (a + [d] + b)[..|a|] == a + b == a && |a + [d] + b| == |a| + 1 && (a + [d] + b)[|a|] == d
    ensures b != [] ==>
              var front, last := b[..|b| - 1], b[|b| - 1];
              && (a + [d] + b)[..|a + [d] + b| - 1] == a + [d] + front && (a + b)[..|a + b| - 1] == a + front
              && (a + [d] + b)[|a + [d] + b| - 1] == (a + b)[|a + b| - 1] == last
  {
  }

  /** Where a delete stands among the entries changes nothing. */
  lemma {:induction false} DeleteUnused(chat: string, a: seq<PinEntry>, d: PinEntry, b: seq<PinEntry>, identity: Identity)
    requires d.content.Delete?
    ensures FirstUse(chat, a + [d] + b, identity) == FirstUse(chat, a + b, identity)
  {
    Fronts(a, d, b);
    if b != [] {
      var front := b[..|b| - 1];
      DeleteUnused(chat, a, d, front, identity);
    }
  }

  lemma {:induction false} DeleteUnlisted(
    chat: string, now: int, a: seq<PinEntry>, d: PinEntry, b: seq<PinEntry>, reference: Reference)
    requires d.content.Delete?
    ensures Newest(chat, now, a + [d] + b, reference) == Newest(chat, now, a + b, reference)
  {
    Fronts(a, d, b);
    if b != [] {
      var e, front := b[|b| - 1], b[..|b| - 1];
      DeleteUnlisted(chat, now, a, d, front, reference);
      if InChat(chat, e) && ValidControl(e) { DeleteUnused(chat, a, d, front, IdentityOf(e)); }
    }
  }

  lemma {:induction false} DeleteCounts(chat: string, a: seq<PinEntry>, d: PinEntry, b: seq<PinEntry>)
    requires d.content.Delete?
    ensures Conflicts(chat, a + [d] + b) == Conflicts(chat, a + b)
    ensures IgnoredInvalid(chat, a + [d] + b) == IgnoredInvalid(chat, a + b) + if Ignored(chat, d) then 1 else 0
  {
    Fronts(a, d, b);
    if b != [] {
      var e, front := b[|b| - 1], b[..|b| - 1];
      DeleteCounts(chat, a, d, front);
      if InChat(chat, e) && ValidControl(e) { DeleteUnused(chat, a, d, front, IdentityOf(e)); }
    }
  }

  function Targets(output: seq<Observation>): seq<Reference> {
    seq(|output|, i requires 0 <= i < |output| => output[i].payload.reference)
  }

  lemma TargetsListed(chat: string, now: int, entries: seq<PinEntry>, output: seq<Observation>, r: Reference)
    requires IsOutput(chat, now, entries, output)
    ensures r in Targets(output) <==> Listed(chat, now, entries, r).Some?
  {
    assert forall i :: 0 <= i < |output| ==> Targets(output)[i] == output[i].payload.reference;
  }

  /** There is one possible list, whatever order the map was traversed in. */
  lemma OutputUnique(chat: string, now: int, x: seq<PinEntry>, y: seq<PinEntry>, a: seq<Observation>, b: seq<Observation>)
    requires IsOutput(chat, now, x, a) && IsOutput(chat, now, y, b)
    requires forall r :: Listed(chat, now, x, r) == Listed(chat, now, y, r)
    ensures a == b
  {
    ReferenceLessIsStrictOrder();
    forall r ensures r in Elements(Targets(a)) <==> r in Elements(Targets(b)) {
      TargetsListed(chat, now, x, a, r);
      TargetsListed(chat, now, y, b, r);
    }
    AscendingUnique(ReferenceLess, Targets(a), Targets(b));
    assert |Targets(a)| == |a| && |Targets(b)| == |b|;
    forall i | 0 <= i < |a| ensures a[i] == b[i] {
      assert Targets(a)[i] == Targets(b)[i];
    }
  }

  /** Moving a delete to another place in the snapshot changes nothing: neither the list nor the counts. */
  lemma DeleteMoves(
    chat: string, now: int, a: seq<PinEntry>, d: PinEntry, b: seq<PinEntry>, c: seq<PinEntry>,
    before: seq<Observation>, after: seq<Observation>)
    requires d.content.Delete?
    requires IsOutput(chat, now, a + [d] + (b + c), before) && IsOutput(chat, now, (a + b) + [d] + c, after)
    ensures before == after
    ensures Conflicts(chat, a + [d] + (b + c)) == Conflicts(chat, (a + b) + [d] + c)
    ensures IgnoredInvalid(chat, a + [d] + (b + c)) == IgnoredInvalid(chat, (a + b) + [d] + c)
  {
    var x, y := a + [d] + (b + c), (a + b) + [d] + c;
    assert a + (b + c) == (a + b) + c;
    DeleteCounts(chat, a, d, b + c);
    DeleteCounts(chat, a + b, d, c);
    forall r ensures Listed(chat, now, x, r) == Listed(chat, now, y, r) {
      DeleteUnlisted(chat, now, a, d, b + c, r);
      DeleteUnlisted(chat, now, a + b, d, c, r);
      assert forall e :: e in x <==> e in y;
    }
    OutputUnique(chat, now, x, y, before, after);
  }

  // ----- What is listed and what is ignored -----

  lemma {:induction false} NewestFound(chat: string, now: int, entries: seq<PinEntry>, reference: Reference) returns (i: nat)
    requires Newest(chat, now, entries, reference).Some?
    ensures i < |entries| && Concerns(chat, entries, reference, i)
    ensures forall k :: i < k < |entries| ==> !Concerns(chat, entries, reference, k)
    ensures Newest(chat, now, entries, reference) == Some(Observed(entries[i], now))
  {
    ConcernsLast(chat, entries, reference);
    i := |entries| - 1;
    if !Concerns(chat, entries, reference, i) {
      var front := entries[..|entries| - 1];
      i := NewestFound(chat, now, front, reference);
      forall k | i <= k < |front| ensures Concerns(chat, entries, reference, k) <==> Concerns(chat, front, reference, k) {
        FirstUseInFront(chat, entries, k);
      }
    }
  }

  /** The observation is of the entry: a pin for some seconds expires that long after it was received, one
      forever and an unpin never. */
  predicate Describes(o: Observation, e: PinEntry, now: int) {
    && o.entryId == e.id && e.sender == Some(o.identity.sender) && o.identity.timestamp == e.timestamp && e.received == Some(o.received)
    && match e.content
       case Pin(author, target, seconds, forever) =>
         && author == Some(o.payload.reference.author) && target == o.payload.reference.timestamp
         && o.payload.operation == PinOperation && o.payload.seconds == seconds && o.payload.forever == forever
         && o.expiresAt == (if forever then None else Some(o.received + seconds * NANOSECONDS))
         && (o.expiryReached <==> !forever && now >= o.received + seconds * NANOSECONDS)
       case Unpin(author, target) =>
         && author == Some(o.payload.reference.author) && target == o.payload.reference.timestamp
         && o.payload.operation == UnpinOperation && o.expiresAt == None && !o.expiryReached
       case _ => false
  }

  /** A delete in the chat, well-formed, by the author of the target. */
  predicate IsDeletion(chat: string, e: PinEntry, target: Reference) {
    && e.chat == chat == e.envelopeChat && e.content == Delete(target.timestamp)
    && target.author != NIL_UUID && target.timestamp != 0
    && e.sender == Some(target.author) && e.timestamp != 0 && e.received.Some?
  }

  /** What is listed describes the newest entry that concerns its target, and says whether the author deleted that. */
  lemma ListedMeaning(chat: string, now: int, entries: seq<PinEntry>, output: seq<Observation>, k: nat) returns (i: nat)
    requires IsOutput(chat, now, entries, output) && k < |output|
    requires forall e :: e in entries && e.content.Pin? ==> e.content.seconds < TWO_TO_THE_32
    ensures i < |entries| && entries[i].chat == chat == entries[i].envelopeChat && Describes(output[k], entries[i], now)
    ensures Concerns(chat, entries, output[k].payload.reference, i)
    ensures forall j :: i < j < |entries| ==> !Concerns(chat, entries, output[k].payload.reference, j)
    ensures output[k].targetDeleted <==> exists e :: e in entries && IsDeletion(chat, e, output[k].payload.reference)
  {
    var reference := output[k].payload.reference;
    assert Listed(chat, now, entries, reference) == Some(output[k]);
    i := NewestFound(chat, now, entries, reference);
    assert entries[i] in entries;
    if entries[i].content.Pin? { DurationFits(entries[i].content.seconds); }
    assert forall e :: Deletes(chat, e, reference) <==> IsDeletion(chat, e, reference);
  }

  /** An entry of the chat that can't be used: an invalid pin, or a delete, pin or unpin whose sender or author
      is no ACI, that lacks a timestamp, target or time, or a pin that isn't either for some time or forever. */
  predicate Malformed(chat: string, e: PinEntry) {
    && e.chat == chat == e.envelopeChat
    && match e.content
       case Unsupported(kind) => kind == "invalidPin"
       case Delete(target) => Unusable(e) || target == 0
       case Pin(author, target, seconds, forever) =>
         Unusable(e) || NoAci(author) || target == 0 || (seconds > 0 && forever) || (seconds == 0 && !forever)
       case Unpin(author, target) => Unusable(e) || NoAci(author) || target == 0
       case _ => false
  }

  predicate NoAci(aci: Aci) {
    aci.None? || aci.value == NIL_UUID
  }

  predicate Unusable(e: PinEntry) {
    NoAci(e.sender) || e.timestamp == 0 || e.received.None?
  }

  lemma IgnoredIsMalformed(chat: string, e: PinEntry)
    ensures Ignored(chat, e) <==> Malformed(chat, e)
  {
  }

  ghost function MalformedAt(chat: string, entries: seq<PinEntry>): set<nat> {
    set i: nat | i < |entries| && Malformed(chat, entries[i])
  }

  /** Ignored counts exactly those. */
  lemma {:induction false} IgnoredMeaning(chat: string, entries: seq<PinEntry>)
    ensures IgnoredInvalid(chat, entries) == |MalformedAt(chat, entries)|
  {
    if entries == [] {
      assert MalformedAt(chat, entries) == {};
    } else {
      var last := |entries| - 1;
      IgnoredMeaning(chat, entries[..last]);
      var before := MalformedAt(chat, entries[..last]);
      assert last !in before;
      IgnoredIsMalformed(chat, entries[last]);
      assert MalformedAt(chat, entries) == if Malformed(chat, entries[last]) then before + {last} else before;
    }
  }
}
