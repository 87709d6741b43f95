/** Recipient arguments and their resolution to users (internal/app/recipient.go). */
module Recipients {
  import opened Wrappers
  import opened Seqs

  /** A user by its identifiers; empty ones are unknown. */
  datatype Recipient = Recipient(aci: string, pni: string, number: string, username: string)

  const NOBODY := Recipient("", "", "", "")

  /** Where a message goes: a user, or a group when it has a group ID. */
  datatype Target = Target(recipient: Recipient, groupId: string, self: bool)

  datatype Account = Account(aci: string, number: string)

  predicate IsGroup(t: Target) {
    t.groupId != ""
  }

  predicate IsOwn(t: Target, own: Account) {
    t.self || t.recipient.aci == own.aci || (t.recipient.number != "" && t.recipient.number == own.number)
  }

  function OwnTarget(own: Account): Target {
    Target(Recipient(own.aci, "", own.number, ""), "", true)
  }

  function Marked(t: Target, own: Account): Target {
    if !IsGroup(t) && IsOwn(t, own) then OwnTarget(own) else t
  }

  /** A user left to look up. */
  predicate Unknown(t: Target, own: Account) {
    !IsGroup(t) && !IsOwn(t, own) && t.recipient.aci == ""
  }

  /** What resolution makes of a target on its own. */
  function Resolved(t: Target, own: Account, lookup: Recipient -> Recipient): Target {
    if Unknown(t, own) then t.(recipient := lookup(t.recipient)) else Marked(t, own)
  }

  /** A group stays; self, the own ACI and the own number become note-to-self; another user keeps a known ACI, and
      is looked up without one. */
  lemma ResolvedMeaning(t: Target, own: Account, lookup: Recipient -> Recipient)
    ensures Resolved(t, own, lookup) ==
            if t.groupId != "" then t
            else if t.self || t.recipient.aci == own.aci || (t.recipient.number != "" && t.recipient.number == own.number)
              then Target(Recipient(own.aci, "", own.number, ""), "", true)
            else if t.recipient.aci != "" then t
            else Target(lookup(t.recipient), "", false)
  {
  }

  /** The account, and what Resolve returns for each recipient; a failure of either fails everything. */
  datatype Service = Service(account: Option<Account>, lookup: Recipient -> Recipient, lookupFails: seq<Recipient> -> bool)

  /** The indices of the users left to look up. */
  function Pending(targets: seq<Target>, own: Account): seq<nat> {
    if targets == [] then []
    else
      var last := |targets| - 1;
      Pending(targets[..last], own) + if Unknown(targets[last], own) then [last] else []
  }

  lemma {:induction false} PendingMeaning(targets: seq<Target>, own: Account)
    ensures forall i :: i in Pending(targets, own) <==> 0 <= i < |targets| && Unknown(targets[i], own)
    ensures forall k, l :: 0 <= k < l < |Pending(targets, own)| ==> Pending(targets, own)[k] < Pending(targets, own)[l]
  {
    if targets != [] {
      var last := |targets| - 1;
      var front := Pending(targets[..last], own);
      PendingMeaning(targets[..last], own);
      forall k | 0 <= k < |front| ensures front[k] < last { assert front[k] in front; }
    }
  }

  lemma PendingAlong(targets: seq<Target>, i: nat, own: Account)
    requires i < |targets|
    ensures Pending(targets[..i + 1], own) == Pending(targets[..i], own) + if Unknown(targets[i], own) then [i] else []
  {
    assert targets[..i + 1][..i] == targets[..i];
  }

  /** The recipients to look up, in order. */
  function Lookup(targets: seq<Target>, own: Account): seq<Recipient> {
    PendingMeaning(targets, own);
    var pending := Pending(targets, own);
    assert forall k :: 0 <= k < |pending| ==> pending[k] in pending;
    seq(|pending|, k requires 0 <= k < |pending| => targets[pending[k]].recipient)
  }

  method MarkSelf(targets: array<Target>, account: Option<Account>) returns (pending: Option<seq<nat>>)
    modifies targets
    ensures pending.None? <==> account.None? && exists i :: 0 <= i < targets.Length && !IsGroup(old(targets[i]))
    ensures account.Some? ==>
              && (forall i :: 0 <= i < targets.Length ==> targets[i] == Marked(old(targets[i]), account.value))
              && pending == Some(Pending(old(targets[..]), account.value))
    ensures account.None? ==> targets[..] == old(targets[..]) && (pending.Some? ==> pending.value == [])
  {
    var found: seq<nat> := [];
    ghost var before := targets[..];
    for i := 0 to targets.Length
      invariant account.None? ==> found == [] && targets[..] == before
      invariant account.None? ==> forall k :: 0 <= k < i ==> IsGroup(before[k])
      invariant forall k :: i <= k < targets.Length ==> targets[k] == before[k]
      invariant account.Some? ==>
                  && (forall k :: 0 <= k < i ==> targets[k] == Marked(before[k], account.value))
                  && found == Pending(before[..i], account.value)
    {
      if account.Some? { PendingAlong(before, i, account.value); }
      if IsGroup(targets[i]) {
        continue;
      }
      if account.None? {
        return None;
      }
      if IsOwn(targets[i], account.value) {
        targets[i] := OwnTarget(account.value);
      } else if targets[i].recipient.aci == "" {
        found := found + [i];
      }
    }
    assert before[..targets.Length] == before;
    pending := Some(found);
  }

  /** Writes each resolved recipient to its target. */
  method Fill(targets: array<Target>, indices: seq<nat>, resolved: seq<Recipient>)
    requires |indices| == |resolved| && forall k :: 0 <= k < |indices| ==> indices[k] < targets.Length
    requires forall k, l :: 0 <= k < l < |indices| ==> indices[k] < indices[l]
    modifies targets
    ensures forall k :: 0 <= k < |indices| ==> targets[indices[k]] == old(targets[indices[k]]).(recipient := resolved[k])
    ensures forall i :: 0 <= i < targets.Length && i !in indices ==> targets[i] == old(targets[i])
  {
    for n := 0 to |indices|
      invariant forall k :: 0 <= k < n ==> targets[indices[k]] == old(targets[indices[k]]).(recipient := resolved[k])
      invariant forall k :: n <= k < |indices| ==> targets[indices[k]] == old(targets[indices[k]])
      invariant forall i :: 0 <= i < targets.Length && i !in indices ==> targets[i] == old(targets[i])
    {
      assert indices[n] in indices;
      targets[indices[n]] := targets[indices[n]].(recipient := resolved[n]);
    }
  }

  /** The recipients of some targets, in order. */
  method RecipientsAt(targets: seq<Target>, indices: seq<nat>) returns (lookup: seq<Recipient>)
    requires forall k :: 0 <= k < |indices| ==> indices[k] < |targets|
    ensures |lookup| == |indices| && forall k :: 0 <= k < |indices| ==> lookup[k] == targets[indices[k]].recipient
  {
    lookup := [];
    for n := 0 to |indices|
      invariant |lookup| == n && forall k :: 0 <= k < n ==> lookup[k] == targets[indices[k]].recipient
    {
      lookup := lookup + [targets[indices[n]].recipient];
    }
  }

  lemma PendingBounds(targets: seq<Target>, own: Account)
    ensures forall k :: 0 <= k < |Pending(targets, own)| ==>
              Pending(targets, own)[k] < |targets| && Unknown(targets[Pending(targets, own)[k]], own)
  {
    PendingMeaning(targets, own);
    forall k | 0 <= k < |Pending(targets, own)| ensures Pending(targets, own)[k] in Pending(targets, own) {}
  }

  /** Looks up the pending users of marked targets and writes what is found. */
  method LookUp(targets: array<Target>, own: Account, service: Service, indices: seq<nat>, ghost before: seq<Target>) returns (ok: bool)
    requires |before| == targets.Length && indices == Pending(before, own)
    requires forall i :: 0 <= i < targets.Length ==> targets[i] == Marked(before[i], own)
    modifies targets
    ensures ok <==> Lookup(before, own) == [] || !service.lookupFails(Lookup(before, own))
    ensures ok ==> forall i :: 0 <= i < targets.Length ==> targets[i] == Resolved(before[i], own, service.lookup)
  {
    PendingBounds(before, own);
    PendingMeaning(before, own);
    var lookup := RecipientsAt(targets[..], indices);
    assert lookup == Lookup(before, own);
    if lookup != [] {
      if service.lookupFails(lookup) {
        return false;
      }
      Fill(targets, indices, seq(|lookup|, k requires 0 <= k < |lookup| => service.lookup(lookup[k])));
    }
    FilledIsResolved(before, targets[..], own, service.lookup);
    ok := true;
  }

  /** Fills in the ACI of every user: each target is resolved by itself, though all are looked up at once. */
  method ResolveUsers(targets: array<Target>, service: Service) returns (ok: bool)
    modifies targets
    ensures service.account.Some? ==>
              var own, before := service.account.value, old(targets[..]);
              && (ok <==> Lookup(before, own) == [] || !service.lookupFails(Lookup(before, own)))
              && (ok ==> forall i :: 0 <= i < targets.Length ==> targets[i] == Resolved(before[i], own, service.lookup))
    ensures service.account.None? ==> (ok <==> forall i :: 0 <= i < targets.Length ==> IsGroup(old(targets[i])))
    ensures service.account.None? ==> targets[..] == old(targets[..])
  {
    ghost var before := targets[..];
    var pending := MarkSelf(targets, service.account);
    if service.account.None? {
      return pending.Some?;
    }
    ok := LookUp(targets, service.account.value, service, pending.value, before);
  }

  lemma FilledIsResolved(before: seq<Target>, after: seq<Target>, own: Account, lookup: Recipient -> Recipient)
    requires |after| == |before| && forall k :: 0 <= k < |Pending(before, own)| ==> Pending(before, own)[k] < |before|
    requires forall k :: 0 <= k < |Pending(before, own)| ==>
               var i := Pending(before, own)[k]; after[i] == Marked(before[i], own).(recipient := lookup(before[i].recipient))
    requires forall i :: 0 <= i < |before| && i !in Pending(before, own) ==> after[i] == Marked(before[i], own)
    ensures forall i :: 0 <= i < |before| ==> after[i] == Resolved(before[i], own, lookup)
  {
    PendingMeaning(before, own);
    forall i | 0 <= i < |before| ensures after[i] == Resolved(before[i], own, lookup) {
      if Unknown(before[i], own) {
        var k :| 0 <= k < |Pending(before, own)| && Pending(before, own)[k] == i;
      }
    }
  }

  // ----- Duplicates -----

  /** What makes targets duplicates: the group, or the user's ACI. */
  function Key(t: Target): string {
    if IsGroup(t) then "group:" + t.groupId else t.recipient.aci
  }

  predicate HasKey<T(==)>(targets: seq<T>, keyOf: T -> string, key: string) {
    exists t :: t in targets && keyOf(t) == key
  }

  function Deduped<T(==)>(targets: seq<T>, keyOf: T -> string): seq<T> {
    if targets == [] then []
    else
      var front, last := targets[..|targets| - 1], targets[|targets| - 1];
      Deduped(front, keyOf) + if HasKey(front, keyOf, keyOf(last)) then [] else [last]
  }

  predicate FirstOfKey<T(==)>(targets: seq<T>, keyOf: T -> string, i: nat)
    requires i < |targets|
  {
    forall k :: 0 <= k < i ==> keyOf(targets[k]) != keyOf(targets[i])
  }

  lemma LacksKey<T>(targets: seq<T>, keyOf: T -> string, key: string, j: nat)
    requires !HasKey(targets, keyOf, key) && j < |targets|
    ensures keyOf(targets[j]) != key
  {
    assert targets[j] in targets;
  }

  lemma {:induction false} DedupedAt<T>(targets: seq<T>, keyOf: T -> string, k: nat) returns (i: nat)
    requires k < |Deduped(targets, keyOf)|
    ensures i < |targets| && targets[i] == Deduped(targets, keyOf)[k] && FirstOfKey(targets, keyOf, i)
  {
    var front, last := targets[..|targets| - 1], |targets| - 1;
    if k < |Deduped(front, keyOf)| {
      i := DedupedAt(front, keyOf, k);
      assert FirstOfKey(front, keyOf, i);
    } else {
      i := last;
      forall j | 0 <= j < last ensures keyOf(targets[j]) != keyOf(targets[last]) {
        LacksKey(front, keyOf, keyOf(targets[last]), j);
      }
    }
  }

  lemma {:induction false} DedupedKeeps<T>(targets: seq<T>, keyOf: T -> string, i: nat)
    requires i < |targets| && FirstOfKey(targets, keyOf, i)
    ensures targets[i] in Deduped(targets, keyOf)
  {
    var front, last := targets[..|targets| - 1], |targets| - 1;
    if i < last {
      assert FirstOfKey(front, keyOf, i);
      DedupedKeeps(front, keyOf, i);
    } else {
      forall t | t in front ensures keyOf(t) != keyOf(targets[last]) {
        var j :| 0 <= j < |front| && front[j] == t;
        assert t == targets[j];
      }
    }
  }

  /** Two targets are duplicates exactly if they are the same group, or users with the same ACI; no ACI looks
      like the text of a group. */
  lemma SameKey(a: Target, b: Target)
    requires !("group:" <= a.recipient.aci) && !("group:" <= b.recipient.aci)
    ensures Key(a) == Key(b) <==>
              if a.groupId != "" then b.groupId == a.groupId else b.groupId == "" && b.recipient.aci == a.recipient.aci
  {
    if a.groupId != "" && b.groupId != "" && Key(a) == Key(b) {
      assert Key(a)[6..] == a.groupId && Key(b)[6..] == b.groupId;
    }
    assert a.groupId != "" ==> "group:" <= Key(a);
    assert b.groupId != "" ==> "group:" <= Key(b);
  }

  /** One target per key is left. */
  lemma {:induction false} DedupedMeaning<T>(targets: seq<T>, keyOf: T -> string)
    ensures forall i, j :: 0 <= i < j < |Deduped(targets, keyOf)| ==> keyOf(Deduped(targets, keyOf)[i]) != keyOf(Deduped(targets, keyOf)[j])
  {
    if targets != [] {
      var front := targets[..|targets| - 1];
      DedupedMeaning(front, keyOf);
      forall i | 0 <= i < |Deduped(front, keyOf)| ensures Deduped(front, keyOf)[i] in front {
        var k := DedupedAt(front, keyOf, i);
      }
    }
  }

  lemma DedupedAlong<T>(targets: seq<T>, keyOf: T -> string, i: nat)
    requires i < |targets|
    ensures Deduped(targets[..i + 1], keyOf) == Deduped(targets[..i], keyOf) + if HasKey(targets[..i], keyOf, keyOf(targets[i])) then [] else [targets[i]]
    ensures forall key :: HasKey(targets[..i + 1], keyOf, key) <==> HasKey(targets[..i], keyOf, key) || key == keyOf(targets[i])
  {
    assert targets[..i + 1][..i] == targets[..i];
    assert targets[..i + 1] == targets[..i] + [targets[i]];
  }

  /** Compacts in place: the first n targets are what is left. */
  method Dedupe(targets: array<Target>) returns (n: nat)
    modifies targets
    ensures n <= targets.Length && targets[..n] == Deduped(old(targets[..]), Key)
  {
    ghost var before := targets[..];
    var seen: set<string> := {};
    n := 0;
    for i := 0 to targets.Length
      invariant n <= i && targets[..n] == Deduped(before[..i], Key)
      invariant forall k :: i <= k < targets.Length ==> targets[k] == before[k]
      invariant forall key :: key in seen <==> HasKey(before[..i], Key, key)
    {
      DedupedAlong(before, Key, i);
      var target := targets[i];
      if Key(target) in seen {
        continue;
      }
      seen := seen + {Key(target)};
      targets[n] := target;
      n := n + 1;
      assert targets[..n] == targets[..n - 1] + [target];
    }
    assert before[..targets.Length] == before;
  }
}
