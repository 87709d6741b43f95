/** The complete blocked list the phone keeps (internal/signal/meow_contacts.go). */
module BlockedLists {
  import opened Wrappers
  import Sorting

  /** A blocked user: the number ("" if unknown) and the time of blocking in ms (0 if unknown). */
  datatype Entry = Entry(number: string, at: nat)

  /** The value of a list: users by ACI, users known only by number, and groups by ID. */
  datatype ListValue = ListValue(acis: map<Uuid, Entry>, numbers: map<string, nat>, groups: map<string, nat>) {

    predicate IsBlocked(aci: Uuid) {
      aci in acis
    }

    /** The list after blocking or unblocking the user aci at the time whenMs. */
    function Set(aci: Uuid, number: string, blocked: bool, whenMs: nat): ListValue {
      if blocked then
        var entry := if aci in acis then acis[aci] else Entry("", whenMs);
        var known := if number != "" then entry.(number := number) else entry;
        ListValue(acis[aci := known], numbers - {known.number}, groups)
      else
        var own := if aci in acis && acis[aci].number != "" then {acis[aci].number} else {};
        var given := if number != "" then {number} else {};
        ListValue(acis - {aci}, numbers - own - given, groups)
    }

    /** Whether a blocked-list message made from the list carries the number. */
    ghost predicate Lists(number: string) {
      number in numbers || exists aci :: aci in acis && acis[aci].number == number
    }
  }

  const EMPTY_LIST := ListValue(map[], map[], map[])

  /** What differs between two lists lies within the users and numbers given: everyone else keeps
      the exact entry, and a given user's entry carries no number but the given ones. */
  ghost predicate ChangedWithin(before: ListValue, after: ListValue, users: set<Uuid>, numbers: set<string>) {
    && after.groups == before.groups
    && (forall u :: u !in users ==>
          (u in after.acis <==> u in before.acis) && (u in after.acis ==> after.acis[u] == before.acis[u]))
    && (forall u :: u in users && u in after.acis ==> after.acis[u].number in numbers || after.acis[u].number == "")
    && (forall n :: n !in numbers && n != "" ==>
          (n in after.numbers <==> n in before.numbers) && (n in after.numbers ==> after.numbers[n] == before.numbers[n]))
  }

  /** One change stays within its user and the numbers attributed to them. */
  lemma SetStaysWithin(
    before: ListValue, list: ListValue, users: set<Uuid>, numbers: set<string>,
    aci: Uuid, number: string, blocked: bool, whenMs: nat)
    requires ChangedWithin(before, list, users, numbers)
    requires aci in users && (number == "" || number in numbers)
    ensures ChangedWithin(before, list.Set(aci, number, blocked, whenMs), users, numbers)
  {
    var after := list.Set(aci, number, blocked, whenMs);
    assert forall u :: u != aci ==> (u in after.acis <==> u in list.acis) && (u in after.acis ==> after.acis[u] == list.acis[u]);
    assert aci in list.acis ==> list.acis[aci].number in numbers || list.acis[aci].number == "";
  }

  /** A number outside the given ones is in the message made from the new list exactly when it was
      in the one made from the old list. */
  lemma UnrelatedNumberKept(before: ListValue, after: ListValue, users: set<Uuid>, numbers: set<string>, n: string)
    requires ChangedWithin(before, after, users, numbers)
    requires forall u :: u in users && u in before.acis ==> before.acis[u].number in numbers || before.acis[u].number == ""
    requires n !in numbers && n != ""
    ensures before.Lists(n) <==> after.Lists(n)
  {
    if aci :| aci in before.acis && before.acis[aci].number == n {
      assert aci !in users;
      assert aci in after.acis && after.acis[aci].number == n;
    }
    if aci :| aci in after.acis && after.acis[aci].number == n {
      assert aci !in users;
      assert aci in before.acis && before.acis[aci].number == n;
    }
  }

  /** A blocked-list sync message: ACIs, numbers and groups, each with the time of blocking
      (None for an unknown one). */
  datatype SyncMessage = SyncMessage(
    acis: seq<(Uuid, Option<nat>)>, numbers: seq<(string, Option<nat>)>, groups: seq<(string, Option<nat>)>)

  function OptionalTimestamp(ms: nat): Option<nat> {
    if ms == 0 then None else Some(ms)
  }

  /** The numbers of the entries of some users, in their order. */
  function EntryNumbers(acis: map<Uuid, Entry>, order: seq<Uuid>): seq<(string, Option<nat>)>
    requires forall u :: u in order ==> u in acis
  {
    if order == [] then []
    else
      var last := acis[order[|order| - 1]];
      EntryNumbers(acis, order[..|order| - 1])
      + if last.number != "" then [(last.number, OptionalTimestamp(last.at))] else []
  }

  lemma {:induction false} EntryNumbersComplete(acis: map<Uuid, Entry>, order: seq<Uuid>)
    requires forall u :: u in order ==> u in acis
    ensures forall u :: u in order && acis[u].number != ""
              ==> (acis[u].number, OptionalTimestamp(acis[u].at)) in EntryNumbers(acis, order)
    ensures forall p :: p in EntryNumbers(acis, order)
              ==> exists u :: u in order && acis[u].number == p.0 && p.0 != "" && OptionalTimestamp(acis[u].at) == p.1
  {
    if order != [] {
      var front := order[..|order| - 1];
      EntryNumbersComplete(acis, front);
      assert order == front + [order[|order| - 1]];
      forall p | p in EntryNumbers(acis, order)
        ensures exists u :: u in order && acis[u].number == p.0 && p.0 != "" && OptionalTimestamp(acis[u].at) == p.1
      {
        if p in EntryNumbers(acis, front) {
          var u :| u in front && acis[u].number == p.0 && p.0 != "" && OptionalTimestamp(acis[u].at) == p.1;
          assert u in order;
        } else {
          assert order[|order| - 1] in order;
        }
      }
    }
  }

  /** Entries of a map in the order given. */
  function Timed<K>(m: map<K, nat>, order: seq<K>): (r: seq<(K, Option<nat>)>)
    requires forall k :: k in order ==> k in m
    ensures |r| == |order|
  {
    seq(|order|, i requires 0 <= i < |order| => assert order[i] in order; (order[i], OptionalTimestamp(m[order[i]])))
  }

  /** msg is the message for list: its users, then numbers and groups in ascending order; each user's
      number is listed before the numbers without a user. */
  ghost predicate IsMessageOf(msg: SyncMessage, list: ListValue) {
    exists users: seq<Uuid>, numbers: seq<string>, groups: seq<string> :: MessageInOrder(msg, list, users, numbers, groups)
  }

  ghost predicate MessageInOrder(
    msg: SyncMessage, list: ListValue, users: seq<Uuid>, numbers: seq<string>, groups: seq<string>)
  {
    && Sorting.Ascending(Sorting.NatLess, users) && Sorting.Elements(users) == list.acis.Keys
    && Sorting.Ascending(Sorting.StringLess, numbers) && Sorting.Elements(numbers) == list.numbers.Keys
    && Sorting.Ascending(Sorting.StringLess, groups) && Sorting.Elements(groups) == list.groups.Keys
    && (forall u :: u in users ==> u in Sorting.Elements(users))
    && (forall n :: n in numbers ==> n in Sorting.Elements(numbers))
    && (forall g :: g in groups ==> g in Sorting.Elements(groups))
    && msg.acis == Timed(map u | u in list.acis :: list.acis[u].at, users)
    && msg.numbers == EntryNumbers(list.acis, users) + Timed(list.numbers, numbers)
    && msg.groups == Timed(list.groups, groups)
  }

  /** A message says which users, numbers and groups are blocked: exactly those of its list. */
  lemma MessageContents(msg: SyncMessage, list: ListValue)
    requires IsMessageOf(msg, list)
    ensures forall u: Uuid, t :: (u, t) in msg.acis <==> u in list.acis && t == OptionalTimestamp(list.acis[u].at)
    ensures forall g: string, t :: (g, t) in msg.groups <==> g in list.groups && t == OptionalTimestamp(list.groups[g])
    ensures forall n: string :: n != "" ==> ((exists t :: (n, t) in msg.numbers) <==> list.Lists(n))
  {
    var users: seq<Uuid>, numbers: seq<string>, groups: seq<string> :| MessageInOrder(msg, list, users, numbers, groups);
    TimedContents(map u | u in list.acis :: list.acis[u].at, users);
    TimedContents(list.numbers, numbers);
    TimedContents(list.groups, groups);
    EntryNumbersComplete(list.acis, users);
    forall n: string | n != "" ensures (exists t :: (n, t) in msg.numbers) <==> list.Lists(n) {
      if t :| (n, t) in msg.numbers {
        if (n, t) in EntryNumbers(list.acis, users) {
        } else {
          assert (n, t) in Timed(list.numbers, numbers);
        }
      }
      if n in list.numbers {
        assert (n, OptionalTimestamp(list.numbers[n])) in Timed(list.numbers, numbers);
        assert (n, OptionalTimestamp(list.numbers[n])) in msg.numbers;
      } else if u :| u in list.acis && list.acis[u].number == n {
        assert u in Sorting.Elements(users);
        assert (n, OptionalTimestamp(list.acis[u].at)) in msg.numbers;
      }
    }
  }

  lemma TimedContents<K>(m: map<K, nat>, order: seq<K>)
    requires Sorting.Elements(order) == m.Keys
    requires forall k :: k in order ==> k in m
    ensures forall k: K, t :: (k, t) in Timed(m, order) <==> k in m && t == OptionalTimestamp(m[k])
  {
    forall k: K, t ensures (k, t) in Timed(m, order) <==> k in m && t == OptionalTimestamp(m[k]) {
      if k in m && t == OptionalTimestamp(m[k]) {
        assert k in Sorting.Elements(order);
        var i :| 0 <= i < |order| && order[i] == k;
        assert Timed(m, order)[i] == (k, t);
      }
    }
  }

  /** A blocked list, changed in place. */
  class BlockedList {
    var acis: map<Uuid, Entry>
    var numbers: map<string, nat>
    var groups: map<string, nat>

    ghost function Value(): ListValue
      reads this
    {
      ListValue(acis, numbers, groups)
    }

    constructor ()
      ensures Value() == EMPTY_LIST
    {
      acis, numbers, groups := map[], map[], map[];
    }

    method Clone() returns (copy: BlockedList)
      ensures fresh(copy) && copy.Value() == Value()
    {
      copy := new BlockedList();
      copy.acis, copy.numbers, copy.groups := acis, numbers, groups;
    }

    predicate IsBlocked(aci: Uuid)
      reads this
    {
      aci in acis
    }

    /** Blocks or unblocks a user at the time whenMs. */
    method Set(aci: Uuid, number: string, blocked: bool, whenMs: nat)
      modifies this
      ensures Value() == old(Value()).Set(aci, number, blocked, whenMs)
    {
      if !blocked {
        if aci in acis && acis[aci].number != "" {
          numbers := numbers - {acis[aci].number};
        }
        acis := acis - {aci};
        if number != "" {
          numbers := numbers - {number};
        }
        return;
      }

      var entry := if aci in acis then acis[aci] else Entry("", whenMs);
      if number != "" {
        entry := entry.(number := number);
      }
      acis := acis[aci := entry];
      numbers := numbers - {entry.number};
    }

    /** The list as a sync message: users sorted by ACI, each number and group in its order. */
    method ToSyncMessage() returns (msg: SyncMessage)
      ensures IsMessageOf(msg, Value())
    {
      Sorting.NatLessIsStrictOrder();
      Sorting.StringLessIsStrictOrder();
      var users := Sorting.SortedKeys(Sorting.NatLess, acis.Keys);
      SortedWithin(users, acis.Keys);
      var outAcis, entryNumbers := UserParts(acis, users);
      var byNumber := Sorting.SortedKeys(Sorting.StringLess, numbers.Keys);
      SortedWithin(byNumber, numbers.Keys);
      var lone := TimedParts(numbers, byNumber);
      var byGroup := Sorting.SortedKeys(Sorting.StringLess, groups.Keys);
      SortedWithin(byGroup, groups.Keys);
      var outGroups := TimedParts(groups, byGroup);
      msg := SyncMessage(outAcis, entryNumbers + lone, outGroups);
      assert MessageInOrder(msg, Value(), users, byNumber, byGroup);
    }
  }

  lemma SortedWithin<K>(order: seq<K>, keys: set<K>)
    requires Sorting.Elements(order) == keys
    ensures forall k :: k in order ==> k in keys && k in Sorting.Elements(order)
  {
    assert forall k :: k in order ==> k in Sorting.Elements(order);
  }

  /** The users of the message, and the numbers of their entries. */
  method UserParts(acis: map<Uuid, Entry>, users: seq<Uuid>)
    returns (outAcis: seq<(Uuid, Option<nat>)>, outNumbers: seq<(string, Option<nat>)>)
    requires forall u :: u in users ==> u in acis
    ensures outAcis == Timed(map u | u in acis :: acis[u].at, users)
    ensures outNumbers == EntryNumbers(acis, users)
  {
    ghost var at := map u | u in acis :: acis[u].at;
    outAcis, outNumbers := [], [];
    for i := 0 to |users|
      invariant outAcis == Timed(at, users)[..i]
      invariant outNumbers == EntryNumbers(acis, users[..i])
    {
      assert users[i] in users;
      var entry := acis[users[i]];
      outAcis := outAcis + [(users[i], OptionalTimestamp(entry.at))];
      assert users[..i + 1][..i] == users[..i];
      if entry.number != "" {
        outNumbers := outNumbers + [(entry.number, OptionalTimestamp(entry.at))];
      }
    }
    assert users[..|users|] == users;
  }

  /** The entries of a map as parts of a message, in the order given. */
  method TimedParts<K(==)>(m: map<K, nat>, order: seq<K>) returns (out: seq<(K, Option<nat>)>)
    requires forall k :: k in order ==> k in m
    ensures out == Timed(m, order)
  {
    out := [];
    for i := 0 to |order|
      invariant out == Timed(m, order)[..i]
    {
      assert order[i] in order;
      out := out + [(order[i], OptionalTimestamp(m[order[i]]))];
    }
  }
}
