/** Marking inbox entries as read (internal/app/inbox.go, internal/app/receipts.go, internal/store/inbox.go). */
module MarkRead {
  import opened Wrappers
  import opened Seqs
  import opened Inbox

  // ----- Collecting receipts -----

  /** A message from another user, which gets a read receipt. */
  predicate Incoming(event: Event) {
    event.Message? && !event.sync && event.sender != NIL_UUID && event.timestamp != 0
  }

  datatype Receipt = Receipt(sender: Uuid, timestamps: seq<nat>)

  function From(sender: Uuid): Receipt -> bool {
    (r: Receipt) => r.sender == sender
  }

  function Queued(pending: seq<Receipt>, event: Event): seq<Receipt> {
    if !Incoming(event) then pending
    else
      var i := IndexOf(pending, From(event.sender));
      var batch := if i == |pending| then pending + [Receipt(event.sender, [])] else pending;
      if event.timestamp in batch[i].timestamps then batch
      else batch[i := batch[i].(timestamps := batch[i].timestamps + [event.timestamp])]
  }

  function Batch(events: seq<Event>): seq<Receipt> {
    if events == [] then [] else Queued(Batch(events[..|events| - 1]), events[|events| - 1])
  }

  /** The batch of receipts that Add fills. */
  class ReadReceipts {
    var pending: seq<Receipt>

    constructor ()
      ensures pending == []
    {
      pending := [];
    }

    method Add(event: Event) returns (queued: bool)
      modifies this
      ensures pending == Queued(old(pending), event)
      ensures queued <==> event.Message? && !event.sync && event.sender != NIL_UUID && event.timestamp != 0
    {
      if !Incoming(event) {
        return false;
      }
      var i := IndexOf(pending, From(event.sender));
      if i == |pending| {
        pending := pending + [Receipt(event.sender, [])];
      }
      if event.timestamp !in pending[i].timestamps {
        pending := pending[i := pending[i].(timestamps := pending[i].timestamps + [event.timestamp])];
      }
      queued := true;
    }
  }

  // ----- What a batch is: one receipt per sender, with the timestamps of its messages -----

  /** Each element once, where it first occurs. */
  function Distinct(s: seq<nat>): seq<nat> {
    if s == [] then []
    else
      var front := Distinct(s[..|s| - 1]);
      if s[|s| - 1] in front then front else front + [s[|s| - 1]]
  }

  lemma {:induction false} DistinctMeaning(s: seq<nat>)
    ensures forall x :: x in Distinct(s) <==> x in s
    ensures forall i, j :: 0 <= i < j < |Distinct(s)| ==> Distinct(s)[i] != Distinct(s)[j]
  {
    if s != [] {
      DistinctMeaning(s[..|s| - 1]);
      assert s == s[..|s| - 1] + [s[|s| - 1]];
    }
  }

  function Senders(events: seq<Event>): seq<Uuid> {
    if events == [] then []
    else
      var event := events[|events| - 1];
      Senders(events[..|events| - 1]) + if Incoming(event) then [event.sender] else []
  }

  function Times(events: seq<Event>, sender: Uuid): seq<nat> {
    if events == [] then []
    else
      var event := events[|events| - 1];
      Times(events[..|events| - 1], sender) + if Incoming(event) && event.sender == sender then [event.timestamp] else []
  }

  predicate HasReceipt(batch: seq<Receipt>, sender: Uuid) {
    exists r :: r in batch && r.sender == sender
  }

  /** A message of another user, dated, is among the events; transcripts of own messages have sync set. */
  predicate Sent(events: seq<Event>, sender: Uuid) {
    sender != NIL_UUID && exists e :: e in events && e.Message? && !e.sync && e.sender == sender && e.timestamp != 0
  }

  predicate SentAt(events: seq<Event>, sender: Uuid, timestamp: nat) {
    sender != NIL_UUID && timestamp != 0 && Message(sender, timestamp, false) in events
  }

  lemma {:induction false} SendersMeaning(events: seq<Event>, sender: Uuid)
    ensures sender in Senders(events) <==> Sent(events, sender)
  {
    if events != [] {
      var front := events[..|events| - 1];
      SendersMeaning(front, sender);
      assert events == front + [events[|events| - 1]];
    }
  }

  lemma {:induction false} TimesMeaning(events: seq<Event>, sender: Uuid, timestamp: nat)
    ensures timestamp in Times(events, sender) <==>
            SentAt(events, sender, timestamp)
  {
    if events != [] {
      var front := events[..|events| - 1];
      TimesMeaning(front, sender, timestamp);
      assert events == front + [events[|events| - 1]];
    }
  }

  lemma {:induction false} NoTimes(events: seq<Event>, sender: Uuid)
    requires sender !in Senders(events)
    ensures Times(events, sender) == []
  {
    if events != [] { NoTimes(events[..|events| - 1], sender); }
  }

  predicate Groups(batch: seq<Receipt>, senders: seq<Uuid>, times: Uuid -> seq<nat>) {
    |batch| == |senders| && forall i :: 0 <= i < |batch| ==> batch[i] == Receipt(senders[i], times(senders[i]))
  }

  function DistinctTimes(events: seq<Event>): Uuid -> seq<nat> {
    (sender: Uuid) => Distinct(Times(events, sender))
  }

  function With(s: seq<nat>, x: nat): seq<nat> {
    if x in s then s else s + [x]
  }

  lemma QueuedGroups(batch: seq<Receipt>, event: Event, senders: seq<Uuid>, times: Uuid -> seq<nat>, after: Uuid -> seq<nat>)
    requires Groups(batch, senders, times) && Incoming(event)
    requires forall i, j :: 0 <= i < j < |senders| ==> senders[i] != senders[j]
    requires event.sender !in senders ==> times(event.sender) == []
    requires forall s :: after(s) == if s == event.sender then With(times(s), event.timestamp) else times(s)
    ensures Groups(Queued(batch, event), With(senders, event.sender), after)
  {
    var i := IndexOf(batch, From(event.sender));
    if i < |batch| {
      assert senders[i] == event.sender;
    } else {
      assert forall k :: 0 <= k < |senders| ==> batch[k].sender == senders[k];
    }
  }

  lemma DistinctAdded(s: seq<nat>, x: nat)
    ensures Distinct(s + [x]) == With(Distinct(s), x)
  {
    assert (s + [x])[..|s|] == s;
  }

  /** The batch has one receipt per sender, in the order of their first messages, with that sender's
      timestamps, each once. */
  lemma {:induction false} BatchGroups(events: seq<Event>)
    ensures Groups(Batch(events), Distinct(Senders(events)), DistinctTimes(events))
  {
    if events != [] {
      var front, event := events[..|events| - 1], events[|events| - 1];
      BatchGroups(front);
      if Incoming(event) {
        DistinctAdded(Senders(front), event.sender);
        DistinctMeaning(Senders(front));
        if event.sender !in Senders(front) { NoTimes(front, event.sender); }
        forall s ensures DistinctTimes(events)(s) ==
                         if s == event.sender then With(DistinctTimes(front)(s), event.timestamp) else DistinctTimes(front)(s)
        {
          DistinctAdded(Times(front, s), event.timestamp);
          assert Times(front, s) + [] == Times(front, s);
        }
        QueuedGroups(Batch(front), event, Distinct(Senders(front)), DistinctTimes(front), DistinctTimes(events));
      } else {
        assert Senders(front) + [] == Senders(front);
        forall s ensures DistinctTimes(events)(s) == DistinctTimes(front)(s) {
          assert Times(front, s) + [] == Times(front, s);
        }
      }
    }
  }

  /** Every sender of an incoming message gets exactly one receipt, with exactly its distinct timestamps;
      nobody else gets one. */
  lemma OneReceiptPerSender(events: seq<Event>)
    ensures forall i, j :: 0 <= i < j < |Batch(events)| ==> Batch(events)[i].sender != Batch(events)[j].sender
    ensures forall sender: Uuid :: HasReceipt(Batch(events), sender) <==>
                             Sent(events, sender)
    ensures forall r :: r in Batch(events) ==>
              && (forall i, j :: 0 <= i < j < |r.timestamps| ==> r.timestamps[i] != r.timestamps[j])
              && forall t: nat :: t in r.timestamps <==> SentAt(events, r.sender, t)
  {
    var batch := Batch(events);
    BatchGroups(events);
    DistinctMeaning(Senders(events));
    forall sender: Uuid
      ensures HasReceipt(batch, sender) <==> Sent(events, sender)
    {
      SendersMeaning(events, sender);
      ReceiptPerSender(batch, events, sender);
    }
    forall r | r in batch
      ensures (forall i, j :: 0 <= i < j < |r.timestamps| ==> r.timestamps[i] != r.timestamps[j])
      ensures forall t: nat :: t in r.timestamps <==> SentAt(events, r.sender, t)
    {
      DistinctMeaning(Times(events, r.sender));
      forall t: nat ensures t in r.timestamps <==> SentAt(events, r.sender, t) {
        TimesMeaning(events, r.sender, t);
      }
    }
  }

  lemma ReceiptPerSender(batch: seq<Receipt>, events: seq<Event>, sender: Uuid)
    requires Groups(batch, Distinct(Senders(events)), DistinctTimes(events))
    ensures HasReceipt(batch, sender) <==> sender in Senders(events)
  {
    DistinctMeaning(Senders(events));
    var senders := Distinct(Senders(events));
    if sender in Senders(events) {
      var i :| 0 <= i < |senders| && senders[i] == sender;
      assert batch[i] in batch && batch[i].sender == sender;
    }
    if r :| r in batch && r.sender == sender {
      var i :| 0 <= i < |batch| && batch[i] == r;
      assert senders[i] == sender;
    }
  }

  // ----- Marking records as read -----

  datatype Mark = Mark(sender: Uuid, timestamp: nat)

  /** The sender and timestamp columns of a record. */
  function Columns(event: Event): Mark {
    if event.Message? then Mark(event.sender, event.timestamp) else Mark(NIL_UUID, 0)
  }

  function Hit(marks: seq<Mark>): Entry -> bool {
    (e: Entry) => e.unread && Columns(e.event) in marks
  }

  function MarkEntry(e: Entry, marks: seq<Mark>): Entry {
    if e.unread && Columns(e.event) in marks then e.(unread := false) else e
  }

  /** The records with the unread ones that marks identify marked as read; one mark is one UPDATE. */
  function Marked(store: seq<Entry>, marks: seq<Mark>): seq<Entry> {
    seq(|store|, i requires 0 <= i < |store| => MarkEntry(store[i], marks))
  }

  lemma MarkedAlong(store: seq<Entry>, marks: seq<Mark>, mark: Mark)
    ensures Marked(Marked(store, marks), [mark]) == Marked(store, marks + [mark])
  {
    forall i | 0 <= i < |store| ensures MarkEntry(MarkEntry(store[i], marks), [mark]) == MarkEntry(store[i], marks + [mark]) {
      MarkEntryAlong(store[i], marks, mark);
    }
  }

  lemma MarkEntryAlong(e: Entry, marks: seq<Mark>, mark: Mark)
    ensures MarkEntry(MarkEntry(e, marks), [mark]) == MarkEntry(e, marks + [mark])
  {
  }

  /** A record counts for the first mark that identifies it. */
  lemma {:induction false} CountAlong(store: seq<Entry>, marks: seq<Mark>, mark: Mark)
    ensures |Filter(store, Hit(marks + [mark]))| == |Filter(store, Hit(marks))| + |Filter(Marked(store, marks), Hit([mark]))|
  {
    if store != [] {
      var front := store[..|store| - 1];
      CountAlong(front, marks, mark);
      assert Marked(store, marks)[..|store| - 1] == Marked(front, marks);
    }
  }

  // ----- MarkRead -----

  datatype Submission = Submission(receipt: Receipt, ok: bool)

  predicate Submitted(mark: Mark, submissions: seq<Submission>) {
    exists s :: s in submissions && s.ok && s.receipt.sender == mark.sender && mark.timestamp in s.receipt.timestamps
  }

  /** The unread records of messages whose receipt succeeded. */
  function Covered(submissions: seq<Submission>): Entry -> bool {
    (e: Entry) => e.unread && Submitted(Columns(e.event), submissions)
  }

  function Receipts(submissions: seq<Submission>): seq<Receipt> {
    seq(|submissions|, i requires 0 <= i < |submissions| => submissions[i].receipt)
  }

  function Succeeded(submissions: seq<Submission>): nat {
    if submissions == [] then 0
    else Succeeded(submissions[..|submissions| - 1]) + if submissions[|submissions| - 1].ok then 1 else 0
  }

  function Events(entries: seq<Entry>): seq<Event> {
    seq(|entries|, i requires 0 <= i < |entries| => entries[i].event)
  }

  /** The unread entries of a chat up to a cursor; an explicit zero selects nothing, no cursor everything. */
  function MarkReadEntries(store: seq<Entry>, chat: string, cursor: Cursor): Result<seq<Entry>, InboxError> {
    match cursor
    case BadCursor => Err(InvalidCursor)
    case At(id) => Ok(if id == 0 then [] else InboxList(store, Query(0, id, chat, 0, true, 0, false)))
    case NoCursor => Ok(InboxList(store, Query(0, 0, chat, 0, true, 0, false)))
  }

  datatype MarkReadResult = MarkReadResult(messages: nat, senders: nat, failed: bool)

  function MarksOf(receipt: Receipt): seq<Mark> {
    seq(|receipt.timestamps|, i requires 0 <= i < |receipt.timestamps| => Mark(receipt.sender, receipt.timestamps[i]))
  }

  lemma SubmittedAlong(submissions: seq<Submission>, next: Submission)
    ensures forall mark :: Submitted(mark, submissions + [next]) <==>
              Submitted(mark, submissions) || (next.ok && mark in MarksOf(next.receipt))
    ensures Succeeded(submissions + [next]) == Succeeded(submissions) + if next.ok then 1 else 0
    ensures Receipts(submissions + [next]) == Receipts(submissions) + [next.receipt]
  {
    assert (submissions + [next])[..|submissions|] == submissions;
    forall mark: Mark
      ensures Submitted(mark, submissions + [next]) <==> Submitted(mark, submissions) || (next.ok && mark in MarksOf(next.receipt))
    {
      var marks := MarksOf(next.receipt);
      if mark.sender == next.receipt.sender && mark.timestamp in next.receipt.timestamps {
        var i :| 0 <= i < |next.receipt.timestamps| && next.receipt.timestamps[i] == mark.timestamp;
        assert marks[i] == mark;
      }
      if Submitted(mark, submissions) {
        var s :| s in submissions && s.ok && s.receipt.sender == mark.sender && mark.timestamp in s.receipt.timestamps;
        assert s in submissions + [next];
      }
      if next.ok && mark in marks {
        assert next in submissions + [next];
      }
    }
  }

  method Collect(receipts: ReadReceipts, entries: seq<Entry>)
    requires receipts.pending == []
    modifies receipts
    ensures receipts.pending == Batch(Events(entries))
  {
    ghost var events := Events(entries);
    for i := 0 to |entries|
      invariant receipts.pending == Batch(events[..i])
    {
      assert events[..i + 1][..i] == events[..i];
      var _ := receipts.Add(entries[i].event);
    }
    assert events[..|entries|] == events;
  }

  class Client {
    var store: seq<Entry>
    var sent: seq<Submission>

    /** A submission succeeds or fails. */
    method SendReceipt(receipt: Receipt) returns (ok: bool)
      modifies this`sent
      ensures sent == old(sent) + [Submission(receipt, ok)]
    {
      ok := *;
      sent := sent + [Submission(receipt, ok)];
    }

    /** One transaction: all marks are applied and the records counted, or nothing changes. */
    method InboxMarkRead(marks: seq<Mark>) returns (marked: Option<nat>)
      modifies this`store
      ensures marked.None? ==> store == old(store)
      ensures marked.Some? ==> store == Marked(old(store), marks) && marked.value == |Filter(old(store), Hit(marks))|
    {
      var fails: bool := *;
      if fails {
        return None;
      }
      ghost var before := store;
      var n := 0;
      FilterNone(before, Hit(marks[..0]));
      assert Marked(before, marks[..0]) == before;
      for i := 0 to |marks|
        invariant store == Marked(before, marks[..i]) && n == |Filter(before, Hit(marks[..i]))|
      {
        n := n + |Filter(store, Hit([marks[i]]))|;
        store := Marked(store, [marks[i]]);
        assert marks[..i + 1] == marks[..i] + [marks[i]];
        MarkedAlong(before, marks[..i], marks[i]);
        CountAlong(before, marks[..i], marks[i]);
      }
      assert marks[..|marks|] == marks;
      marked := Some(n);
    }

    /** Submits each receipt; marks are the messages of those that succeed. */
    method SubmitAll(pending: seq<Receipt>) returns (senders: nat, marks: seq<Mark>, failed: bool)
      modifies this`sent
      ensures old(sent) <= sent
      ensures var submissions := sent[|old(sent)|..];
              && Receipts(submissions) == pending
              && senders == Succeeded(submissions)
              && (failed <==> exists s :: s in submissions && !s.ok)
              && forall mark :: mark in marks <==> Submitted(mark, submissions)
    {
      senders, marks, failed := 0, [], false;
      ghost var before := |sent|;
      for i := 0 to |pending|
        invariant |sent| == before + i && old(sent) == sent[..before]
        invariant Receipts(sent[before..]) == pending[..i]
        invariant senders == Succeeded(sent[before..])
        invariant failed <==> exists s :: s in sent[before..] && !s.ok
        invariant forall mark :: mark in marks <==> Submitted(mark, sent[before..])
      {
        ghost var done := sent[before..];
        var ok := SendReceipt(pending[i]);
        assert sent[before..] == done + [Submission(pending[i], ok)];
        if ok {
          senders := senders + 1;
          marks := marks + MarksOf(pending[i]);
        } else {
          failed := true;
        }
        SubmittedAlong(done, Submission(pending[i], ok));
      }
    }

    /** Sends one receipt per sender of the selected entries, and marks the messages of the receipts that
        succeeded as read; a failed one leaves its sender's messages unread and doesn't stop the others. */
    method MarkRead(chat: string, cursor: Cursor) returns (res: Result<MarkReadResult, InboxError>, ghost stored: bool)
      modifies this
      ensures cursor.BadCursor? ==> res == Err(InvalidCursor) && sent == old(sent) && store == old(store)
      ensures cursor == At(0) ==> res == Ok(MarkReadResult(0, 0, false)) && sent == old(sent) && store == old(store)
      ensures old(sent) <= sent
      ensures !cursor.BadCursor? ==>
                var entries := MarkReadEntries(old(store), chat, cursor).value;
                var submissions := sent[|old(sent)|..];
                && res.Ok?
                && Receipts(submissions) == Batch(Events(entries))
                && res.value.senders == Succeeded(submissions)
                && (res.value.failed <==> !stored || exists s :: s in submissions && !s.ok)
                && |store| == |old(store)|
                && (stored ==> forall i :: 0 <= i < |store| ==>
                      store[i] == if Covered(submissions)(old(store)[i]) then old(store)[i].(unread := false) else old(store)[i])
                && (stored ==> res.value.messages == |Filter(old(store), Covered(submissions))|)
                && (!stored ==> store == old(store) && res.value.messages == 0)
    {
      stored := true;
      if cursor.BadCursor? {
        return Err(InvalidCursor), true;
      }
      var entries := MarkReadEntries(store, chat, cursor).value;
      if entries == [] {
        assert Receipts(sent[|sent|..]) == Batch(Events(entries));
        FilterNone(store, Covered(sent[|sent|..]));
        return Ok(MarkReadResult(0, 0, false)), true;
      }
      var receipts := new ReadReceipts();
      Collect(receipts, entries);
      var senders, marks, failed := SubmitAll(receipts.pending);
      var messages := 0;
      FilterAgree(store, Hit(marks), Covered(sent[|old(sent)|..]));
      if marks != [] {
        var marked := InboxMarkRead(marks);
        match marked {
          case Some(n) => messages := n;
          case None => failed := true; stored := false;
        }
      } else {
        FilterNone(old(store), Hit(marks));
      }
      res := Ok(MarkReadResult(messages, senders, failed));
    }
  }

  // ----- What MarkRead promises -----

  /** The message of a selected incoming entry is marked exactly when its sender's one receipt succeeded. */
  lemma MarkedIffReceiptSucceeded(entries: seq<Entry>, submissions: seq<Submission>, e: Entry) returns (i: nat)
    requires Receipts(submissions) == Batch(Events(entries)) && e in entries
    requires e.event.Message? && !e.event.sync && e.event.sender != NIL_UUID && e.event.timestamp != 0
    ensures i < |submissions|
    ensures submissions[i].receipt.sender == e.event.sender && e.event.timestamp in submissions[i].receipt.timestamps
    ensures forall k :: 0 <= k < |submissions| && submissions[k].receipt.sender == e.event.sender ==> k == i
    ensures Covered(submissions)(e) <==> e.unread && submissions[i].ok
  {
    var events, batch := Events(entries), Batch(Events(entries));
    OneReceiptPerSender(events);
    var n :| 0 <= n < |entries| && entries[n] == e;
    assert events[n] in events && Sent(events, e.event.sender);
    assert HasReceipt(batch, e.event.sender);
    assert SentAt(events, e.event.sender, e.event.timestamp);
    i :| 0 <= i < |batch| && batch[i].sender == e.event.sender;
    assert forall k :: 0 <= k < |submissions| ==> submissions[k].receipt == batch[k];
    assert batch[i] in batch;
  }

  /** Only messages of selected incoming entries are marked. */
  lemma OnlySelectedMarked(entries: seq<Entry>, submissions: seq<Submission>, mark: Mark) returns (e: Entry)
    requires Receipts(submissions) == Batch(Events(entries)) && Submitted(mark, submissions)
    ensures e in entries && e.event == Message(mark.sender, mark.timestamp, false) && mark.sender != NIL_UUID && mark.timestamp != 0
  {
    var events := Events(entries);
    OneReceiptPerSender(events);
    var k :| 0 <= k < |submissions| && submissions[k].ok && submissions[k].receipt.sender == mark.sender
             && mark.timestamp in submissions[k].receipt.timestamps;
    assert Receipts(submissions)[k] in Batch(events);
    assert SentAt(events, mark.sender, mark.timestamp);
    var n :| 0 <= n < |events| && events[n] == Message(mark.sender, mark.timestamp, false);
    e := entries[n];
  }

  /** So a record that is marked is of a message, with the sender and timestamp of a selected incoming one. */
  lemma OnlyMessagesMarked(entries: seq<Entry>, submissions: seq<Submission>, x: Entry) returns (e: Entry)
    requires Receipts(submissions) == Batch(Events(entries)) && Covered(submissions)(x)
    ensures x.unread && x.event.Message? && x.event.sender != NIL_UUID && x.event.timestamp != 0
    ensures e in entries && e.event == Message(x.event.sender, x.event.timestamp, false)
  {
    e := OnlySelectedMarked(entries, submissions, Columns(x.event));
  }

  /** The entries MarkRead selects are exactly the unread ones of the chat up to the cursor. */
  lemma SelectedForMarking(store: seq<Entry>, chat: string, cursor: Cursor, e: Entry)
    requires Ordered(store) && !cursor.BadCursor?
    ensures e in MarkReadEntries(store, chat, cursor).value <==>
            e in store && e.unread && (chat == "" || e.chat == chat) && (cursor.At? ==> e.id <= cursor.id)
  {
    FilterContents(store, Selects(Query(0, if cursor.At? then cursor.id else 0, chat, 0, true, 0, false)));
  }
}
