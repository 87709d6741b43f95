/** Waiting for inbox entries (internal/app/inbox.go): the receive loop, pruning and any number of
    Wait calls as interleaved atomic steps. */
module InboxWait {
  import opened Wrappers
  import opened Seqs
  import opened Inbox

  /** Where a Wait call stands. A channel is the number of its generation; it is closed exactly when the
      inbox has gone on to a later one. */
  datatype Phase =
    | Starting                    // about to determine the cursor
    | Taking                      // about to take the channel
    | Looking(channel: nat)       // has the channel, about to list
    | Blocked(channel: nat)       // listed nothing, waits for the channel or the timer
    | Done(page: Page)
    | Failed                      // an invalid cursor

  /** A client that waits again and again, each time on the cursor of the page before. got has the IDs of
      the entries it was given so far; start is the cursor it began with. */
  datatype Waiter = Waiter(req: Request, start: nat, cursor: nat, phase: Phase, got: seq<nat>)

  datatype State = State(store: seq<Entry>, nextId: nat, generation: nat, unannounced: set<nat>, waiters: seq<Waiter>)

  datatype Step =
    | Add(entry: Entry)              // InboxAdd in Inbox.store
    | Prune(keep: set<nat>)          // leaves the entries with these IDs
    | MarkRead(read: set<nat>)
    | Announce(id: nat)              // closes and replaces the channel
    | Enter(req: Request)            // a new client
    | Begin(w: nat)
    | Take(w: nat)
    | Look(w: nat)
    | Wake(w: nat)                   // the channel is closed
    | Expire(w: nat)                 // the timer fires
    | Again(w: nat)                  // calls Wait with the cursor of its page

  predicate Init(s: State) {
    s.store == [] && s.nextId == 1 && s.generation == 0 && s.unannounced == {} && s.waiters == []
  }

  predicate Enabled(s: State, step: Step) {
    match step
    case Add(e) => e.id == s.nextId
    case Announce(id) => id in s.unannounced
    case Begin(w) => w < |s.waiters| && s.waiters[w].phase == Starting
    case Take(w) => w < |s.waiters| && s.waiters[w].phase == Taking
    case Look(w) => w < |s.waiters| && s.waiters[w].phase.Looking?
    case Wake(w) => w < |s.waiters| && s.waiters[w].phase.Blocked? && s.waiters[w].phase.channel < s.generation
    case Expire(w) => w < |s.waiters| && s.waiters[w].phase.Blocked?
    case Again(w) => w < |s.waiters| && s.waiters[w].phase.Done?
    case _ => true
  }

  function Keeps(keep: set<nat>): Entry -> bool {
    (e: Entry) => e.id in keep
  }

  function Marked(e: Entry, read: set<nat>): Entry {
    if e.id in read then e.(unread := false) else e
  }

  function At0(req: Request, cursor: nat): Request {
    req.(cursor := At(cursor))
  }

  function Ids(entries: seq<Entry>): seq<nat> {
    seq(|entries|, i requires 0 <= i < |entries| => entries[i].id)
  }

  /** The cursor is the one given or the newest entry of any chat. */
  function Begun(w: Waiter, store: seq<Entry>): Waiter {
    match w.req.cursor
    case BadCursor => w.(phase := Failed)
    case At(id) => w.(start := id, cursor := id, phase := Taking)
    case NoCursor => var latest := LatestCursor(store); w.(start := latest, cursor := latest, phase := Taking)
  }

  /** Lists after the cursor: a page with entries is the result. */
  function Looked(w: Waiter, store: seq<Entry>): Waiter
    requires w.phase.Looking?
  {
    match List(store, At0(w.req, w.cursor))
    case Err(_) => w.(phase := Failed)
    case Ok(page) =>
      if page.entries == [] then w.(phase := Blocked(w.phase.channel))
      else w.(phase := Done(page), cursor := page.cursor, got := w.got + Ids(page.entries))
  }

  function Change(s: State, w: nat, waiter: Waiter): State
    requires w < |s.waiters|
  {
    s.(waiters := s.waiters[w := waiter])
  }

  function Next(s: State, step: Step): State
    requires Enabled(s, step)
  {
    match step
    case Add(e) => s.(store := s.store + [e], nextId := s.nextId + 1, unannounced := s.unannounced + {e.id})
    case Prune(keep) => s.(store := Filter(s.store, Keeps(keep)))
    case MarkRead(read) => s.(store := seq(|s.store|, i requires 0 <= i < |s.store| => Marked(s.store[i], read)))
    case Announce(id) => s.(unannounced := s.unannounced - {id}, generation := s.generation + 1)
    case Enter(req) => s.(waiters := s.waiters + [Waiter(req, 0, 0, Starting, [])])
    case Begin(w) => Change(s, w, Begun(s.waiters[w], s.store))
    case Take(w) => Change(s, w, s.waiters[w].(phase := Looking(s.generation)))
    case Look(w) => Change(s, w, Looked(s.waiters[w], s.store))
    case Wake(w) => Change(s, w, s.waiters[w].(phase := Taking))
    case Expire(w) => Change(s, w, s.waiters[w].(phase := Done(Page([], s.waiters[w].cursor, false))))
    case Again(w) => Change(s, w, s.waiters[w].(phase := Taking))
  }

  predicate IsRun(states: seq<State>, steps: seq<Step>) {
    && |states| == |steps| + 1 && Init(states[0])
    && forall k :: 0 <= k < |steps| ==> Enabled(states[k], steps[k]) && states[k + 1] == Next(states[k], steps[k])
  }

  // ----- The invariant -----

  predicate Stored(s: State) {
    && Ordered(s.store) && s.nextId > 0
    && forall e :: e in s.store ==> e.id < s.nextId
  }

  predicate Increasing(ids: seq<nat>) {
    forall i, j :: 0 <= i < j < |ids| ==> ids[i] < ids[j]
  }

  /** What the client was given is in order, after its start and up to its cursor. */
  predicate InOrder(s: State, w: Waiter) {
    && (w.phase.Starting? ==> w.got == [])
    && Increasing(w.got)
    && w.start <= w.cursor && (w.cursor > w.start ==> w.cursor < s.nextId)
    && forall id :: id in w.got ==> w.start < id <= w.cursor
  }

  /** No retained entry that the client wants lies behind its cursor without having been given to it. */
  predicate NoGap(s: State, w: Waiter) {
    forall e :: e in s.store && Wanted(w.req, w.start, e) && e.id <= w.cursor ==> e.id in w.got
  }

  /** A client blocked on the current channel misses only entries whose announcement is still to come. */
  predicate NothingMissed(s: State, w: Waiter) {
    && (w.phase.Looking? || w.phase.Blocked? ==> w.phase.channel <= s.generation)
    && (w.phase.Blocked? && w.phase.channel == s.generation ==>
          forall e :: e in s.store && Wanted(w.req, w.cursor, e) ==> e.id in s.unannounced)
  }

  predicate Served(s: State, w: Waiter) {
    InOrder(s, w) && NoGap(s, w) && NothingMissed(s, w)
  }

  predicate Invariant(s: State) {
    Stored(s) && forall w :: 0 <= w < |s.waiters| ==> Served(s, s.waiters[w])
  }

  lemma {:induction false} FilterOrdered(store: seq<Entry>, p: Entry -> bool)
    requires Ordered(store)
    ensures Ordered(Filter(store, p))
  {
    FilterContents(store, p);
    FilterDistinctIds(store, p);
  }

  lemma {:induction false} FilterDistinctIds(store: seq<Entry>, p: Entry -> bool)
    requires Ordered(store)
    ensures forall i, j :: 0 <= i < j < |Filter(store, p)| ==> Filter(store, p)[i].id < Filter(store, p)[j].id
  {
    if store != [] {
      var front := store[..|store| - 1];
      assert forall e :: e in front ==> e in store;
      FilterDistinctIds(front, p);
      forall i | 0 <= i < |Filter(front, p)| ensures Filter(front, p)[i].id < store[|store| - 1].id {
        FilterElement(front, p, i);
      }
    }
  }

  lemma AddKept(s: State, entry: Entry)
    requires Invariant(s) && Enabled(s, Add(entry))
    ensures Invariant(Next(s, Add(entry)))
  {
  }

  lemma PruneKept(s: State, keep: set<nat>)
    requires Invariant(s)
    ensures Invariant(Next(s, Prune(keep)))
  {
    FilterContents(s.store, Keeps(keep));
    FilterOrdered(s.store, Keeps(keep));
  }

  lemma MarkedServed(s: State, next: State, read: set<nat>, w: Waiter)
    requires next == Next(s, MarkRead(read)) && Served(s, w)
    ensures Served(next, w)
  {
    forall e | e in next.store ensures exists f :: f in s.store && f.(unread := e.unread) == e {
      var i :| 0 <= i < |next.store| && next.store[i] == e;
      assert s.store[i] in s.store && s.store[i].(unread := e.unread) == e;
    }
  }

  lemma MarkReadKept(s: State, read: set<nat>)
    requires Invariant(s)
    ensures Invariant(Next(s, MarkRead(read)))
  {
    var next := Next(s, MarkRead(read));
    forall w | 0 <= w < |s.waiters| ensures Served(next, s.waiters[w]) {
      MarkedServed(s, next, read, s.waiters[w]);
    }
    forall e | e in next.store ensures 0 < e.id < s.nextId {
      var i :| 0 <= i < |next.store| && next.store[i] == e;
      assert s.store[i] in s.store;
    }
  }

  lemma AnnounceKept(s: State, id: nat)
    requires Invariant(s) && Enabled(s, Announce(id))
    ensures Invariant(Next(s, Announce(id)))
  {
  }

  /** Looking gives the oldest entries after the cursor, or blocks with none to give. */
  lemma LookMeaning(s: State, w: Waiter)
    requires Stored(s) && w.phase.Looking?
    ensures var following := Following(s.store, w.req, w.cursor);
            var next := Looked(w, s.store);
            if following == [] then next == w.(phase := Blocked(w.phase.channel))
            else && next.phase.Done?
                 && next.phase.page.entries == First(following, PageLimit(w.req.limit)) && next.phase.page.entries != []
                 && next.cursor == next.phase.page.cursor == next.phase.page.entries[|next.phase.page.entries| - 1].id
  {
    PageMeaning(s.store, At0(w.req, w.cursor));
    FilterAgree(s.store, Wants(w.req, w.cursor), Wants(At0(w.req, w.cursor), w.cursor));
  }

  lemma FollowingMeaning(store: seq<Entry>, req: Request, after: nat)
    requires Ordered(store)
    ensures Ordered(Following(store, req, after))
    ensures forall e :: e in Following(store, req, after) <==> e in store && Wanted(req, after, e)
    ensures forall i :: 0 <= i < |Following(store, req, after)| ==>
              Following(store, req, after)[i] in store && Wanted(req, after, Following(store, req, after)[i])
  {
    FilterContents(store, Wants(req, after));
    FilterOrdered(store, Wants(req, after));
    var following := Following(store, req, after);
    assert forall i :: 0 <= i < |following| ==> following[i] in following;
  }

  lemma PageInOrder(got: seq<nat>, cursor: nat, page: seq<Entry>)
    requires Increasing(got) && (forall id :: id in got ==> id <= cursor)
    requires page != [] && Ordered(page) && forall i :: 0 <= i < |page| ==> page[i].id > cursor
    ensures Increasing(got + Ids(page))
    ensures forall id :: id in got + Ids(page) ==> id in got || cursor < id <= page[|page| - 1].id
  {
    var ids := Ids(page);
    assert forall i :: 0 <= i < |page| ==> ids[i] == page[i].id <= page[|page| - 1].id;
    forall i, j | 0 <= i < j < |got + ids| ensures (got + ids)[i] < (got + ids)[j] {
      if i < |got| <= j {
        assert (got + ids)[i] in got && (got + ids)[j] == ids[j - |got|];
      }
    }
  }

  lemma LookLeavesNoGap(s: State, w: Waiter, following: seq<Entry>, page: seq<Entry>)
    requires NoGap(s, w) && Ordered(following) && following != [] && page == First(following, PageLimit(w.req.limit))
    requires forall e :: e in s.store && Wanted(w.req, w.cursor, e) ==> e in following
    ensures forall e :: e in s.store && Wanted(w.req, w.start, e) && e.id <= page[|page| - 1].id ==> e.id in w.got + Ids(page)
  {
    forall e | e in s.store && Wanted(w.req, w.start, e) && e.id <= page[|page| - 1].id ensures e.id in w.got + Ids(page) {
      if e.id > w.cursor {
        var i :| 0 <= i < |following| && following[i] == e;
        assert i < |page| && Ids(page)[i] == e.id;
      }
    }
  }

  lemma LookInOrder(s: State, w: Waiter, following: seq<Entry>, page: Page)
    requires Stored(s) && w.phase.Looking? && InOrder(s, w) && Ordered(following) && following != []
    requires forall i :: 0 <= i < |following| ==> following[i] in s.store && following[i].id > w.cursor
    requires page.entries == First(following, PageLimit(w.req.limit)) && page.cursor == page.entries[|page.entries| - 1].id
    ensures InOrder(s, w.(phase := Done(page), cursor := page.cursor, got := w.got + Ids(page.entries)))
  {
    assert forall i :: 0 <= i < |page.entries| ==> page.entries[i] == following[i];
    PageInOrder(w.got, w.cursor, page.entries);
  }

  lemma LookBlocks(s: State, w: Waiter)
    requires Stored(s) && w.phase.Looking? && Served(s, w) && Following(s.store, w.req, w.cursor) == []
    ensures Served(s, w.(phase := Blocked(w.phase.channel)))
  {
    FilterContents(s.store, Wants(w.req, w.cursor));
    assert forall e :: e in s.store && Wanted(w.req, w.cursor, e) ==> e in Following(s.store, w.req, w.cursor);
  }

  lemma LookReturns(s: State, w: Waiter, page: Page)
    requires Stored(s) && w.phase.Looking? && Served(s, w) && page.entries != []
    requires page.entries == First(Following(s.store, w.req, w.cursor), PageLimit(w.req.limit))
    requires page.cursor == page.entries[|page.entries| - 1].id
    ensures Served(s, w.(phase := Done(page), cursor := page.cursor, got := w.got + Ids(page.entries)))
  {
    var following := Following(s.store, w.req, w.cursor);
    FollowingMeaning(s.store, w.req, w.cursor);
    LookInOrder(s, w, following, page);
    LookLeavesNoGap(s, w, following, page.entries);
  }

  lemma LookServed(s: State, w: Waiter)
    requires Stored(s) && w.phase.Looking? && Served(s, w)
    ensures Served(s, Looked(w, s.store))
  {
    LookMeaning(s, w);
    if Following(s.store, w.req, w.cursor) == [] {
      LookBlocks(s, w);
    } else {
      LookReturns(s, w, Looked(w, s.store).phase.page);
    }
  }

  lemma WaiterKept(s: State, i: nat, waiter: Waiter)
    requires Invariant(s) && i < |s.waiters| && Served(s, waiter)
    ensures Invariant(Change(s, i, waiter))
  {
  }

  lemma StepKeepsInvariant(s: State, step: Step)
    requires Invariant(s) && Enabled(s, step)
    ensures Invariant(Next(s, step))
  {
    match step
    case Add(e) => AddKept(s, e);
    case Prune(keep) => PruneKept(s, keep);
    case MarkRead(read) => MarkReadKept(s, read);
    case Announce(id) => AnnounceKept(s, id);
    case Enter(_) =>
    case Begin(w) =>
      LatestIsLast(s.store);
      WaiterKept(s, w, Begun(s.waiters[w], s.store));
    case Take(w) => WaiterKept(s, w, s.waiters[w].(phase := Looking(s.generation)));
    case Look(w) =>
      LookServed(s, s.waiters[w]);
      WaiterKept(s, w, Looked(s.waiters[w], s.store));
    case Wake(w) => WaiterKept(s, w, s.waiters[w].(phase := Taking));
    case Expire(w) => WaiterKept(s, w, s.waiters[w].(phase := Done(Page([], s.waiters[w].cursor, false))));
    case Again(w) => WaiterKept(s, w, s.waiters[w].(phase := Taking));
  }

  lemma {:induction false} RunKeepsInvariant(states: seq<State>, steps: seq<Step>, k: nat)
    requires IsRun(states, steps) && k < |states|
    ensures Invariant(states[k])
  {
    if k > 0 {
      RunKeepsInvariant(states, steps, k - 1);
      StepKeepsInvariant(states[k - 1], steps[k - 1]);
    }
  }

  // ----- What waiting promises -----

  lemma FirstFollowing(store: seq<Entry>, req: Request, after: nat, e: Entry)
    requires Ordered(store) && e in store && Wanted(req, after, e)
    ensures Following(store, req, after) != [] && Following(store, req, after)[0].id <= e.id
  {
    FilterContents(store, Wants(req, after));
    FilterOrdered(store, Wants(req, after));
    assert e in Following(store, req, after);
  }

  /** Woken, a client takes the new channel and looks again. */
  lemma WokenLooks(s: State, w: nat)
    requires w < |s.waiters| && Enabled(s, Wake(w))
    ensures var awake := Next(s, Wake(w));
            && Enabled(awake, Take(w))
            && var taken := Next(awake, Take(w));
            && Enabled(taken, Look(w))
            && Next(taken, Look(w)).waiters[w] == Looked(s.waiters[w].(phase := Looking(s.generation)), s.store)
  {
  }

  /** No lost wakeup: when a retained entry that a blocked client wants has been announced, its channel is
      closed; woken, it takes the new channel and returns a page that begins with the oldest entry it wants. */
  lemma NoLostWakeup(states: seq<State>, steps: seq<Step>, w: nat, e: Entry)
    requires IsRun(states, steps)
    requires var s := states[|states| - 1];
             && w < |s.waiters| && s.waiters[w].phase.Blocked?
             && e in s.store && Wanted(s.waiters[w].req, s.waiters[w].cursor, e) && e.id !in s.unannounced
    ensures var s := states[|states| - 1];
            && Enabled(s, Wake(w))
            && var awake := Next(s, Wake(w));
            && Enabled(awake, Take(w))
            && var taken := Next(awake, Take(w));
            && Enabled(taken, Look(w))
            && var waiter := Next(taken, Look(w)).waiters[w];
            && waiter.phase.Done? && waiter.phase.page.entries != [] && waiter.phase.page.entries[0].id <= e.id
            && waiter.phase.page.entries == First(Following(s.store, waiter.req, s.waiters[w].cursor), PageLimit(waiter.req.limit))
  {
    var s := states[|states| - 1];
    RunKeepsInvariant(states, steps, |states| - 1);
    var waiter := s.waiters[w];
    assert NothingMissed(s, waiter);
    var looking := waiter.(phase := Looking(s.generation));
    WokenLooks(s, w);
    LookMeaning(s, looking);
    FirstFollowing(s.store, waiter.req, waiter.cursor, e);
  }

  /** A client starts after its cursor, and without one after the newest entry of any chat. */
  lemma WaitStarts(s: State, w: nat)
    requires Stored(s) && Enabled(s, Begin(w)) && s.waiters[w].req.cursor != BadCursor
    ensures var begun, cursor := Next(s, Begin(w)).waiters[w], s.waiters[w].req.cursor;
            && begun.phase == Taking && begun.cursor == begun.start
            && (cursor.At? ==> begun.start == cursor.id)
            && (cursor.NoCursor? ==> begun.start == if s.store == [] then 0 else s.store[|s.store| - 1].id)
  {
    LatestIsLast(s.store);
  }

  /** Over any run, a client that waits on the cursor of each page before is given each entry at most once
      and in order, and every entry it wants that is still retained behind its cursor was given to it. */
  lemma WaitingLeavesNoGap(states: seq<State>, steps: seq<Step>, w: nat, e: Entry)
    requires IsRun(states, steps)
    requires var s := states[|states| - 1];
             w < |s.waiters| && e in s.store && Wanted(s.waiters[w].req, s.waiters[w].start, e)
    ensures var s := states[|states| - 1];
            && Increasing(s.waiters[w].got)
            && (e.id in s.waiters[w].got <==> e.id <= s.waiters[w].cursor)
  {
    RunKeepsInvariant(states, steps, |states| - 1);
    assert Served(states[|states| - 1], states[|states| - 1].waiters[w]);
  }
}
