/** The event stream (internal/daemon/events.go) and the client that resumes it
    (scripts/daemon-example.py) as interleaved atomic steps, with lost connections and client crashes. */
module EventStream {
  import opened Wrappers
  import opened Seqs
  import opened Inbox
  import W = InboxWait

  // ----- Which cursor a stream starts from -----

  datatype QueryError = SeveralCursors | BadQueryCursor

  /** The cursor of a request: the Last-Event-ID header of a stream overrides the query's cursors. */
  function QueryCursor(values: seq<Cursor>, lastEventId: Option<Cursor>, stream: bool): Result<Cursor, QueryError> {
    var cursors := if stream && lastEventId.Some? then [lastEventId.value] else values;
    if cursors == [] then Ok(NoCursor)
    else if |cursors| != 1 then Err(SeveralCursors)
    else if !cursors[0].At? then Err(BadQueryCursor)
    else Ok(cursors[0])
  }

  /** Where a stream starts, with its first page: without a cursor, after the newest entry of any chat. */
  function StreamStart(store: seq<Entry>, req: Request): Result<(Request, Page), InboxError> {
    var start := if req.cursor == NoCursor
                 then req.(cursor := At(List(store, Request("", NoCursor, 0, 1)).value.cursor)) else req;
    match List(store, start)
    case Ok(page) => Ok((start, page))
    case Err(e) => Err(e)
  }

  lemma TailCursor(store: seq<Entry>)
    requires Ordered(store)
    ensures List(store, Request("", NoCursor, 0, 1)).Ok?
    ensures List(store, Request("", NoCursor, 0, 1)).value.cursor == LatestCursor(store)
  {
    LatestIsLast(store);
    NewestPage(store, Request("", NoCursor, 0, 1));
    FilterAll(store, Wants(Request("", NoCursor, 0, 1), 0));
  }

  /** A stream without a cursor skips everything stored so far, whatever chat it is filtered by. */
  lemma StartsAtTail(store: seq<Entry>, req: Request)
    requires Ordered(store) && req.cursor == NoCursor
    ensures StreamStart(store, req) ==
            Ok((req.(cursor := At(LatestCursor(store))), Page([], LatestCursor(store), false)))
    ensures forall e :: e in store ==> e.id <= LatestCursor(store)
  {
    TailCursor(store);
    LatestIsLast(store);
    var latest := LatestCursor(store);
    assert forall e :: e in store ==> e.id <= latest;
    var start := req.(cursor := At(latest));
    PageMeaning(store, start);
    FollowingNone(store, start, latest);
  }

  /** With a valid Last-Event-ID a stream resumes there, whatever cursors the query has: its first page has
      the oldest entries that follow. Without the header, or outside streams, the query's one cursor counts. */
  lemma HeaderOverrides(store: seq<Entry>, values: seq<Cursor>, lastEventId: Option<Cursor>, stream: bool, req: Request)
    requires Ordered(store)
    ensures stream && lastEventId.Some? ==>
              (QueryCursor(values, lastEventId, stream).Ok? <==> lastEventId.value.At?)
    ensures stream && lastEventId.Some? && lastEventId.value.At? ==>
              && QueryCursor(values, lastEventId, stream) == Ok(lastEventId.value)
              && var begun := StreamStart(store, req.(cursor := lastEventId.value));
              && begun.Ok? && begun.value.0.cursor == lastEventId.value
              && begun.value.1.entries == First(Following(store, req, lastEventId.value.id), PageLimit(req.limit))
    ensures !stream || lastEventId.None? ==>
              && (QueryCursor(values, lastEventId, stream) == Ok(NoCursor) <==> values == [])
              && forall id :: QueryCursor(values, lastEventId, stream) == Ok(At(id)) <==> values == [At(id)]
  {
    if lastEventId.Some? && lastEventId.value.At? {
      var start := req.(cursor := lastEventId.value);
      PageMeaning(store, start);
      FilterAgree(store, Wants(start, start.cursor.id), Wants(req, start.cursor.id));
    }
    if values != [] { assert |values| == 1 ==> values == [values[0]]; }
  }

  // ----- The stream -----

  datatype Frame = Ready(id: nat) | InboxFrame(id: nat) | Heartbeat

  /** The handler of a connection: what is left to write of its page, and the page's cursor. */
  datatype Server = Server(rest: seq<Entry>, cursor: nat)

  /** The client: between frames, with a new entry in hand, or with its work done but not yet saved. */
  datatype Phase = Reading | Working(id: nat) | Worked(id: nat)

  /** wire has the frames that were written but not read yet; file is the cursor file, cursor its copy in
      memory. matching has the IDs of all entries of the chat ever stored, start the cursor at first. */
  datatype State = State(
    store: seq<Entry>, nextId: nat, matching: set<nat>,
    server: Option<Server>, open: bool, wire: seq<Frame>,
    file: Option<nat>, cursor: Option<nat>, phase: Phase,
    processed: seq<nat>, crashes: nat, start: nat, chat: string)

  datatype Step =
    | Append(entry: Entry)
    | Prune(keep: set<nat>)
    | Connect
    | Write            // the next entry of the page
    | NextPage         // Wait returns a page, or nothing in time
    | ServerDrops      // the handler ends; what it wrote may still be read
    | ClientDrops      // the client notices; the rest is lost
    | Read             // the client reads a frame
    | Process          // it does its work
    | Save             // it replaces the cursor file, and then its cursor
    | Crash            // it loses its memory and connection

  function Value(cursor: Option<nat>): nat {
    if cursor.Some? then cursor.value else 0
  }

  predicate Init(s: State) {
    && s.store == [] && s.nextId == 1 && s.matching == {} && s.server == None && !s.open && s.wire == []
    && s.cursor == s.file && s.phase == Reading && s.processed == [] && s.crashes == 0 && s.start == Value(s.file)
  }

  function Req(s: State): Request {
    Request(s.chat, NoCursor, 0, DEFAULT_LIMIT)
  }

  predicate Enabled(s: State, step: Step) {
    match step
    case Append(e) => e.id == s.nextId
    case Prune(_) => true
    case Connect => !s.open && s.phase == Reading
    case Write => s.server.Some? && s.server.value.rest != []
    case NextPage => s.server.Some? && s.server.value.rest == []
    case ServerDrops => s.server.Some?
    case ClientDrops => s.open && s.phase == Reading
    case Read => s.open && s.phase == Reading && s.wire != []
    case Process => s.phase.Working?
    case Save => s.phase.Worked?
    case Crash => true
  }

  /** The first page after the client's cursor; the query asks for everything, the header overrides it. */
  function Connected(s: State): State {
    var lastEventId := if s.cursor.Some? then Some(At(s.cursor.value)) else None;
    var req := Req(s).(cursor := QueryCursor([At(0)], lastEventId, true).value);
    var (start, page) := StreamStart(s.store, req).value;
    s.(open := true, server := Some(Server(page.entries, page.cursor)), wire := [Ready(start.cursor.id)])
  }

  function Received(s: State): State
    requires s.wire != []
  {
    var next := s.(wire := s.wire[1..]);
    match s.wire[0]
    case Ready(id) => if s.cursor == None then next.(file := Some(id), cursor := Some(id)) else next
    case InboxFrame(id) => if s.cursor == Some(id) then next else next.(phase := Working(id))
    case Heartbeat => next
  }

  function Next(s: State, step: Step): State
    requires Enabled(s, step)
  {
    match step
    case Append(e) =>
      s.(store := s.store + [e], nextId := s.nextId + 1, matching := s.matching + if Wanted(Req(s), 0, e) then {e.id} else {})
    case Prune(keep) => s.(store := Filter(s.store, W.Keeps(keep)))
    case Connect => Connected(s)
    case Write =>
      var server := s.server.value;
      s.(wire := s.wire + [InboxFrame(server.rest[0].id)], server := Some(Server(server.rest[1..], server.cursor)))
    case NextPage =>
      var page := List(s.store, Req(s).(cursor := At(s.server.value.cursor))).value;
      s.(server := Some(Server(page.entries, page.cursor)), wire := if page.entries == [] then s.wire + [Heartbeat] else s.wire)
    case ServerDrops => s.(server := None)
    case ClientDrops => s.(server := None, open := false, wire := [])
    case Read => Received(s)
    case Process => s.(processed := s.processed + [s.phase.id], phase := Worked(s.phase.id))
    case Save => s.(file := Some(s.phase.id), cursor := Some(s.phase.id), phase := Reading)
    case Crash => s.(server := None, open := false, wire := [], cursor := s.file, phase := Reading, crashes := s.crashes + 1)
  }

  predicate IsRun(states: seq<State>, steps: seq<Step>) {
    && |states| == |steps| + 1 && Init(states[0])
    && forall k :: 0 <= k < |steps| ==> Enabled(states[k], steps[k]) && states[k + 1] == Next(states[k], steps[k])
  }

  // ----- The invariant -----

  function WireIds(wire: seq<Frame>): seq<nat> {
    if wire == [] then [] else (if wire[0].InboxFrame? then [wire[0].id] else []) + WireIds(wire[1..])
  }

  function RestIds(server: Option<Server>): seq<nat> {
    if server.Some? then W.Ids(server.value.rest) else []
  }

  /** The IDs of the retained entries of a chat. */
  ghost function Retained(store: seq<Entry>, chat: string): set<nat> {
    set e | e in store && Wanted(Request(chat, NoCursor, 0, DEFAULT_LIMIT), 0, e) :: e.id
  }

  /** What the invariant is about: ids are the entries on their way to the client, in order, upTo the cursor
      of the server's page, and saved the saved cursor. */
  datatype View = View(
    ids: seq<nat>, upTo: Option<nat>, nextId: nat, matching: set<nat>, retained: set<nat>,
    saved: nat, phase: Phase, processed: seq<nat>, crashes: nat, start: nat)

  ghost function ViewOf(s: State): View {
    View(WireIds(s.wire) + RestIds(s.server), if s.server.Some? then Some(s.server.value.cursor) else None,
         s.nextId, s.matching, Retained(s.store, s.chat),
         Value(s.cursor), s.phase, s.processed, s.crashes, s.start)
  }

  function Position(v: View): nat {
    if v.phase.Reading? then v.saved else v.phase.id
  }

  /** The entry processed last, or the start. */
  function Last(v: View): nat {
    if v.processed == [] then v.start else v.processed[|v.processed| - 1]
  }

  /** Entries come in order, each after the client's position and none before the one processed last. */
  ghost predicate InOrder(v: View) {
    && W.Increasing(v.ids)
    && forall id :: id in v.ids ==> id in v.matching && id > Position(v) && id >= Last(v)
  }

  /** Nothing is skipped on the way: what is retained before an entry in flight is in flight, too, and so
      is what is retained up to the server's cursor. */
  ghost predicate NoneSkipped(v: View) {
    && (forall x, id :: x in v.retained && id in v.ids && Position(v) < x <= id ==> x in v.ids)
    && (v.upTo.Some? ==>
          var cursor := v.upTo.value;
          && Position(v) <= cursor && (Position(v) < cursor ==> cursor < v.nextId)
          && (forall id :: id in v.ids ==> id <= cursor)
          && forall x :: x in v.retained && Position(v) < x <= cursor ==> x in v.ids)
  }

  /** An entry in hand is the next one after the saved cursor. */
  ghost predicate InHand(v: View) {
    && v.start <= v.saved && (v.start < v.saved ==> v.saved in v.processed)
    && (!v.phase.Reading? ==>
          && v.phase.id in v.matching && v.phase.id > v.saved && v.phase.id >= Last(v)
          && forall x :: x in v.retained && x > v.saved ==> x >= v.phase.id)
    && (v.phase.Worked? ==> v.processed != [] && v.phase.id == Last(v))
  }

  ghost predicate NonDecreasing(ids: seq<nat>) {
    forall i, j :: 0 <= i < j < |ids| ==> ids[i] <= ids[j]
  }

  /** How often an entry is the same as the one before. */
  function Repeats(ids: seq<nat>): nat {
    if |ids| <= 1 then 0 else Repeats(ids[..|ids| - 1]) + if ids[|ids| - 1] == ids[|ids| - 2] then 1 else 0
  }

  /** A crash lost the cursor of the entry processed last. */
  predicate Unsaved(v: View) {
    !v.phase.Worked? && Last(v) > v.saved
  }

  /** Everything retained up to the cursor was processed, and nothing before the one processed last was skipped. */
  ghost predicate Progress(v: View) {
    && NonDecreasing(v.processed)
    && Repeats(v.processed) + (if Unsaved(v) then 1 else 0) <= v.crashes
    && (forall id :: id in v.processed ==> id in v.matching && id > v.start)
    && (forall x :: x in v.retained && v.start < x <= v.saved ==> x in v.processed)
    && forall x :: x in v.retained && x > v.saved ==> x >= Last(v)
  }

  ghost predicate Sound(v: View) {
    && v.retained <= v.matching && (forall id :: id in v.matching ==> 0 < id < v.nextId)
    && InOrder(v) && NoneSkipped(v) && InHand(v) && Progress(v)
  }

  ghost predicate Stored(s: State) {
    && Ordered(s.store) && s.nextId > 0
    && forall e :: e in s.store ==> e.id < s.nextId
  }

  ghost predicate Linked(s: State) {
    && s.cursor == s.file && (!s.open ==> s.wire == [] && s.server == None)
    && (s.cursor == None ==> forall id :: Ready(id) in s.wire ==> id == 0)
  }

  ghost predicate Invariant(s: State) {
    Stored(s) && Linked(s) && Sound(ViewOf(s))
  }

  // ----- What a step does to the view -----

  /** A new entry may join what is retained. */
  ghost predicate Grows(v: View, next: View) {
    && next == v.(nextId := v.nextId + 1, matching := next.matching, retained := next.retained)
    && v.matching <= next.matching <= v.matching + {v.nextId}
    && next.retained <= v.retained + {v.nextId} && next.retained <= next.matching
  }

  lemma AppendedProgress(v: View, next: View)
    requires Sound(v) && v.nextId > 0 && Grows(v, next)
    ensures Progress(next)
  {
    assert v.processed != [] ==> Last(v) in v.processed;
  }

  lemma AppendedSkipsNone(v: View, next: View)
    requires Sound(v) && v.nextId > 0 && Grows(v, next)
    ensures NoneSkipped(next)
  {
  }

  lemma Appended(v: View, next: View)
    requires Sound(v) && v.nextId > 0 && Grows(v, next)
    ensures Sound(next)
  {
    AppendedProgress(v, next);
    AppendedSkipsNone(v, next);
  }

  lemma Pruned(v: View, next: View)
    requires Sound(v) && next == v.(retained := next.retained) && next.retained <= v.retained
    ensures Sound(next)
  {
  }

  /** Everything retained between two cursors joins what is in flight. */
  ghost predicate IsPage(v: View, after: nat, added: seq<nat>, cursor: nat) {
    && W.Increasing(added) && cursor >= after
    && (forall id :: id in added ==> id in v.retained && after < id <= cursor)
    && (cursor > after ==> cursor in added)
    && forall x :: x in v.retained && after < x <= cursor ==> x in added
  }

  lemma PageInOrder(v: View, added: seq<nat>, cursor: nat, next: View)
    requires Sound(v) && v.upTo.Some? && IsPage(v, v.upTo.value, added, cursor)
    requires next == v.(ids := v.ids + added, upTo := Some(cursor))
    ensures InOrder(next)
  {
    forall i, j | 0 <= i < j < |next.ids| ensures next.ids[i] < next.ids[j] {
      if i < |v.ids| <= j { assert v.ids[i] in v.ids && added[j - |v.ids|] in added; }
    }
    forall id | id in next.ids ensures id in v.matching && id > Position(v) && id >= Last(v) {
      if id in added { assert id in v.retained && id > v.upTo.value >= Position(v); }
    }
  }

  lemma PageSkipsNone(v: View, added: seq<nat>, cursor: nat, next: View)
    requires Sound(v) && v.upTo.Some? && IsPage(v, v.upTo.value, added, cursor)
    requires next == v.(ids := v.ids + added, upTo := Some(cursor))
    ensures NoneSkipped(next)
  {
    assert forall id :: id in next.ids <==> id in v.ids || id in added;
  }

  lemma PageAdded(v: View, added: seq<nat>, cursor: nat)
    requires Sound(v) && v.upTo.Some? && IsPage(v, v.upTo.value, added, cursor)
    ensures Sound(v.(ids := v.ids + added, upTo := Some(cursor)))
  {
    var next := v.(ids := v.ids + added, upTo := Some(cursor));
    PageInOrder(v, added, cursor, next);
    PageSkipsNone(v, added, cursor, next);
  }

  lemma InPrefix(ids: seq<nat>, left: seq<nat>, x: nat, id: nat)
    requires W.Increasing(ids) && left <= ids && x in ids && id in left && x <= id
    ensures x in left
  {
    var i, k :| 0 <= i < |ids| && ids[i] == x && 0 <= k < |left| && left[k] == id;
    assert ids[k] == id && i <= k && left[i] == x;
  }

  lemma Dropped(v: View, left: seq<nat>)
    requires Sound(v) && left <= v.ids
    ensures Sound(v.(ids := left, upTo := None))
  {
    var ids := v.ids;
    forall id | id in left ensures id in ids {
      var k :| 0 <= k < |left| && left[k] == id;
      assert ids[k] == id;
    }
    forall x, id | x in v.retained && id in left && Position(v) < x <= id ensures x in left {
      InPrefix(ids, left, x, id);
    }
  }

  lemma Arrived(v: View, id: nat, left: seq<nat>)
    requires Sound(v) && v.phase.Reading? && v.ids == [id] + left
    ensures Sound(v.(ids := left, phase := Working(id)))
  {
    assert v.ids[0] == id && id in v.ids;
    forall x | x in v.ids ensures x >= id && (x == id || x in left) {}
    forall x | x in left ensures x in v.ids && x > id {
      var k :| 0 <= k < |left| && left[k] == x;
      assert v.ids[k + 1] == x;
    }
    forall i, j | 0 <= i < j < |left| ensures left[i] < left[j] {
      assert left[i] == v.ids[i + 1] && left[j] == v.ids[j + 1];
    }
  }

  lemma RepeatsAppended(processed: seq<nat>, id: nat)
    ensures Repeats(processed + [id]) == Repeats(processed) + if processed != [] && id == processed[|processed| - 1] then 1 else 0
  {
    assert (processed + [id])[..|processed|] == processed;
  }

  lemma ProcessedAppended(processed: seq<nat>, next: seq<nat>, id: nat)
    requires NonDecreasing(processed) && (processed != [] ==> id >= processed[|processed| - 1])
    requires next == processed + [id]
    ensures NonDecreasing(next)
  {
    forall i, j | 0 <= i < j < |next| ensures next[i] <= next[j] {
      if j == |processed| && i < j - 1 { assert processed[i] <= processed[j - 1]; }
    }
  }

  lemma WorkProgresses(v: View, next: View)
    requires Sound(v) && v.phase.Working?
    requires next == v.(processed := v.processed + [v.phase.id], phase := Worked(v.phase.id))
    ensures Progress(next)
  {
    ProcessedAppended(v.processed, next.processed, v.phase.id);
    RepeatsAppended(v.processed, v.phase.id);
  }

  lemma WorkDone(v: View)
    requires Sound(v) && v.phase.Working?
    ensures Sound(v.(processed := v.processed + [v.phase.id], phase := Worked(v.phase.id)))
  {
    var next := v.(processed := v.processed + [v.phase.id], phase := Worked(v.phase.id));
    WorkProgresses(v, next);
    assert Position(next) == Position(v) && Last(next) == v.phase.id;
  }

  lemma CursorSaved(v: View)
    requires Sound(v) && v.phase.Worked?
    ensures Sound(v.(saved := v.phase.id, phase := Reading))
  {
    assert v.phase.id in v.processed;
  }

  lemma Crashed(v: View)
    requires Sound(v)
    ensures Sound(v.(ids := [], upTo := None, phase := Reading, crashes := v.crashes + 1))
  {
  }

  // ----- Every step keeps the invariant -----

  lemma {:induction false} WireAppended(wire: seq<Frame>, frame: Frame)
    ensures WireIds(wire + [frame]) == WireIds(wire) + if frame.InboxFrame? then [frame.id] else []
  {
    if wire != [] {
      assert (wire + [frame])[1..] == wire[1..] + [frame];
      WireAppended(wire[1..], frame);
    } else {
      assert wire + [frame] == [frame];
    }
  }

  /** The page after a cursor has everything retained from there up to its own cursor, in order. */
  lemma PageAfter(s: State, req: Request, after: nat)
    requires Stored(s) && req == Req(s).(cursor := At(after))
    ensures List(s.store, req).Ok?
    ensures var page := List(s.store, req).value;
            var ids := W.Ids(page.entries);
            IsPage(ViewOf(s), after, ids, page.cursor)
  {
    PageMeaning(s.store, req);
    W.FollowingMeaning(s.store, req, after);
    ShownMeaning(s, req, after, Following(s.store, req, after), List(s.store, req).value.entries);
  }

  lemma ShownMeaning(s: State, req: Request, after: nat, following: seq<Entry>, shown: seq<Entry>)
    requires req == Req(s).(cursor := At(after)) && Ordered(following) && shown == First(following, DEFAULT_LIMIT)
    requires forall e :: e in s.store && Wanted(req, after, e) ==> e in following
    requires forall i :: 0 <= i < |following| ==> following[i] in s.store && Wanted(req, after, following[i])
    ensures var ids := W.Ids(shown);
            && W.Increasing(ids)
            && (forall id :: id in ids ==> id in Retained(s.store, s.chat) && after < id <= shown[|shown| - 1].id)
            && (shown != [] ==> shown[|shown| - 1].id in ids)
            && forall x :: x in Retained(s.store, s.chat) && shown != [] && after < x <= shown[|shown| - 1].id ==> x in ids
  {
    var ids := W.Ids(shown);
    forall id | id in ids ensures id in Retained(s.store, s.chat) && after < id <= shown[|shown| - 1].id {
      var k :| 0 <= k < |ids| && ids[k] == id;
      assert shown[k] == following[k] && shown[k].id == id;
      assert Wanted(Req(s), 0, shown[k]);
    }
    if shown != [] { assert ids[|ids| - 1] == shown[|shown| - 1].id; }
    forall x | x in Retained(s.store, s.chat) && shown != [] && after < x <= shown[|shown| - 1].id ensures x in ids {
      var e :| e in s.store && Wanted(Req(s), 0, e) && e.id == x;
      assert Wanted(req, after, e);
      var k :| 0 <= k < |following| && following[k] == e;
      assert k < |shown| && ids[k] == x;
    }
  }

  lemma AppendKept(s: State, entry: Entry)
    requires Invariant(s) && Enabled(s, Append(entry))
    ensures Invariant(Next(s, Append(entry)))
  {
    var next := Next(s, Append(entry));
    assert Retained(next.store, s.chat) <= Retained(s.store, s.chat) + if Wanted(Req(s), 0, entry) then {entry.id} else {};
    Appended(ViewOf(s), ViewOf(next));
  }

  lemma PruneKept(s: State, keep: set<nat>)
    requires Invariant(s)
    ensures Invariant(Next(s, Prune(keep)))
  {
    FilterContents(s.store, W.Keeps(keep));
    W.FilterOrdered(s.store, W.Keeps(keep));
    Pruned(ViewOf(s), ViewOf(Next(s, Prune(keep))));
  }

  lemma ConnectedIs(s: State, page: Page)
    requires List(s.store, Req(s).(cursor := At(Value(s.cursor)))) == Ok(page)
    ensures Connected(s) == s.(open := true, server := Some(Server(page.entries, page.cursor)), wire := [Ready(Value(s.cursor))])
  {
  }

  lemma ConnectKept(s: State)
    requires Invariant(s) && Enabled(s, Connect)
    ensures Invariant(Next(s, Connect))
  {
    var v, saved := ViewOf(s), Value(s.cursor);
    var req := Req(s).(cursor := At(saved));
    PageAfter(s, req, saved);
    var page := List(s.store, req).value;
    ConnectedIs(s, page);
    assert WireIds([Ready(saved)]) == [];
    ConnectView(v, W.Ids(page.entries), page.cursor);
    var next := s.(open := true, server := Some(Server(page.entries, page.cursor)), wire := [Ready(saved)]);
    assert ViewOf(next) == v.(ids := W.Ids(page.entries), upTo := Some(page.cursor));
    assert forall id :: Ready(id) in next.wire ==> id == saved;
  }

  lemma ConnectView(v: View, added: seq<nat>, cursor: nat)
    requires Sound(v) && v.ids == [] && v.phase == Reading && IsPage(v, v.saved, added, cursor)
    ensures Sound(v.(ids := added, upTo := Some(cursor)))
  {
    var waiting := v.(upTo := Some(v.saved));
    assert Sound(waiting);
    PageAdded(waiting, added, cursor);
    assert [] + added == added;
  }

  lemma FirstId(rest: seq<Entry>)
    requires rest != []
    ensures W.Ids(rest) == [rest[0].id] + W.Ids(rest[1..])
  {
  }

  lemma WriteKept(s: State)
    requires Invariant(s) && Enabled(s, Write)
    ensures Invariant(Next(s, Write))
  {
    var next, rest := Next(s, Write), s.server.value.rest;
    var ids, left := WireIds(s.wire), W.Ids(rest[1..]);
    WireAppended(s.wire, InboxFrame(rest[0].id));
    FirstId(rest);
    assert (ids + [rest[0].id]) + left == ids + ([rest[0].id] + left);
    assert ViewOf(next).ids == ViewOf(s).ids;
    assert ViewOf(next) == ViewOf(s);
  }

  lemma NextPageKept(s: State)
    requires Invariant(s) && Enabled(s, NextPage)
    ensures Invariant(Next(s, NextPage))
  {
    var next, cursor := Next(s, NextPage), s.server.value.cursor;
    NextPageView(s);
    PageAfter(s, Req(s).(cursor := At(cursor)), cursor);
    PageAdded(ViewOf(s), W.Ids(next.server.value.rest), next.server.value.cursor);
  }

  lemma NextPageView(s: State)
    requires Enabled(s, NextPage)
    ensures var next := Next(s, NextPage);
            && next.server.Some?
            && ViewOf(next) == ViewOf(s).(ids := ViewOf(s).ids + W.Ids(next.server.value.rest), upTo := Some(next.server.value.cursor))
  {
    var next := Next(s, NextPage);
    WireAppended(s.wire, Heartbeat);
    assert ViewOf(next).ids == ViewOf(s).ids + W.Ids(next.server.value.rest);
  }

  lemma DropKept(s: State, step: Step)
    requires Invariant(s) && Enabled(s, step) && (step == ServerDrops || step == ClientDrops)
    ensures Invariant(Next(s, step))
  {
    var v, next := ViewOf(s), Next(s, step);
    assert ViewOf(next).ids + RestIds(s.server) == v.ids || ViewOf(next).ids == [];
    Dropped(v, ViewOf(next).ids);
  }

  lemma ReadEntryKept(s: State, id: nat)
    requires Invariant(s) && Enabled(s, Read) && s.wire[0] == InboxFrame(id)
    ensures Invariant(Received(s))
  {
    var v, left := ViewOf(s), WireIds(s.wire[1..]) + RestIds(s.server);
    assert v.ids == [id] + left;
    Arrived(v, id, left);
    assert id > v.saved by { assert v.ids[0] in v.ids; }
    assert Received(s) == s.(wire := s.wire[1..], phase := Working(id));
    assert ViewOf(Received(s)) == v.(ids := left, phase := Working(id));
  }

  lemma ReadKept(s: State)
    requires Invariant(s) && Enabled(s, Read)
    ensures Invariant(Next(s, Read))
  {
    if s.wire[0].InboxFrame? {
      ReadEntryKept(s, s.wire[0].id);
    } else {
      assert s.wire[0].Ready? && s.cursor == None ==> s.wire[0].id == 0;
      assert ViewOf(Received(s)) == ViewOf(s);
    }
  }

  lemma ProcessKept(s: State)
    requires Invariant(s) && Enabled(s, Process)
    ensures Invariant(Next(s, Process))
  {
    WorkDone(ViewOf(s));
    assert ViewOf(Next(s, Process)) == ViewOf(s).(processed := s.processed + [s.phase.id], phase := Worked(s.phase.id));
  }

  lemma SaveKept(s: State)
    requires Invariant(s) && Enabled(s, Save)
    ensures Invariant(Next(s, Save))
  {
    CursorSaved(ViewOf(s));
    assert ViewOf(Next(s, Save)) == ViewOf(s).(saved := s.phase.id, phase := Reading);
  }

  lemma CrashKept(s: State)
    requires Invariant(s)
    ensures Invariant(Next(s, Crash))
  {
    Crashed(ViewOf(s));
    assert ViewOf(Next(s, Crash)) == ViewOf(s).(ids := [], upTo := None, phase := Reading, crashes := s.crashes + 1);
  }

  lemma StepKeepsInvariant(s: State, step: Step)
    requires Invariant(s) && Enabled(s, step)
    ensures Invariant(Next(s, step))
  {
    match step
    case Append(e) => AppendKept(s, e);
    case Prune(keep) => PruneKept(s, keep);
    case Connect => ConnectKept(s);
    case Write => WriteKept(s);
    case NextPage => NextPageKept(s);
    case ServerDrops => DropKept(s, step);
    case ClientDrops => DropKept(s, step);
    case Read => ReadKept(s);
    case Process => ProcessKept(s);
    case Save => SaveKept(s);
    case Crash => CrashKept(s);
  }

  lemma {:induction false} RunKeepsInvariant(states: seq<State>, steps: seq<Step>, k: nat)
    requires IsRun(states, steps) && k < |states|
    ensures Invariant(states[k])
  {
    if k > 0 {
      RunKeepsInvariant(states, steps, k - 1);
      StepKeepsInvariant(states[k - 1], steps[k - 1]);
    }
  }

  // ----- What the stream promises -----

  /** In every run, over any number of lost connections and crashes, the client processes entries of its
      chat in order, repeats one only where a crash lost its cursor, and has processed every retained entry
      up to its saved cursor. */
  lemma ResumesWithoutGap(states: seq<State>, steps: seq<Step>)
    requires IsRun(states, steps)
    ensures var s := states[|states| - 1];
            && NonDecreasing(s.processed)
            && Repeats(s.processed) <= s.crashes
            && (forall id :: id in s.processed ==> id in s.matching && id > s.start)
            && forall e :: e in s.store && Wanted(Req(s), s.start, e) && e.id <= Value(s.file) ==> e.id in s.processed
  {
    var s := states[|states| - 1];
    RunKeepsInvariant(states, steps, |states| - 1);
    forall e | e in s.store && Wanted(Req(s), s.start, e) && e.id <= Value(s.file) ensures e.id in s.processed {
      assert Wanted(Req(s), 0, e);
      assert e.id in Retained(s.store, s.chat);
    }
  }

  /** When a connected client has read everything and the next page is empty, every retained entry of the
      chat after its start is processed and behind the saved cursor. */
  lemma CatchesUp(states: seq<State>, steps: seq<Step>, e: Entry)
    requires IsRun(states, steps)
    requires var s := states[|states| - 1];
             && s.phase == Reading && s.server.Some? && s.server.value.rest == [] && WireIds(s.wire) == []
             && e in s.store && Wanted(Req(s), s.start, e)
             && List(s.store, Req(s).(cursor := At(s.server.value.cursor))) == Ok(Page([], s.server.value.cursor, false))
    ensures var s := states[|states| - 1];
            e.id in s.processed && e.id <= Value(s.file)
  {
    var s := states[|states| - 1];
    RunKeepsInvariant(states, steps, |states| - 1);
    assert ViewOf(s).ids == [];
    assert Wanted(Req(s), 0, e);
    assert e.id in Retained(s.store, s.chat);
    NoneAfter(s.store, Req(s).(cursor := At(s.server.value.cursor)), e);
  }

  lemma NoneAfter(store: seq<Entry>, req: Request, e: Entry)
    requires Ordered(store) && req.cursor.At? && e in store && Wanted(req, 0, e)
    requires List(store, req) == Ok(Page([], req.cursor.id, false))
    ensures e.id <= req.cursor.id
  {
    PageMeaning(store, req);
    FilterContents(store, Wants(req, req.cursor.id));
    assert e !in Following(store, req, req.cursor.id);
    assert !Wanted(req, req.cursor.id, e);
  }

  // ----- Work beyond the saved cursor -----

  /** A retained entry beyond the saved cursor was processed if and only if it is the one processed last. */
  lemma BeyondCursor(states: seq<State>, steps: seq<Step>, e: Entry)
    requires IsRun(states, steps)
    requires var s := states[|states| - 1]; e in s.store && Wanted(Req(s), s.start, e) && e.id > Value(s.file)
    ensures var s := states[|states| - 1];
            e.id in s.processed <==> s.processed != [] && e.id == s.processed[|s.processed| - 1]
  {
    var s := states[|states| - 1];
    RunKeepsInvariant(states, steps, |states| - 1);
    assert Wanted(Req(s), 0, e);
    assert e.id in Retained(s.store, s.chat);
    if e.id in s.processed {
      var k :| 0 <= k < |s.processed| && s.processed[k] == e.id;
      assert s.processed[k] <= Last(ViewOf(s));
    }
  }

  /** So any other entry processed beyond the saved cursor is no longer retained. */
  lemma OthersBeyondArePruned(states: seq<State>, steps: seq<Step>, id: nat)
    requires IsRun(states, steps)
    requires var s := states[|states| - 1];
             id in s.processed && id > Value(s.file) && id != s.processed[|s.processed| - 1]
    ensures var s := states[|states| - 1];
            forall e :: e in s.store && Wanted(Req(s), 0, e) ==> e.id != id
  {
    var s := states[|states| - 1];
    RunKeepsInvariant(states, steps, |states| - 1);
    forall e | e in s.store && Wanted(Req(s), 0, e) ensures e.id != id {
      if e.id == id { BeyondCursor(states, steps, e); }
    }
  }

  lemma Extend(states: seq<State>, steps: seq<Step>, step: Step) returns (more: seq<State>, moreSteps: seq<Step>)
    requires IsRun(states, steps) && Enabled(states[|states| - 1], step)
    ensures IsRun(more, moreSteps) && more[|more| - 1] == Next(states[|states| - 1], step)
  {
    more, moreSteps := states + [Next(states[|states| - 1], step)], steps + [step];
  }

  lemma OneEntryPage(e: Entry, chat: string)
    requires e.id > 0 && chat == ""
    ensures List([e], Request(chat, NoCursor, 0, DEFAULT_LIMIT).(cursor := At(0))) == Ok(Page([e], e.id, false))
  {
    var req := Request(chat, NoCursor, 0, DEFAULT_LIMIT).(cursor := At(0));
    PageMeaning([e], req);
    FilterAll([e], Wants(req, 0));
  }

  /** A client without a later cursor connects to a store of one entry, and does its work. */
  lemma WorksOnOne(states: seq<State>, steps: seq<Step>, e: Entry) returns (more: seq<State>, moreSteps: seq<Step>)
    requires IsRun(states, steps) && e.id > 0
    requires var s := states[|states| - 1];
             && s.store == [e] && s.chat == "" && !s.open && s.phase == Reading
             && s.cursor == s.file && Value(s.file) == 0
    ensures IsRun(more, moreSteps)
    ensures var s, after := states[|states| - 1], more[|more| - 1];
            && after.processed == s.processed + [e.id] && Value(after.file) == 0 && after.file.Some?
            && after.store == s.store && after.nextId == s.nextId && after.chat == s.chat && after.crashes == s.crashes
  {
    var s := states[|states| - 1];
    OneEntryPage(e, s.chat);
    ConnectedIs(s, Page([e], e.id, false));
    more, moreSteps := Extend(states, steps, Connect);
    more, moreSteps := Extend(more, moreSteps, Write);
    var written := more[|more| - 1];
    assert written.wire == [Ready(0), InboxFrame(e.id)];
    more, moreSteps := Extend(more, moreSteps, Read);
    var ready := more[|more| - 1];
    assert ready.wire == [InboxFrame(e.id)] && ready.cursor == Some(0) == ready.file;
    more, moreSteps := Extend(more, moreSteps, Read);
    more, moreSteps := Extend(more, moreSteps, Process);
  }

  /** Work on more than one entry may lie beyond the saved cursor: after a crash before saving, the entry is
      pruned, and the client goes on with the next one. */
  lemma PruningLeavesTwoUnsaved() returns (states: seq<State>, steps: seq<Step>)
    ensures IsRun(states, steps)
    ensures var s := states[|states| - 1]; s.processed == [1, 2] && Value(s.file) == 0 && s.crashes == 1
  {
    var first, second := Entry(1, "", 0, false, Other), Entry(2, "", 0, false, Other);
    states, steps := [State([], 1, {}, None, false, [], None, None, Reading, [], 0, 0, "")], [];
    states, steps := Extend(states, steps, Append(first));
    states, steps := WorksOnOne(states, steps, first);
    states, steps := Extend(states, steps, Crash);
    states, steps := Extend(states, steps, Prune({}));
    FilterNone([first], W.Keeps({}));
    assert states[|states| - 1].store == [];
    states, steps := Extend(states, steps, Append(second));
    states, steps := WorksOnOne(states, steps, second);
  }
}
