/** Inbox queries and paging (internal/app/inbox.go, internal/store/inbox.go). */
module Inbox {
  import opened Wrappers
  import opened Seqs

  /** An event; sync marks the transcript of a message of our own, and NIL_UUID is no sender. */
  datatype Event = Message(sender: Uuid, timestamp: nat, sync: bool) | Other

  /** A retained entry; IDs grow from 1. */
  datatype Entry = Entry(id: nat, chat: string, time: nat, unread: bool, event: Event)

  /** The store keeps its entries by ascending ID. */
  predicate Ordered(store: seq<Entry>) {
    && (forall e :: e in store ==> e.id > 0)
    && (forall i, j :: 0 <= i < j < |store| ==> store[i].id < store[j].id)
  }

  /** A query; zero and empty fields don't filter. */
  datatype Query = Query(after: nat, until: nat, chat: string, since: nat, unread: bool, limit: nat, newest: bool)

  predicate Matches(q: Query, e: Entry) {
    && (q.after > 0 ==> e.id > q.after)
    && (q.until > 0 ==> e.id <= q.until)
    && (q.chat != "" ==> e.chat == q.chat)
    && (q.since > 0 ==> e.time >= q.since)
    && (q.unread ==> e.unread)
  }

  function Selects(q: Query): Entry -> bool {
    (e: Entry) => Matches(q, e)
  }

  function First<T>(s: seq<T>, n: nat): seq<T> {
    if |s| <= n then s else s[..n]
  }

  function Last<T>(s: seq<T>, n: nat): seq<T> {
    if |s| <= n then s else s[|s| - n..]
  }

  /** The records a query selects, by ID: the first or last ones up to its limit. */
  function InboxList(store: seq<Entry>, q: Query): seq<Entry> {
    var all := Filter(store, Selects(q));
    if q.limit == 0 then all else if q.newest then Last(all, q.limit) else First(all, q.limit)
  }

  // ----- Pages -----

  /** A cursor argument: none, one that wasn't returned by a page, or the ID of an entry (0 for none). */
  datatype Cursor = NoCursor | BadCursor | At(id: nat)

  datatype Request = Request(chat: string, cursor: Cursor, since: nat, limit: int)

  datatype Page = Page(entries: seq<Entry>, cursor: nat, more: bool)

  const DEFAULT_LIMIT := 50
  const MAX_LIMIT := 200

  function PageLimit(limit: int): nat {
    if limit <= 0 then DEFAULT_LIMIT else if limit > MAX_LIMIT then MAX_LIMIT else limit
  }

  function LatestCursor(store: seq<Entry>): nat {
    var newest := InboxList(store, Query(0, 0, "", 0, false, 1, true));
    if newest == [] then 0 else newest[0].id
  }

  datatype InboxError = InvalidCursor

  function List(store: seq<Entry>, req: Request): Result<Page, InboxError> {
    if req.cursor == BadCursor then Err(InvalidCursor)
    else
      var after := if req.cursor.At? then req.cursor.id else 0;
      var limit := PageLimit(req.limit);
      var newest := req.cursor == NoCursor && req.since == 0;
      var entries := InboxList(store, Query(after, 0, req.chat, req.since, false, if newest then limit else limit + 1, newest));
      var shown := First(entries, limit);
      Ok(Page(shown,
              if shown != [] then shown[|shown| - 1].id else if req.cursor.At? then req.cursor.id else LatestCursor(store),
              |entries| > limit))
  }

  /** The entries a request means: those of its chat, not before its time, after its cursor. */
  predicate Wanted(req: Request, after: nat, e: Entry) {
    e.id > after && (req.chat != "" ==> e.chat == req.chat) && (req.since > 0 ==> e.time >= req.since)
  }

  function Wants(req: Request, after: nat): Entry -> bool {
    (e: Entry) => Wanted(req, after, e)
  }

  function Following(store: seq<Entry>, req: Request, after: nat): seq<Entry> {
    Filter(store, Wants(req, after))
  }

  lemma CursorSelects(store: seq<Entry>, req: Request, after: nat, limit: nat, newest: bool)
    requires Ordered(store)
    ensures Filter(store, Selects(Query(after, 0, req.chat, req.since, false, limit, newest))) == Following(store, req, after)
  {
    FilterAgree(store, Selects(Query(after, 0, req.chat, req.since, false, limit, newest)), Wants(req, after));
  }

  /** A page after a cursor has the oldest entries that follow, and says whether there are more. */
  lemma PageMeaning(store: seq<Entry>, req: Request)
    requires Ordered(store) && req.cursor.At?
    ensures List(store, req).Ok?
    ensures var following := Following(store, req, req.cursor.id);
            var page := List(store, req).value;
            && page.entries == First(following, PageLimit(req.limit))
            && (page.more <==> |following| > PageLimit(req.limit))
            && page.cursor == (if following == [] then req.cursor.id else page.entries[|page.entries| - 1].id)
  {
    CursorSelects(store, req, req.cursor.id, PageLimit(req.limit) + 1, false);
  }

  lemma {:induction false} FollowingNone(store: seq<Entry>, req: Request, after: nat)
    requires forall e :: e in store ==> e.id <= after
    ensures Following(store, req, after) == []
  {
    FilterContents(store, Wants(req, after));
    if Following(store, req, after) != [] {
      FilterElement(store, Wants(req, after), 0);
    }
  }

  /** After the k-th entry that follows a cursor come the rest of them. */
  lemma {:induction false} FollowingTail(store: seq<Entry>, req: Request, after: nat, k: nat)
    requires Ordered(store) && 0 < k <= |Following(store, req, after)|
    ensures Following(store, req, Following(store, req, after)[k - 1].id) == Following(store, req, after)[k..]
  {
    var front, last := store[..|store| - 1], store[|store| - 1];
    var all := Following(store, req, after);
    assert all[..k] + all[k..] == all;
    forall e | e in front ensures e in store && e.id < last.id {
      var i :| 0 <= i < |front| && front[i] == e;
      assert store[i] == e;
    }
    if k <= |Following(front, req, after)| {
      FollowingTail(front, req, after, k);
      FilterElement(front, Wants(req, after), k - 1);
    } else {
      FollowingNone(front, req, last.id);
    }
  }

  /** After a page come the entries that follow its cursor. */
  lemma NextPage(store: seq<Entry>, req: Request, next: Request)
    requires Ordered(store) && req.cursor.At? && List(store, req).Ok? && List(store, req).value.more
    requires next == req.(cursor := At(List(store, req).value.cursor))
    ensures var following := Following(store, req, req.cursor.id);
            && |following| > PageLimit(req.limit)
            && List(store, req).value.entries == following[..PageLimit(req.limit)]
            && Following(store, next, next.cursor.id) == following[PageLimit(req.limit)..]
  {
    PageMeaning(store, req);
    FollowingTail(store, req, req.cursor.id, PageLimit(req.limit));
    FilterAgree(store, Wants(req, next.cursor.id), Wants(next, next.cursor.id));
  }

  /** Paging from a cursor with the cursor of each page until there are no more. */
  function Paged(store: seq<Entry>, req: Request): seq<Entry>
    requires Ordered(store) && req.cursor.At?
    decreases |Following(store, req, req.cursor.id)|
  {
    PageMeaning(store, req);
    var page := List(store, req).value;
    if !page.more then page.entries
    else
      NextPage(store, req, req.(cursor := At(page.cursor)));
      page.entries + Paged(store, req.(cursor := At(page.cursor)))
  }

  /** Paging goes through every entry that follows the cursor, each once and in order. */
  lemma {:induction false} PagingCoversAll(store: seq<Entry>, req: Request)
    requires Ordered(store) && req.cursor.At?
    ensures Paged(store, req) == Following(store, req, req.cursor.id)
    decreases |Following(store, req, req.cursor.id)|
  {
    PageMeaning(store, req);
    var following := Following(store, req, req.cursor.id);
    var page := List(store, req).value;
    if page.more {
      var next := req.(cursor := At(page.cursor));
      NextPage(store, req, next);
      PagingCoversAll(store, next);
      var limit := PageLimit(req.limit);
      assert Paged(store, req) == page.entries + Paged(store, next);
      assert following == following[..limit] + following[limit..];
    }
  }

  lemma LatestIsLast(store: seq<Entry>)
    requires Ordered(store)
    ensures LatestCursor(store) == if store == [] then 0 else store[|store| - 1].id
  {
    FilterAll(store, Selects(Query(0, 0, "", 0, false, 1, true)));
  }

  /** Without a cursor or time, a page has the newest entries, and its cursor leaves nothing wanted behind
      the newest of them; an empty page's cursor is the newest entry of any chat. */
  lemma NewestPage(store: seq<Entry>, req: Request)
    requires Ordered(store) && req.cursor == NoCursor && req.since == 0
    ensures List(store, req).Ok?
    ensures var page := List(store, req).value;
            && page.entries == Last(Following(store, req, 0), PageLimit(req.limit)) && !page.more
            && Following(store, req, page.cursor) == []
  {
    CursorSelects(store, req, 0, PageLimit(req.limit), true);
    var page := List(store, req).value;
    var all := Following(store, req, 0);
    if all != [] {
      FollowingTail(store, req, 0, |all|);
    } else {
      LatestIsLast(store);
      FollowingNone(store, req, page.cursor);
    }
  }

  /** With a time but no cursor, a page has the oldest entries not before the time, and says whether there are
      more; an empty page's cursor is the newest entry of any chat. */
  lemma SincePage(store: seq<Entry>, req: Request)
    requires Ordered(store) && req.cursor == NoCursor && req.since > 0
    ensures List(store, req).Ok?
    ensures var page, following := List(store, req).value, Following(store, req, 0);
            && page.entries == First(following, PageLimit(req.limit)) && (page.more <==> |following| > PageLimit(req.limit))
            && page.cursor == (if following != [] then page.entries[|page.entries| - 1].id
                               else if store == [] then 0 else store[|store| - 1].id)
  {
    CursorSelects(store, req, 0, PageLimit(req.limit) + 1, false);
    LatestIsLast(store);
  }

  /** What follows the cursor of such a page is the rest. */
  lemma SinceRest(store: seq<Entry>, req: Request, next: Request)
    requires Ordered(store) && req.cursor == NoCursor && req.since > 0 && List(store, req).Ok?
    requires next == req.(cursor := At(List(store, req).value.cursor))
    ensures Following(store, req, 0) == List(store, req).value.entries + Following(store, next, next.cursor.id)
  {
    SincePage(store, req);
    var following, n := Following(store, req, 0), |List(store, req).value.entries|;
    FilterAgree(store, Wants(req, next.cursor.id), Wants(next, next.cursor.id));
    if following == [] {
      FollowingNone(store, next, next.cursor.id);
    } else {
      FollowingTail(store, req, 0, n);
      assert following == following[..n] + following[n..];
    }
  }

  /** So paging on from it goes through every entry not before the time, each once and in order. */
  lemma SincePaging(store: seq<Entry>, req: Request)
    requires Ordered(store) && req.cursor == NoCursor && req.since > 0 && List(store, req).Ok?
    ensures List(store, req).value.entries + Paged(store, req.(cursor := At(List(store, req).value.cursor)))
            == Following(store, req, 0)
  {
    var next := req.(cursor := At(List(store, req).value.cursor));
    SinceRest(store, req, next);
    PagingCoversAll(store, next);
  }

  /** Those are the entries of the chat that aren't before the time, in the order of the store. */
  lemma FollowingContents(store: seq<Entry>, req: Request, after: nat, e: Entry)
    requires Ordered(store)
    ensures e in Following(store, req, after)
            <==> e in store && e.id > after && (req.chat == "" || e.chat == req.chat) && (req.since == 0 || e.time >= req.since)
  {
    FilterContents(store, Wants(req, after));
  }

  /** A page has no more entries than were asked for, 50 by default and 200 at most. */
  lemma PageSize(store: seq<Entry>, req: Request)
    requires Ordered(store) && List(store, req).Ok?
    ensures var n := |List(store, req).value.entries|;
            n <= 200 && (req.limit > 0 ==> n <= req.limit) && (req.limit <= 0 ==> n <= 50)
    ensures List(store, req).value.more ==>
              |List(store, req).value.entries| == if req.limit <= 0 then 50 else if req.limit > 200 then 200 else req.limit
  {
  }
}
