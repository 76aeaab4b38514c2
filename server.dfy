/**
 * The HTTP façade (server.js) over the event store: the ingest handler that
 * stores a webhook and broadcasts it, the paged listing and its arithmetic,
 * lookup by id, pruning, export, and the registry of live-feed connections.
 *
 * Parsed query parameters arrive as `Option<int>`: `None` is what `parseInt`
 * yields as `NaN` for a missing or non-numeric parameter.
 */
module Server {
  import opened Options
  import opened Sequences
  import opened Text
  import opened EventStore

  /** The page `GET /events` serves when none is given. */
  const DEFAULT_PAGE: int := 1

  /** The page size `GET /events` uses when none is given. */
  const DEFAULT_PAGE_LIMIT: int := 1000

  /** A parsed parameter with a fallback: a value that did not parse, or parsed to 0, gives way to the fallback. */
  function OrDefault(parsed: Option<int>, fallback: int): (r: int)
    ensures parsed.Some? && parsed.value != 0 ==> r == parsed.value
    ensures parsed.None? || parsed.value == 0 ==> r == fallback
    ensures fallback != 0 ==> r != 0
  {
    if parsed.None? || parsed.value == 0 then fallback else parsed.value
  }

  // ----------------------------------------------------------- GET /events

  /**
   * The ceiling of `total / limit`: the number of pages of size `limit` needed to
   * hold `total` events (for a negative `limit`, the ceiling of a quotient
   * that is at most zero).
   */
  function TotalPages(total: nat, limit: int): (r: int)
    requires limit != 0
    ensures 0 < limit ==> 0 <= r && total <= r * limit
    ensures 0 < limit && 0 < total ==> (r - 1) * limit < total
    ensures total == 0 ==> r == 0
  {
    if 0 < limit then (total + limit - 1) / limit else -(total / -limit)
  }

  /** The body of a `GET /events` answer. */
  datatype ListReply = ListReply(total: nat, events: seq<Event>, page: int, limit: int, totalPages: int)

  /**
   * `GET /events`: defaults the page and the page size, translates them into
   * `skip = (page - 1) * limit`, and pairs the page with the total count.
   */
  function ListEvents(s: seq<Event>, pageParam: Option<int>, limitParam: Option<int>): (r: ListReply)
    ensures r.total == GetEventCount(s)
    ensures r.page == OrDefault(pageParam, DEFAULT_PAGE) && r.limit == OrDefault(limitParam, DEFAULT_PAGE_LIMIT)
    ensures r.totalPages == TotalPages(r.total, r.limit)
    ensures r.events == GetEvents(s, (r.page - 1) * r.limit, r.limit, ByTimestamp, Descending)
    ensures forall e :: e in r.events ==> e in s
    ensures SortedBy(r.events, Key(ByTimestamp), Descending)
    ensures 0 < r.page && 0 < r.limit ==> |r.events| <= r.limit
    ensures 0 < r.page && 0 < r.limit ==> (r.events != [] <==> r.page <= r.totalPages)
  {
    var page := OrDefault(pageParam, DEFAULT_PAGE);
    var limit := OrDefault(limitParam, DEFAULT_PAGE_LIMIT);
    var skip := (page - 1) * limit;
    var events := GetEvents(s, skip, limit, ByTimestamp, Descending);
    var totalPages := TotalPages(|s|, limit);
    PageWindow(s, page, limit);
    ListReply(|s|, events, page, limit, totalPages)
  }

  /** The window of page `page` holds at most `limit` events, and some exactly when the page is not past the last. */
  lemma PageWindow(s: seq<Event>, page: int, limit: int)
    requires limit != 0
    ensures 0 < page && 0 < limit ==>
      var events := GetEvents(s, (page - 1) * limit, limit, ByTimestamp, Descending);
      |events| <= limit && (events != [] <==> page <= TotalPages(|s|, limit))
  {
    if 0 < page && 0 < limit {
      var skip := (page - 1) * limit;
      assert 0 <= skip;
      PageExistsIffWithinTotal(|s|, page, limit);
    }
  }

  /** With a positive page and page size, the page holds events exactly when it is not past the last page. */
  lemma PageExistsIffWithinTotal(total: nat, page: int, limit: int)
    requires limit != 0
    ensures 0 < page && 0 < limit ==>
      ((0 < Min(limit, total - (page - 1) * limit)) <==> page <= TotalPages(total, limit))
  {
    var totalPages := TotalPages(total, limit);
    if page <= 0 || limit <= 0 {
    } else if page <= totalPages {
      assert (page - 1) * limit <= (totalPages - 1) * limit;
    } else {
      assert totalPages * limit <= (page - 1) * limit;
    }
  }

  /** The events of pages 1 .. n of `GET /events` with page size `limit`, one page after the other. */
  function ListedPages(s: seq<Event>, n: nat, limit: int): seq<Event> {
    if n == 0 then [] else ListedPages(s, n - 1, limit) + ListEvents(s, Some(n), Some(limit)).events
  }

  /** Page `n` of `GET /events` is page `n` of the newest-first order, so the listed pages are its first pages. */
  lemma ListedPagesAreFirstPages(s: seq<Event>, n: nat, limit: int)
    requires 0 < limit
    ensures ListedPages(s, n, limit) == FirstPages(SortBy(s, Key(ByTimestamp), Descending), n, limit)
  {
    forall k: nat | 0 < k <= n
      ensures ListedPages(s, k, limit)
           == ListedPages(s, k - 1, limit) + Page(SortBy(s, Key(ByTimestamp), Descending), (k - 1) * limit, limit)
    {
      ListedPagesStep(s, k, limit);
    }
    FirstPagesByStep((k: nat) => ListedPages(s, k, limit), SortBy(s, Key(ByTimestamp), Descending), n, limit);
  }

  /** Page `n` of `GET /events` is the `n`-th window of `limit` events in newest-first order. */
  lemma ListedPagesStep(s: seq<Event>, n: nat, limit: int)
    requires 0 < n && 0 < limit
    ensures ListedPages(s, n, limit)
         == ListedPages(s, n - 1, limit) + Page(SortBy(s, Key(ByTimestamp), Descending), (n - 1) * limit, limit)
  {
    var r := ListEvents(s, Some(n), Some(limit));
    assert r.page == n && r.limit == limit;
  }

  /**
   * Walking the pages 1 .. totalPages of `GET /events` visits every stored
   * event exactly once, newest first: together they are the full export.
   */
  lemma PagesCoverExport(s: seq<Event>, limit: int)
    requires 0 < limit
    ensures ListedPages(s, TotalPages(|s|, limit), limit) == ExportEvents(s)
  {
    var n := TotalPages(|s|, limit);
    ListedPagesAreFirstPages(s, n, limit);
    PagesPartitionListing(s, n, limit, ByTimestamp, Descending);
    assert Min(n * limit, |s|) == |s|;
  }

  // ------------------------------------------------------- GET /events/:id

  datatype EventReply = Found(event: Event) | NotFound

  /** `GET /events/:id`: the event with the parsed id, or 404 when the lookup yields nothing. */
  function GetEventReply(s: seq<Event>, idParam: Option<int>): (r: EventReply)
    ensures r.NotFound? <==> idParam.None? || forall e :: e in s ==> e.id != idParam.value
    ensures r.Found? ==> r.event in s && idParam == Some(r.event.id)
  {
    var found := GetEventById(s, idParam);
    if found.None? then NotFound else Found(found.value)
  }

  // ---------------------------------------------------- DELETE /api/events/old

  /** The answer of `DELETE /api/events/old`: the count removed and the days used, or a 500. */
  datatype PruneReply = Pruned(eventsRemoved: nat, days: int) | PruneFailed

  /**
   * `DELETE /api/events/old`: the day count is the parsed parameter, or 7
   * when it is missing, not a number or 0; that count is both handed to the
   * store and echoed back. When the store rejects the cutoff, the answer is
   * a 500 and nothing is removed.
   */
  method DeleteOldEvents(db: WebhookDatabase, daysParam: Option<int>, now: int) returns (r: PruneReply)
    modifies db
    ensures var days := OrDefault(daysParam, DEFAULT_DAYS_OLD);
      if IsValidTime(Cutoff(now, days)) then
        && r.Pruned? && r.days == days
        && db.events == Filter(old(db.events), NotOlderThan(Cutoff(now, days)))
        && r.eventsRemoved == |old(db.events)| - |db.events|
      else
        r == PruneFailed && db.events == old(db.events)
  {
    var days := OrDefault(daysParam, DEFAULT_DAYS_OLD);
    var result := db.ClearOldEvents(Some(days), now);
    if result.Cleared? {
      r := Pruned(result.numRemoved, days);
    } else {
      r := PruneFailed;
    }
  }

  /** At a present-day time, pruning 7 days back from events 10 and 3 days old removes only the 10-day-old one. */
  lemma PruneSevenDays(now: int, a: Fields, b: Fields)
    requires IsFourDigitYear(now - 10 * DAY) && IsFourDigitYear(now - 3 * DAY)
    ensures Filter([Event(1, now - 10 * DAY, a), Event(2, now - 3 * DAY, b)], NotOlderThan(Cutoff(now, 7)))
         == [Event(2, now - 3 * DAY, b)]
  {
    var s := [Event(1, now - 10 * DAY, a), Event(2, now - 3 * DAY, b)];
    assert s[1..][1..] == [];
  }

  /**
   * `days=-3000000` at any time since 1970 moves the cutoff past year 9999,
   * still a valid date: the store removes none of its four-digit-year
   * events. With the contract of `DeleteOldEvents`, whose count is the drop
   * in size, the handler then replies `Pruned(0, -3000000)`.
   */
  lemma FarFutureDaysPruneNothing(s: seq<Event>, now: int)
    requires StampedInFourDigitYears(s) && 0 <= now < YEAR_10000_START
    ensures IsValidTime(Cutoff(now, OrDefault(Some(-3000000), DEFAULT_DAYS_OLD)))
    ensures Filter(s, NotOlderThan(Cutoff(now, OrDefault(Some(-3000000), DEFAULT_DAYS_OLD)))) == s
  {
    FarFutureCutoffRemovesNothing(s, Cutoff(now, -3000000));
  }

  // ------------------------------------------------------ GET /api/events/export

  /** The date part of an ISO time: the text before the first `T`, or all of it. */
  function DatePart(iso: string): (d: string)
    ensures d <= iso
    ensures 'T' !in d
    ensures |d| < |iso| ==> iso[|d|] == 'T'
  {
    if iso == [] || iso[0] == 'T' then []
    else
      var rest := DatePart(iso[1..]);
      assert iso == [iso[0]] + iso[1..];
      [iso[0]] + rest
  }

  /** The attachment name of an export: `webhook-export-<date>.json`. */
  function ExportFilename(iso: string): (name: string)
    ensures StartsWith(name, "webhook-export-") && EndsWith(name, ".json")
    ensures |name| == |DatePart(iso)| + 20
    ensures name[15..|name| - 5] == DatePart(iso)
  {
    "webhook-export-" + DatePart(iso) + ".json"
  }

  datatype ExportBundle = ExportBundle(exportDate: string, stats: Stats, events: seq<Event>)

  datatype ExportReply = ExportReply(filename: string, bundle: ExportBundle)

  /**
   * `GET /api/events/export`: the export date, the statistics and every
   * event newest first. The handler reads the clock twice: `exportIso` for
   * the bundle and `fileIso` for the attachment name.
   */
  function ExportReplyOf(s: seq<Event>, exportIso: string, fileIso: string): (r: ExportReply)
    ensures r.bundle.exportDate == exportIso
    ensures multiset(r.bundle.events) == multiset(s)
    ensures SortedBy(r.bundle.events, Key(ByTimestamp), Descending)
    ensures r.bundle.stats == GetStats(s)
    ensures r.bundle.stats.totalEvents == |r.bundle.events|
    ensures r.filename == ExportFilename(fileIso)
  {
    var events := ExportEvents(s);
    ExportReply(ExportFilename(fileIso), ExportBundle(exportIso, GetStats(s), events))
  }

  // ------------------------------------------------------------- GET /stream

  /** A live-feed connection: one `GET /stream` response object. */
  type ConnId = nat

  /** Appends `e` to the log of every connection in `to`. */
  function Deliver(logs: map<ConnId, seq<Event>>, to: seq<ConnId>, e: Event): map<ConnId, seq<Event>> {
    map c | c in logs :: if c in to then logs[c] + [e] else logs[c]
  }

  /** Delivering to one more connection extends that connection's log and no other. */
  lemma DeliverOneMore(logs: map<ConnId, seq<Event>>, to: seq<ConnId>, c: ConnId, e: Event)
    requires c in logs && c !in to
    ensures Deliver(logs, to + [c], e) == Deliver(logs, to, e)[c := logs[c] + [e]]
  {
    var before, after := Deliver(logs, to, e), Deliver(logs, to + [c], e);
    forall x | x in logs ensures after[x] == before[c := logs[c] + [e]][x] {
      assert x in to + [c] <==> x in to || x == c;
    }
  }

  function Other(c: ConnId): ConnId -> bool {
    (x: ConnId) => x != c
  }

  /**
   * The registry of open live-feed connections (`clients`) and what each
   * connection has been sent. A new connection is a new response object, so
   * it is never already registered.
   */
  class LiveFeed {
    var clients: seq<ConnId>
    var delivered: map<ConnId, seq<Event>>
    var nextConn: ConnId

    ghost predicate Valid()
      reads this
    {
      && NoDuplicates(clients)
      && (forall c :: c in clients ==> c in delivered)
      && (forall c :: c in delivered ==> c < nextConn)
    }

    constructor ()
      ensures Valid()
      ensures clients == [] && delivered == map[]
    {
      clients := [];
      delivered := map[];
      nextConn := 0;
    }

    /** `GET /stream`: registers a new connection at the end of `clients`; it has been sent nothing yet. */
    method Subscribe() returns (c: ConnId)
      requires Valid()
      modifies this
      ensures Valid()
      ensures c !in old(delivered)
      ensures clients == old(clients) + [c]
      ensures delivered == old(delivered)[c := []]
    {
      c := nextConn;
      NoDuplicatesAppend(clients, c);
      clients := clients + [c];
      delivered := delivered[c := []];
      nextConn := nextConn + 1;
    }

    /** The connection closed: every registration of it is dropped, the others stay in order. */
    method Close(c: ConnId)
      requires Valid()
      modifies this
      ensures Valid()
      ensures clients == Filter(old(clients), Other(c))
      ensures delivered == old(delivered)
    {
      FilterKeepsNoDuplicates(clients, Other(c));
      clients := Filter(clients, Other(c));
    }

    /** Sends `e` to each registered connection in turn, in registration order. */
    method Broadcast(e: Event)
      requires Valid()
      modifies this
      ensures Valid()
      ensures clients == old(clients)
      ensures delivered == Deliver(old(delivered), clients, e)
    {
      var i := 0;
      while i < |clients|
        invariant 0 <= i <= |clients|
        invariant Valid()
        invariant clients == old(clients)
        invariant delivered == Deliver(old(delivered), clients[..i], e)
      {
        var c := clients[i];
        assert c !in clients[..i];
        assert clients[..i + 1] == clients[..i] + [c];
        DeliverOneMore(old(delivered), clients[..i], c, e);
        delivered := delivered[c := delivered[c] + [e]];
        i := i + 1;
      }
      assert clients[..i] == clients;
    }
  }

  /** Closing a connection removes it and keeps every other connection, in order. */
  lemma CloseKeepsOthersInOrder(before: seq<ConnId>, c: ConnId, after: seq<ConnId>)
    requires c !in before && c !in after
    ensures Filter(before + [c] + after, Other(c)) == before + after
  {
    var p := Other(c);
    assert Filter(before + [c], p) == before by {
      FilterAppend(before, [c], p);
      assert [c][1..] == [];
      FilterKeepsAll(before, p);
      assert Filter([c], p) == [];
    }
    assert Filter(after, p) == after by {
      FilterKeepsAll(after, p);
    }
    FilterAppend(before + [c], after, p);
  }

  /** Closing a connection that is not registered leaves the registry as it was. */
  lemma CloseUnregisteredIsNoOp(clients: seq<ConnId>, c: ConnId)
    requires c !in clients
    ensures Filter(clients, Other(c)) == clients
  {
    FilterKeepsAll(clients, Other(c));
  }

  // ------------------------------------------------------------ POST /webhook

  /** An incoming webhook request; `ip` stands for the parts of a request that are not stored. */
  datatype Request = Request(headers: string, body: string, httpMethod: string, url: string, query: string, ip: string)

  /** The `eventData` the handler builds: exactly the headers, body, method, url and query of the request. */
  function EventData(req: Request): (d: Fields)
    ensures d.headers == req.headers && d.body == req.body && d.query == req.query
    ensures d.httpMethod == Some(req.httpMethod) && d.url == Some(req.url)
  {
    Fields(req.headers, req.body, Some(req.httpMethod), Some(req.url), req.query)
  }

  /** A `200` carrying the new event's id, or a `500`. */
  datatype WebhookReply = Received(eventId: nat) | StoreFailed

  /**
   * `POST /webhook`: stores the request, then sends the stored event (with
   * its id) to every connection registered at that moment, then answers with
   * the id. When the store fails, nothing is sent and the answer is a 500.
   */
  method HandleWebhook(db: WebhookDatabase, feed: LiveFeed, req: Request, now: int, storeOk: bool)
    returns (reply: WebhookReply)
    requires feed.Valid()
    modifies db, feed
    ensures feed.Valid()
    ensures feed.clients == old(feed.clients)
    ensures storeOk ==>
      var e := NewEvent(old(db.events), EventData(req), now);
      && db.events == old(db.events) + [e]
      && feed.delivered == Deliver(old(feed.delivered), old(feed.clients), e)
      && reply == Received(e.id)
    ensures !storeOk ==>
      && db.events == old(db.events)
      && feed.delivered == old(feed.delivered)
      && reply == StoreFailed
  {
    var stored := db.InsertEvent(EventData(req), now, storeOk);
    if stored.Inserted? {
      feed.Broadcast(stored.event);
      reply := Received(stored.event.id);
    } else {
      reply := StoreFailed;
    }
  }
}
