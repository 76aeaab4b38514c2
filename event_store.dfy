/**
 * The webhook event store (`WebhookDatabase` in database.js): a collection of
 * event documents with sequential ids, sorted and paged listing, lookup by id,
 * case-insensitive free-text search, bulk clear, age-based pruning, export and
 * the oldest/newest statistics.
 *
 * The collection is a `seq<Event>` in storage order. Read-only queries are
 * functions over that sequence; the operations that change the collection are
 * methods of the `WebhookDatabase` class, which holds it in a field.
 */
module EventStore {
  import opened Options
  import opened Sequences
  import opened Text

  /** Milliseconds in a day: the step by which `clearOldEvents` moves the date back. */
  const DAY: int := 86400000

  /** The retention window `clearOldEvents` uses when it is given none. */
  const DEFAULT_DAYS_OLD: int := 7

  /** The largest distance from the epoch, in milliseconds, that a JavaScript date can hold. */
  const MAX_TIME: int := 8640000000000000

  /** A time a JavaScript date can represent; beyond it the date is invalid and cannot be rendered as ISO text. */
  predicate IsValidTime(t: int) {
    -MAX_TIME <= t <= MAX_TIME
  }

  /** The first millisecond of year 0 and of year 10000: in between, the ISO text of a time has a four-digit year. */
  const YEAR_0_START: int := -62167219200000
  const YEAR_10000_START: int := 253402300800000

  /** A time whose ISO text starts with a four-digit year; every time a present-day clock reads is one. */
  predicate IsFourDigitYear(t: int) {
    YEAR_0_START <= t < YEAR_10000_START
  }

  /** Every stored event was stamped at such a time. */
  predicate StampedInFourDigitYears(s: seq<Event>) {
    forall e :: e in s ==> IsFourDigitYear(e.timestamp)
  }

  /** The proleptic Gregorian year of a time, counting days in 400-year eras that start on 1 March. */
  function IsoYear(t: int): int {
    var z := t / DAY + 719468;
    var era := z / 146097;
    era * 400 + YearOfEra(z - era * 146097)
  }

  /** The year within its era of the era's day `doe`, counted from 1 March of the era's first year. */
  function YearOfEra(doe: int): int {
    var yoe := (doe - doe / 1460 + doe / 36524 - doe / 146096) / 365;
    var doy := doe - (365 * yoe + yoe / 4 - yoe / 100);
    var mp := (5 * doy + 2) / 153;
    yoe + (if mp >= 10 then 1 else 0)
  }

  /** The last day of an era falls in its 400th year's February, and the day after starts the next era's count. */
  lemma EraEnd()
    ensures YearOfEra(146036) == 399 && YearOfEra(146037) == 400
  {
    assert 146036 / 1460 == 100 && 146036 / 36524 == 3 && 146036 / 146096 == 0;
    assert 145939 / 365 == 399 && 145940 / 365 == 399 && 399 / 4 == 99 && 399 / 100 == 3;
    assert 1527 / 153 == 9 && 1532 / 153 == 10;
  }

  /** The epoch lies in 1970. */
  lemma EpochYear()
    ensures IsoYear(0) == 1970
  {
    assert 719468 / 146097 == 4;
    assert 135080 / 1460 == 92 && 135080 / 36524 == 3 && 135080 / 146096 == 0;
    assert 134991 / 365 == 369 && 369 / 4 == 92 && 369 / 100 == 3 && 1532 / 153 == 10;
  }

  /** Year 0 starts at `YEAR_0_START`. */
  lemma YearZeroStart()
    ensures IsoYear(YEAR_0_START - 1) == -1 && IsoYear(YEAR_0_START) == 0
  {
    EraEnd();
    assert (YEAR_0_START - 1) / DAY == -719529 && YEAR_0_START / DAY == -719528;
    assert -61 / 146097 == -1 && -60 / 146097 == -1;
  }

  /** Year 10000 starts at `YEAR_10000_START`. */
  lemma YearTenThousandStart()
    ensures IsoYear(YEAR_10000_START - 1) == 9999 && IsoYear(YEAR_10000_START) == 10000
  {
    EraEnd();
    assert (YEAR_10000_START - 1) / DAY == 2932896 && YEAR_10000_START / DAY == 2932897;
    assert 3652364 / 146097 == 24 && 3652365 / 146097 == 24;
  }

  /**
   * The rank of the first character of a time's ISO text: years after 9999
   * are written `+YYYYYY`, years before 0 `-YYYYYY`, the others with four
   * digits, and `+` sorts before `-`, which sorts before every digit.
   */
  function IsoLead(t: int): nat {
    if t >= YEAR_10000_START then 0 else if t < YEAR_0_START then 1 else 2
  }

  /**
   * Whether the ISO text of `t` sorts before the ISO text of `c`, character
   * by character, which is how the store compares a stored timestamp with a
   * cutoff. With the same leading character the texts have the same layout,
   * so the earlier time sorts first, except before year 0: there the year is
   * written by its distance from year 0, so a year further back sorts later.
   */
  predicate IsoBefore(t: int, c: int) {
    if IsoLead(t) != IsoLead(c) then IsoLead(t) < IsoLead(c)
    else if IsoLead(t) == 1 then IsoYear(t) > IsoYear(c) || (IsoYear(t) == IsoYear(c) && t < c)
    else t < c
  }

  /**
   * Like the text order it stands for, `IsoBefore` is a strict total order:
   * no time sorts before itself, the order is transitive, and of two
   * different times one sorts first.
   */
  lemma IsoBeforeIsStrictTotalOrder(t: int, u: int, v: int)
    ensures !IsoBefore(t, t)
    ensures IsoBefore(t, u) && IsoBefore(u, v) ==> IsoBefore(t, v)
    ensures t != u ==> IsoBefore(t, u) || IsoBefore(u, t)
  {
  }

  /** Between two times of four-digit years the text order is the time order. */
  lemma IsoOrderIsChronological(t: int, c: int)
    requires IsFourDigitYear(t) && IsFourDigitYear(c)
    ensures IsoBefore(t, c) <==> t < c
  {
  }

  /** A time after year 9999 sorts before every time of a four-digit year, though it is later. */
  lemma FarFutureSortsFirst(t: int, c: int)
    requires IsFourDigitYear(t) && YEAR_10000_START <= c
    ensures !IsoBefore(t, c) && t < c
  {
  }

  /**
   * The request-derived part of an event (`eventData`). `headers`, `body` and
   * `query` are kept as their JSON text; `httpMethod` (the source's `method`) and `url` may be absent.
   */
  datatype Fields = Fields(
    headers: string,
    body: string,
    httpMethod: Option<string>,
    url: Option<string>,
    query: string)

  /**
   * A stored document. `timestamp` counts milliseconds; it stands for the ISO
   * text the store keeps, whose lexicographic order is the same.
   */
  datatype Event = Event(id: nat, timestamp: int, fields: Fields)

  /** The two fields the store sorts on. */
  datatype SortField = ById | ByTimestamp

  function Key(field: SortField): Event -> int {
    match field
    case ById => (e: Event) => e.id
    case ByTimestamp => (e: Event) => e.timestamp
  }

  /** No two stored events share an id. */
  predicate UniqueIds(s: seq<Event>) {
    DistinctBy(s, Key(ById))
  }

  // ------------------------------------------------------------ id assignment

  /**
   * `getNextId`: one more than the id of the first event when the store is
   * sorted by id descending, or 1 when the store is empty.
   */
  function NextId(s: seq<Event>): (r: nat)
    ensures 1 <= r
    ensures s == [] ==> r == 1
    ensures forall e :: e in s ==> e.id < r
    ensures s != [] ==> exists e :: e in s && e.id + 1 == r
  {
    if s == [] then 1
    else
      SortedHeadIsExtreme(s, Key(ById), Descending);
      SortBy(s, Key(ById), Descending)[0].id + 1
  }

  /** The document `insertEvent` stores: the next id, the insertion time, then the request fields. */
  function NewEvent(s: seq<Event>, data: Fields, now: int): (e: Event)
    ensures e.id == NextId(s) && e !in s
    ensures e.fields == data && e.timestamp == now
  {
    Event(NextId(s), now, data)
  }

  /** An insert keeps the ids of the store pairwise distinct. */
  lemma InsertKeepsIdsUnique(s: seq<Event>, data: Fields, now: int)
    requires UniqueIds(s)
    ensures UniqueIds(s + [NewEvent(s, data, now)])
  {
    var t := s + [NewEvent(s, data, now)];
    forall i, j | 0 <= i < j < |t| ensures t[i].id != t[j].id {
      if j == |s| {
        assert t[i] == s[i] && t[i] in s;
      } else {
        assert t[i] == s[i] && t[j] == s[j];
      }
    }
  }

  /** The store after inserting each `(fields, time)` of `batch`, in order, into an empty store. */
  function StoreAfter(batch: seq<(Fields, int)>): seq<Event> {
    if batch == [] then []
    else
      var s := StoreAfter(batch[..|batch| - 1]);
      s + [NewEvent(s, batch[|batch| - 1].0, batch[|batch| - 1].1)]
  }

  /** Sequential inserts into an empty store assign the ids 1, 2, 3, ... in order. */
  lemma {:induction false} SequentialIdsFromEmpty(batch: seq<(Fields, int)>)
    ensures |StoreAfter(batch)| == |batch|
    ensures forall i :: 0 <= i < |batch| ==> StoreAfter(batch)[i].id == i + 1
  {
    if batch != [] {
      var prefix := batch[..|batch| - 1];
      SequentialIdsFromEmpty(prefix);
      var s := StoreAfter(prefix);
      var k := |s|;
      var r := NextId(s);
      if s != [] {
        var e :| e in s && e.id + 1 == r;
        var j :| 0 <= j < k && s[j] == e;
        assert r <= k + 1;
        assert s[k - 1] in s;
      }
      assert r == k + 1;
      var t := StoreAfter(batch);
      assert t == s + [NewEvent(s, batch[|batch| - 1].0, batch[|batch| - 1].1)];
      forall i | 0 <= i < |batch| ensures t[i].id == i + 1 {
        if i < k {
          assert t[i] == s[i];
        }
      }
    }
  }

  // ------------------------------------------------------------------ lookup

  /**
   * `getEventById`: the first stored event whose id is the parsed argument;
   * an id that did not parse (`NaN`) matches nothing.
   */
  function GetEventById(s: seq<Event>, id: Option<int>): (r: Option<Event>)
    ensures r.Some? ==> r.value in s && id == Some(r.value.id)
    ensures r.None? <==> id.None? || forall e :: e in s ==> e.id != id.value
  {
    if id.None? || s == [] then None
    else if s[0].id == id.value then Some(s[0])
    else
      assert s == [s[0]] + s[1..];
      GetEventById(s[1..], id)
  }

  /** With distinct ids, looking up a stored event's id yields that very event. */
  lemma LookupFindsStored(s: seq<Event>, e: Event)
    requires UniqueIds(s) && e in s
    ensures GetEventById(s, Some(e.id)) == Some(e)
  {
    var r := GetEventById(s, Some(e.id));
    var i :| 0 <= i < |s| && s[i] == e;
    var j :| 0 <= j < |s| && s[j] == r.value;
    assert s[i].id == s[j].id;
  }

  /** Looking up the id an insert returned yields the stored event: the request fields plus the assigned id and timestamp. */
  lemma {:induction false} InsertThenLookup(s: seq<Event>, data: Fields, now: int)
    ensures GetEventById(s + [NewEvent(s, data, now)], Some(NextId(s))) == Some(Event(NextId(s), now, data))
  {
    var e := NewEvent(s, data, now);
    if s != [] {
      assert s[0] in s;
      assert (s + [e])[1..] == s[1..] + [e];
      assert NextId(s[1..]) <= NextId(s) by {
        forall x | x in s[1..] ensures x in s { }
      }
      InsertThenLookupAny(s[1..], e);
    }
  }

  /** Looking up the id of an event appended after events that all have smaller ids finds it. */
  lemma {:induction false} InsertThenLookupAny(s: seq<Event>, e: Event)
    requires forall x :: x in s ==> x.id < e.id
    ensures GetEventById(s + [e], Some(e.id)) == Some(e)
  {
    if s != [] {
      assert s[0] in s;
      assert (s + [e])[1..] == s[1..] + [e];
      InsertThenLookupAny(s[1..], e);
    }
  }

  // ----------------------------------------------------------------- listing

  /**
   * `getEvents`: the whole collection sorted by `sortBy` in `order`, then
   * the `skip`/`limit` window.
   */
  function GetEvents(s: seq<Event>, skip: int, limit: int, sortBy: SortField, order: Direction): (r: seq<Event>)
    ensures |r| <= |s|
    ensures forall e :: e in r ==> e in s
    ensures SortedBy(r, Key(sortBy), order)
    ensures 0 <= skip && 0 < limit ==> |r| == Max(0, Min(limit, |s| - skip))
    ensures 0 <= skip && 0 < limit ==>
      forall i :: 0 <= i < |r| ==> r[i] == SortBy(s, Key(sortBy), order)[skip + i]
  {
    var sorted := SortBy(s, Key(sortBy), order);
    PageKeepsOrder(sorted, skip, limit, Key(sortBy), order);
    assert forall e :: e in sorted ==> e in multiset(s);
    Page(sorted, skip, limit)
  }

  /**
   * Pages of one size over a static store partition it: the first `n` pages,
   * concatenated, are the first `n * limit` events of the sorted collection,
   * with nothing repeated and nothing skipped.
   */
  lemma PagesPartitionListing(s: seq<Event>, n: nat, limit: nat, sortBy: SortField, order: Direction)
    requires 0 < limit
    ensures FirstPages(SortBy(s, Key(sortBy), order), n, limit)
         == SortBy(s, Key(sortBy), order)[..Min(n * limit, |s|)]
  {
    FirstPagesArePrefix(SortBy(s, Key(sortBy), order), n, limit);
  }

  /** `getEventCount`: the number of stored events. */
  function GetEventCount(s: seq<Event>): (n: nat)
    ensures n == |s|
  {
    |s|
  }

  // ------------------------------------------------------------------ search

  /** A missing, empty or whitespace-only query: the search falls back to plain listing. */
  predicate IsBlankQuery(query: Option<string>) {
    query.None? || IsBlank(query.value)
  }

  /** The JSON text of an optional string member, absent when the value is. */
  function OptionalMember(name: string, value: Option<string>): string {
    if value.None? then "" else ",\"" + name + "\":\"" + value.value + "\""
  }

  /** The opening of a document's text, up to and including its id. */
  function IdText(e: Event): string {
    "{\"id\":" + NatToDecimal(e.id)
  }

  /** The document's text up to the `body` member. */
  function HeadText(e: Event): string {
    IdText(e) + (",\"timestamp\":" + IntToDecimal(e.timestamp) + ",\"headers\":" + e.fields.headers)
  }

  /** The member name that introduces the body. */
  const BODY_MEMBER: string := ",\"body\":"

  /** The document's text from the body's value to the end. */
  function TailText(e: Event): string {
    e.fields.body
    + OptionalMember("method", e.fields.httpMethod)
    + OptionalMember("url", e.fields.url)
    + ",\"query\":" + e.fields.query + "}"
  }

  /**
   * The text the search scans: the document's own members in their stored
   * order. The timestamp appears as its number of milliseconds, and the
   * members the storage library adds (`_id`, `createdAt`, `updatedAt`) are
   * not part of it.
   */
  function DocText(e: Event): string {
    HeadText(e) + BODY_MEMBER + TailText(e)
  }

  /**
   * A method or url test: the field is present, non-empty and contains the
   * lower-cased query once lower-cased. For the url this is the boolean the
   * callback returns; `NotBoolean` covers the other case.
   */
  predicate FieldMatches(field: Option<string>, q: string) {
    field.Some? && field.value != "" && IsSubstring(q, Lower(field.value))
  }

  /** The search predicate, applied to the lower-cased query. */
  predicate Matches(e: Event, query: string) {
    var q := Lower(query);
    || IsSubstring(q, Lower(DocText(e)))
    || IsSubstring(q, NatToDecimal(e.id))
    || FieldMatches(e.fields.httpMethod, q)
    || FieldMatches(e.fields.url, q)
  }

  function Matching(query: string): Event -> bool {
    (e: Event) => Matches(e, query)
  }

  /**
   * The search callback returns its last test's own value when the first
   * three fail. That value is a boolean only when the url is present and
   * non-empty; otherwise it is the missing or empty url, which the store
   * refuses, and the whole query fails.
   */
  predicate NotBoolean(e: Event, query: string) {
    !Matches(e, query) && (e.fields.url.None? || e.fields.url.value == "")
  }

  /** A non-blank search fails when some stored event makes the callback return a value that is not a boolean. */
  predicate SearchFails(s: seq<Event>, query: Option<string>) {
    !IsBlankQuery(query) && exists e :: e in s && NotBoolean(e, query.value)
  }

  /**
   * `searchEvents`: a blank query lists like `getEvents(skip, limit)`;
   * otherwise, unless the query fails, the matching events, newest first,
   * then the window.
   */
  function SearchEvents(s: seq<Event>, query: Option<string>, skip: int, limit: int): (r: Option<seq<Event>>)
    ensures r.None? <==> SearchFails(s, query)
    ensures IsBlankQuery(query) ==> r == Some(GetEvents(s, skip, limit, ByTimestamp, Descending))
    ensures !IsBlankQuery(query) && r.Some? ==>
      r.value == GetEvents(Filter(s, Matching(query.value)), skip, limit, ByTimestamp, Descending)
    ensures r.Some? ==> forall e :: e in r.value ==> e in s
    ensures r.Some? && !IsBlankQuery(query) ==> forall e :: e in r.value ==> Matches(e, query.value)
    ensures r.Some? ==> SortedBy(r.value, Key(ByTimestamp), Descending)
    ensures r.Some? ==> GetSearchCount(s, query).Some? && |r.value| <= GetSearchCount(s, query).value
  {
    if IsBlankQuery(query) then Some(GetEvents(s, skip, limit, ByTimestamp, Descending))
    else if SearchFails(s, query) then None
    else Some(GetEvents(Filter(s, Matching(query.value)), skip, limit, ByTimestamp, Descending))
  }

  /** `getSearchCount`: the number of stored events the search predicate accepts, unless the query fails. */
  function GetSearchCount(s: seq<Event>, query: Option<string>): (n: Option<nat>)
    ensures n.None? <==> SearchFails(s, query)
    ensures n.Some? ==> n.value <= |s|
    ensures IsBlankQuery(query) ==> n == Some(GetEventCount(s))
  {
    if IsBlankQuery(query) then Some(|s|)
    else if SearchFails(s, query) then None
    else Some(|Filter(s, Matching(query.value))|)
  }

  /**
   * The count and the search use one predicate: they fail together, the
   * count is the length of the unpaged search, and a non-blank search
   * returns exactly the matching events, each as often as it is stored.
   */
  lemma SearchCountIsUnpagedSearch(s: seq<Event>, query: Option<string>)
    ensures GetSearchCount(s, query).Some? <==> SearchEvents(s, query, 0, 0).Some?
    ensures GetSearchCount(s, query).Some? ==> GetSearchCount(s, query).value == |SearchEvents(s, query, 0, 0).value|
    ensures !IsBlankQuery(query) && SearchEvents(s, query, 0, 0).Some? ==>
      multiset(SearchEvents(s, query, 0, 0).value) == multiset(Filter(s, Matching(query.value)))
  {
  }

  /** Events stored with a non-empty url, as every routed webhook request has, never make a search fail. */
  lemma UrlsKeepSearchWorking(s: seq<Event>, query: Option<string>)
    requires forall e :: e in s ==> e.fields.url.Some? && e.fields.url.value != ""
    ensures !SearchFails(s, query)
    ensures SearchEvents(s, query, 0, 0).Some? && GetSearchCount(s, query).Some?
  {
  }

  /** A document with a missing or empty url that matches nothing else makes every search for that query fail. */
  lemma MissingUrlFailsSearch(s: seq<Event>, e: Event, query: string)
    requires e in s && (e.fields.url.None? || e.fields.url.value == "") && !Matches(e, query) && !IsBlank(query)
    ensures SearchEvents(s, Some(query), 0, 0).None? && GetSearchCount(s, Some(query)).None?
  {
  }

  /** The id is part of the document text, so a query found in the id is also found in the text. */
  lemma IdMatchImpliesTextMatch(e: Event, query: string)
    requires IsSubstring(Lower(query), NatToDecimal(e.id))
    ensures IsSubstring(Lower(query), Lower(DocText(e)))
  {
    var q := Lower(query);
    LowerKeepsDigits(NatToDecimal(e.id));
    SubstringOfLowerSuffix(q, "{\"id\":", NatToDecimal(e.id));
    SubstringOfLowerPrefix(q, IdText(e), HeadText(e)[|IdText(e)|..]);
    assert IdText(e) + HeadText(e)[|IdText(e)|..] == HeadText(e);
    SubstringOfLowerPrefix(q, HeadText(e), BODY_MEMBER);
    SubstringOfLowerPrefix(q, HeadText(e) + BODY_MEMBER, TailText(e));
  }

  /**
   * The document text carries the member name `body`, so the one-letter query
   * "b" matches every event, whatever its body holds.
   */
  lemma EveryEventMatchesB(e: Event)
    ensures Matches(e, "b")
  {
    assert Lower("b") == "b";
    assert IsSubstring("b", Lower(BODY_MEMBER)) by {
      assert Lower(BODY_MEMBER) == BODY_MEMBER;
      assert "b" <= BODY_MEMBER[2..];
    }
    SubstringOfLowerSuffix("b", HeadText(e), BODY_MEMBER);
    SubstringOfLowerPrefix("b", HeadText(e) + BODY_MEMBER, TailText(e));
  }

  // -------------------------------------------------------- export and stats

  /** `exportEvents`: every stored event, newest first, unpaged. */
  function ExportEvents(s: seq<Event>): (r: seq<Event>)
    ensures multiset(r) == multiset(s)
    ensures SortedBy(r, Key(ByTimestamp), Descending)
  {
    SortBy(s, Key(ByTimestamp), Descending)
  }

  /** `getOldestEvent`: the first event sorted by timestamp ascending, or none. */
  function GetOldestEvent(s: seq<Event>): (r: Option<Event>)
    ensures r.None? <==> s == []
    ensures r.Some? ==> r.value in s && forall e :: e in s ==> r.value.timestamp <= e.timestamp
  {
    if s == [] then None
    else
      SortedHeadIsExtreme(s, Key(ByTimestamp), Ascending);
      Some(SortBy(s, Key(ByTimestamp), Ascending)[0])
  }

  /** `getNewestEvent`: the first event sorted by timestamp descending, or none. */
  function GetNewestEvent(s: seq<Event>): (r: Option<Event>)
    ensures r.None? <==> s == []
    ensures r.Some? ==> r.value in s && forall e :: e in s ==> e.timestamp <= r.value.timestamp
  {
    if s == [] then None
    else
      SortedHeadIsExtreme(s, Key(ByTimestamp), Descending);
      Some(SortBy(s, Key(ByTimestamp), Descending)[0])
  }

  /** The statistics `getStats` gathers (the file size is not part of this model). */
  datatype Stats = Stats(totalEvents: nat, oldestEvent: Option<Event>, newestEvent: Option<Event>)

  function GetStats(s: seq<Event>): (r: Stats)
    ensures r.totalEvents == GetEventCount(s)
    ensures r.oldestEvent == GetOldestEvent(s) && r.newestEvent == GetNewestEvent(s)
    ensures r.oldestEvent.None? <==> r.totalEvents == 0
    ensures r.newestEvent.None? <==> r.totalEvents == 0
    ensures r.oldestEvent.Some? && r.newestEvent.Some? ==>
      r.oldestEvent.value.timestamp <= r.newestEvent.value.timestamp
  {
    Stats(|s|, GetOldestEvent(s), GetNewestEvent(s))
  }

  // ------------------------------------------------------------------ pruning

  /** `clearOldEvents`' cutoff: `daysOld` days before `now`. */
  function Cutoff(now: int, daysOld: int): int {
    now - daysOld * DAY
  }

  function DaysOrDefault(daysOld: Option<int>): int {
    if daysOld.None? then DEFAULT_DAYS_OLD else daysOld.value
  }

  /** The removal condition of `clearOldEvents`: the stored ISO timestamp sorts before the cutoff's. */
  function OlderThan(cutoff: int): Event -> bool {
    (e: Event) => IsoBefore(e.timestamp, cutoff)
  }

  function NotOlderThan(cutoff: int): Event -> bool {
    (e: Event) => !IsoBefore(e.timestamp, cutoff)
  }

  /** With four-digit-year stamps, pruning at a cutoff no later than the oldest event removes nothing. */
  lemma PruneBeforeOldestRemovesNothing(s: seq<Event>, cutoff: int)
    requires StampedInFourDigitYears(s)
    requires GetOldestEvent(s).Some? ==> cutoff <= GetOldestEvent(s).value.timestamp
    ensures Filter(s, NotOlderThan(cutoff)) == s
    ensures Filter(s, OlderThan(cutoff)) == []
  {
    FilterKeepsAll(s, NotOlderThan(cutoff));
    FilterKeepsNone(s, OlderThan(cutoff));
  }

  /**
   * With four-digit-year stamps, a cutoff after year 9999 removes nothing:
   * its ISO text starts with `+`, which sorts before every stored timestamp.
   */
  lemma FarFutureCutoffRemovesNothing(s: seq<Event>, cutoff: int)
    requires StampedInFourDigitYears(s) && YEAR_10000_START <= cutoff
    ensures Filter(s, NotOlderThan(cutoff)) == s
    ensures Filter(s, OlderThan(cutoff)) == []
  {
    FilterKeepsAll(s, NotOlderThan(cutoff));
    FilterKeepsNone(s, OlderThan(cutoff));
  }

  /** What `insertEvent` reports: the stored document, or the store's failure. */
  datatype InsertResult = Inserted(event: Event) | InsertFailed

  /** What `clearOldEvents` reports: how many events it removed, or that the cutoff date was invalid. */
  datatype ClearResult = Cleared(numRemoved: nat) | InvalidCutoff

  /** The store, holding its collection in storage order. */
  class WebhookDatabase {
    var events: seq<Event>

    /** Opens a store whose file already holds `persisted`. */
    constructor (persisted: seq<Event>)
      ensures events == persisted
    {
      events := persisted;
    }

    /**
     * `insertEvent`: builds the document with the next id and the time `now`,
     * and appends it when the store's write succeeds (`storeOk`).
     */
    method InsertEvent(data: Fields, now: int, storeOk: bool) returns (r: InsertResult)
      modifies this
      ensures storeOk ==> r == Inserted(NewEvent(old(events), data, now))
      ensures storeOk ==> events == old(events) + [r.event]
      ensures !storeOk ==> r == InsertFailed && events == old(events)
      ensures UniqueIds(old(events)) ==> UniqueIds(events)
      ensures StampedInFourDigitYears(old(events)) && IsFourDigitYear(now) ==> StampedInFourDigitYears(events)
    {
      var event := NewEvent(events, data, now);
      if storeOk {
        if UniqueIds(events) {
          InsertKeepsIdsUnique(events, data, now);
        }
        events := events + [event];
        r := Inserted(event);
      } else {
        r := InsertFailed;
      }
    }

    /** `clearAllEvents`: removes every event and reports how many there were. */
    method ClearAllEvents() returns (numRemoved: nat)
      modifies this
      ensures events == []
      ensures numRemoved == |old(events)|
    {
      numRemoved := |events|;
      events := [];
    }

    /**
     * `clearOldEvents`: removes exactly the events whose ISO timestamp sorts
     * before the cutoff's (default 7 days before `now`), keeps the others in
     * their order, and reports how many it removed. A cutoff outside the range of
     * JavaScript dates cannot be rendered, so the call fails and nothing is
     * removed.
     */
    method ClearOldEvents(daysOld: Option<int>, now: int) returns (r: ClearResult)
      modifies this
      ensures !IsValidTime(Cutoff(now, DaysOrDefault(daysOld))) ==> r == InvalidCutoff && events == old(events)
      ensures IsValidTime(Cutoff(now, DaysOrDefault(daysOld))) ==>
        && r.Cleared?
        && events == Filter(old(events), NotOlderThan(Cutoff(now, DaysOrDefault(daysOld))))
        && r.numRemoved == |Filter(old(events), OlderThan(Cutoff(now, DaysOrDefault(daysOld))))|
        && r.numRemoved == |old(events)| - |events|
      ensures UniqueIds(old(events)) ==> UniqueIds(events)
      ensures StampedInFourDigitYears(old(events)) ==> StampedInFourDigitYears(events)
    {
      var cutoff := Cutoff(now, DaysOrDefault(daysOld));
      if !IsValidTime(cutoff) {
        r := InvalidCutoff;
        return;
      }
      var kept := Filter(events, NotOlderThan(cutoff));
      FilterSplitsLength(events, NotOlderThan(cutoff), OlderThan(cutoff));
      if UniqueIds(events) {
        FilterKeepsUniqueIds(events, NotOlderThan(cutoff));
      }
      r := Cleared(|Filter(events, OlderThan(cutoff))|);
      events := kept;
    }
  }

  /** Removing events never makes two remaining ones share an id. */
  lemma FilterKeepsUniqueIds(s: seq<Event>, p: Event -> bool)
    requires UniqueIds(s)
    ensures UniqueIds(Filter(s, p))
  {
    FilterKeepsDistinctBy(s, p, Key(ById));
  }
}
