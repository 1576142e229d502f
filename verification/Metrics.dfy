/**
  API request metrics: the upsert that counts requests by quarter hour, and the report that totals the counts of
  a window in several ways and places them on a map.
 */
module Metrics {
  import opened Prelude
  import opened Timestamps

  datatype Key = Key(bucket: Civil, source: string, verb: string, endpoint: string, statusClass: nat)

  /** A request as `record_api_request` is told of it. */
  datatype Hit = Hit(at: Civil, source: string, verb: string, endpoint: string, status: nat)

  /** The start of the quarter hour, in UTC. */
  function BucketOf(at: Civil): Civil {
    at.(minute := at.minute / 15 * 15, second := 0, nano := 0)
  }

  function KeyOf(hit: Hit): Key {
    Key(BucketOf(hit.at), hit.source, hit.verb, hit.endpoint, hit.status / 100)
  }

  type Table = map<Key, nat>

  function Bumped<K>(table: map<K, nat>, key: K, n: nat): map<K, nat> {
    table[key := (if key in table then table[key] else 0) + n]
  }

  function Of<K>(m: map<K, nat>, k: K): nat {
    if k in m then m[k] else 0
  }

  /** A request lies in its bucket, which starts on a quarter hour. */
  lemma InBucket(at: Civil)
    requires ValidCivil(at)
    ensures ValidCivil(BucketOf(at)) && BucketOf(at).minute % 15 == 0
    ensures Instant(BucketOf(at)) <= Instant(at) < Instant(BucketOf(at)) + Seconds(900)
  {
    assert at.minute == at.minute / 15 * 15 + at.minute % 15;
    hide DaysBeforeYear, DaysBeforeMonth;
  }

  /** The instant lies in the quarter hour that starts at `b`. */
  predicate InQuarter(at: Civil, b: Civil)
    requires ValidCivil(at) && ValidCivil(b)
  {
    Instant(b) <= Instant(at) < Instant(b) + Seconds(900)
  }

  /** The first moment of a quarter hour. */
  predicate QuarterHour(b: Civil) {
    ValidCivil(b) && b.minute % 15 == 0 && b.second == 0 && b.nano == 0
  }

  lemma {:induction false} QuarterMultiple(b: Civil) returns (quarters: nat)
    requires QuarterHour(b)
    ensures Instant(b) == quarters * 900_000_000_000
  {
    quarters := DayNumber(b) * 96 + b.hour * 4 + b.minute / 15;
    assert b.minute == b.minute / 15 * 15;
    hide DaysBeforeYear, DaysBeforeMonth;
  }

  /** A bucket is the one quarter hour that the request lies in. */
  lemma BucketIsQuarter(at: Civil, b: Civil)
    requires ValidCivil(at) && QuarterHour(b)
    ensures BucketOf(at) == b <==> InQuarter(at, b)
  {
    InBucket(at);
    var bucket := BucketOf(at);
    if InQuarter(at, b) {
      var p := QuarterMultiple(bucket);
      var q := QuarterMultiple(b);
      hide Instant;
      OneQuarter(p, q, Instant(at));
      SameInstant(bucket, b);
    }
  }

  lemma OneQuarter(p: nat, q: nat, t: Time)
    requires p * 900_000_000_000 <= t < p * 900_000_000_000 + 900_000_000_000
    requires q * 900_000_000_000 <= t < q * 900_000_000_000 + 900_000_000_000
    ensures p == q
  {
  }

  lemma SameInstant(a: Civil, b: Civil)
    requires ValidCivil(a) && ValidCivil(b) && Instant(a) == Instant(b)
    ensures a == b
  {
    if Earlier(a, b) {
      EarlierIsSmaller(a, b);
    } else if Earlier(b, a) {
      EarlierIsSmaller(b, a);
    }
    hide Instant;
  }

  // ---------------------------------------------------------------- sums

  ghost function MapSum<K>(m: map<K, nat>): nat
    decreases |m|
  {
    if m == map[] then 0 else
    var k :| k in m;
    m[k] + MapSum(m - {k})
  }

  lemma {:induction false} MapSumAt<K>(m: map<K, nat>, k: K)
    requires k in m
    ensures MapSum(m) == m[k] + MapSum(m - {k})
    decreases |m|
  {
    var c :| c in m && MapSum(m) == m[c] + MapSum(m - {c});
    if c != k {
      MapSumAt(m - {c}, k);
      MapSumAt(m - {k}, c);
      assert m - {c} - {k} == m - {k} - {c};
    }
  }

  lemma BumpedSum<K>(m: map<K, nat>, k: K, n: nat)
    ensures MapSum(Bumped(m, k, n)) == MapSum(m) + n
  {
    var after := Bumped(m, k, n);
    MapSumAt(after, k);
    assert after - {k} == m - {k};
    if k in m {
      MapSumAt(m, k);
    } else {
      assert m - {k} == m;
    }
  }

  // ---------------------------------------------------------------- the table after a run of requests

  function Recorded(hits: seq<Hit>): Table {
    if hits == [] then map[] else Bumped(Recorded(hits[..|hits|-1]), KeyOf(hits[|hits|-1]), 1)
  }

  class Recorder {
    var table: Table
    ghost var hits: seq<Hit>

    ghost predicate Valid()
      reads this
    {
      table == Recorded(hits)
    }

    constructor ()
      ensures Valid() && hits == []
    {
      table, hits := map[], [];
    }

    /** INSERT ... ON CONFLICT DO UPDATE SET request_count = request_count + 1. */
    method Record(hit: Hit)
      requires Valid()
      modifies this
      ensures Valid() && hits == old(hits) + [hit]
    {
      var key := KeyOf(hit);
      if key in table {
        table := table[key := table[key] + 1];
      } else {
        table := table[key := 1];
      }
      assert (hits + [hit])[..|hits|] == hits;
      hits := hits + [hit];
    }
  }

  /** How many of the requests have a key that satisfies the condition. */
  function Hits(hits: seq<Hit>, p: Key -> bool): nat {
    if hits == [] then 0 else
    Hits(hits[..|hits|-1], p) + (if p(KeyOf(hits[|hits|-1])) then 1 else 0)
  }

  function Where(table: Table, p: Key -> bool): Table {
    map k | k in table && p(k) :: table[k]
  }

  ghost predicate ValidHits(hits: seq<Hit>) {
    forall i | 0 <= i < |hits| :: ValidCivil(hits[i].at)
  }

  /** How many of the requests satisfy a condition on their own columns. */
  function Matching(hits: seq<Hit>, p: Hit -> bool): nat {
    if hits == [] then 0 else
    Matching(hits[..|hits|-1], p) + (if p(hits[|hits|-1]) then 1 else 0)
  }

  lemma {:induction false} ByColumns(hits: seq<Hit>, p: Key -> bool, r: Hit -> bool)
    requires ValidHits(hits) && forall h: Hit | ValidCivil(h.at) :: p(KeyOf(h)) == r(h)
    ensures Hits(hits, p) == Matching(hits, r)
  {
    if hits != [] {
      ByColumns(hits[..|hits|-1], p, r);
    }
  }

  predicate StatusIn(hit: Hit, statusClass: nat) {
    100 * statusClass <= hit.status < 100 * (statusClass + 1)
  }

  /** The request has the columns of a row. */
  predicate HasColumns(hit: Hit, b: Civil, source: string, verb: string, endpoint: string, statusClass: nat) {
    ValidCivil(hit.at) && ValidCivil(b) && InQuarter(hit.at, b) &&
    hit.source == source && hit.verb == verb && hit.endpoint == endpoint && StatusIn(hit, statusClass)
  }

  /**
    Every row counts the requests of its quarter hour with its source, method, endpoint and status class, and there
    are rows for quarter hours only, each with at least one request.
   */
  lemma RowsExact(hits: seq<Hit>, b: Civil, source: string, verb: string, endpoint: string, statusClass: nat)
    requires ValidHits(hits) && QuarterHour(b)
    ensures Of(Recorded(hits), Key(b, source, verb, endpoint, statusClass)) ==
            Matching(hits, h => HasColumns(h, b, source, verb, endpoint, statusClass))
    ensures forall k | k in Recorded(hits) :: QuarterHour(k.bucket) && Recorded(hits)[k] > 0
  {
    var key := Key(b, source, verb, endpoint, statusClass);
    RowsByKey(hits, key);
    forall h: Hit | ValidCivil(h.at)
      ensures (KeyOf(h) == key) == HasColumns(h, b, source, verb, endpoint, statusClass)
    {
      BucketIsQuarter(h.at, b);
      hide BucketOf, InQuarter;
    }
    ByColumns(hits, k => k == key, h => HasColumns(h, b, source, verb, endpoint, statusClass));
    forall k | k in Recorded(hits)
      ensures QuarterHour(k.bucket) && Recorded(hits)[k] > 0
    {
      RowsByKey(hits, k);
      RowsOfQuarters(hits, k);
    }
  }

  lemma {:induction false} RowsOfQuarters(hits: seq<Hit>, key: Key)
    requires ValidHits(hits) && key in Recorded(hits)
    ensures QuarterHour(key.bucket)
  {
    var last := hits[|hits|-1];
    if key == KeyOf(last) {
      InBucket(last.at);
    } else {
      RowsOfQuarters(hits[..|hits|-1], key);
    }
  }

  /** Every row counts the requests with its key, and only keys of requests have rows. */
  lemma {:induction false} RowsByKey(hits: seq<Hit>, key: Key)
    ensures (if key in Recorded(hits) then Recorded(hits)[key] else 0) == Hits(hits, k => k == key)
    ensures key in Recorded(hits) ==> Recorded(hits)[key] > 0
  {
    if hits != [] {
      RowsByKey(hits[..|hits|-1], key);
    }
  }

  /** The counts of the rows that satisfy a condition add up to the requests that do. */
  lemma {:induction false} WhereSum(hits: seq<Hit>, p: Key -> bool)
    ensures MapSum(Where(Recorded(hits), p)) == Hits(hits, p)
  {
    if hits == [] {
      assert Where(Recorded(hits), p) == map[];
    } else {
      var before, key := Recorded(hits[..|hits|-1]), KeyOf(hits[|hits|-1]);
      WhereSum(hits[..|hits|-1], p);
      if p(key) {
        BumpedSum(Where(before, p), key, 1);
        assert Where(Recorded(hits), p) == Bumped(Where(before, p), key, 1);
      } else {
        assert Where(Recorded(hits), p) == Where(before, p);
      }
    }
  }

  // ---------------------------------------------------------------- the report

  datatype ReportRow = ReportRow(key: Key, requests: nat)

  /** A listing of the table's rows that satisfy the condition, each once, in any order. */
  ghost predicate Lists(rows: seq<ReportRow>, table: Table, p: Key -> bool) {
    (forall i, j | 0 <= i < j < |rows| :: rows[i].key != rows[j].key) &&
    (forall i | 0 <= i < |rows| :: rows[i].key in table && p(rows[i].key) && rows[i].requests == table[rows[i].key]) &&
    forall k | k in table && p(k) :: exists i :: 0 <= i < |rows| && rows[i].key == k
  }

  /** SUM(request_count). */
  function Total(rows: seq<ReportRow>): nat {
    if rows == [] then 0 else Total(rows[..|rows|-1]) + rows[|rows|-1].requests
  }

  /** SUM(request_count) ... GROUP BY. */
  function Grouped<G>(rows: seq<ReportRow>, group: Key -> G): map<G, nat> {
    if rows == [] then map[]
    else Bumped(Grouped(rows[..|rows|-1], group), group(rows[|rows|-1].key), rows[|rows|-1].requests)
  }

  /** A listing without its last row lists the table without that row. */
  lemma ListsRest(rows: seq<ReportRow>, table: Table, p: Key -> bool)
    requires rows != [] && Lists(rows, table, p)
    ensures Lists(rows[..|rows|-1], table - {rows[|rows|-1].key}, p)
  {
    var rest, shorter := table - {rows[|rows|-1].key}, rows[..|rows|-1];
    forall k | k in rest && p(k)
      ensures exists i :: 0 <= i < |shorter| && shorter[i].key == k
    {
      var i :| 0 <= i < |rows| && rows[i].key == k;
      assert shorter[i].key == k;
    }
  }

  lemma WhereWithout(table: Table, p: Key -> bool, key: Key)
    requires key in table
    ensures p(key) ==> key in Where(table, p) && Where(table, p)[key] == table[key] &&
                       Where(table, p) - {key} == Where(table - {key}, p)
    ensures !p(key) ==> Where(table, p) == Where(table - {key}, p)
  {
  }

  lemma {:induction false} ListingSum(rows: seq<ReportRow>, table: Table, p: Key -> bool)
    requires Lists(rows, table, p)
    ensures Total(rows) == MapSum(Where(table, p))
    decreases |rows|
  {
    if rows == [] {
      assert Where(table, p) == map[];
    } else {
      var key := rows[|rows|-1].key;
      ListsRest(rows, table, p);
      ListingSum(rows[..|rows|-1], table - {key}, p);
      WhereWithout(table, p, key);
      MapSumAt(Where(table, p), key);
    }
  }

  lemma {:induction false} GroupSum<G>(rows: seq<ReportRow>, group: Key -> G)
    ensures MapSum(Grouped(rows, group)) == Total(rows)
  {
    if rows != [] {
      GroupSum(rows[..|rows|-1], group);
      BumpedSum(Grouped(rows[..|rows|-1], group), group(rows[|rows|-1].key), rows[|rows|-1].requests);
    }
  }

  lemma {:induction false} GroupExact<G>(rows: seq<ReportRow>, table: Table, p: Key -> bool, group: Key -> G, g: G)
    requires Lists(rows, table, p)
    ensures Of(Grouped(rows, group), g) == MapSum(Where(table, k => p(k) && group(k) == g))
    decreases |rows|
  {
    var q := k => p(k) && group(k) == g;
    if rows == [] {
      assert Where(table, q) == map[];
    } else {
      var key := rows[|rows|-1].key;
      ListsRest(rows, table, p);
      GroupExact(rows[..|rows|-1], table - {key}, p, group, g);
      WhereWithout(table, q, key);
      hide Where;
      if group(key) == g {
        MapSumAt(Where(table, q), key);
      }
    }
  }

  /** `bucket_start >= since`, a comparison of texts. */
  predicate InWindow(key: Key, since: Civil) {
    !TextLess(Rfc3339Seconds(key.bucket), Rfc3339Seconds(since))
  }

  /**
    Conservation: for any cutoff, the overall total and the totals of any grouping add up to the requests whose
    keys are in the window, and each group's total is the number of those requests in the group.
   */
  lemma Conservation<G>(hits: seq<Hit>, rows: seq<ReportRow>, since: Civil, group: Key -> G, g: G)
    requires Lists(rows, Recorded(hits), k => InWindow(k, since))
    ensures Total(rows) == Hits(hits, k => InWindow(k, since))
    ensures MapSum(Grouped(rows, group)) == Hits(hits, k => InWindow(k, since))
    ensures Of(Grouped(rows, group), g) == Hits(hits, k => InWindow(k, since) && group(k) == g)
  {
    var p := k => InWindow(k, since);
    var q := k => p(k) && group(k) == g;
    ListingSum(rows, Recorded(hits), p);
    WhereSum(hits, p);
    GroupSum(rows, group);
    GroupExact(rows, Recorded(hits), p, group, g);
    WhereSum(hits, q);
    SameHits(hits, q, k => InWindow(k, since) && group(k) == g);
  }

  lemma {:induction false} SameHits(hits: seq<Hit>, p: Key -> bool, q: Key -> bool)
    requires forall k :: p(k) == q(k)
    ensures Hits(hits, p) == Hits(hits, q)
  {
    if hits != [] {
      SameHits(hits[..|hits|-1], p, q);
    }
  }

  /** The window by text is the window by time. */
  lemma WindowIsTime(hit: Hit, since: Civil)
    requires ValidCivil(hit.at) && ValidCivil(since) && since.nano == 0
    ensures InWindow(KeyOf(hit), since) <==> Instant(BucketOf(hit.at)) >= Instant(since)
  {
    InBucket(hit.at);
    CutoffSelects(BucketOf(hit.at), since);
  }

  /** The quarter hour of the request, counted in the arithmetic of time, starts at or after the cutoff. */
  predicate Counted(hit: Hit, since: Civil) {
    ValidCivil(hit.at) && ValidCivil(since) && Instant(hit.at) / 900_000_000_000 * 900_000_000_000 >= Instant(since)
  }

  lemma CountedInWindow(hit: Hit, since: Civil)
    requires ValidCivil(hit.at) && ValidCivil(since) && since.nano == 0
    ensures InWindow(KeyOf(hit), since) <==> Counted(hit, since)
  {
    WindowIsTime(hit, since);
    InBucket(hit.at);
    var quarters := QuarterMultiple(BucketOf(hit.at));
    hide Instant, InWindow;
    assert Instant(hit.at) / 900_000_000_000 == quarters;
  }

  /** The total of a group, when the group is given by columns of the request. */
  lemma GroupTotal<G>(hits: seq<Hit>, rows: seq<ReportRow>, since: Civil, group: Key -> G, g: G, counts: Hit -> bool)
    requires ValidHits(hits) && ValidCivil(since) && since.nano == 0
    requires Lists(rows, Recorded(hits), k => InWindow(k, since))
    requires forall h: Hit | ValidCivil(h.at) :: (Counted(h, since) && group(KeyOf(h)) == g) == counts(h)
    ensures Of(Grouped(rows, group), g) == Matching(hits, counts)
  {
    Conservation(hits, rows, since, group, g);
    forall h: Hit | ValidCivil(h.at)
      ensures InWindow(KeyOf(h), since) <==> Counted(h, since)
    {
      CountedInWindow(h, since);
    }
    hide InWindow, Counted, KeyOf;
    ByColumns(hits, k => InWindow(k, since) && group(k) == g, counts);
  }

  // The report's totals on the requests' own columns: for any cutoff, each is the number of the requests whose quarter
  // hour starts at or after it, and that have the columns of the group.

  lemma EndpointTotal(hits: seq<Hit>, rows: seq<ReportRow>, since: Civil, endpoint: string)
    requires ValidHits(hits) && ValidCivil(since) && since.nano == 0
    requires Lists(rows, Recorded(hits), k => InWindow(k, since))
    ensures Of(Grouped(rows, (k: Key) => k.endpoint), endpoint) ==
            Matching(hits, h => Counted(h, since) && h.endpoint == endpoint)
  {
    GroupTotal(hits, rows, since, (k: Key) => k.endpoint, endpoint, h => Counted(h, since) && h.endpoint == endpoint);
  }

  lemma QuarterTotal(hits: seq<Hit>, rows: seq<ReportRow>, since: Civil, b: Civil)
    requires ValidHits(hits) && ValidCivil(since) && since.nano == 0
    requires Lists(rows, Recorded(hits), k => InWindow(k, since))
    requires QuarterHour(b)
    ensures Of(Grouped(rows, (k: Key) => k.bucket), b) ==
            Matching(hits, h => Counted(h, since) && ValidCivil(h.at) && InQuarter(h.at, b))
  {
    forall h: Hit | ValidCivil(h.at)
      ensures (BucketOf(h.at) == b) == InQuarter(h.at, b)
    {
      BucketIsQuarter(h.at, b);
    }
    hide BucketOf, InQuarter, InWindow, Counted, Lists, Recorded, Grouped;
    GroupTotal(hits, rows, since, (k: Key) => k.bucket, b,
               h => Counted(h, since) && ValidCivil(h.at) && InQuarter(h.at, b));
  }

  lemma ClassOf(hit: Hit, statusClass: nat)
    ensures (KeyOf(hit).statusClass == statusClass) == StatusIn(hit, statusClass)
  {
  }

  lemma StatusTotal(hits: seq<Hit>, rows: seq<ReportRow>, since: Civil, statusClass: nat)
    requires ValidHits(hits) && ValidCivil(since) && since.nano == 0
    requires Lists(rows, Recorded(hits), k => InWindow(k, since))
    ensures Of(Grouped(rows, (k: Key) => k.statusClass), statusClass) ==
            Matching(hits, h => Counted(h, since) && StatusIn(h, statusClass))
  {
    forall h: Hit
      ensures (KeyOf(h).statusClass == statusClass) == StatusIn(h, statusClass)
    {
      ClassOf(h, statusClass);
    }
    hide StatusIn, Counted, InWindow, BucketOf, Lists, Recorded, Grouped;
    GroupTotal(hits, rows, since, (k: Key) => k.statusClass, statusClass,
               h => Counted(h, since) && StatusIn(h, statusClass));
  }

  lemma SourceTotal(hits: seq<Hit>, rows: seq<ReportRow>, since: Civil, source: string)
    requires ValidHits(hits) && ValidCivil(since) && since.nano == 0
    requires Lists(rows, Recorded(hits), k => InWindow(k, since))
    ensures Of(Grouped(rows, (k: Key) => k.source), source) ==
            Matching(hits, h => Counted(h, since) && h.source == source)
  {
    GroupTotal(hits, rows, since, (k: Key) => k.source, source, h => Counted(h, since) && h.source == source);
  }

  lemma SourceEndpointTotal(hits: seq<Hit>, rows: seq<ReportRow>, since: Civil, source: string, endpoint: string)
    requires ValidHits(hits) && ValidCivil(since) && since.nano == 0
    requires Lists(rows, Recorded(hits), k => InWindow(k, since))
    ensures Of(Grouped(rows, (k: Key) => (k.source, k.endpoint)), (source, endpoint)) ==
            Matching(hits, h => Counted(h, since) && h.source == source && h.endpoint == endpoint)
  {
    GroupTotal(hits, rows, since, (k: Key) => (k.source, k.endpoint), (source, endpoint),
               h => Counted(h, since) && h.source == source && h.endpoint == endpoint);
  }

  lemma SourceStatusTotal(hits: seq<Hit>, rows: seq<ReportRow>, since: Civil, source: string, statusClass: nat)
    requires ValidHits(hits) && ValidCivil(since) && since.nano == 0
    requires Lists(rows, Recorded(hits), k => InWindow(k, since))
    ensures Of(Grouped(rows, (k: Key) => (k.source, k.statusClass)), (source, statusClass)) ==
            Matching(hits, h => Counted(h, since) && h.source == source && StatusIn(h, statusClass))
  {
    forall h: Hit
      ensures (KeyOf(h).statusClass == statusClass) == StatusIn(h, statusClass)
    {
      ClassOf(h, statusClass);
    }
    hide StatusIn, Counted, InWindow, BucketOf, Lists, Recorded, Grouped;
    GroupTotal(hits, rows, since, (k: Key) => (k.source, k.statusClass), (source, statusClass),
               h => Counted(h, since) && h.source == source && StatusIn(h, statusClass));
  }

  lemma OverallTotal(hits: seq<Hit>, rows: seq<ReportRow>, since: Civil)
    requires ValidHits(hits) && ValidCivil(since) && since.nano == 0
    requires Lists(rows, Recorded(hits), k => InWindow(k, since))
    ensures Total(rows) == Matching(hits, h => Counted(h, since))
  {
    Conservation(hits, rows, since, (k: Key) => k.endpoint, "");
    forall h: Hit | ValidCivil(h.at)
      ensures InWindow(KeyOf(h), since) <==> Counted(h, since)
    {
      CountedInWindow(h, since);
    }
    hide InWindow, Counted, KeyOf;
    ByColumns(hits, k => InWindow(k, since), h => Counted(h, since));
  }

  // ---------------------------------------------------------------- the map

  /** Latitude and longitude in tenths of a degree, as the report rounds them. */
  type Cell = (int, int)

  datatype CellTotals = CellTotals(requests: nat, sources: set<string>, endpoints: set<string>)

  datatype Point = Point(cell: Cell, requests: nat, sourceCount: nat, endpointCount: nat)

  /** The row's totals added to those of its cell, if the GeoIP database places its source. */
  function Placed(cells: map<Cell, CellTotals>, geo: map<string, Cell>, row: ReportRow): map<Cell, CellTotals> {
    if row.key.source !in geo then cells else
    var cell := geo[row.key.source];
    var totals := if cell in cells then cells[cell] else CellTotals(0, {}, {});
    cells[cell := CellTotals(totals.requests + row.requests, totals.sources + {row.key.source},
                             totals.endpoints + {row.key.endpoint})]
  }

  function Cells(rows: seq<ReportRow>, geo: map<string, Cell>): map<Cell, CellTotals> {
    if rows == [] then map[] else Placed(Cells(rows[..|rows|-1], geo), geo, rows[|rows|-1])
  }

  /** The `map_cells` loop. */
  method MapCells(rows: seq<ReportRow>, geo: map<string, Cell>) returns (cells: map<Cell, CellTotals>)
    ensures cells == Cells(rows, geo)
  {
    cells := map[];
    for n := 0 to |rows|
      invariant cells == Cells(rows[..n], geo)
    {
      var row := rows[n];
      assert rows[..n+1][..n] == rows[..n];
      if row.key.source !in geo {
        continue;
      }
      var cell := geo[row.key.source];
      if cell !in cells {
        cells := cells[cell := CellTotals(0, {}, {})];
      }
      var totals := cells[cell];
      UpdatedTwice(Cells(rows[..n], geo), cell, totals, totals);
      cells := cells[cell := CellTotals(totals.requests + row.requests, totals.sources + {row.key.source},
                                        totals.endpoints + {row.key.endpoint})];
    }
    assert rows[..|rows|] == rows;
  }

  function Requests(cells: map<Cell, CellTotals>): map<Cell, nat> {
    map c | c in cells :: cells[c].requests
  }

  /** The requests of the rows whose source is placed, and in the given cell if one is given. */
  function PlacedTotal(rows: seq<ReportRow>, geo: map<string, Cell>, cell: Option<Cell>): nat {
    if rows == [] then 0 else
    var row := rows[|rows|-1];
    PlacedTotal(rows[..|rows|-1], geo, cell) +
    (if row.key.source in geo && (cell.None? || geo[row.key.source] == cell.value) then row.requests else 0)
  }

  lemma PlacedRequests(cells: map<Cell, CellTotals>, geo: map<string, Cell>, row: ReportRow)
    requires row.key.source in geo
    ensures Requests(Placed(cells, geo, row)) == Bumped(Requests(cells), geo[row.key.source], row.requests)
  {
  }

  /** The cells' requests add up to the requests of the placed rows, cell by cell and overall. */
  lemma {:induction false} CellsConserve(rows: seq<ReportRow>, geo: map<string, Cell>, cell: Cell)
    ensures MapSum(Requests(Cells(rows, geo))) == PlacedTotal(rows, geo, None)
    ensures Of(Requests(Cells(rows, geo)), cell) == PlacedTotal(rows, geo, Some(cell))
  {
    if rows == [] {
      assert Requests(Cells(rows, geo)) == map[];
    } else {
      var row, before := rows[|rows|-1], Cells(rows[..|rows|-1], geo);
      CellsConserve(rows[..|rows|-1], geo, cell);
      if row.key.source in geo {
        BumpedSum(Requests(before), geo[row.key.source], row.requests);
        PlacedRequests(before, geo, row);
        hide Placed, Requests;
      }
    }
  }

  predicate Located(geo: map<string, Cell>, cell: Option<Cell>, key: Key) {
    key.source in geo && (cell.None? || geo[key.source] == cell.value)
  }

  lemma {:induction false} PlacedSum(rows: seq<ReportRow>, table: Table, p: Key -> bool, geo: map<string, Cell>,
                                     cell: Option<Cell>)
    requires Lists(rows, table, p)
    ensures PlacedTotal(rows, geo, cell) == MapSum(Where(table, k => p(k) && Located(geo, cell, k)))
    decreases |rows|
  {
    var q := k => p(k) && Located(geo, cell, k);
    if rows == [] {
      assert Where(table, q) == map[];
    } else {
      var key := rows[|rows|-1].key;
      ListsRest(rows, table, p);
      PlacedSum(rows[..|rows|-1], table - {key}, p, geo, cell);
      WhereWithout(table, q, key);
      hide Where;
      if q(key) {
        MapSumAt(Where(table, q), key);
      }
    }
  }

  /** The request's source is located, and in the given cell if one is given. */
  predicate SourceIn(geo: map<string, Cell>, cell: Option<Cell>, hit: Hit) {
    hit.source in geo && (cell.None? || geo[hit.source] == cell.value)
  }

  /**
    The map conserves requests: its cells together count the requests of the window whose source is located, and each
    cell those whose source is located in it.
   */
  lemma MapConserves(hits: seq<Hit>, rows: seq<ReportRow>, since: Civil, geo: map<string, Cell>, cell: Cell)
    requires ValidHits(hits) && ValidCivil(since) && since.nano == 0
    requires Lists(rows, Recorded(hits), k => InWindow(k, since))
    ensures MapSum(Requests(Cells(rows, geo))) == Matching(hits, h => Counted(h, since) && SourceIn(geo, None, h))
    ensures Of(Requests(Cells(rows, geo)), cell) ==
            Matching(hits, h => Counted(h, since) && SourceIn(geo, Some(cell), h))
  {
    CellsConserve(rows, geo, cell);
    PlacedMatching(hits, rows, since, geo, None);
    PlacedMatching(hits, rows, since, geo, Some(cell));
  }

  lemma PlacedMatching(hits: seq<Hit>, rows: seq<ReportRow>, since: Civil, geo: map<string, Cell>, cell: Option<Cell>)
    requires ValidHits(hits) && ValidCivil(since) && since.nano == 0
    requires Lists(rows, Recorded(hits), k => InWindow(k, since))
    ensures PlacedTotal(rows, geo, cell) == Matching(hits, h => Counted(h, since) && SourceIn(geo, cell, h))
  {
    PlacedHits(hits, rows, since, geo, cell);
    forall h: Hit | ValidCivil(h.at)
      ensures InWindow(KeyOf(h), since) && Located(geo, cell, KeyOf(h)) <==> Counted(h, since) && SourceIn(geo, cell, h)
    {
      CountedInWindow(h, since);
      hide InWindow, Counted;
    }
    hide InWindow, Counted, KeyOf, Located, SourceIn;
    ByColumns(hits, k => InWindow(k, since) && Located(geo, cell, k), h => Counted(h, since) && SourceIn(geo, cell, h));
  }

  lemma PlacedHits(hits: seq<Hit>, rows: seq<ReportRow>, since: Civil, geo: map<string, Cell>, cell: Option<Cell>)
    requires Lists(rows, Recorded(hits), k => InWindow(k, since))
    ensures PlacedTotal(rows, geo, cell) == Hits(hits, k => InWindow(k, since) && Located(geo, cell, k))
  {
    var p := k => InWindow(k, since);
    var q := k => p(k) && Located(geo, cell, k);
    PlacedSum(rows, Recorded(hits), p, geo, cell);
    WhereSum(hits, q);
    SameHits(hits, q, k => InWindow(k, since) && Located(geo, cell, k));
  }

  /** A cell counts each source that has a row placed in it. */
  lemma {:induction false} CellSources(rows: seq<ReportRow>, geo: map<string, Cell>, cell: Cell, source: string)
    ensures (cell in Cells(rows, geo) && source in Cells(rows, geo)[cell].sources) <==>
            exists i :: 0 <= i < |rows| && rows[i].key.source == source && source in geo && geo[source] == cell
  {
    if rows != [] {
      var shorter := rows[..|rows|-1];
      CellSources(shorter, geo, cell, source);
      assert forall i | 0 <= i < |shorter| :: shorter[i] == rows[i];
    }
  }

  /** A cell counts each endpoint that a row placed in it has. */
  lemma {:induction false} CellEndpoints(rows: seq<ReportRow>, geo: map<string, Cell>, cell: Cell, endpoint: string)
    ensures (cell in Cells(rows, geo) && endpoint in Cells(rows, geo)[cell].endpoints) <==>
            exists i :: 0 <= i < |rows| && rows[i].key.endpoint == endpoint && rows[i].key.source in geo &&
                        geo[rows[i].key.source] == cell
  {
    if rows != [] {
      var shorter := rows[..|rows|-1];
      CellEndpoints(shorter, geo, cell, endpoint);
      assert forall i | 0 <= i < |shorter| :: shorter[i] == rows[i];
    }
  }

  function PointsTotal(points: seq<Point>): nat {
    if points == [] then 0 else PointsTotal(points[..|points|-1]) + points[|points|-1].requests
  }

  /** The `map_points` loop: one point a cell, and no request lost. The report then sorts the points. */
  method MapPoints(cells: map<Cell, CellTotals>) returns (points: seq<Point>)
    ensures PointsTotal(points) == MapSum(Requests(cells))
    ensures |points| == |cells| && forall i | 0 <= i < |points| :: IsPoint(points[i], cells)
  {
    points := [];
    var rest := cells;
    while rest != map[]
      invariant rest.Keys <= cells.Keys && forall c | c in rest :: rest[c] == cells[c]
      invariant |points| + |rest| == |cells| && forall i | 0 <= i < |points| :: IsPoint(points[i], cells)
      invariant PointsTotal(points) + MapSum(Requests(rest)) == MapSum(Requests(cells))
      decreases |rest|
    {
      var c :| c in rest;
      MapSumAt(Requests(rest), c);
      assert Requests(rest) - {c} == Requests(rest - {c});
      var point := Point(c, rest[c].requests, |rest[c].sources|, |rest[c].endpoints|);
      assert (points + [point])[..|points|] == points;
      points := points + [point];
      rest := rest - {c};
    }
  }

  predicate IsPoint(point: Point, cells: map<Cell, CellTotals>) {
    point.cell in cells &&
    var totals := cells[point.cell];
    point == Point(point.cell, totals.requests, |totals.sources|, |totals.endpoints|)
  }
}
