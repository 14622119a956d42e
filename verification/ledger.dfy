/**
 The redirect ledger of the server: the `qr_codes` table and the five HTTP
 handlers over it (create-qr, `/r/:shortCode`, stats, all-qr-codes,
 delete-qr). The table is a map from short code to row, so the UNIQUE
 constraint on `short_code` holds by construction; `id` is the AUTOINCREMENT
 key, `createdAt` and `lastScanned` are clock readings passed in as `now`, and
 the random bytes behind a new short code are a parameter.
 */
module Ledger {
  import opened Wrappers
  import Hex

  /** One row of `qr_codes`, without its `short_code` key. */
  datatype Row = Row(id: nat, originalUrl: string, scanCount: nat, createdAt: nat, lastScanned: Option<nat>)

  /** A row together with its short code, as `SELECT *` returns it. */
  datatype Record = Record(id: nat, shortCode: string, originalUrl: string, scanCount: nat, createdAt: nat, lastScanned: Option<nat>)

  function RecordOf(code: string, row: Row): (r: Record)
    ensures r.shortCode == code && r.createdAt == row.createdAt
  {
    Record(row.id, code, row.originalUrl, row.scanCount, row.createdAt, row.lastScanned)
  }

  /** The table and the next AUTOINCREMENT id. */
  datatype Store = Store(rows: map<string, Row>, nextId: nat)

  /** A fresh database: no rows, and ids start at 1. */
  const Empty: Store := Store(map[], 1)

  /** What every reachable table satisfies. */
  predicate RowValid(row: Row, nextId: nat) {
    && 1 <= row.id < nextId
    && row.originalUrl != []
    && (row.scanCount == 0 <==> row.lastScanned.None?)
  }

  predicate Valid(s: Store) {
    && s.nextId >= 1
    && (forall c :: c in s.rows ==> RowValid(s.rows[c], s.nextId))
    && (forall c1, c2 :: c1 in s.rows && c2 in s.rows && c1 != c2 ==> s.rows[c1].id != s.rows[c2].id)
  }

  /** `req.protocol` and `req.get('host')` of a request. */
  datatype Origin = Origin(protocol: string, host: string)

  function BaseUrl(o: Origin): string {
    o.protocol + "://" + o.host
  }

  /**
   The URL a tracked QR code encodes: the server's own base URL, then the
   path `/r/` and the code, which is its last path segment.
   */
  function RedirectUrl(o: Origin, code: string): (url: string)
    ensures |url| == |BaseUrl(o)| + 3 + |code|
    ensures url[..|BaseUrl(o)|] == BaseUrl(o)
    ensures url[|BaseUrl(o)|..|BaseUrl(o)| + 3] == "/r/" && url[|BaseUrl(o)| + 3..] == code
  {
    BaseUrl(o) + "/r/" + code
  }

  /** The stats URL of a tracked QR code: the base URL, the path `/api/stats/` and the code. */
  function TrackingUrl(o: Origin, code: string): (url: string)
    ensures |url| == |BaseUrl(o)| + 11 + |code|
    ensures url[..|BaseUrl(o)|] == BaseUrl(o)
    ensures url[|BaseUrl(o)|..|BaseUrl(o)| + 11] == "/api/stats/" && url[|BaseUrl(o)| + 11..] == code
  {
    BaseUrl(o) + "/api/stats/" + code
  }

  /**
   On one server, different codes get different redirect and stats URLs, and
   no code's redirect URL is another code's stats URL when codes have one length.
   */
  lemma ServerUrlsDistinct(o: Origin, code1: string, code2: string)
    ensures RedirectUrl(o, code1) == RedirectUrl(o, code2) <==> code1 == code2
    ensures TrackingUrl(o, code1) == TrackingUrl(o, code2) <==> code1 == code2
    ensures |code1| == |code2| ==> RedirectUrl(o, code1) != TrackingUrl(o, code2)
  {
    var b := |BaseUrl(o)|;
    if RedirectUrl(o, code1) == RedirectUrl(o, code2) {
      assert code1 == RedirectUrl(o, code1)[b + 3..];
    }
    if TrackingUrl(o, code1) == TrackingUrl(o, code2) {
      assert code1 == TrackingUrl(o, code1)[b + 11..];
    }
  }

  datatype CreateResponse =
    | Created(shortCode: string, redirectUrl: string, originalUrl: string, trackingUrl: string)
    | UrlRequired   // 400 'URL is required'
    | CreateFailed  // 500 'Failed to create QR code'
  {
    function Status(): nat {
      match this
      case Created(_, _, _, _) => 200
      case UrlRequired => 400
      case CreateFailed => 500
    }
  }

  datatype RedirectResponse =
    | RedirectTo(location: string)  // 302 to the original URL
    | RedirectNotFound              // 404 'QR code not found'
  {
    function Status(): nat {
      if RedirectTo? then 302 else 404
    }
  }

  datatype StatsResponse =
    | StatsOk(shortCode: string, originalUrl: string, scanCount: nat, createdAt: nat, lastScanned: Option<nat>)
    | StatsNotFound  // 404 'QR code not found'
  {
    function Status(): nat {
      if StatsOk? then 200 else 404
    }
  }

  datatype DeleteResponse =
    | Deleted         // 200 {success: true, message: 'QR code deleted'}
    | DeleteNotFound  // 404 'QR code not found'
  {
    function Status(): nat {
      if Deleted? then 200 else 404
    }
  }

  /** JavaScript truthiness of `req.body.url`: present and not the empty string. */
  predicate UrlGiven(url: Option<string>) {
    url.Some? && url.value != ""
  }

  /**
   POST /api/create-qr. A missing or empty URL is rejected with 400 and
   nothing stored. Otherwise the short code is the hex form of the four
   random bytes; if that code is already taken the INSERT violates the UNIQUE
   constraint, the handler answers 500 and the table is unchanged. Otherwise
   exactly one row is added, never scanned, and every other row is left alone.
   */
  function Create(s: Store, url: Option<string>, random: seq<Hex.byte>, now: nat, o: Origin): (r: (Store, CreateResponse))
    requires |random| == Hex.CodeBytes
    ensures var code := Hex.GenerateShortCode(random);
      && (r.1 == UrlRequired <==> !UrlGiven(url))
      && (r.1 == CreateFailed <==> UrlGiven(url) && code in s.rows)
      && (!r.1.Created? ==> r.0 == s)
      && (r.1.Created? ==>
            && code !in s.rows
            && r.1 == Created(code, RedirectUrl(o, code), url.value, TrackingUrl(o, code))
            && r.0.rows.Keys == s.rows.Keys + {code}
            && r.0.rows[code] == Row(s.nextId, url.value, 0, now, None)
            && (forall c :: c in s.rows ==> r.0.rows[c] == s.rows[c])
            && r.0.nextId == s.nextId + 1)
  {
    if !UrlGiven(url) then (s, UrlRequired)
    else
      var code := Hex.GenerateShortCode(random);
      if code in s.rows then (s, CreateFailed)
      else
        var row := Row(s.nextId, url.value, 0, now, None);
        (Store(s.rows[code := row], s.nextId + 1), Created(code, RedirectUrl(o, code), url.value, TrackingUrl(o, code)))
  }

  /**
   GET /r/:shortCode, one scan. An unknown code is a 404 and changes nothing.
   A known code redirects to its original URL, and its row gets one more scan
   and `lastScanned = now`; nothing else changes. `updateFails` stands for the
   UPDATE failing: the failure is only logged, so the redirect still happens
   and the row keeps its old count.
   */
  function Resolve(s: Store, code: string, now: nat, updateFails: bool): (r: (Store, RedirectResponse))
    ensures r.1 == RedirectNotFound <==> code !in s.rows
    ensures code in s.rows ==> r.1 == RedirectTo(s.rows[code].originalUrl)
    ensures code !in s.rows || updateFails ==> r.0 == s
    ensures code in s.rows && !updateFails ==>
      && r.0.rows.Keys == s.rows.Keys
      && r.0.nextId == s.nextId
      && r.0.rows[code].scanCount == s.rows[code].scanCount + 1
      && r.0.rows[code].lastScanned == Some(now)
      && r.0.rows[code].originalUrl == s.rows[code].originalUrl
      && r.0.rows[code].createdAt == s.rows[code].createdAt
      && r.0.rows[code].id == s.rows[code].id
      && (forall c :: c in s.rows && c != code ==> r.0.rows[c] == s.rows[c])
  {
    if code !in s.rows then (s, RedirectNotFound)
    else
      var row := s.rows[code];
      if updateFails then (s, RedirectTo(row.originalUrl))
      else
        var scanned := row.(scanCount := row.scanCount + 1, lastScanned := Some(now));
        (s.(rows := s.rows[code := scanned]), RedirectTo(row.originalUrl))
  }

  /** GET /api/stats/:shortCode: the row's public fields, or 404. Read-only. */
  function Stats(s: Store, code: string): (r: StatsResponse)
    ensures r.StatsNotFound? <==> code !in s.rows
    ensures r.StatsOk? ==>
      var row := s.rows[code];
      && r.shortCode == code
      && r.originalUrl == row.originalUrl
      && r.scanCount == row.scanCount
      && r.createdAt == row.createdAt
      && r.lastScanned == row.lastScanned
  {
    if code in s.rows then
      var row := s.rows[code];
      StatsOk(code, row.originalUrl, row.scanCount, row.createdAt, row.lastScanned)
    else StatsNotFound
  }

  /**
   DELETE /api/delete-qr/:shortCode: removes exactly the matching row; 404
   when no row was affected.
   */
  function Delete(s: Store, code: string): (r: (Store, DeleteResponse))
    ensures r.1 == Deleted <==> code in s.rows
    ensures r.0.rows.Keys == s.rows.Keys - {code}
    ensures forall c :: c in r.0.rows ==> r.0.rows[c] == s.rows[c]
    ensures r.0.nextId == s.nextId
  {
    if code in s.rows then (s.(rows := s.rows - {code}), Deleted)
    else (s, DeleteNotFound)
  }

  function Codes(rows: seq<Record>): set<string> {
    set i | 0 <= i < |rows| :: rows[i].shortCode
  }

  predicate DistinctCodes(rows: seq<Record>) {
    forall i, j :: 0 <= i < j < |rows| ==> rows[i].shortCode != rows[j].shortCode
  }

  /** `ORDER BY created_at DESC`; the order of rows created at the same time is left open. */
  predicate NewestFirst(rows: seq<Record>) {
    forall i, j :: 0 <= i < j < |rows| ==> rows[i].createdAt >= rows[j].createdAt
  }

  /** `rows` lists every row of the table exactly once, as stored, newest first. */
  predicate IsListing(table: map<string, Row>, rows: seq<Record>) {
    && (forall i :: 0 <= i < |rows| ==> rows[i].shortCode in table && rows[i] == RecordOf(rows[i].shortCode, table[rows[i].shortCode]))
    && DistinctCodes(rows)
    && Codes(rows) == table.Keys
    && NewestFirst(rows)
  }

  /** Among a non-empty set of stored codes, some code was created no earlier than the others. */
  lemma {:induction false} NewestExists(table: map<string, Row>, left: set<string>)
    requires left != {} && left <= table.Keys
    ensures exists c :: c in left && forall d :: d in left ==> table[d].createdAt <= table[c].createdAt
    decreases left
  {
    var x :| x in left;
    if left != {x} {
      NewestExists(table, left - {x});
      var c :| c in left - {x} && forall d :: d in left - {x} ==> table[d].createdAt <= table[c].createdAt;
      if table[x].createdAt > table[c].createdAt {
        assert forall d :: d in left ==> table[d].createdAt <= table[x].createdAt;
      } else {
        assert forall d :: d in left ==> table[d].createdAt <= table[c].createdAt;
      }
    }
  }

  /**
   Part way through listing: `rows` lists, newest first, the rows of every
   code not in `left`, none of them older than a row still left.
   */
  predicate ListedSoFar(table: map<string, Row>, rows: seq<Record>, left: set<string>) {
    && left <= table.Keys
    && (forall i :: 0 <= i < |rows| ==> rows[i].shortCode in table && rows[i] == RecordOf(rows[i].shortCode, table[rows[i].shortCode]))
    && DistinctCodes(rows)
    && Codes(rows) !! left
    && Codes(rows) + left == table.Keys
    && NewestFirst(rows)
    && (forall i, c :: 0 <= i < |rows| && c in left ==> rows[i].createdAt >= table[c].createdAt)
  }

  lemma AppendCodes(rows: seq<Record>, r: Record)
    ensures Codes(rows + [r]) == Codes(rows) + {r.shortCode}
  {
    var rows' := rows + [r];
    assert forall i :: 0 <= i < |rows| ==> rows'[i] == rows[i];
    assert rows'[|rows|] == r;
  }

  /** Appending the newest code still left keeps the listing invariant. */
  lemma ListedSoFarStep(table: map<string, Row>, rows: seq<Record>, left: set<string>, code: string)
    requires ListedSoFar(table, rows, left)
    requires code in left && forall d :: d in left ==> table[d].createdAt <= table[code].createdAt
    ensures ListedSoFar(table, rows + [RecordOf(code, table[code])], left - {code})
  {
    AppendCodes(rows, RecordOf(code, table[code]));
    assert code !in Codes(rows);
  }

  /** GET /api/all-qr-codes: every row, newest first. An empty table gives an empty list. */
  method ListAll(s: Store) returns (rows: seq<Record>)
    ensures IsListing(s.rows, rows)
  {
    rows := [];
    var left := s.rows.Keys;
    while left != {}
      invariant ListedSoFar(s.rows, rows, left)
      decreases left
    {
      NewestExists(s.rows, left);
      var code :| code in left && forall d :: d in left ==> s.rows[d].createdAt <= s.rows[code].createdAt;
      ListedSoFarStep(s.rows, rows, left, code);
      rows := rows + [RecordOf(code, s.rows[code])];
      left := left - {code};
    }
  }

  lemma {:induction false} DistinctCodesCount(rows: seq<Record>)
    requires DistinctCodes(rows)
    ensures |Codes(rows)| == |rows|
  {
    if rows != [] {
      var init := rows[..|rows| - 1];
      DistinctCodesCount(init);
      assert Codes(rows) == Codes(init) + {rows[|rows| - 1].shortCode};
      assert rows[|rows| - 1].shortCode !in Codes(init);
    }
  }

  /** A listing has exactly as many entries as the table has rows. */
  lemma ListingLength(table: map<string, Row>, rows: seq<Record>)
    requires IsListing(table, rows)
    ensures |rows| == |table|
  {
    DistinctCodesCount(rows);
  }

  // Invariants kept by every handler.

  lemma EmptyValid()
    ensures Valid(Empty)
    ensures Empty.rows == map[]
  {
  }

  lemma CreatePreservesValid(s: Store, url: Option<string>, random: seq<Hex.byte>, now: nat, o: Origin)
    requires |random| == Hex.CodeBytes
    requires Valid(s)
    ensures Valid(Create(s, url, random, now, o).0)
  {
    var s' := Create(s, url, random, now, o).0;
    forall c | c in s'.rows
      ensures RowValid(s'.rows[c], s'.nextId)
    {
      if c in s.rows {
        assert RowValid(s.rows[c], s.nextId);
      }
    }
  }

  lemma ResolvePreservesValid(s: Store, code: string, now: nat, updateFails: bool)
    requires Valid(s)
    ensures Valid(Resolve(s, code, now, updateFails).0)
  {
  }

  lemma DeletePreservesValid(s: Store, code: string)
    requires Valid(s)
    ensures Valid(Delete(s, code).0)
  {
  }

  // Handlers in sequence.

  /**
   A freshly created code reports zero scans and no last scan, and its first
   scan redirects to the submitted URL and makes the count one.
   */
  lemma CreateThenScan(s: Store, url: Option<string>, random: seq<Hex.byte>, now: nat, o: Origin, later: nat)
    requires |random| == Hex.CodeBytes
    requires Create(s, url, random, now, o).1.Created?
    ensures var (s1, created) := Create(s, url, random, now, o);
      && Stats(s1, created.shortCode) == StatsOk(created.shortCode, url.value, 0, now, None)
      && Resolve(s1, created.shortCode, later, false).1 == RedirectTo(url.value)
      && Stats(Resolve(s1, created.shortCode, later, false).0, created.shortCode)
         == StatsOk(created.shortCode, url.value, 1, now, Some(later))
  {
  }

  /** After a delete, the code is unknown to the redirect and to the stats handler. */
  lemma DeleteThenNotFound(s: Store, code: string, now: nat, updateFails: bool)
    ensures Resolve(Delete(s, code).0, code, now, updateFails).1 == RedirectNotFound
    ensures Stats(Delete(s, code).0, code) == StatsNotFound
    ensures Delete(Delete(s, code).0, code).1 == DeleteNotFound
  {
  }

  /** One scan per clock reading in `times`, each UPDATE succeeding. */
  function ScanAll(s: Store, code: string, times: seq<nat>): Store
    decreases |times|
  {
    if times == [] then s else ScanAll(Resolve(s, code, times[0], false).0, code, times[1..])
  }

  /**
   Scans of one code, one after another, add exactly one to its count each,
   leave the last scan time at the last reading, and touch no other row.
   */
  lemma {:induction false} ScansAccumulate(s: Store, code: string, times: seq<nat>)
    requires code in s.rows
    ensures var s' := ScanAll(s, code, times);
      && s'.rows.Keys == s.rows.Keys
      && s'.rows[code].scanCount == s.rows[code].scanCount + |times|
      && s'.rows[code].originalUrl == s.rows[code].originalUrl
      && s'.rows[code].createdAt == s.rows[code].createdAt
      && (times != [] ==> s'.rows[code].lastScanned == Some(times[|times| - 1]))
      && (forall c :: c in s.rows && c != code ==> s'.rows[c] == s.rows[c])
    decreases |times|
  {
    if times != [] {
      var s1 := Resolve(s, code, times[0], false).0;
      ScansAccumulate(s1, code, times[1..]);
      if |times| > 1 {
        assert times[1..][|times[1..]| - 1] == times[|times| - 1];
      }
    }
  }

  /** Listing an empty table gives an empty list. */
  lemma EmptyListing(rows: seq<Record>)
    requires IsListing(map[], rows)
    ensures rows == []
  {
    ListingLength(map[], rows);
  }

  /**
   Creating code A and later code B on an empty table and then listing gives
   B before A.
   */
  lemma ListingOfTwo(urlA: string, randomA: seq<Hex.byte>, timeA: nat, urlB: string, randomB: seq<Hex.byte>, timeB: nat, o: Origin, rows: seq<Record>)
    requires |randomA| == Hex.CodeBytes && |randomB| == Hex.CodeBytes
    requires urlA != "" && urlB != "" && randomA != randomB && timeA < timeB
    requires var s1 := Create(Empty, Some(urlA), randomA, timeA, o).0;
      IsListing(Create(s1, Some(urlB), randomB, timeB, o).0.rows, rows)
    ensures var a := Hex.GenerateShortCode(randomA);
      var b := Hex.GenerateShortCode(randomB);
      rows == [Record(2, b, urlB, 0, timeB, None), Record(1, a, urlA, 0, timeA, None)]
  {
    var a := Hex.GenerateShortCode(randomA);
    var b := Hex.GenerateShortCode(randomB);
    Hex.GenerateShortCodeInjective(randomA, randomB);
    var s1 := Create(Empty, Some(urlA), randomA, timeA, o).0;
    var s2 := Create(s1, Some(urlB), randomB, timeB, o).0;
    assert s2.rows == map[a := Row(1, urlA, 0, timeA, None), b := Row(2, urlB, 0, timeB, None)];
    ListingLength(s2.rows, rows);
    assert |rows| == 2;
    assert rows[0].shortCode in s2.rows && rows[1].shortCode in s2.rows;
    assert rows[0].shortCode == b;
    assert rows[1].shortCode == a;
  }
}
