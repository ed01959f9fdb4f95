/**
 * The execution history store (`ExecutionHistoryDB` in database.py): a
 * table of rows with ids assigned by `AUTOINCREMENT`, the insert, the two
 * deletes, the paged query, the detail lookup and the statistics.
 *
 * The table is the sequence of its rows in insertion (rowid) order.  The
 * timestamp `CURRENT_TIMESTAMP` gives a new row and the moment
 * `datetime('now', '-7 days')` are parameters.
 */
module History {
  import opened Text
  import opened Wrappers
  import opened Lists
  import opened HistoryQuery
  import JsonPaths

  /** A record as the queries return it: a row with its file paths decoded. */
  datatype Record = Record(
    id: int,
    senderId: string,
    senderName: string,
    code: string,
    description: Option<string>,
    success: bool,
    output: Option<string>,
    errorMsg: Option<string>,
    filePaths: seq<string>,
    executionTime: Option<real>,
    createdAt: string)

  /** What `json.loads` raises on a column that is not a JSON list of strings. */
  const JsonError := "JSONDecodeError"

  /** The record dictionary built from one row (database.py:183-195, 224-236). */
  function ToRecord(row: Row): Option<Record>
  {
    var paths := JsonPaths.ReadPaths(row.filePaths);
    if paths.None? then None
    else Some(Record(row.id, row.senderId, row.senderName, row.code, row.description, row.success,
                     row.output, row.errorMsg, paths.value, row.executionTime, row.createdAt))
  }

  /** All rows of a result turned into records, or `None` when one of them fails to decode. */
  function DecodeAll(rows: seq<Row>): (r: Option<seq<Record>>)
    ensures r.Some? ==> |r.value| == |rows|
  {
    if rows == [] then Some([])
    else
      var front := DecodeAll(rows[..|rows| - 1]);
      var last := ToRecord(rows[|rows| - 1]);
      if front.None? || last.None? then None else Some(front.value + [last.value])
  }

  /** Decoding succeeds exactly when every row decodes, and then record `i` comes from row `i`. */
  lemma {:induction false} DecodeAllSpec(rows: seq<Row>)
    ensures DecodeAll(rows).Some? <==> forall i :: 0 <= i < |rows| ==> ToRecord(rows[i]).Some?
    ensures DecodeAll(rows).Some? ==> forall i :: 0 <= i < |rows| ==> DecodeAll(rows).value[i] == ToRecord(rows[i]).value
  {
    if rows != [] {
      var init := rows[..|rows| - 1];
      DecodeAllSpec(init);
      assert forall i :: 0 <= i < |init| ==> init[i] == rows[i];
    }
  }

  // ---------------------------------------------------------------------
  // Selecting rows
  // ---------------------------------------------------------------------

  /** The rows a DELETE removes or a COUNT counts. */
  datatype Selector = WithId(id: int) | Successful | Failed | Everything

  predicate Selects(s: Selector, row: Row) {
    match s
    case WithId(id) => row.id == id
    case Successful => row.success
    case Failed => !row.success
    case Everything => true
  }

  /** The table after `DELETE ... WHERE <s>`. */
  function Without(rows: seq<Row>, s: Selector): seq<Row>
  {
    if rows == [] then []
    else (if Selects(s, rows[0]) then [] else [rows[0]]) + Without(rows[1..], s)
  }

  /** `SELECT COUNT(*) ... WHERE <s>`. */
  function Count(rows: seq<Row>, s: Selector): (n: nat)
    ensures n <= |rows|
  {
    if rows == [] then 0 else (if Selects(s, rows[0]) then 1 else 0) + Count(rows[1..], s)
  }

  /**
   * A DELETE keeps exactly the rows it does not select, in their order, and
   * removes as many rows as the matching COUNT counts.
   */
  lemma {:induction false} WithoutSpec(rows: seq<Row>, s: Selector)
    ensures forall row :: row in Without(rows, s) <==> row in rows && !Selects(s, row)
    ensures |Without(rows, s)| == |rows| - Count(rows, s)
    ensures IsSubsequence(Without(rows, s), rows)
  {
    if rows != [] {
      WithoutSpec(rows[1..], s);
      var rest := Without(rows[1..], s);
      assert rows == [rows[0]] + rows[1..];
      if Selects(s, rows[0]) {
        assert Without(rows, s) == rest;
        SubsequenceSkip(rows[0], rest, rows[1..]);
      } else {
        assert Without(rows, s) == [rows[0]] + rest;
        SubsequenceCons(rows[0], rest, rows[1..]);
      }
    }
  }

  /** Some row is selected exactly when the count is positive. */
  lemma {:induction false} CountPositive(rows: seq<Row>, s: Selector)
    ensures Count(rows, s) > 0 <==> exists i :: 0 <= i < |rows| && Selects(s, rows[i])
  {
    if rows != [] {
      CountPositive(rows[1..], s);
      if exists i :: 0 <= i < |rows| && Selects(s, rows[i]) {
        var i :| 0 <= i < |rows| && Selects(s, rows[i]);
        if i > 0 { assert rows[1..][i - 1] == rows[i]; }
      }
      if exists i :: 0 <= i < |rows[1..]| && Selects(s, rows[1..][i]) {
        var i :| 0 <= i < |rows[1..]| && Selects(s, rows[1..][i]);
        assert rows[i + 1] == rows[1..][i];
      }
    }
  }

  /** Every row is either a success or a failure. */
  lemma {:induction false} SuccessesAndFailures(rows: seq<Row>)
    ensures Count(rows, Successful) + Count(rows, Failed) == |rows|
  {
    if rows != [] { SuccessesAndFailures(rows[1..]); }
  }

  /** Ids strictly increase along the table. */
  predicate Ordered(rows: seq<Row>) {
    forall i, j :: 0 <= i < j < |rows| ==> rows[i].id < rows[j].id
  }

  lemma {:induction false} WithoutOrdered(rows: seq<Row>, s: Selector)
    requires Ordered(rows)
    ensures Ordered(Without(rows, s))
  {
    if rows != [] {
      WithoutOrdered(rows[1..], s);
      var rest := Without(rows[1..], s);
      if !Selects(s, rows[0]) {
        WithoutIdsWithin(rows[1..], s, rows[0].id + 1, rows[|rows| - 1].id + 1);
        assert Without(rows, s) == [rows[0]] + rest;
      }
    }
  }

  /** A DELETE keeps the ids of the remaining rows within any bounds the table kept. */
  lemma {:induction false} WithoutIdsWithin(rows: seq<Row>, s: Selector, lo: int, hi: int)
    requires forall i :: 0 <= i < |rows| ==> lo <= rows[i].id < hi
    ensures forall i :: 0 <= i < |Without(rows, s)| ==> lo <= Without(rows, s)[i].id < hi
  {
    if rows != [] {
      WithoutIdsWithin(rows[1..], s, lo, hi);
    }
  }

  /** With distinct ids, deleting by id removes at most one row. */
  lemma {:induction false} UniqueIdCount(rows: seq<Row>, id: int)
    requires Ordered(rows)
    ensures Count(rows, WithId(id)) <= 1
  {
    if rows != [] {
      UniqueIdCount(rows[1..], id);
      if rows[0].id == id {
        CountPositive(rows[1..], WithId(id));
        assert forall i :: 0 <= i < |rows[1..]| ==> rows[1..][i] == rows[i + 1];
      }
    }
  }

  /** The rows a filter describes, in table order. */
  function Matching(rows: seq<Row>, f: Filter): seq<Row>
  {
    if rows == [] then []
    else (if Matches(rows[0], f) then [rows[0]] else []) + Matching(rows[1..], f)
  }

  /** The rows the WHERE clause selects with its bound parameters. */
  function SelectWhere(rows: seq<Row>, cs: seq<Cond>, ps: seq<Param>): seq<Row>
  {
    if rows == [] then []
    else (if EvalConds(cs, ps, rows[0]) then [rows[0]] else []) + SelectWhere(rows[1..], cs, ps)
  }

  /** The generated query selects exactly the rows the filter describes. */
  lemma {:induction false} QuerySelectsMatching(rows: seq<Row>, f: Filter)
    ensures SelectWhere(rows, Conditions(f), Params(f)) == Matching(rows, f)
  {
    if rows != [] {
      WhereMeansMatches(f, rows[0]);
      QuerySelectsMatching(rows[1..], f);
    }
  }

  lemma {:induction false} MatchingMembers(rows: seq<Row>, f: Filter)
    ensures forall row :: row in Matching(rows, f) <==> row in rows && Matches(row, f)
  {
    if rows != [] {
      MatchingMembers(rows[1..], f);
      assert rows == [rows[0]] + rows[1..];
    }
  }

  lemma {:induction false} MatchingAll(rows: seq<Row>)
    ensures Matching(rows, Filter(None, None, None, None, None)) == rows
  {
    if rows != [] {
      MatchingAll(rows[1..]);
      assert rows == [rows[0]] + rows[1..];
    }
  }

  // ---------------------------------------------------------------------
  // ORDER BY created_at DESC
  // ---------------------------------------------------------------------

  predicate NewestFirst(rows: seq<Row>) {
    forall i, j :: 0 <= i < j < |rows| ==> LexLe(rows[j].createdAt, rows[i].createdAt)
  }

  /** Put `x` before the first row that is not newer than it. */
  function Insert(x: Row, s: seq<Row>): seq<Row>
  {
    if s == [] || LexLe(s[0].createdAt, x.createdAt) then [x] + s else [s[0]] + Insert(x, s[1..])
  }

  /**
   * The rows newest first.  Rows with the same timestamp keep their table
   * order, one of the orders SQLite may return.
   */
  function SortNewestFirst(rows: seq<Row>): seq<Row>
  {
    if rows == [] then [] else Insert(rows[0], SortNewestFirst(rows[1..]))
  }

  lemma {:induction false} InsertSpec(x: Row, s: seq<Row>)
    requires NewestFirst(s)
    ensures NewestFirst(Insert(x, s))
    ensures multiset(Insert(x, s)) == multiset(s) + multiset{x}
  {
    if s == [] {
    } else if LexLe(s[0].createdAt, x.createdAt) {
      forall i | 0 <= i < |s| ensures LexLe(s[i].createdAt, x.createdAt) {
        if i > 0 { LexLeTransitive(s[i].createdAt, s[0].createdAt, x.createdAt); }
      }
      NewestFirstCons(x, s);
    } else {
      LexLeTotal(s[0].createdAt, x.createdAt);
      InsertSpec(x, s[1..]);
      InsertNotNewer(x, s[1..], s[0].createdAt);
      assert s == [s[0]] + s[1..];
      NewestFirstCons(s[0], Insert(x, s[1..]));
    }
  }

  /** Inserting a row no newer than `t` into rows no newer than `t` keeps them so. */
  lemma {:induction false} InsertNotNewer(x: Row, s: seq<Row>, t: string)
    requires LexLe(x.createdAt, t) && forall i :: 0 <= i < |s| ==> LexLe(s[i].createdAt, t)
    ensures forall i :: 0 <= i < |Insert(x, s)| ==> LexLe(Insert(x, s)[i].createdAt, t)
  {
    if s != [] && !LexLe(s[0].createdAt, x.createdAt) {
      InsertNotNewer(x, s[1..], t);
    }
  }

  lemma NewestFirstCons(x: Row, s: seq<Row>)
    requires NewestFirst(s) && forall i :: 0 <= i < |s| ==> LexLe(s[i].createdAt, x.createdAt)
    ensures NewestFirst([x] + s)
  {
    var r := [x] + s;
    forall i, j | 0 <= i < j < |r| ensures LexLe(r[j].createdAt, r[i].createdAt) {
      if i == 0 { assert r[j] == s[j - 1]; } else { assert r[i] == s[i - 1] && r[j] == s[j - 1]; }
    }
  }

  /** The ordering is newest first and a permutation of its input. */
  lemma {:induction false} SortSpec(rows: seq<Row>)
    ensures NewestFirst(SortNewestFirst(rows))
    ensures multiset(SortNewestFirst(rows)) == multiset(rows)
  {
    if rows != [] {
      SortSpec(rows[1..]);
      InsertSpec(rows[0], SortNewestFirst(rows[1..]));
      assert rows == [rows[0]] + rows[1..];
    }
  }

  // ---------------------------------------------------------------------
  // The paged query
  // ---------------------------------------------------------------------

  /** The dictionary `get_execution_history` returns. */
  datatype Page = Page(records: seq<Record>, totalCount: nat, page: int, pageSize: int, totalPages: int)

  /** The rows shown on a page: the matching rows newest first, under `LIMIT page_size OFFSET offset`. */
  function Shown(rows: seq<Row>, page: int, pageSize: int, f: Filter): seq<Row>
  {
    Window(SortNewestFirst(Matching(rows, f)), pageSize, Offset(page, pageSize))
  }

  /** What a history query returns in terms of the filter's meaning, or the error it raises. */
  function HistoryPage(rows: seq<Row>, page: int, pageSize: int, f: Filter): Result<Page>
  {
    var total := |Matching(rows, f)|;
    var records := DecodeAll(Shown(rows, page, pageSize, f));
    var pages := TotalPages(total, pageSize);
    if records.None? then Failure(JsonError)
    else if pages.Failure? then Failure(pages.error)
    else Success(Page(records.value, total, page, pageSize, pages.value))
  }

  /** The rows on a page are rows the filter describes, newest first. */
  lemma ShownSpec(rows: seq<Row>, page: int, pageSize: int, f: Filter)
    ensures var shown := Shown(rows, page, pageSize, f);
      (pageSize >= 0 ==> |shown| <= pageSize) &&
      (forall i :: 0 <= i < |shown| ==> shown[i] in rows && Matches(shown[i], f)) &&
      NewestFirst(shown)
  {
    var sorted := SortNewestFirst(Matching(rows, f));
    var shown := Shown(rows, page, pageSize, f);
    SortSpec(Matching(rows, f));
    MatchingMembers(rows, f);
    var start := WindowStart(|sorted|, Offset(page, pageSize));
    assert forall i :: 0 <= i < |shown| ==> shown[i] == sorted[start + i];
    forall i | 0 <= i < |shown| ensures shown[i] in rows && Matches(shown[i], f) {
      assert sorted[start + i] in multiset(Matching(rows, f));
    }
    forall i, j | 0 <= i < j < |shown| ensures LexLe(shown[j].createdAt, shown[i].createdAt) {
      assert LexLe(sorted[start + j].createdAt, sorted[start + i].createdAt);
    }
  }

  /** A page holds at most `page_size` records, newest first, each from a row the filter describes. */
  lemma PageContents(rows: seq<Row>, page: int, pageSize: int, f: Filter)
    requires HistoryPage(rows, page, pageSize, f).Success?
    ensures var p := HistoryPage(rows, page, pageSize, f).value;
      (pageSize >= 0 ==> |p.records| <= pageSize) &&
      p.totalCount == |Matching(rows, f)| &&
      (forall i :: 0 <= i < |p.records| ==>
        exists row :: row in rows && Matches(row, f) && ToRecord(row) == Some(p.records[i])) &&
      (forall i, j :: 0 <= i < j < |p.records| ==> LexLe(p.records[j].createdAt, p.records[i].createdAt))
  {
    var shown := Shown(rows, page, pageSize, f);
    ShownSpec(rows, page, pageSize, f);
    DecodeAllSpec(shown);
    var p := HistoryPage(rows, page, pageSize, f).value;
    assert p.records == DecodeAll(shown).value;
    forall i | 0 <= i < |p.records|
      ensures exists row :: row in rows && Matches(row, f) && ToRecord(row) == Some(p.records[i])
    {
      assert ToRecord(shown[i]) == Some(p.records[i]);
    }
    forall i, j | 0 <= i < j < |p.records|
      ensures LexLe(p.records[j].createdAt, p.records[i].createdAt)
    {
      assert p.records[i].createdAt == shown[i].createdAt;
      assert p.records[j].createdAt == shown[j].createdAt;
    }
  }

  /** With a page size of 0 the query always raises the division error. */
  lemma ZeroPageSizeRaises(rows: seq<Row>, page: int, f: Filter)
    ensures HistoryPage(rows, page, 0, f) == Failure("integer division or modulo by zero")
  {
  }

  /** Without filters the total counts the whole table. */
  lemma UnfilteredTotal(rows: seq<Row>, page: int, pageSize: int)
    requires HistoryPage(rows, page, pageSize, Filter(None, None, None, None, None)).Success?
    ensures HistoryPage(rows, page, pageSize, Filter(None, None, None, None, None)).value.totalCount == |rows|
  {
    MatchingAll(rows);
  }

  // ---------------------------------------------------------------------
  // Detail
  // ---------------------------------------------------------------------

  function Find(rows: seq<Row>, id: int): (r: Option<Row>)
    ensures r.Some? ==> r.value in rows && r.value.id == id
    ensures r.None? <==> forall i :: 0 <= i < |rows| ==> rows[i].id != id
  {
    if rows == [] then None else if rows[0].id == id then Some(rows[0]) else Find(rows[1..], id)
  }

  /** `get_execution_detail`: `None` when no row has the id, else its record (database.py:209-236). */
  function ExecutionDetail(rows: seq<Row>, id: int): Result<Option<Record>>
  {
    var row := Find(rows, id);
    if row.None? then Success(None)
    else
      var rec := ToRecord(row.value);
      if rec.None? then Failure(JsonError) else Success(Some(rec.value))
  }

  /** An id no row has gives no record; a row's own id gives that row's record. */
  lemma DetailFinds(rows: seq<Row>, id: int)
    requires Ordered(rows)
    ensures (forall i :: 0 <= i < |rows| ==> rows[i].id != id) ==> ExecutionDetail(rows, id) == Success(None)
    ensures forall i :: 0 <= i < |rows| && rows[i].id == id && ToRecord(rows[i]).Some? ==>
      ExecutionDetail(rows, id) == Success(ToRecord(rows[i]))
  {
    forall i | 0 <= i < |rows| && rows[i].id == id
      ensures Find(rows, id) == Some(rows[i])
    {
      var r := Find(rows, id).value;
      var k :| 0 <= k < |rows| && rows[k] == r;
      assert k == i;
    }
  }

  /** The row stored for a record reads back, by its id, as the record's fields with its file paths. */
  lemma StoredRecordReadsBack(rows: seq<Row>, row: Row, paths: Option<seq<string>>)
    requires Ordered(rows + [row])
    requires row.filePaths == Some(JsonPaths.StorePaths(paths))
    ensures ExecutionDetail(rows + [row], row.id) == Success(Some(Record(
      row.id, row.senderId, row.senderName, row.code, row.description, row.success, row.output,
      row.errorMsg, if paths.Some? then paths.value else [], row.executionTime, row.createdAt)))
  {
    JsonPaths.StoredPathsRoundTrip(paths);
    DetailFinds(rows + [row], row.id);
    assert (rows + [row])[|rows|] == row;
  }

  // ---------------------------------------------------------------------
  // Statistics
  // ---------------------------------------------------------------------

  /** The dictionary `get_statistics` returns; `successRate` is a percentage. */
  datatype Stats = Stats(
    totalExecutions: nat,
    successfulExecutions: nat,
    failedExecutions: int,
    successRate: real,
    uniqueUsers: nat,
    recentExecutions: nat)

  /** `SELECT DISTINCT sender_id`. */
  function Senders(rows: seq<Row>): set<string>
  {
    if rows == [] then {} else {rows[0].senderId} + Senders(rows[1..])
  }

  /** The distinct senders are exactly the sender ids that occur in the table. */
  lemma {:induction false} SendersMembers(rows: seq<Row>)
    ensures forall u :: u in Senders(rows) <==> exists i :: 0 <= i < |rows| && rows[i].senderId == u
  {
    if rows != [] {
      SendersMembers(rows[1..]);
      assert forall i :: 0 <= i < |rows[1..]| ==> rows[1..][i] == rows[i + 1];
    }
  }

  /** A new row adds its sender to the distinct senders, and nothing else. */
  lemma {:induction false} SendersAppend(rows: seq<Row>, row: Row)
    ensures Senders(rows + [row]) == Senders(rows) + {row.senderId}
  {
    if rows == [] {
      assert rows + [row] == [row];
    } else {
      assert (rows + [row])[0] == rows[0];
      assert (rows + [row])[1..] == rows[1..] + [row];
      SendersAppend(rows[1..], row);
    }
  }

  lemma {:induction false} SendersBound(rows: seq<Row>)
    ensures |Senders(rows)| <= |rows|
    ensures rows != [] ==> |Senders(rows)| >= 1
  {
    if rows != [] {
      SendersBound(rows[1..]);
      assert rows[0].senderId in Senders(rows);
    }
  }

  /** `created_at >= <since>`, counted. */
  function RecentCount(rows: seq<Row>, since: string): (n: nat)
    ensures n <= |rows|
  {
    if rows == [] then 0
    else (if LexLe(since, rows[0].createdAt) then 1 else 0) + RecentCount(rows[1..], since)
  }

  /**
   * `get_statistics`, with `since` the moment seven days before now.  The
   * success rate is the exact percentage (database.py:241-273).
   */
  function Statistics(rows: seq<Row>, since: string): Stats
  {
    var total := |rows|;
    var successful := Count(rows, Successful);
    Stats(total, successful, total - successful,
      if total > 0 then (successful as real) / (total as real) * 100.0 else 0.0,
      |Senders(rows)|, RecentCount(rows, since))
  }

  /** The figures agree with each other and with the table. */
  lemma StatisticsConsistent(rows: seq<Row>, since: string)
    ensures var s := Statistics(rows, since);
      s.totalExecutions == |rows| &&
      s.successfulExecutions == Count(rows, Successful) &&
      s.failedExecutions == Count(rows, Failed) &&
      s.successfulExecutions + s.failedExecutions == s.totalExecutions &&
      0.0 <= s.successRate <= 100.0 &&
      (s.successRate == 100.0 <==> s.totalExecutions > 0 && s.failedExecutions == 0) &&
      s.uniqueUsers <= s.totalExecutions &&
      (s.uniqueUsers == 0 <==> s.totalExecutions == 0) &&
      s.recentExecutions <= s.totalExecutions
  {
    SuccessesAndFailures(rows);
    SendersBound(rows);
    var s := Statistics(rows, since);
    var total := |rows|;
    var successful := Count(rows, Successful);
    assert s.totalExecutions == total && s.successfulExecutions == successful;
    if total > 0 {
      assert s.successRate == (successful as real) / (total as real) * 100.0;
      RateBounds(successful, total);
    } else {
      assert s.successRate == 0.0;
    }
  }

  /**
   * The success rate: 0 for an empty table (the `if total > 0 else 0` of
   * database.py:271), otherwise the share of successes in percent.
   */
  lemma StatisticsRate(rows: seq<Row>, since: string)
    ensures var s := Statistics(rows, since);
      (s.totalExecutions == 0 ==> s.successRate == 0.0) &&
      (s.totalExecutions > 0 ==>
        s.successRate * (s.totalExecutions as real) == (s.successfulExecutions as real) * 100.0)
  {
    var s := Statistics(rows, since);
    if |rows| > 0 {
      RateTimesTotal(s.successRate, s.successfulExecutions, s.totalExecutions);
    }
  }

  /** A percentage times the total gives back the successes, times 100. */
  lemma RateTimesTotal(rate: real, successful: nat, total: nat)
    requires 0 < total && rate == (successful as real) / (total as real) * 100.0
    ensures rate * (total as real) == (successful as real) * 100.0
  {
    var q := (successful as real) / (total as real);
    assert q * (total as real) == successful as real;
    calc {
      rate * (total as real);
      == q * 100.0 * (total as real);
      == (q * (total as real)) * 100.0;
    }
  }

  /** A percentage of successes lies between 0 and 100 and is 100 only when all succeeded. */
  lemma RateBounds(successful: nat, total: nat)
    requires 0 < total && successful <= total
    ensures var rate := (successful as real) / (total as real) * 100.0;
      0.0 <= rate <= 100.0 && (rate == 100.0 <==> successful == total)
  {
    var q := (successful as real) / (total as real);
    assert q * (total as real) == successful as real;
    if q == 1.0 { assert successful as real == total as real; }
    if successful == total { assert q == 1.0; }
  }

  /** After deleting the failures every remaining execution is a success. */
  lemma DeletingFailuresLeavesFullRate(rows: seq<Row>, since: string)
    ensures var s := Statistics(Without(rows, Failed), since);
      s.failedExecutions == 0 && (s.totalExecutions > 0 ==> s.successRate == 100.0)
  {
    var rest := Without(rows, Failed);
    WithoutSpec(rows, Failed);
    CountPositive(rest, Failed);
    assert Count(rest, Failed) == 0 by {
      forall i | 0 <= i < |rest| ensures !Selects(Failed, rest[i]) {
        assert rest[i] in rest;
      }
    }
    StatisticsConsistent(rest, since);
  }

  /** Adding one record adds one execution, one success if it succeeded, and its sender if new. */
  lemma {:induction false} StatisticsAfterAdd(rows: seq<Row>, row: Row, since: string)
    ensures var before := Statistics(rows, since);
      var after := Statistics(rows + [row], since);
      after.totalExecutions == before.totalExecutions + 1 &&
      after.successfulExecutions == before.successfulExecutions + (if row.success then 1 else 0) &&
      after.uniqueUsers == before.uniqueUsers + (if row.senderId in Senders(rows) then 0 else 1)
  {
    CountAppend(rows, row);
    SendersAppend(rows, row);
  }

  lemma {:induction false} CountAppend(rows: seq<Row>, row: Row)
    ensures Count(rows + [row], Successful) == Count(rows, Successful) + (if row.success then 1 else 0)
  {
    if rows == [] {
      assert rows + [row] == [row];
    } else {
      assert (rows + [row])[1..] == rows[1..] + [row];
      CountAppend(rows[1..], row);
    }
  }

  // ---------------------------------------------------------------------
  // The store
  // ---------------------------------------------------------------------

  /** What `delete_execution_records` deletes for each accepted `delete_type`. */
  function DeleteKind(kind: string): (r: Option<Selector>)
    ensures r.Some? <==> kind == "success" || kind == "fail" || kind == "all"
    ensures r == Some(Successful) <==> kind == "success"
    ensures r == Some(Failed) <==> kind == "fail"
    ensures r == Some(Everything) <==> kind == "all"
  {
    if kind == "success" then Some(Successful)
    else if kind == "fail" then Some(Failed)
    else if kind == "all" then Some(Everything)
    else None
  }

  class HistoryDB {
    /** The rows of `execution_history`, in rowid order. */
    var rows: seq<Row>
    /** The id `AUTOINCREMENT` gives the next row; ids are never reused. */
    var nextId: int

    ghost predicate Valid()
      reads this
    {
      nextId >= 1 && Ordered(rows) && forall i :: 0 <= i < |rows| ==> 1 <= rows[i].id < nextId
    }

    /** A freshly created, empty table. */
    constructor ()
      ensures Valid() && rows == [] && nextId == 1
    {
      rows := [];
      nextId := 1;
    }

    /** `add_execution_record` (database.py:53-80): the new row gets the next id. */
    method Add(senderId: string, senderName: string, code: string, description: Option<string>,
               success: bool, output: Option<string>, errorMsg: Option<string>,
               filePaths: Option<seq<string>>, executionTime: Option<real>, createdAt: string)
      returns (id: int)
      requires Valid()
      modifies this
      ensures Valid()
      ensures id == old(nextId) && nextId == old(nextId) + 1
      ensures rows == old(rows) + [Row(id, senderId, senderName, code, description, success, output,
                                       errorMsg, Some(JsonPaths.StorePaths(filePaths)), executionTime, createdAt)]
    {
      id := nextId;
      var row := Row(id, senderId, senderName, code, description, success, output,
                     errorMsg, Some(JsonPaths.StorePaths(filePaths)), executionTime, createdAt);
      rows := rows + [row];
      nextId := nextId + 1;
    }

    /** `delete_execution_record` (database.py:82-88): whether a row had the id. */
    method Delete(id: int) returns (deleted: bool)
      requires Valid()
      modifies this
      ensures Valid()
      ensures rows == Without(old(rows), WithId(id)) && nextId == old(nextId)
      ensures deleted <==> exists i :: 0 <= i < |old(rows)| && old(rows)[i].id == id
      ensures deleted ==> |rows| == |old(rows)| - 1
      ensures !deleted ==> rows == old(rows)
    {
      var removed := Count(rows, WithId(id));
      DeleteByIdFacts(rows, id, nextId);
      rows := Without(rows, WithId(id));
      deleted := removed > 0;
    }

    /**
     * `delete_execution_records` (database.py:93-110): `all`, `success` or
     * `fail`; any other type raises and deletes nothing.
     */
    method DeleteByType(kind: string) returns (r: Result<nat>)
      requires Valid()
      modifies this
      ensures Valid() && nextId == old(nextId)
      ensures r.Success? <==> DeleteKind(kind).Some?
      ensures r.Failure? ==> r.error == "无效的删除类型: " + kind && rows == old(rows)
      ensures r.Success? ==> rows == Without(old(rows), DeleteKind(kind).value)
      ensures r.Success? ==> r.value == |old(rows)| - |rows|
      ensures r.Success? ==> forall i :: 0 <= i < |rows| ==> !Selects(DeleteKind(kind).value, rows[i])
    {
      var selector := DeleteKind(kind);
      if selector.None? {
        return Failure("无效的删除类型: " + kind);
      }
      var removed := Count(rows, selector.value);
      WithoutSpec(rows, selector.value);
      WithoutOrdered(rows, selector.value);
      WithoutIdsWithin(rows, selector.value, 1, nextId);
      var kept := Without(rows, selector.value);
      assert forall i :: 0 <= i < |kept| ==> !Selects(selector.value, kept[i]) by {
        forall i | 0 <= i < |kept| ensures !Selects(selector.value, kept[i]) { assert kept[i] in kept; }
      }
      rows := kept;
      r := Success(removed);
    }

    /**
     * `get_execution_history` (database.py:115-204): the WHERE clause and
     * its parameters select the rows, which are ordered, windowed and
     * decoded one by one.
     */
    method GetExecutionHistory(page: int, pageSize: int, f: Filter) returns (r: Result<Page>)
      ensures r == HistoryPage(rows, page, pageSize, f)
    {
      var clause, params := BuildWhere(f);
      var selected := SelectWhere(rows, Conditions(f), params);
      QuerySelectsMatching(rows, f);
      var totalCount := |selected|;
      var shown := Window(SortNewestFirst(selected), pageSize, Offset(page, pageSize));
      assert shown == Shown(rows, page, pageSize, f);
      var records := DecodeRows(shown);
      if records.None? {
        return Failure(JsonError);
      }
      var pages := TotalPages(totalCount, pageSize);
      if pages.Failure? {
        return Failure(pages.error);
      }
      r := Success(Page(records.value, totalCount, page, pageSize, pages.value));
    }
  }

  /**
   * The loop of `get_execution_history` that turns each fetched row into a
   * dictionary, decoding its `file_paths` (database.py:181-196); a row whose
   * paths do not decode ends the query with the decoding error.
   */
  method DecodeRows(shown: seq<Row>) returns (records: Option<seq<Record>>)
    ensures records == DecodeAll(shown)
  {
    var done: seq<Record> := [];
    var i := 0;
    while i < |shown|
      invariant 0 <= i <= |shown|
      invariant DecodeAll(shown[..i]) == Some(done)
    {
      var record := ToRecord(shown[i]);
      assert shown[..i + 1][..i] == shown[..i];
      if record.None? {
        DecodeFailure(shown, i + 1);
        return None;
      }
      done := done + [record.value];
      i := i + 1;
    }
    assert shown[..i] == shown;
    return Some(done);
  }

  /** Deleting by id from a valid table: what `Delete` promises, in terms of the rows. */
  lemma DeleteByIdFacts(rows: seq<Row>, id: int, nextId: int)
    requires Ordered(rows) && forall i :: 0 <= i < |rows| ==> 1 <= rows[i].id < nextId
    ensures var kept := Without(rows, WithId(id));
      Ordered(kept) && (forall i :: 0 <= i < |kept| ==> 1 <= kept[i].id < nextId) &&
      (Count(rows, WithId(id)) > 0 <==> exists i :: 0 <= i < |rows| && rows[i].id == id) &&
      (Count(rows, WithId(id)) > 0 ==> |kept| == |rows| - 1) &&
      (Count(rows, WithId(id)) == 0 ==> kept == rows)
  {
    CountPositive(rows, WithId(id));
    UniqueIdCount(rows, id);
    WithoutSpec(rows, WithId(id));
    WithoutOrdered(rows, WithId(id));
    WithoutIdsWithin(rows, WithId(id), 1, nextId);
    if Count(rows, WithId(id)) == 0 { WithoutNothing(rows, WithId(id)); }
  }

  /** A DELETE that selects nothing leaves the table as it is. */
  lemma {:induction false} WithoutNothing(rows: seq<Row>, s: Selector)
    requires Count(rows, s) == 0
    ensures Without(rows, s) == rows
  {
    if rows != [] {
      WithoutNothing(rows[1..], s);
      assert rows == [rows[0]] + rows[1..];
    }
  }

  /** A row that fails to decode makes every longer prefix fail too. */
  lemma {:induction false} DecodeFailure(rows: seq<Row>, n: int)
    requires 0 < n <= |rows| && DecodeAll(rows[..n]).None?
    ensures DecodeAll(rows).None?
    decreases |rows| - n
  {
    if n < |rows| {
      assert rows[..n + 1][..n] == rows[..n];
      DecodeFailure(rows, n + 1);
    } else {
      assert rows[..n] == rows;
    }
  }
}
