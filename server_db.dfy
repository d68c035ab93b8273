/** The WeChat account's article database: the full-text index with the
    discarded articles masked out, the article rows and their in-use flag,
    the check of a requested date against the publishing period, and the
    searches by date and by keyword. */
module ServerDb {
  import opened Wrappers
  import opened Text
  import opened Collections
  import opened Sorting
  import opened Search
  import opened Dates
  import opened PyInt
  import UtilClass

  /** In this database a newsID is a string. */
  type NewsId = string

  // ---------------------------------------------------------------------
  // WhooshIdx

  /** One document of the index: its document number and the newsID stored
      with it, as `document_numbers()` and `documents()` list them side by
      side. */
  datatype Doc = Doc(docnum: nat, newsID: NewsId)

  /** No two documents store the same newsID. */
  predicate UniqueIds(docs: seq<Doc>) {
    forall i, j :: 0 <= i < j < |docs| ==> docs[i].newsID != docs[j].newsID
  }

  /** `dict(zip(newsIDs, docnums))`: every stored newsID, mapped to the
      number of the last document storing it. */
  function Rels(docs: seq<Doc>): (r: map<NewsId, nat>)
    ensures forall id :: id in r <==> exists d :: d in docs && d.newsID == id
  {
    if docs == [] then map[]
    else
      var init, last := docs[..|docs| - 1], docs[|docs| - 1];
      assert docs == init + [last];
      Rels(init)[last.newsID := last.docnum]
  }

  /** With unique newsIDs every document is found under its own newsID. */
  lemma {:induction false} RelsOfDoc(docs: seq<Doc>, d: Doc)
    requires UniqueIds(docs) && d in docs
    ensures d.newsID in Rels(docs) && Rels(docs)[d.newsID] == d.docnum
  {
    var init, last := docs[..|docs| - 1], docs[|docs| - 1];
    assert docs == init + [last];
    if d != last {
      assert d in init;
      var k :| 0 <= k < |init| && init[k] == d;
      assert docs[k] == d;
      RelsOfDoc(init, d);
    }
  }

  /** `get_docnums(newsIDs)`: the document numbers of the given newsIDs;
      a newsID the index does not hold raises `KeyError`. */
  function DocNums(rels: map<NewsId, nat>, ids: seq<NewsId>): (r: Result<set<nat>>)
    ensures r.Ok? <==> forall i :: 0 <= i < |ids| ==> ids[i] in rels
    ensures r.Err? ==> r.error == KeyError
    ensures r.Ok? ==> forall i :: 0 <= i < |ids| ==> rels[ids[i]] in r.value
    ensures r.Ok? ==> forall n :: n in r.value ==> exists i :: 0 <= i < |ids| && ids[i] in rels && rels[ids[i]] == n
  {
    if forall i :: 0 <= i < |ids| ==> ids[i] in rels then
      Ok(set i | 0 <= i < |ids| && ids[i] in rels :: rels[ids[i]])
    else Err(KeyError)
  }

  /** The opened index: its documents, `rels` and the mask. */
  datatype Index = Index(docs: seq<Doc>, rels: map<NewsId, nat>, discardDocnums: set<nat>)

  /** `WhooshIdx()`: `rels` from the documents, then the document numbers of
      the newsIDs the database marks as not in use. */
  function OpenIndex(docs: seq<Doc>, discardIds: seq<NewsId>): Result<Index> {
    var rels := Rels(docs);
    var mask :- DocNums(rels, discardIds);
    Ok(Index(docs, rels, mask))
  }

  /** The index opens unless a discarded newsID is not indexed, and then every
      document storing a discarded newsID is masked. */
  lemma OpenIndexMask(docs: seq<Doc>, discardIds: seq<NewsId>, d: Doc)
    requires UniqueIds(docs)
    ensures OpenIndex(docs, discardIds).Ok? <==> forall i :: 0 <= i < |discardIds| ==> exists e :: e in docs && e.newsID == discardIds[i]
    ensures OpenIndex(docs, discardIds).Err? ==> OpenIndex(docs, discardIds).error == KeyError
    ensures OpenIndex(docs, discardIds).Ok? && d in docs && d.newsID in discardIds ==>
      d.docnum in OpenIndex(docs, discardIds).value.discardDocnums
  {
    if d in docs {
      RelsOfDoc(docs, d);
    }
  }

  function Unmasked(mask: set<nat>): Doc -> bool {
    (d: Doc) => d.docnum !in mask
  }

  /** Each hit's newsID with its `rank`, its position in the result. */
  function Ranked(top: seq<Doc>): (r: seq<(NewsId, nat)>)
    ensures |r| == |top| && forall i :: 0 <= i < |top| ==> r[i] == (top[i].newsID, i)
  {
    seq(|top|, i requires 0 <= i < |top| => (top[i].newsID, i))
  }

  /** `search_strings(querystring, fields, limit)`, with the parsing and
      scoring of the query as the function `scorer`, which lists the matching
      documents in order of relevance. The masked documents are left out
      before the `limit` best are taken, and a `limit` below 1 raises
      `ValueError`. */
  function SearchStrings(idx: Index, scorer: (string, seq<string>) -> seq<Doc>, querystring: string, fields: seq<string>, limit: int)
    : Result<seq<(NewsId, nat)>>
  {
    if limit < 1 then Err(ValueError)
    else Ok(Ranked(TakePy(Filter(scorer(querystring, fields), Unmasked(idx.discardDocnums)), limit)))
  }

  /** No article whose newsID is discarded is ever found: at most `limit`
      hits, ranked 0, 1, 2, ..., each the newsID of an unmasked matching
      document. */
  lemma SearchStringsMasked(docs: seq<Doc>, discardIds: seq<NewsId>, scorer: (string, seq<string>) -> seq<Doc>,
                            querystring: string, fields: seq<string>, limit: int)
    requires UniqueIds(docs) && OpenIndex(docs, discardIds).Ok?
    requires forall d :: d in scorer(querystring, fields) ==> d in docs
    ensures var r := SearchStrings(OpenIndex(docs, discardIds).value, scorer, querystring, fields, limit);
      && (r.Ok? <==> limit >= 1)
      && (r.Err? ==> r.error == ValueError)
      && (r.Ok? ==> |r.value| <= limit)
      && (r.Ok? ==> forall i :: 0 <= i < |r.value| ==> r.value[i].1 == i && r.value[i].0 !in discardIds)
      && (r.Ok? ==> forall i :: 0 <= i < |r.value| ==> exists d :: d in scorer(querystring, fields) && d.newsID == r.value[i].0)
  {
    var idx := OpenIndex(docs, discardIds).value;
    if limit >= 1 {
      var kept := Filter(scorer(querystring, fields), Unmasked(idx.discardDocnums));
      var top := TakePy(kept, limit);
      forall i | 0 <= i < |top| ensures top[i].newsID !in discardIds && top[i] in scorer(querystring, fields) {
        assert top[i] in kept;
        OpenIndexMask(docs, discardIds, top[i]);
      }
    }
  }

  // ---------------------------------------------------------------------
  // NewsDB.get_news_by_ID

  /** A row of the join of `newsInfo`, `newsDetail` and `newsContent`. */
  datatype NewsRow = NewsRow(title: string, digest: string, time: string, coverUrl: string, newsUrl: string, inUse: bool, newsID: NewsId)

  function Wanted(ids: seq<NewsId>): NewsRow -> bool {
    (row: NewsRow) => row.newsID in ids
  }

  function InUse(row: NewsRow): bool {
    row.inUse
  }

  /** `get_news_by_ID(newsID, orderBy, filter_in_use)`: the joined rows whose
      newsID is asked for, listed in the order `orderBy` gives the table,
      and with `filter_in_use` only those in use. */
  function GetNewsById(table: seq<NewsRow>, arg: UtilClass.IdArg, filterInUse: bool): Result<seq<NewsRow>> {
    var ids :- UtilClass.IdsOf(arg);
    var rows := Filter(table, Wanted(ids));
    Ok(if filterInUse then Filter(rows, InUse) else rows)
  }

  /** A row is returned exactly when it is asked for and, when filtering, in
      use; a single newsID is the list of that one newsID. */
  lemma GetNewsByIdRows(table: seq<NewsRow>, arg: UtilClass.IdArg, filterInUse: bool, row: NewsRow)
    ensures GetNewsById(table, arg, filterInUse).Ok? <==> !arg.OtherArg?
    ensures GetNewsById(table, arg, filterInUse).Ok? ==>
      (row in GetNewsById(table, arg, filterInUse).value <==> row in table && row.newsID in UtilClass.IdsOf(arg).value && (filterInUse ==> row.inUse))
    ensures arg.OneId? ==> GetNewsById(table, arg, filterInUse) == GetNewsById(table, UtilClass.ManyIds([arg.id]), filterInUse)
  {
  }

  /** Filtering on `in_use` drops exactly the rows not in use and keeps the
      order of the rest. */
  lemma GetNewsByIdInUse(table: seq<NewsRow>, arg: UtilClass.IdArg)
    requires !arg.OtherArg?
    ensures GetNewsById(table, arg, true).value == Filter(GetNewsById(table, arg, false).value, InUse)
    ensures |GetNewsById(table, arg, true).value| + |Filter(GetNewsById(table, arg, false).value, (row: NewsRow) => !row.inUse)|
         == |GetNewsById(table, arg, false).value|
  {
    FilterSplit(GetNewsById(table, arg, false).value);
  }

  lemma {:induction false} FilterSplit(rows: seq<NewsRow>)
    ensures |Filter(rows, InUse)| + |Filter(rows, (row: NewsRow) => !row.inUse)| == |rows|
  {
    if rows != [] {
      FilterSplit(rows[..|rows| - 1]);
    }
  }

  // ---------------------------------------------------------------------
  // NewsDB.is_valid_date

  const IllegalDate: string := "日期非法!"

  /** The message for a date outside the period the articles span. */
  function OutOfRange(start: Date, end: Date): string
    requires IsCalendarDate(start) && IsCalendarDate(end)
  {
    "超出日期范围，请尝试搜索 " + SqlDate(start) + " 至 " + SqlDate(end) + " 的文章"
  }

  /** `min(date(masssend_time))`: the first publishing date. */
  function Earliest(published: seq<Date>): (r: Date)
    requires |published| > 0
    ensures r in published && forall i :: 0 <= i < |published| ==> DateLe(r, published[i])
  {
    if |published| == 1 then published[0]
    else
      var m := Earliest(published[..|published| - 1]);
      var last := published[|published| - 1];
      assert forall i :: 0 <= i < |published| - 1 ==> published[i] == published[..|published| - 1][i];
      if DateLe(m, last) then m else last
  }

  /** `max(date(masssend_time))`: the last publishing date. */
  function Latest(published: seq<Date>): (r: Date)
    requires |published| > 0
    ensures r in published && forall i :: 0 <= i < |published| ==> DateLe(published[i], r)
  {
    if |published| == 1 then published[0]
    else
      var m := Latest(published[..|published| - 1]);
      var last := published[|published| - 1];
      assert forall i :: 0 <= i < |published| - 1 ==> published[i] == published[..|published| - 1][i];
      if DateLe(last, m) then m else last
  }

  /** `is_valid_date(year, month, day)` with the publishing dates of the
      table: the year is read as `2000 + int(year)`, the day defaults to 1.
      An empty table has no first date and `strptime(None)` raises
      `TypeError`; a field that is no number raises `ValueError`. */
  function IsValidDate(published: seq<Date>, year: string, month: string, day: Option<string>): Result<(bool, string)>
    requires forall i :: 0 <= i < |published| ==> IsCalendarDate(published[i])
  {
    if published == [] then Err(TypeError)
    else
      var y :- ParseInt(year);
      var m :- ParseInt(month);
      var d :- if day.None? then Ok(1) else ParseInt(day.value);
      Ok(Verdict(published, Date(2000 + y, m, d)))
  }

  /** The answer for a parsed date: `datetime(year, month, day)` raises for a
      date the calendar does not have, then the date is compared with the
      first and the last publishing date. */
  function Verdict(published: seq<Date>, date: Date): (bool, string)
    requires |published| > 0 && forall i :: 0 <= i < |published| ==> IsCalendarDate(published[i])
  {
    var start, end := Earliest(published), Latest(published);
    if !IsCalendarDate(date) then (false, IllegalDate)
    else if DateLe(start, date) && DateLe(date, end) then (true, "")
    else (false, OutOfRange(start, end))
  }

  /** Some article was published on or before `date`, and some on or after. */
  predicate WithinPublished(published: seq<Date>, date: Date) {
    && (exists i :: 0 <= i < |published| && DateLe(published[i], date))
    && (exists j :: 0 <= j < |published| && DateLe(date, published[j]))
  }

  /** The date from the request fields, once they parse. */
  function Requested(year: string, month: string, day: Option<string>): Date
    requires ParseInt(year).Ok? && ParseInt(month).Ok? && (day.Some? ==> ParseInt(day.value).Ok?)
  {
    Date(2000 + ParseInt(year).value, ParseInt(month).value, if day.None? then 1 else ParseInt(day.value).value)
  }

  /** `is_valid_date` raises only for an empty table or a field that does not
      parse, and otherwise judges the requested date. */
  lemma IsValidDateShape(published: seq<Date>, year: string, month: string, day: Option<string>)
    requires forall i :: 0 <= i < |published| ==> IsCalendarDate(published[i])
    ensures IsValidDate(published, year, month, day).Err? <==>
      (|| published == []
       || ParseInt(year).Err? || ParseInt(month).Err?
       || (day.Some? && ParseInt(day.value).Err?))
    ensures IsValidDate(published, year, month, day).Err? && published == [] ==> IsValidDate(published, year, month, day).error == TypeError
    ensures IsValidDate(published, year, month, day).Err? && published != [] ==> IsValidDate(published, year, month, day).error == ValueError
    ensures IsValidDate(published, year, month, day).Ok? ==>
      IsValidDate(published, year, month, day).value == Verdict(published, Requested(year, month, day))
  {
  }

  /** A date the calendar does not have gets the illegal-date message; a
      real date is accepted with an empty message exactly when it lies
      within the publishing period, and is otherwise refused with the
      period's message. */
  lemma VerdictShape(published: seq<Date>, date: Date)
    requires |published| > 0 && forall i :: 0 <= i < |published| ==> IsCalendarDate(published[i])
    ensures Verdict(published, date) == (false, IllegalDate) <==> !IsCalendarDate(date)
    ensures Verdict(published, date) == (true, "") <==> IsCalendarDate(date) && WithinPublished(published, date)
    ensures IsCalendarDate(date) && !WithinPublished(published, date) ==>
      Verdict(published, date) == (false, OutOfRange(Earliest(published), Latest(published)))
  {
    var start, end := Earliest(published), Latest(published);
    if IsCalendarDate(date) {
      OutOfRangeNotIllegal(start, end);
      if WithinPublished(published, date) {
        var i :| 0 <= i < |published| && DateLe(published[i], date);
        var j :| 0 <= j < |published| && DateLe(date, published[j]);
        assert DateLe(start, date) && DateLe(date, end);
      }
    }
  }

  lemma OutOfRangeNotIllegal(start: Date, end: Date)
    requires IsCalendarDate(start) && IsCalendarDate(end)
    ensures OutOfRange(start, end) != IllegalDate
  {
    assert OutOfRange(start, end)[0] != IllegalDate[0];
  }

  /** `int()` reads back a fixed-width field of digits. */
  lemma ParseDigits(n: nat, width: nat)
    requires 1 <= width && n < Pow10(width)
    ensures ParseInt(Digits(n, width)) == Ok(n)
  {
    var s := Digits(n, width);
    assert NoSpace(s) by {
      forall k | 0 <= k < |s| ensures !IsSpace(s[k]) {
        assert IsDigit(s[k]);
      }
    }
    StripNoSpace(s);
    assert IsDigit(s[0]) && IsDigitStr(s);
    DigitsValueOfDigits(n, width);
  }

  lemma {:induction false} DigitsValueOfDigits(n: nat, width: nat)
    requires n < Pow10(width)
    ensures DigitsValue(Digits(n, width)) == n
    decreases width
  {
    if width > 0 {
      var s := Digits(n, width);
      assert s[..|s| - 1] == Digits(n / 10, width - 1);
      DigitsValueOfDigits(n / 10, width - 1);
    }
  }

  /** Each day an article came out, asked for as two-digit year, month and
      day fields, is a valid date within the period. */
  lemma PublishedDayValid(published: seq<Date>, t: Date)
    requires forall i :: 0 <= i < |published| ==> IsCalendarDate(published[i])
    requires t in published && IsCalendarDate(t) && 2000 <= t.year <= 2099
    ensures IsValidDate(published, Digits(t.year - 2000, 2), Digits(t.month, 2), Some(Digits(t.day, 2))) == Ok((true, ""))
  {
    var y, m, d := Digits(t.year - 2000, 2), Digits(t.month, 2), Digits(t.day, 2);
    RequestedDigits(t);
    IsValidDateShape(published, y, m, Some(d));
    PublishedVerdict(published, t);
  }

  /** The two-digit fields of a date of this century parse back to it. */
  lemma RequestedDigits(t: Date)
    requires IsCalendarDate(t) && 2000 <= t.year <= 2099
    ensures var y, m, d := Digits(t.year - 2000, 2), Digits(t.month, 2), Digits(t.day, 2);
      ParseInt(y).Ok? && ParseInt(m).Ok? && ParseInt(d).Ok? && Requested(y, m, Some(d)) == t
  {
    var y, m, d := Digits(t.year - 2000, 2), Digits(t.month, 2), Digits(t.day, 2);
    assert Pow10(2) == 100;
    ParseDigits(t.year - 2000, 2);
    ParseDigits(t.month, 2);
    ParseDigits(t.day, 2);
    assert ParseInt(y) == Ok(t.year - 2000) && ParseInt(m) == Ok(t.month) && ParseInt(d) == Ok(t.day);
  }

  lemma PublishedVerdict(published: seq<Date>, t: Date)
    requires forall i :: 0 <= i < |published| ==> IsCalendarDate(published[i])
    requires t in published && IsCalendarDate(t)
    ensures Verdict(published, t) == (true, "")
  {
    var i :| 0 <= i < |published| && published[i] == t;
    assert DateLe(Earliest(published), published[i]) && DateLe(published[i], Latest(published));
  }

  // ---------------------------------------------------------------------
  // NewsDB.search_by_date

  function RowId(row: NewsRow): NewsId {
    row.newsID
  }

  /** `news["time"][2:7] == "-".join((year, month))` without a day, and
      `news["time"][2:] == "-".join((year, month, day))` with one. */
  function OnDay(year: string, month: string, day: Option<string>): NewsRow -> bool {
    (row: NewsRow) =>
      if day.None? then Slice(row.time, 2, 7) == year + "-" + month
      else From(row.time, 2) == year + "-" + month + "-" + day.value
  }

  /** `search_by_date(year, month, day)`: every row, in use or not, fetched
      by the newsIDs of `newsInfo`, then those of that month or that day. */
  function SearchByDate(table: seq<NewsRow>, year: string, month: string, day: Option<string>): seq<NewsRow> {
    var newsInfo := GetNewsById(table, UtilClass.ManyIds(MapSeq(RowId, table)), false).value;
    Filter(newsInfo, OnDay(year, month, day))
  }

  /** The search keeps exactly the table's rows of the asked month or day,
      in table order. */
  lemma SearchByDateRows(table: seq<NewsRow>, year: string, month: string, day: Option<string>)
    ensures SearchByDate(table, year, month, day) == Filter(table, OnDay(year, month, day))
    ensures forall row :: row in SearchByDate(table, year, month, day) <==> row in table && OnDay(year, month, day)(row)
  {
    FilterAll(table, MapSeq(RowId, table));
  }

  lemma {:induction false} FilterAll(table: seq<NewsRow>, ids: seq<NewsId>)
    requires forall i :: 0 <= i < |table| ==> table[i].newsID in ids
    ensures Filter(table, Wanted(ids)) == table
  {
    if table != [] {
      FilterAll(table[..|table| - 1], ids);
      assert table[..|table| - 1] + [table[|table| - 1]] == table;
    }
  }

  /** The last two digits of a four-digit field. */
  lemma LowDigits(n: nat)
    ensures Digits(n, 4)[2..] == Digits(n % 100, 2)
  {
    var hi := Digits(n / 10 / 10, 2);
    assert Digits(n / 10, 3) == hi + [DigitChar(n / 10 % 10)];
    assert Digits(n, 4) == hi + [DigitChar(n / 10 % 10)] + [DigitChar(n % 10)];
    var low := n % 100;
    assert Digits(low / 10, 1) == [DigitChar(low / 10 % 10)];
    assert Digits(low, 2) == [DigitChar(low / 10 % 10)] + [DigitChar(low % 10)];
    LowArith(n);
  }

  lemma LowArith(n: nat)
    ensures n % 100 / 10 % 10 == n / 10 % 10 && n % 100 % 10 == n % 10
  {
    var q, low := n / 100, n % 100;
    assert n == 100 * q + low;
    DivTen(n, 10 * q + low / 10, low % 10);
    DivTen(n / 10, q, low / 10);
  }

  /** The quotient and remainder by 10 are the only split of `n`. */
  lemma DivTen(n: nat, a: nat, b: nat)
    requires n == 10 * a + b && b < 10
    ensures n / 10 == a && n % 10 == b
  {
  }

  lemma TwoDigitsInjective(a: nat, b: nat)
    requires a < 100 && b < 100 && Digits(a, 2) == Digits(b, 2)
    ensures a == b
  {
    assert Pow10(2) == 100;
    DigitsInjective(a, b, 2);
  }

  /** For a row stamped with the date `t`, the two-digit year and month fields
      pick it exactly when they are the last two digits of its year and its
      month, and a two-digit day field when that is its day as well. */
  lemma SearchByDateMatches(row: NewsRow, t: Date, yy: nat, mm: nat, dd: Option<nat>)
    requires IsCalendarDate(t) && row.time == SqlDate(t)
    requires yy < 100 && mm < 100 && (dd.Some? ==> dd.value < 100)
    ensures var day := if dd.None? then None else Some(Digits(dd.value, 2));
      OnDay(Digits(yy, 2), Digits(mm, 2), day)(row) <==> (t.year % 100 == yy && t.month == mm && (dd.Some? ==> t.day == dd.value))
  {
    StampFields(row.time, t);
    if dd.None? {
      MonthMatches(row, t, yy, mm);
    } else {
      DayMatches(row, t, yy, mm, dd.value);
    }
  }

  /** Where the fields of `YYYY-MM-DD` sit. */
  lemma StampFields(time: string, t: Date)
    requires IsCalendarDate(t) && time == SqlDate(t)
    ensures |time| == 10 && time[4] == '-' && time[7] == '-'
    ensures time[2..4] == Digits(t.year % 100, 2) && time[5..7] == Digits(t.month, 2) && time[8..] == Digits(t.day, 2)
  {
    var ty, tm, td := Digits(t.year, 4), Digits(t.month, 2), Digits(t.day, 2);
    assert time == ty + "-" + tm + "-" + td;
    LowDigits(t.year);
    assert time[2..4] == ty[2..];
  }

  lemma MonthMatches(row: NewsRow, t: Date, yy: nat, mm: nat)
    requires IsCalendarDate(t) && yy < 100 && mm < 100
    requires |row.time| == 10 && row.time[4] == '-'
    requires row.time[2..4] == Digits(t.year % 100, 2) && row.time[5..7] == Digits(t.month, 2)
    ensures OnDay(Digits(yy, 2), Digits(mm, 2), None)(row) <==> t.year % 100 == yy && t.month == mm
  {
    var time, y, m := row.time, Digits(yy, 2), Digits(mm, 2);
    assert Slice(time, 2, 7) == time[2..7];
    assert time[2..7] == time[2..4] + [time[4]] + time[5..7];
    FieldsEqual(time[2..4], time[5..7], y, m);
    if time[2..4] == y { TwoDigitsInjective(t.year % 100, yy); }
    if time[5..7] == m { TwoDigitsInjective(t.month, mm); }
  }

  lemma DayMatches(row: NewsRow, t: Date, yy: nat, mm: nat, dd: nat)
    requires IsCalendarDate(t) && yy < 100 && mm < 100 && dd < 100
    requires |row.time| == 10 && row.time[4] == '-' && row.time[7] == '-'
    requires row.time[2..4] == Digits(t.year % 100, 2) && row.time[5..7] == Digits(t.month, 2) && row.time[8..] == Digits(t.day, 2)
    ensures OnDay(Digits(yy, 2), Digits(mm, 2), Some(Digits(dd, 2)))(row) <==> t.year % 100 == yy && t.month == mm && t.day == dd
  {
    var time, y, m, d := row.time, Digits(yy, 2), Digits(mm, 2), Digits(dd, 2);
    DaySplit(time, y, m, d);
    if time[2..4] == y { TwoDigitsInjective(t.year % 100, yy); }
    if time[5..7] == m { TwoDigitsInjective(t.month, mm); }
    if time[8..] == d { TwoDigitsInjective(t.day, dd); }
  }

  /** `time[2:]` of `YYYY-MM-DD` against `yy-mm-dd`, field by field. */
  lemma DaySplit(time: string, y: string, m: string, d: string)
    requires |time| == 10 && time[4] == '-' && time[7] == '-' && |y| == |m| == |d| == 2
    ensures From(time, 2) == y + "-" + m + "-" + d <==> time[2..4] == y && time[5..7] == m && time[8..] == d
  {
    assert From(time, 2) == time[2..];
    assert time[2..] == time[2..4] + [time[4]] + time[5..7] + [time[7]] + time[8..] by {
      assert time[2..] == time[2..4] + time[4..];
      assert time[4..] == [time[4]] + time[5..];
      assert time[5..] == time[5..7] + time[7..];
      assert time[7..] == [time[7]] + time[8..];
    }
    FieldsEqual3(time[2..4], time[5..7], time[8..], y, m, d);
  }

  lemma FieldsEqual(a: string, b: string, x: string, y: string)
    requires |a| == |b| == |x| == |y| == 2
    ensures a + "-" + b == x + "-" + y <==> a == x && b == y
  {
    if a + "-" + b == x + "-" + y {
      assert a == (a + "-" + b)[..2] && x == (x + "-" + y)[..2];
      assert b == (a + "-" + b)[3..] && y == (x + "-" + y)[3..];
    }
  }

  lemma FieldsEqual3(a: string, b: string, c: string, x: string, y: string, z: string)
    requires |a| == |b| == |c| == |x| == |y| == |z| == 2
    ensures a + "-" + b + "-" + c == x + "-" + y + "-" + z <==> a == x && b == y && c == z
  {
    if a + "-" + b + "-" + c == x + "-" + y + "-" + z {
      FieldsEqual(a, b, x, y);
      assert a + "-" + b == (a + "-" + b + "-" + c)[..5] && x + "-" + y == (x + "-" + y + "-" + z)[..5];
      assert c == (a + "-" + b + "-" + c)[6..] && z == (x + "-" + y + "-" + z)[6..];
    }
  }

  // ---------------------------------------------------------------------
  // NewsDB.search_by_keyword

  function IdKey(id: NewsId): SortKey {
    Text(id)
  }

  function RankKey(rank: nat): SortKey {
    Num(rank as real)
  }

  const KeywordFields: seq<string> := ["title", "content"]

  /** `search_by_keyword(keyword, limit)`: the AND query over title and
      content, the rows of the hits (already masked, so not filtered on
      `in_use`), and the positional rank join. */
  function SearchByKeywordSpec(table: seq<NewsRow>, idx: Index, scorer: (string, seq<string>) -> seq<Doc>, keyword: string, limit: int)
    : Result<seq<(NewsRow, nat)>>
  {
    var hits :- SearchStrings(idx, scorer, Query(keyword, "AND"), KeywordFields, limit);
    var rows :- GetNewsById(table, UtilClass.ManyIds(Firsts(hits)), false);
    RankJoin(rows, hits, RowId, IdKey, RankKey, false)
  }

  method SearchByKeyword(table: seq<NewsRow>, idx: Index, scorer: (string, seq<string>) -> seq<Doc>, keyword: string, limit: int)
    returns (r: Result<seq<(NewsRow, nat)>>)
    ensures r == SearchByKeywordSpec(table, idx, scorer, keyword, limit)
  {
    var resultsList :- SearchStrings(idx, scorer, Query(keyword, "AND"), KeywordFields, limit);
    var newsIDs := Firsts(resultsList);
    var newsInfo :- GetNewsById(table, UtilClass.ManyIds(newsIDs), false);
    r := RankJoinRows(newsInfo, resultsList, RowId, IdKey, RankKey, false);
  }

  /** Whatever the table holds, the keyword search returns at most `limit`
      rows of the table, in ascending rank, none of them a discarded
      article. */
  lemma SearchByKeywordMasked(table: seq<NewsRow>, docs: seq<Doc>, discardIds: seq<NewsId>,
                              scorer: (string, seq<string>) -> seq<Doc>, keyword: string, limit: int)
    requires UniqueIds(docs) && OpenIndex(docs, discardIds).Ok?
    requires forall d :: d in scorer(Query(keyword, "AND"), KeywordFields) ==> d in docs
    ensures limit < 1 ==> SearchByKeywordSpec(table, OpenIndex(docs, discardIds).value, scorer, keyword, limit) == Err(ValueError)
    ensures var r := SearchByKeywordSpec(table, OpenIndex(docs, discardIds).value, scorer, keyword, limit);
      r.Ok? ==>
        && Sorted(r.value, ByRank(RankKey), false)
        && |r.value| <= limit
        && forall p :: p in r.value ==> p.0 in table && p.0.newsID !in discardIds
  {
    var idx := OpenIndex(docs, discardIds).value;
    var q := Query(keyword, "AND");
    SearchStringsMasked(docs, discardIds, scorer, q, KeywordFields, limit);
    if limit >= 1 {
      SearchByKeywordPasses(table, idx, scorer, keyword, limit);
      var hits := SearchStrings(idx, scorer, q, KeywordFields, limit).value;
      if RankJoin(Filter(table, Wanted(Firsts(hits))), hits, RowId, IdKey, RankKey, false).Ok? {
        MaskedJoin(table, hits, discardIds);
      }
    }
  }

  /** Joining hits none of which is discarded yields rows of the table, no
      more than the hits, in ascending rank, none of them discarded. */
  lemma MaskedJoin(table: seq<NewsRow>, hits: seq<(NewsId, nat)>, discardIds: seq<NewsId>)
    requires forall i :: 0 <= i < |hits| ==> hits[i].0 !in discardIds
    requires RankJoin(Filter(table, Wanted(Firsts(hits))), hits, RowId, IdKey, RankKey, false).Ok?
    ensures var r := RankJoin(Filter(table, Wanted(Firsts(hits))), hits, RowId, IdKey, RankKey, false).value;
      && Sorted(r, ByRank(RankKey), false)
      && |r| <= |hits|
      && forall p :: p in r ==> p.0 in table && p.0.newsID !in discardIds
  {
    var rows := Filter(table, Wanted(Firsts(hits)));
    RankJoinFrom(rows, hits, RowId, IdKey, RankKey, false);
    forall p | p in RankJoin(rows, hits, RowId, IdKey, RankKey, false).value
      ensures p.0.newsID !in discardIds
    {
      assert p.0 in rows;
      var k :| 0 <= k < |hits| && Firsts(hits)[k] == p.0.newsID;
    }
  }

  /** Once the index answers, the search is the join of the hits with the
      table's rows for them. */
  lemma SearchByKeywordPasses(table: seq<NewsRow>, idx: Index, scorer: (string, seq<string>) -> seq<Doc>, keyword: string, limit: int)
    requires limit >= 1
    ensures var hits := SearchStrings(idx, scorer, Query(keyword, "AND"), KeywordFields, limit);
      && hits.Ok?
      && SearchByKeywordSpec(table, idx, scorer, keyword, limit)
         == RankJoin(Filter(table, Wanted(Firsts(hits.value))), hits.value, RowId, IdKey, RankKey, false)
  {
    var h := SearchStrings(idx, scorer, Query(keyword, "AND"), KeywordFields, limit).value;
    assert GetNewsById(table, UtilClass.ManyIds(Firsts(h)), false) == Ok(Filter(table, Wanted(Firsts(h))));
  }

  lemma IdKeyInjective()
    ensures forall x, y :: IdKey(x) == IdKey(y) ==> x == y
  {
  }

  /** When the table holds exactly one row for every hit, each row gets the
      rank of the hit with its own newsID, no row is lost, and the list is
      in ascending rank. */
  lemma SearchByKeywordAligned(table: seq<NewsRow>, idx: Index, scorer: (string, seq<string>) -> seq<Doc>, keyword: string, limit: int)
    requires limit >= 1
    requires var hits := SearchStrings(idx, scorer, Query(keyword, "AND"), KeywordFields, limit).value;
      multiset(MapSeq(RowId, Filter(table, Wanted(Firsts(hits))))) == multiset(Firsts(hits))
    ensures SearchByKeywordSpec(table, idx, scorer, keyword, limit).Ok?
    ensures var hits := SearchStrings(idx, scorer, Query(keyword, "AND"), KeywordFields, limit).value;
      var r := SearchByKeywordSpec(table, idx, scorer, keyword, limit).value;
      && Sorted(r, ByRank(RankKey), false)
      && multiset(Firsts(r)) == multiset(Filter(table, Wanted(Firsts(hits))))
      && forall p :: p in r ==> (p.0.newsID, p.1) in hits
  {
    var hits := SearchStrings(idx, scorer, Query(keyword, "AND"), KeywordFields, limit).value;
    SearchByKeywordPasses(table, idx, scorer, keyword, limit);
    IdKeyInjective();
    RankJoinAligned(Filter(table, Wanted(Firsts(hits))), hits, RowId, IdKey, RankKey, false);
  }
}
