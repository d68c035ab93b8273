/** The development views of the mini-program: the calendar of publishing
    dates, the date and keyword queries, the random picks and the
    Tanimoto recommender, each behind the request validation the views do
    before touching the database. */
module MiniprogramDevelop {
  import opened Wrappers
  import opened PyValues
  import opened Text
  import opened Collections
  import opened Sorting
  import opened Similarity
  import opened Search
  import opened Dates
  import opened PyInt
  import UtilFuncs
  import MinipgmApiDb

  type NewsId = int

  // ---------------------------------------------------------------------
  // get_date_range

  /** What `strptime` can produce: no field is 0, so the 0 keys of the
      calendar never clash with a real year, month or day. */
  predicate ValidDate(t: Date) {
    1 <= t.year && 1 <= t.month <= 12 && 1 <= t.day <= 31
  }

  predicate ValidDates(times: seq<Date>) {
    forall i :: 0 <= i < |times| ==> ValidDate(times[i])
  }

  predicate Chronological(times: seq<Date>) {
    forall i, j :: 0 <= i < j < |times| ==> DateLe(times[i], times[j])
  }

  /** `dateDict`: year to month to the list of days, with the sentinel key 0
      and the sentinel list `[0]` at every level. */
  type DateDict = map<int, map<int, seq<int>>>

  const EmptyCalendar: DateDict := map[0 := map[0 := [0]]]

  /** One pass of the loop body of `get_date_range`. */
  function AddDate(d: DateDict, t: Date): DateDict {
    var d1 := if t.year in d then d else d[t.year := map[0 := [0]]];
    var months := if t.month in d1[t.year] then d1[t.year] else d1[t.year][t.month := [0]];
    var days := months[t.month];
    d1[t.year := months[t.month := if t.day in days then days else days + [t.day]]]
  }

  /** The calendar built from the dates in the order they arrive. */
  function DateRange(times: seq<Date>): DateDict {
    if times == [] then EmptyCalendar else AddDate(DateRange(times[..|times| - 1]), times[|times| - 1])
  }

  /** `get_date_range()` over the stored publishing times. */
  method GetDateRange(times: seq<Date>) returns (dateDict: DateDict)
    ensures dateDict == DateRange(times)
  {
    dateDict := EmptyCalendar;
    for i := 0 to |times|
      invariant dateDict == DateRange(times[..i])
    {
      assert times[..i + 1][..i] == times[..i];
      dateDict := AddDateInPlace(dateDict, times[i]);
    }
    assert times[..|times|] == times;
  }

  /** The loop body: create the year, then the month, then append the day,
      each only when absent. */
  method AddDateInPlace(d: DateDict, t: Date) returns (dateDict: DateDict)
    ensures dateDict == AddDate(d, t)
  {
    dateDict := d;
    if t.year !in dateDict {
      dateDict := dateDict[t.year := map[0 := [0]]];
    }
    var months := dateDict[t.year];
    if t.month !in months {
      months := months[t.month := [0]];
    }
    var days := months[t.month];
    if t.day !in days {
      days := days + [t.day];
    }
    dateDict := dateDict[t.year := months[t.month := days]];
  }

  /** The sentinels: key 0 maps to `{0: [0]}`, every year has the month 0
      with `[0]`, every list of days starts with the sentinel 0, and no
      day is listed twice in a month. */
  predicate CalendarShape(d: DateDict) {
    && 0 in d && d[0] == map[0 := [0]]
    && (forall y :: y in d ==> 0 in d[y] && d[y][0] == [0])
    && (forall y, m :: y in d && m in d[y] ==> |d[y][m]| > 0 && d[y][m][0] == 0 && Distinct(d[y][m]))
  }

  lemma AddDateShape(d: DateDict, t: Date)
    requires CalendarShape(d) && ValidDate(t)
    ensures CalendarShape(AddDate(d, t))
  {
    var d1 := if t.year in d then d else d[t.year := map[0 := [0]]];
    var months := if t.month in d1[t.year] then d1[t.year] else d1[t.year][t.month := [0]];
    var days := months[t.month];
    var days1 := if t.day in days then days else days + [t.day];
    assert Distinct(days1) by {
      forall i, j | 0 <= i < j < |days1| ensures days1[i] != days1[j] {
        if j == |days| { assert days1[i] == days[i]; }
      }
    }
  }

  lemma {:induction false} DateRangeShape(times: seq<Date>)
    requires ValidDates(times)
    ensures CalendarShape(DateRange(times))
  {
    if times != [] {
      DateRangeShape(times[..|times| - 1]);
      AddDateShape(DateRange(times[..|times| - 1]), times[|times| - 1]);
    }
  }

  /** What a calendar entry means: a year other than 0 is listed iff some
      date falls in it, a month other than 0 iff some date falls in it, and
      a day other than 0 iff that very date occurs. */
  ghost predicate CalendarOf(d: DateDict, times: seq<Date>) {
    && YearsOf(d, times) && MonthsOf(d, times) && DaysOf(d, times)
  }

  ghost predicate YearsOf(d: DateDict, times: seq<Date>) {
    forall y :: y != 0 ==> (y in d <==> exists t :: t in times && t.year == y)
  }

  ghost predicate MonthsOf(d: DateDict, times: seq<Date>) {
    forall y, m :: y in d && m != 0 ==> (m in d[y] <==> exists t :: t in times && t.year == y && t.month == m)
  }

  ghost predicate DaysOf(d: DateDict, times: seq<Date>) {
    forall y, m, day :: y in d && m in d[y] && day != 0 ==> (day in d[y][m] <==> Date(y, m, day) in times)
  }

  lemma AddYearsOf(d: DateDict, times: seq<Date>, t: Date)
    requires times != [] && t == times[|times| - 1]
    requires YearsOf(d, times[..|times| - 1])
    ensures YearsOf(AddDate(d, t), times)
  {
    var d' := AddDate(d, t);
    var init := times[..|times| - 1];
    assert times == init + [t];
    forall y | y != 0 ensures y in d' <==> exists s :: s in times && s.year == y {
      if y in d' && y != t.year {
        var s :| s in init && s.year == y;
        assert s in times;
      }
      if y == t.year { assert t in times; }
      if exists s :: s in times && s.year == y {
        var s :| s in times && s.year == y;
        if s != t { assert s in init; }
      }
    }
  }

  lemma AddMonthsOf(d: DateDict, times: seq<Date>, t: Date)
    requires times != [] && t == times[|times| - 1]
    requires ValidDate(t) && YearsOf(d, times[..|times| - 1]) && MonthsOf(d, times[..|times| - 1])
    ensures MonthsOf(AddDate(d, t), times)
  {
    var d' := AddDate(d, t);
    var init := times[..|times| - 1];
    assert times == init + [t];
    forall y, m | y in d' && m != 0 ensures m in d'[y] <==> exists s :: s in times && s.year == y && s.month == m {
      if m in d'[y] && (y, m) != (t.year, t.month) {
        assert y in d && m in d[y];
        var s :| s in init && s.year == y && s.month == m;
        assert s in times;
      }
      if (y, m) == (t.year, t.month) { assert t in times; }
      if exists s :: s in times && s.year == y && s.month == m {
        var s :| s in times && s.year == y && s.month == m;
        if s != t { assert s in init; }
      }
    }
  }

  lemma AddDaysOf(d: DateDict, times: seq<Date>, t: Date)
    requires times != [] && t == times[|times| - 1]
    requires ValidDate(t) && YearsOf(d, times[..|times| - 1]) && MonthsOf(d, times[..|times| - 1]) && DaysOf(d, times[..|times| - 1])
    ensures DaysOf(AddDate(d, t), times)
  {
    var d' := AddDate(d, t);
    var init := times[..|times| - 1];
    assert times == init + [t];
    forall y, m, day | y in d' && m in d'[y] && day != 0 ensures day in d'[y][m] <==> Date(y, m, day) in times {
      if Date(y, m, day) in times && Date(y, m, day) != t {
        assert Date(y, m, day) in init;
      }
    }
  }

  lemma {:induction false} DateRangeOf(times: seq<Date>)
    requires ValidDates(times)
    ensures CalendarOf(DateRange(times), times)
  {
    if times != [] {
      var init := times[..|times| - 1];
      var t := times[|times| - 1];
      DateRangeOf(init);
      DateRangeShape(init);
      AddYearsOf(DateRange(init), times, t);
      AddMonthsOf(DateRange(init), times, t);
      AddDaysOf(DateRange(init), times, t);
    }
  }

  predicate Increasing(s: seq<int>) {
    forall i, j :: 0 <= i < j < |s| ==> s[i] < s[j]
  }

  predicate CalendarIncreasing(d: DateDict) {
    forall y, m :: y in d && m in d[y] ==> Increasing(d[y][m])
  }

  lemma AddDateIncreasing(d: DateDict, times: seq<Date>, t: Date)
    requires times != [] && t == times[|times| - 1] && ValidDate(t)
    requires forall s :: s in times[..|times| - 1] ==> DateLe(s, t)
    requires CalendarIncreasing(d) && CalendarShape(d) && DaysOf(d, times[..|times| - 1])
    ensures CalendarIncreasing(AddDate(d, t))
  {
    var init := times[..|times| - 1];
    var d1 := if t.year in d then d else d[t.year := map[0 := [0]]];
    var months := if t.month in d1[t.year] then d1[t.year] else d1[t.year][t.month := [0]];
    var days := months[t.month];
    if t.day !in days {
      forall i | 0 <= i < |days| ensures days[i] < t.day {
        if t.year in d && t.month in d[t.year] {
          assert days == d[t.year][t.month];
          if days[i] != 0 {
            assert days[i] in d[t.year][t.month];
            assert Date(t.year, t.month, days[i]) in init;
            assert DateLe(Date(t.year, t.month, days[i]), t);
            assert days[i] != t.day;
          }
        } else {
          assert days == [0];
        }
      }
      assert Increasing(days + [t.day]);
    }
  }

  /** Read in chronological order, the days of every month are listed in
      ascending order after the sentinel. */
  lemma {:induction false} DateRangeIncreasing(times: seq<Date>)
    requires ValidDates(times) && Chronological(times)
    ensures CalendarIncreasing(DateRange(times))
  {
    if times != [] {
      var init := times[..|times| - 1];
      var t := times[|times| - 1];
      assert Chronological(init) by {
        forall i, j | 0 <= i < j < |init| ensures DateLe(init[i], init[j]) {
          assert init[i] == times[i] && init[j] == times[j];
        }
      }
      DateRangeIncreasing(init);
      DateRangeShape(init);
      DateRangeOf(init);
      forall s | s in init ensures DateLe(s, t) {
        var i :| 0 <= i < |init| && init[i] == s;
        assert times[i] == s;
      }
      AddDateIncreasing(DateRange(init), times, t);
    }
  }

  // ---------------------------------------------------------------------
  // Request parameters

  /** `request.json.get(key, None)`. */
  function Get(req: map<string, PyVal>, key: string): PyVal {
    if key in req then req[key] else PNone
  }

  /** The `count` check of `get_recommend` and `get_random_news` and the
      `newsID` check of `recommend_by_ID`: `None`, a value that is not an
      `int` and an `int` below 1 each raise `ValueError`. A `bool` is an
      `int` to `isinstance`, so `true` passes as 1. */
  function PositiveInt(v: PyVal): (r: Result<int>)
    ensures r.Ok? <==> IsInt(v) && IntOf(v) >= 1
    ensures r.Err? ==> r.error == ValueError
    ensures r.Ok? ==> r.value == IntOf(v)
  {
    if v == PNone then Err(ValueError)
    else if !IsInt(v) then Err(ValueError)
    else if IntOf(v) < 1 then Err(ValueError)
    else Ok(IntOf(v))
  }

  /** What the check lets through: every positive `int`, and `true`; never a
      float, a string or a list, whatever its value. */
  lemma PositiveIntAccepts(n: int, x: real, s: string, items: seq<PyVal>)
    ensures PositiveInt(PInt(n)).Ok? <==> n >= 1
    ensures n >= 1 ==> PositiveInt(PInt(n)) == Ok(n)
    ensures PositiveInt(PBool(true)) == Ok(1) && PositiveInt(PBool(false)).Err?
    ensures PositiveInt(PFloat(x)).Err? && PositiveInt(PStr(s)).Err? && PositiveInt(PList(items)).Err?
  {
  }

  datatype RecommendKind = ByNewsId | ByContent

  /** The `type` check of `get_recommend`: `None` and a value outside
      `{"newsID", "content"}` raise `ValueError`; a list cannot be hashed
      for the set lookup and raises `TypeError`. */
  function RecommendKindOf(v: PyVal): (r: Result<RecommendKind>)
    ensures r == Ok(ByNewsId) <==> v == PStr("newsID")
    ensures r == Ok(ByContent) <==> v == PStr("content")
    ensures r.Err? ==> (r.error == TypeError <==> v.PList?)
    ensures r.Err? ==> r.error == ValueError || r.error == TypeError
  {
    if v == PNone then Err(ValueError)
    else if v.PList? then Err(TypeError)
    else if v == PStr("newsID") then Ok(ByNewsId)
    else if v == PStr("content") then Ok(ByContent)
    else Err(ValueError)
  }

  /** The call `get_recommend` makes once its checks pass. */
  datatype RecommendCall =
    | RecommendById(newsID: PyVal, count: int, algorithm: PyVal)
    | RecommendByArticle(article: PyVal, count: int, algorithm: PyVal)

  /** The checks of `get_recommend`: `count` is checked first, then
      `type`, which picks the call and the request fields passed on to it.
      Only the checks are modelled: when one fails, `db` is still unbound,
      so the view's `finally` raises `UnboundLocalError` at `db.close()`
      in place of the check's `ValueError`, and no JSON is sent. */
  function GetRecommendCall(req: map<string, PyVal>): (r: Result<RecommendCall>)
  {
    var count :- PositiveInt(Get(req, "count"));
    var kind :- RecommendKindOf(Get(req, "type"));
    if kind == ByNewsId then Ok(RecommendById(Get(req, "newsID"), count, Get(req, "method")))
    else Ok(RecommendByArticle(Get(req, "content"), count, Get(req, "method")))
  }

  /** A bad `count` is reported before anything else; a request passes iff
      its `count` is a positive int and its `type` one of the two kinds,
      and the call then carries that count and the request's `method`. */
  lemma GetRecommendChecks(req: map<string, PyVal>)
    ensures GetRecommendCall(req).Ok? <==> PositiveInt(Get(req, "count")).Ok? && RecommendKindOf(Get(req, "type")).Ok?
    ensures PositiveInt(Get(req, "count")).Err? ==> GetRecommendCall(req) == Err(ValueError)
    ensures GetRecommendCall(req).Ok? ==>
      var call := GetRecommendCall(req).value;
      && call.count == IntOf(Get(req, "count")) && call.count >= 1
      && call.algorithm == Get(req, "method")
      && (call.RecommendById? <==> Get(req, "type") == PStr("newsID"))
      && (call.RecommendById? ==> call.newsID == Get(req, "newsID"))
      && (call.RecommendByArticle? ==> call.article == Get(req, "content"))
  {
  }

  /** `{key: int(value) for key, value in date.items()}`: the first value
      that does not convert raises. */
  function IntValues(date: seq<(string, PyVal)>): (r: Result<seq<(string, int)>>)
    ensures r.Ok? <==> forall i :: 0 <= i < |date| ==> ToInt(date[i].1).Ok?
    ensures r.Ok? ==> |r.value| == |date| && forall i :: 0 <= i < |date| ==> r.value[i] == (date[i].0, ToInt(date[i].1).value)
  {
    if date == [] then Ok([])
    else
      var v :- ToInt(date[0].1);
      var rest :- IntValues(date[1..]);
      assert forall i :: 1 <= i < |date| ==> date[i] == date[1..][i - 1];
      Ok([(date[0].0, v)] + rest)
  }

  // ---------------------------------------------------------------------
  // date_query

  /** The `strftime` formats the query compares with. */
  datatype DateFormat = Year | YearMonth | YearMonthDay

  /** Every row, or the rows whose time printed with `format` is `key`. */
  datatype DateFilter = AllDates | OnDate(format: DateFormat, key: string)

  /** `"{n:>0w}".format(n=n)`: right aligned and filled with zeros on the
      left to `width` characters. */
  function Pad(n: int, width: nat): string {
    PadLeft(IntToStr(n), width, '0')
  }

  /** `date[key]`, raising `KeyError` when the key is absent. */
  function Field(date: seq<(string, int)>, key: string): (r: Result<int>)
    ensures r.Ok? <==> key in Firsts(date)
    ensures r.Err? ==> r.error == KeyError
  {
    match Lookup(date, key)
    case None => Err(KeyError)
    case Some(v) => Ok(v)
  }

  /** The branches of `date_query` on which fields are 0: a year of 0 lists
      everything, a month of 0 matches on `%Y`, a day of 0 on `%Y-%m`,
      otherwise the whole `%Y-%m-%d`. A field is read only when the ones
      before it are not 0. */
  function DateFilterOf(date: seq<(string, int)>): Result<DateFilter> {
    var year :- Field(date, "year");
    if year == 0 then Ok(AllDates)
    else
      var month :- Field(date, "month");
      if month == 0 then Ok(OnDate(Year, Pad(year, 4)))
      else
        var day :- Field(date, "day");
        if day == 0 then Ok(OnDate(YearMonth, Pad(year, 4) + "-" + Pad(month, 2)))
        else Ok(OnDate(YearMonthDay, Pad(year, 4) + "-" + Pad(month, 2) + "-" + Pad(day, 2)))
  }

  /** A row of the article list: title, `date(masssend_time)`, content URL
      and newsID. */
  datatype Article = Article(title: string, time: string, url: string, newsID: NewsId)

  /** The dicts `date_query` returns carry no newsID. */
  datatype Listing = Listing(title: string, time: string, url: string)

  function ArticleId(a: Article): NewsId {
    a.newsID
  }

  /** `dictToESC(row, {"title", "url"}, reverse=True)`. */
  function UnescapedArticle(a: Article): Article {
    a.(title := UtilFuncs.ToEscFn(a.title, true), url := UtilFuncs.ToEscFn(a.url, true))
  }

  function ListingOf(a: Article): Listing {
    Listing(UtilFuncs.ToEscFn(a.title, true), a.time, UtilFuncs.ToEscFn(a.url, true))
  }

  /** SQLite's `strftime` on a `date()` string `YYYY-MM-DD`: the year, the
      year and month, or the whole date. */
  function Strftime(format: DateFormat, time: string): string {
    match format
    case Year => Slice(time, 0, 4)
    case YearMonth => Slice(time, 0, 7)
    case YearMonthDay => Slice(time, 0, 10)
  }

  function Selected(filter: DateFilter): Article -> bool {
    (a: Article) => match filter
      case AllDates => true
      case OnDate(format, key) => Strftime(format, a.time) == key
  }

  /** `date_query(date)` over the article table listed in the query's
      `ORDER BY time DESC, idx ASC`; `None` stands for a missing `date`. */
  function DateQuery(table: seq<Article>, date: Option<seq<(string, PyVal)>>): (r: Result<seq<Listing>>)
    ensures r.Ok? ==> |r.value| <= |table|
  {
    if date.None? || date.value == [] then Err(ValueError)
    else
      var ints :- IntValues(date.value);
      var filter :- DateFilterOf(ints);
      Ok(MapSeq(ListingOf, Filter(table, Selected(filter))))
  }

  /** The listing is the selected rows, unescaped, in table order. */
  lemma DateQueryRows(table: seq<Article>, date: Option<seq<(string, PyVal)>>, a: Article)
    requires DateQuery(table, date).Ok?
    ensures var filter := DateFilterOf(IntValues(date.value).value).value;
      a in table && Selected(filter)(a) ==> ListingOf(a) in DateQuery(table, date).value
    ensures forall l :: l in DateQuery(table, date).value ==>
      exists s :: s in table && Selected(DateFilterOf(IntValues(date.value).value).value)(s) && l == ListingOf(s)
  {
    var filter := DateFilterOf(IntValues(date.value).value).value;
    var kept := Filter(table, Selected(filter));
    if a in table && Selected(filter)(a) {
      var k :| 0 <= k < |kept| && kept[k] == a;
      assert MapSeq(ListingOf, kept)[k] == ListingOf(a);
    }
    forall l | l in DateQuery(table, date).value ensures exists s :: s in table && Selected(filter)(s) && l == ListingOf(s) {
      var k :| 0 <= k < |kept| && MapSeq(ListingOf, kept)[k] == l;
      assert kept[k] in kept;
    }
  }

  /** The errors of `date_query`: `ValueError` for a missing or empty
      `date`, the conversion error of the first value `int` rejects, and
      `KeyError` when a field that is read is absent. */
  lemma DateQueryErrors(table: seq<Article>, date: Option<seq<(string, PyVal)>>)
    ensures date.None? || date == Some([]) ==> DateQuery(table, date) == Err(ValueError)
    ensures date.Some? && date.value != [] && IntValues(date.value).Err? ==> DateQuery(table, date) == Err(IntValues(date.value).error)
    ensures date.Some? && date.value != [] && IntValues(date.value).Ok? ==>
      var ints := IntValues(date.value).value;
      && Firsts(ints) == Firsts(date.value)
      && (DateQuery(table, date).Err? <==> (
              || "year" !in Firsts(ints)
              || (Field(ints, "year") != Ok(0) && "month" !in Firsts(ints))
              || (Field(ints, "year") != Ok(0) && Field(ints, "month") != Ok(0) && "day" !in Firsts(ints))))
      && (DateQuery(table, date).Err? ==> DateQuery(table, date).error == KeyError)
  {
  }

  /** For a number that fits, zero padding and the fixed-width digits
      coincide: the year key is four digits, month and day two. */
  lemma {:induction false} PadDigits(n: nat, width: nat)
    requires 1 <= width && n < Pow10(width)
    ensures Pad(n, width) == Digits(n, width)
    decreases width
  {
    var s := NatToStr(n);
    if n < 10 {
      ZeroDigits(width - 1);
      assert Digits(n, width) == Digits(0, width - 1) + [DigitChar(n)];
    } else {
      assert width >= 2;
      PadDigits(n / 10, width - 1);
      assert s == NatToStr(n / 10) + [DigitChar(n % 10)];
      PadSnoc(NatToStr(n / 10), DigitChar(n % 10), width - 1);
    }
  }

  lemma {:induction false} ZeroDigits(width: nat)
    ensures Digits(0, width) == seq(width, _ => '0')
  {
    if width > 0 {
      ZeroDigits(width - 1);
    }
  }

  lemma PadSnoc(s: string, c: char, width: nat)
    ensures PadLeft(s + [c], width + 1, '0') == PadLeft(s, width, '0') + [c]
  {
    if |s| < width {
      assert seq(width + 1 - |s + [c]|, _ => '0') == seq(width - |s|, _ => '0');
    }
  }

  /** A query key matches a stored date exactly when the fields asked for
      agree: with the year 0 every row, with the month 0 the rows of that
      year, with the day 0 those of that month, otherwise that very day. */
  lemma DateFilterMatches(year: int, month: int, day: int, t: Date, a: Article)
    requires 0 <= year <= 9999 && 0 <= month <= 99 && 0 <= day <= 99
    requires ValidDate(t) && t.year <= 9999 && a.time == SqlDate(t)
    ensures DateFilterOf([("year", year), ("month", month), ("day", day)]).Ok?
    ensures Selected(DateFilterOf([("year", year), ("month", month), ("day", day)]).value)(a) <==>
      year == 0 || (t.year == year && (month == 0 || (t.month == month && (day == 0 || t.day == day))))
  {
    ThreeFields(year, month, day);
    var date := [("year", year), ("month", month), ("day", day)];
    if year == 0 {
      assert DateFilterOf(date) == Ok(AllDates);
    } else if month == 0 {
      assert DateFilterOf(date) == Ok(OnDate(Year, Pad(year, 4)));
      SelectedOn(Year, Pad(year, 4), a);
      MatchYear(year, t, a);
    } else if day == 0 {
      assert DateFilterOf(date) == Ok(OnDate(YearMonth, Pad(year, 4) + "-" + Pad(month, 2)));
      SelectedOn(YearMonth, Pad(year, 4) + "-" + Pad(month, 2), a);
      MatchMonth(year, month, t, a);
    } else {
      assert DateFilterOf(date) == Ok(OnDate(YearMonthDay, Pad(year, 4) + "-" + Pad(month, 2) + "-" + Pad(day, 2)));
      SelectedOn(YearMonthDay, Pad(year, 4) + "-" + Pad(month, 2) + "-" + Pad(day, 2), a);
      MatchDay(year, month, day, t, a);
    }
  }

  lemma SelectedOn(format: DateFormat, key: string, a: Article)
    ensures Selected(OnDate(format, key))(a) == (Strftime(format, a.time) == key)
  {
  }

  lemma MatchYear(year: int, t: Date, a: Article)
    requires 0 <= year <= 9999 && ValidDate(t) && t.year <= 9999 && a.time == SqlDate(t)
    ensures Strftime(Year, a.time) == Pad(year, 4) <==> t.year == year
  {
    PadDigits(year, 4);
    var time := SqlDate(t);
    var y := Digits(t.year, 4);
    assert |time| == 10;
    assert time[..4] == y;
    assert Strftime(Year, time) == y;
    KeyMatches4(Digits(t.year, 4), Digits(year, 4), t.year, year);
  }

  lemma MatchMonth(year: int, month: int, t: Date, a: Article)
    requires 0 <= year <= 9999 && 0 <= month <= 99 && ValidDate(t) && t.year <= 9999 && a.time == SqlDate(t)
    ensures Strftime(YearMonth, a.time) == Pad(year, 4) + "-" + Pad(month, 2) <==> t.year == year && t.month == month
  {
    PadDigits(year, 4);
    PadDigits(month, 2);
    var time := SqlDate(t);
    var y, m := Digits(t.year, 4), Digits(t.month, 2);
    assert Strftime(YearMonth, time) == y + "-" + m;
    KeyMatches7(y, m, Digits(year, 4), Digits(month, 2), t, year, month);
  }

  lemma MatchDay(year: int, month: int, day: int, t: Date, a: Article)
    requires 0 <= year <= 9999 && 0 <= month <= 99 && 0 <= day <= 99
    requires ValidDate(t) && t.year <= 9999 && a.time == SqlDate(t)
    ensures Strftime(YearMonthDay, a.time) == Pad(year, 4) + "-" + Pad(month, 2) + "-" + Pad(day, 2) <==>
      t.year == year && t.month == month && t.day == day
  {
    PadDigits(year, 4);
    PadDigits(month, 2);
    PadDigits(day, 2);
    var time := SqlDate(t);
    assert Strftime(YearMonthDay, time) == time;
    KeyMatches10(time, Digits(year, 4) + "-" + Digits(month, 2) + "-" + Digits(day, 2), t, year, month, day);
  }

  lemma ThreeFields(year: int, month: int, day: int)
    ensures var date := [("year", year), ("month", month), ("day", day)];
      Field(date, "year") == Ok(year) && Field(date, "month") == Ok(month) && Field(date, "day") == Ok(day)
  {
    var date := [("year", year), ("month", month), ("day", day)];
    assert date[1..][1..] == [("day", day)];
    assert Lookup(date[1..][1..], "day") == Some(day);
    assert Lookup(date[1..], "month") == Some(month);
  }

  lemma KeyMatches4(y: string, k: string, a: nat, b: nat)
    requires a < 10000 && b < 10000 && y == Digits(a, 4) && k == Digits(b, 4)
    ensures y == k <==> a == b
  {
    if y == k { DigitsInjective(a, b, 4); }
  }

  lemma KeyMatches7(y: string, m: string, ky: string, km: string, t: Date, year: nat, month: nat)
    requires 0 <= t.year < 10000 && 0 <= t.month && year < 10000 && month < 100 && t.month < 100
    requires y == Digits(t.year, 4) && m == Digits(t.month, 2) && ky == Digits(year, 4) && km == Digits(month, 2)
    ensures y + "-" + m == ky + "-" + km <==> t.year == year && t.month == month
  {
    if y + "-" + m == ky + "-" + km {
      assert (y + "-" + m)[..4] == y && (ky + "-" + km)[..4] == ky;
      assert (y + "-" + m)[5..] == m && (ky + "-" + km)[5..] == km;
      DigitsInjective(t.year, year, 4);
      DigitsInjective(t.month, month, 2);
    }
  }

  lemma KeyMatches10(time: string, key: string, t: Date, year: nat, month: nat, day: nat)
    requires ValidDate(t) && t.year < 10000 && year < 10000 && month < 100 && day < 100
    requires time == SqlDate(t) && key == Digits(year, 4) + "-" + Digits(month, 2) + "-" + Digits(day, 2)
    ensures time == key <==> t.year == year && t.month == month && t.day == day
  {
    if time == key {
      assert time[..4] == Digits(t.year, 4) && key[..4] == Digits(year, 4);
      assert time[5..7] == Digits(t.month, 2) && key[5..7] == Digits(month, 2);
      assert time[8..] == Digits(t.day, 2) && key[8..] == Digits(day, 2);
      DigitsInjective(t.year, year, 4);
      DigitsInjective(t.month, month, 2);
      DigitsInjective(t.day, day, 2);
    }
  }

  // ---------------------------------------------------------------------
  // _get_news_by_ID

  function Wanted(ids: seq<NewsId>): Article -> bool {
    (a: Article) => a.newsID in ids
  }

  /** `_get_news_by_ID(ids)`: the rows whose newsID is requested, each
      once, in the table's `ORDER BY time DESC, idx ASC` order, with title
      and URL unescaped. */
  function NewsById(table: seq<Article>, ids: seq<NewsId>): (r: seq<Article>)
    ensures |r| <= |table|
  {
    MapSeq(UnescapedArticle, Filter(table, Wanted(ids)))
  }

  /** A row is returned iff it is the unescaped form of a stored row with a
      requested newsID. */
  lemma NewsByIdRows(table: seq<Article>, ids: seq<NewsId>, s: Article)
    ensures s in table && s.newsID in ids ==> UnescapedArticle(s) in NewsById(table, ids)
    ensures forall a :: a in NewsById(table, ids) ==> exists s :: s in table && s.newsID in ids && a == UnescapedArticle(s)
  {
    var kept := Filter(table, Wanted(ids));
    if s in table && s.newsID in ids {
      assert Wanted(ids)(s);
      var k :| 0 <= k < |kept| && kept[k] == s;
      assert NewsById(table, ids)[k] == UnescapedArticle(s);
    }
    forall a | a in NewsById(table, ids) ensures exists s :: s in table && s.newsID in ids && a == UnescapedArticle(s) {
      var k :| 0 <= k < |kept| && NewsById(table, ids)[k] == a;
      assert kept[k] in kept && Wanted(ids)(kept[k]);
    }
  }

  /** Unescaping leaves the newsID alone. */
  lemma NewsByIdIds(table: seq<Article>, ids: seq<NewsId>)
    ensures forall a :: a in NewsById(table, ids) ==> a.newsID in ids
  {
    forall a | a in NewsById(table, ids) ensures a.newsID in ids {
      NewsByIdRows(table, ids, a);
    }
  }

  // ---------------------------------------------------------------------
  // keyword_query

  /** The fields `keyword_query` looks at, in this order. */
  const QueryFields: seq<string> := ["title", "content", "digest"]

  /** `fields.get(field, None)`. */
  function Flag(fields: seq<(string, PyVal)>, field: string): PyVal {
    match Lookup(fields, field)
    case None => PNone
    case Some(v) => v
  }

  predicate FlagOn(fields: seq<(string, PyVal)>, field: string) {
    PyEq(Flag(fields, field), PBool(true))
  }

  /** A flag the loop accepts: `== True` or `== False` (so 1 and 0 do too). */
  predicate FlagValid(fields: seq<(string, PyVal)>, field: string) {
    PyEq(Flag(fields, field), PBool(true)) || PyEq(Flag(fields, field), PBool(false))
  }

  /** The `fieldsList` loop over `names`, as it stands after each field:
      a flag equal to `True` appends the field, one equal to `False` skips
      it, and any other flag (`None` included) raises `ValueError`. */
  function FieldsOf(fields: seq<(string, PyVal)>, names: seq<string>): Result<seq<string>> {
    if names == [] then Ok([])
    else
      var done :- FieldsOf(fields, names[..|names| - 1]);
      var field := names[|names| - 1];
      if FlagOn(fields, field) then Ok(done + [field])
      else if PyEq(Flag(fields, field), PBool(false)) then Ok(done)
      else Err(ValueError)
  }

  function On(fields: seq<(string, PyVal)>): string -> bool {
    (field: string) => FlagOn(fields, field)
  }

  predicate AllValid(fields: seq<(string, PyVal)>, names: seq<string>) {
    forall i :: 0 <= i < |names| ==> FlagValid(fields, names[i])
  }

  lemma AllValidSnoc(fields: seq<(string, PyVal)>, names: seq<string>)
    requires names != []
    ensures AllValid(fields, names) <==> AllValid(fields, names[..|names| - 1]) && FlagValid(fields, names[|names| - 1])
  {
    var init := names[..|names| - 1];
    assert forall i :: 0 <= i < |init| ==> init[i] == names[i];
  }

  /** The loop passes iff every flag is a boolean one, and then lists
      exactly the fields flagged on, in the order they were examined. */
  lemma {:induction false} FieldsOfShape(fields: seq<(string, PyVal)>, names: seq<string>)
    ensures FieldsOf(fields, names).Ok? <==> AllValid(fields, names)
    ensures FieldsOf(fields, names).Err? ==> FieldsOf(fields, names).error == ValueError
    ensures FieldsOf(fields, names).Ok? ==> FieldsOf(fields, names).value == Filter(names, On(fields))
  {
    if names != [] {
      var init := names[..|names| - 1];
      var last := names[|names| - 1];
      FieldsOfShape(fields, init);
      AllValidSnoc(fields, names);
      assert On(fields)(last) == FlagOn(fields, last);
      assert FlagValid(fields, last) <==> FlagOn(fields, last) || PyEq(Flag(fields, last), PBool(false));
    }
  }

  /** The loop of `keyword_query` that builds `fieldsList`. */
  method FieldsList(fields: seq<(string, PyVal)>) returns (r: Result<seq<string>>)
    ensures r == FieldsOf(fields, QueryFields)
  {
    var fieldsList: seq<string> := [];
    for i := 0 to |QueryFields|
      invariant FieldsOf(fields, QueryFields[..i]) == Ok(fieldsList)
    {
      var field := QueryFields[i];
      assert QueryFields[..i + 1][..i] == QueryFields[..i];
      var inQueryFields := Flag(fields, field);
      if PyEq(inQueryFields, PBool(true)) {
        fieldsList := fieldsList + [field];
      } else if PyEq(inQueryFields, PBool(false)) {
      } else {
        FieldsOfShape(fields, QueryFields);
        assert !FlagValid(fields, QueryFields[i]);
        assert !AllValid(fields, QueryFields);
        return Err(ValueError);
      }
    }
    assert QueryFields[..|QueryFields|] == QueryFields;
    r := Ok(fieldsList);
  }

  /** `" OR ".join(querystring.strip().split())`: only a string has
      `strip`; bytes do, but joining them into a `str` raises `TypeError`
      (taken as always raising here). */
  function OrQuery(querystring: PyVal): (r: Result<string>)
    ensures r.Ok? <==> querystring.PStr?
    ensures r.Ok? ==> r.value == Query(querystring.s, "OR")
  {
    match querystring
    case PStr(q) => Ok(Query(q, "OR"))
    case PBytes(_) => Err(TypeError)
    case _ => Err(AttributeError)
  }

  /** What a whoosh hit carries on to the rows: its rank and matched terms. */
  type HitInfo = (real, seq<string>)

  function IdKey(id: NewsId): SortKey {
    Num(id as real)
  }

  function HitRank(info: HitInfo): SortKey {
    Num(info.0)
  }

  function UnescapedHit(p: (Article, HitInfo)): (Article, HitInfo) {
    (UnescapedArticle(p.0), p.1)
  }

  /** Past its checks, `keyword_query` is the join with the hits of the
      `OR` query over the flagged fields. */
  lemma KeywordQueryPasses(table: seq<Article>, search: (string, seq<string>, PyVal) -> seq<(NewsId, HitInfo)>,
                           querystring: string, fields: seq<(string, PyVal)>, limit: PyVal)
    requires querystring != [] && fields != [] && Truthy(limit)
    requires forall i :: 0 <= i < |QueryFields| ==> FlagValid(fields, QueryFields[i])
    ensures KeywordQuerySpec(table, search, PStr(querystring), Some(fields), limit)
         == JoinedHits(table, search(Query(querystring, "OR"), Filter(QueryFields, On(fields)), limit))
  {
    FieldsOfShape(fields, QueryFields);
    var fieldsList := FieldsOf(fields, QueryFields);
    assert fieldsList == Ok(Filter(QueryFields, On(fields)));
    assert Truthy(PStr(querystring));
    assert OrQuery(PStr(querystring)) == Ok(Query(querystring, "OR"));
  }

  /** The tail of `keyword_query` once the hits are known. */
  function JoinedHits(table: seq<Article>, hits: seq<(NewsId, HitInfo)>): Result<seq<(Article, HitInfo)>> {
    var ranked :- RankJoin(Filter(table, Wanted(Firsts(hits))), hits, ArticleId, IdKey, HitRank, false);
    Ok(MapSeq(UnescapedHit, ranked))
  }

  /** `keyword_query(querystring, fields, limit)`, with the index search as
      the function `search` from the query, the fields and the limit to
      `(newsID, rank, terms)` hits, best first. Each row gets the rank and
      terms of the hit at its position once both lists are sorted by
      newsID, and the rows are returned by ascending rank, unescaped. */
  function KeywordQuerySpec(table: seq<Article>, search: (string, seq<string>, PyVal) -> seq<(NewsId, HitInfo)>,
                            querystring: PyVal, fields: Option<seq<(string, PyVal)>>, limit: PyVal)
    : Result<seq<(Article, HitInfo)>>
  {
    if !Truthy(querystring) then Err(ValueError)
    else if fields.None? || fields.value == [] then Err(ValueError)
    else if !Truthy(limit) then Err(ValueError)
    else
      var fieldsList :- FieldsOf(fields.value, QueryFields);
      var query :- OrQuery(querystring);
      JoinedHits(table, search(query, fieldsList, limit))
  }

  method KeywordQuery(table: seq<Article>, search: (string, seq<string>, PyVal) -> seq<(NewsId, HitInfo)>,
                      querystring: PyVal, fields: Option<seq<(string, PyVal)>>, limit: PyVal)
    returns (r: Result<seq<(Article, HitInfo)>>)
    ensures r == KeywordQuerySpec(table, search, querystring, fields, limit)
  {
    if !Truthy(querystring) {
      return Err(ValueError);
    }
    if fields.None? || fields.value == [] {
      return Err(ValueError);
    }
    if !Truthy(limit) {
      return Err(ValueError);
    }
    var fieldsList :- FieldsList(fields.value);
    var query :- OrQuery(querystring);
    var resultsList := search(query, fieldsList, limit);
    var articleList := Filter(table, Wanted(Firsts(resultsList)));
    var ranked :- RankJoinRows(articleList, resultsList, ArticleId, IdKey, HitRank, false);
    r := Ok(MapSeq(UnescapedHit, ranked));
  }

  /** The checks of `keyword_query`: a falsy query string, missing or empty
      fields, a falsy limit and a flag that is not boolean each raise
      `ValueError`, and a non-string query string has no `strip`. */
  lemma KeywordQueryChecks(table: seq<Article>, search: (string, seq<string>, PyVal) -> seq<(NewsId, HitInfo)>,
                           querystring: PyVal, fields: Option<seq<(string, PyVal)>>, limit: PyVal)
    ensures !Truthy(querystring) || fields.None? || fields == Some([]) || !Truthy(limit) ==>
      KeywordQuerySpec(table, search, querystring, fields, limit) == Err(ValueError)
    ensures Truthy(querystring) && fields.Some? && fields.value != [] && Truthy(limit) ==>
      (exists i :: 0 <= i < |QueryFields| && !FlagValid(fields.value, QueryFields[i])) ==>
      KeywordQuerySpec(table, search, querystring, fields, limit) == Err(ValueError)
    ensures Truthy(querystring) && fields.Some? && fields.value != [] && Truthy(limit) && !querystring.PStr? ==>
      KeywordQuerySpec(table, search, querystring, fields, limit).Err?
  {
    if fields.Some? {
      FieldsOfShape(fields.value, QueryFields);
    }
  }

  function IdKeyOf(): NewsId -> SortKey {
    IdKey
  }

  lemma IdKeyInjective()
    ensures forall x, y :: IdKey(x) == IdKey(y) ==> x == y
  {
  }

  /** When the checks pass and the table holds exactly one row for every
      hit, the search is asked for the `OR` query over exactly the flagged
      fields, every hit's row comes back unescaped with that hit's own rank
      and terms, and the rows are in ascending rank. */
  lemma KeywordQueryAligned(table: seq<Article>, search: (string, seq<string>, PyVal) -> seq<(NewsId, HitInfo)>,
                            querystring: string, fields: seq<(string, PyVal)>, limit: PyVal)
    requires querystring != [] && fields != [] && Truthy(limit)
    requires forall i :: 0 <= i < |QueryFields| ==> FlagValid(fields, QueryFields[i])
    requires var hits := search(Query(querystring, "OR"), Filter(QueryFields, On(fields)), limit);
      multiset(MapSeq(ArticleId, Filter(table, Wanted(Firsts(hits))))) == multiset(Firsts(hits))
    ensures KeywordQuerySpec(table, search, PStr(querystring), Some(fields), limit).Ok?
    ensures var hits := search(Query(querystring, "OR"), Filter(QueryFields, On(fields)), limit);
      var r := KeywordQuerySpec(table, search, PStr(querystring), Some(fields), limit).value;
      && Sorted(r, ByRank(HitRank), false)
      && |r| == |hits|
      && forall p :: p in r ==> exists s :: s in table && p.0 == UnescapedArticle(s) && (s.newsID, p.1) in hits
  {
    var hits := search(Query(querystring, "OR"), Filter(QueryFields, On(fields)), limit);
    KeywordQueryPasses(table, search, querystring, fields, limit);
    AlignedHits(table, hits);
  }

  lemma AlignedHits(table: seq<Article>, hits: seq<(NewsId, HitInfo)>)
    requires multiset(MapSeq(ArticleId, Filter(table, Wanted(Firsts(hits))))) == multiset(Firsts(hits))
    ensures JoinedHits(table, hits).Ok?
    ensures var r := JoinedHits(table, hits).value;
      && Sorted(r, ByRank(HitRank), false)
      && |r| == |hits|
      && forall p :: p in r ==> exists s :: s in table && p.0 == UnescapedArticle(s) && (s.newsID, p.1) in hits
  {
    var rows := Filter(table, Wanted(Firsts(hits)));
    AlignedRanked(rows, hits);
    var ranked := RankJoin(rows, hits, ArticleId, IdKey, HitRank, false).value;
    UnescapedSorted(ranked);
    UnescapedPairs(table, rows, ranked, hits);
  }

  /** The positional join of rows that match the hits one for one. */
  lemma AlignedRanked(rows: seq<Article>, hits: seq<(NewsId, HitInfo)>)
    requires multiset(MapSeq(ArticleId, rows)) == multiset(Firsts(hits))
    ensures RankJoin(rows, hits, ArticleId, IdKey, HitRank, false).Ok?
    ensures var ranked := RankJoin(rows, hits, ArticleId, IdKey, HitRank, false).value;
      && Sorted(ranked, ByRank(HitRank), false)
      && |ranked| == |hits|
      && forall k :: 0 <= k < |ranked| ==> ranked[k].0 in rows && (ranked[k].0.newsID, ranked[k].1) in hits
  {
    IdKeyInjective();
    RankJoinAligned(rows, hits, ArticleId, IdKey, HitRank, false);
    var ranked := RankJoin(rows, hits, ArticleId, IdKey, HitRank, false).value;
    assert |rows| == |hits| by {
      assert |MapSeq(ArticleId, rows)| == |multiset(Firsts(hits))|;
    }
    assert |ranked| == |rows| by {
      assert |Firsts(ranked)| == |multiset(rows)|;
    }
    forall k | 0 <= k < |ranked| ensures ranked[k].0 in rows && (ranked[k].0.newsID, ranked[k].1) in hits {
      RankedRow(rows, ranked, k);
      assert ranked[k] in ranked;
      assert ArticleId(ranked[k].0) == ranked[k].0.newsID;
    }
  }

  /** Unescaping keeps each row's hit and its origin in the table. */
  lemma UnescapedPairs(table: seq<Article>, rows: seq<Article>, ranked: seq<(Article, HitInfo)>, hits: seq<(NewsId, HitInfo)>)
    requires forall x :: x in rows ==> x in table
    requires forall k :: 0 <= k < |ranked| ==> ranked[k].0 in rows && (ranked[k].0.newsID, ranked[k].1) in hits
    ensures forall p :: p in MapSeq(UnescapedHit, ranked) ==> exists s :: s in table && p.0 == UnescapedArticle(s) && (s.newsID, p.1) in hits
  {
    var r := MapSeq(UnescapedHit, ranked);
    forall p | p in r ensures exists s :: s in table && p.0 == UnescapedArticle(s) && (s.newsID, p.1) in hits {
      var k :| 0 <= k < |r| && r[k] == p;
      assert p.0 == UnescapedArticle(ranked[k].0) && p.1 == ranked[k].1;
    }
  }

  lemma RankedRow(rows: seq<Article>, ranked: seq<(Article, HitInfo)>, k: nat)
    requires multiset(Firsts(ranked)) == multiset(rows) && k < |ranked|
    ensures ranked[k].0 in rows
  {
    assert Firsts(ranked)[k] == ranked[k].0;
    assert ranked[k].0 in multiset(Firsts(ranked));
  }

  /** Unescaping keeps each rank in place, so the order by rank survives. */
  lemma UnescapedSorted(ranked: seq<(Article, HitInfo)>)
    requires Sorted(ranked, ByRank(HitRank), false)
    ensures Sorted(MapSeq(UnescapedHit, ranked), ByRank(HitRank), false)
  {
    var r := MapSeq(UnescapedHit, ranked);
    forall i, j | 0 <= i < j < |r| ensures !Before(r[j], r[i], ByRank(HitRank), false) {
      assert ByRank(HitRank)(r[i]) == ByRank(HitRank)(ranked[i]);
      assert ByRank(HitRank)(r[j]) == ByRank(HitRank)(ranked[j]);
      assert !Before(ranked[j], ranked[i], ByRank(HitRank), false);
    }
  }

  // ---------------------------------------------------------------------
  // get_random_news

  /** `get_random_news(count)`: the count check, then `count` draws of
      `random.randint(1, count(*))` (the `i`-th draw being `draws(i)`), then
      the rows of the drawn IDs. */
  function RandomNews(table: seq<Article>, count: PyVal, draws: nat -> nat): Result<seq<Article>> {
    var n :- PositiveInt(count);
    var ids :- MinipgmApiDb.RandomIds(n, |table|, draws);
    Ok(NewsById(table, ids))
  }

  /** A bad count and an empty table raise `ValueError`; otherwise the
      answer is the rows of exactly `count` IDs, each between 1 and the
      number of rows. */
  lemma RandomNewsShape(table: seq<Article>, count: PyVal, draws: nat -> nat)
    ensures RandomNews(table, count, draws).Err? <==> !(IsInt(count) && IntOf(count) >= 1) || table == []
    ensures RandomNews(table, count, draws).Err? ==> RandomNews(table, count, draws).error == ValueError
    ensures RandomNews(table, count, draws).Ok? ==>
      var ids := MinipgmApiDb.RandomIds(IntOf(count), |table|, draws).value;
      && |ids| == IntOf(count)
      && (forall i :: 0 <= i < |ids| ==> 1 <= ids[i] <= |table|)
      && RandomNews(table, count, draws).value == NewsById(table, ids)
  {
    if IsInt(count) && IntOf(count) >= 1 {
      MinipgmApiDb.RandomIdsShape(IntOf(count), |table|, draws);
    }
  }

  // ---------------------------------------------------------------------
  // _get_recommend_news and recommend_by_ID

  /** The formatted similarity, compared as a string by the final sort. */
  function SimKey(similarity: string): SortKey {
    Text(similarity)
  }

  /** `{newsID: "%.4f" % similarity}`, with the float formatting as the
      function `format4`. */
  function Similarities(tops: seq<(NewsId, real)>, format4: real -> string): (r: seq<(NewsId, string)>)
    ensures |r| == |tops| && forall i :: 0 <= i < |r| ==> r[i] == (tops[i].0, format4(tops[i].1))
  {
    MapSeq((p: (NewsId, real)) => (p.0, format4(p.1)), tops)
  }

  /** The rows of the chosen articles, each with its similarity, sorted on
      the formatted similarity, highest first. */
  function RankedNews(table: seq<Article>, tops: seq<(NewsId, real)>, format4: real -> string): Result<seq<(Article, string)>> {
    RankByLookup(NewsById(table, Firsts(tops)), Similarities(tops, format4), ArticleId, SimKey, true)
  }

  /** Which recommender `method` names: `None` and a name other than `"Tc"`
      and `"CosDist"` raise `ValueError`, a list `TypeError`. */
  function MethodCheck(algorithm: PyVal): (r: Option<PyError>)
    ensures r.None? <==> algorithm == PStr("Tc") || algorithm == PStr("CosDist")
  {
    if algorithm == PNone then Some(ValueError)
    else if algorithm.PList? then Some(TypeError)
    else if algorithm != PStr("Tc") && algorithm != PStr("CosDist") then Some(ValueError)
    else None
  }

  /** `_get_recommend_news(words, count, method)`. The `"Tc"` branch scores
      the bin of `words` over `wordsList` against every stored bin and keeps
      the best `count`; the cosine branch is given as its outcome
      `cosTops`. The Tanimoto score of an empty query bin is NaN, so the
      `"Tc"` branch asks for a query with at least one vocabulary word. */
  function RecommendNewsSpec(table: seq<Article>, words: seq<string>, count: int, algorithm: PyVal,
                             wordsList: seq<string>, binarize: seq<(NewsId, seq<bool>)>,
                             cosTops: seq<(NewsId, real)>, format4: real -> string)
    : Result<seq<(Article, string)>>
    requires algorithm == PStr("Tc") ==> Ones(Bin(words, wordsList)) > 0
  {
    match MethodCheck(algorithm)
    case Some(e) => Err(e)
    case None =>
      var tops :- if algorithm == PStr("Tc") then TopMatches(binarize, Bin(words, wordsList), count) else Ok(cosTops);
      RankedNews(table, tops, format4)
  }

  method GetRecommendNews(table: seq<Article>, words: seq<string>, count: int, algorithm: PyVal,
                          wordsList: seq<string>, binarize: seq<(NewsId, seq<bool>)>,
                          cosTops: seq<(NewsId, real)>, format4: real -> string)
    returns (r: Result<seq<(Article, string)>>)
    requires algorithm == PStr("Tc") ==> Ones(Bin(words, wordsList)) > 0
    ensures r == RecommendNewsSpec(table, words, count, algorithm, wordsList, binarize, cosTops, format4)
  {
    var bad := MethodCheck(algorithm);
    if bad.Some? {
      return Err(bad.value);
    }
    var tops: seq<(NewsId, real)>;
    if algorithm == PStr("Tc") {
      var thisBin := BuildBin(words, wordsList);
      var tcs :- ScoreAll(thisBin, binarize);
      tops := TakePy(SortBy(tcs, PairKey, true), count);
    } else {
      tops := cosTops;
    }
    var results := NewsById(table, Firsts(tops));
    var ranked :- AddRanks(results, Similarities(tops, format4), ArticleId);
    r := Ok(SortBy(ranked, ByRank(SimKey), true));
  }

  /** Every row handed to the similarity lookup has an entry. */
  lemma RankedNewsOk(table: seq<Article>, tops: seq<(NewsId, real)>, format4: real -> string)
    ensures RankedNews(table, tops, format4).Ok?
    ensures var r := RankedNews(table, tops, format4).value;
      && Sorted(r, ByRank(SimKey), true)
      && |r| <= |table|
      && forall p :: p in r ==> exists k :: 0 <= k < |tops| && tops[k].0 == p.0.newsID && p.1 == format4(tops[k].1)
  {
    var rows := NewsById(table, Firsts(tops));
    var sims := Similarities(tops, format4);
    NewsByIdIds(table, Firsts(tops));
    assert forall i :: 0 <= i < |rows| ==> ArticleId(rows[i]) in Firsts(sims) by {
      forall i | 0 <= i < |rows| ensures ArticleId(rows[i]) in Firsts(sims) {
        assert rows[i] in rows;
        var k :| 0 <= k < |tops| && Firsts(tops)[k] == rows[i].newsID;
        assert Firsts(sims)[k] == rows[i].newsID;
      }
    }
    RankByLookupShape(rows, sims, ArticleId, SimKey, true);
    var r := RankByLookup(rows, sims, ArticleId, SimKey, true).value;
    assert |r| == |rows| by {
      assert |Firsts(r)| == |multiset(rows)|;
    }
    forall p | p in r ensures exists k :: 0 <= k < |tops| && tops[k].0 == p.0.newsID && p.1 == format4(tops[k].1) {
      assert (ArticleId(p.0), p.1) in sims;
      var k :| 0 <= k < |sims| && sims[k] == (p.0.newsID, p.1);
    }
  }

  /** The method checks of `_get_recommend_news`, and its `"Tc"` branch: it
      fails only on a stored bin of another length, and otherwise returns
      rows of at most `count` articles, highest formatted similarity first,
      each row carrying the format of its own article's Tanimoto score,
      which is neither 0 nor 1. */
  lemma RecommendNewsShape(table: seq<Article>, words: seq<string>, count: int, algorithm: PyVal,
                           wordsList: seq<string>, binarize: seq<(NewsId, seq<bool>)>,
                           cosTops: seq<(NewsId, real)>, format4: real -> string)
    requires algorithm == PStr("Tc") ==> Ones(Bin(words, wordsList)) > 0
    ensures MethodCheck(algorithm).Some? ==>
      RecommendNewsSpec(table, words, count, algorithm, wordsList, binarize, cosTops, format4) == Err(MethodCheck(algorithm).value)
    ensures algorithm == PStr("Tc") ==>
      (RecommendNewsSpec(table, words, count, algorithm, wordsList, binarize, cosTops, format4).Err? <==>
        exists i :: 0 <= i < |binarize| && |binarize[i].1| != |wordsList|)
    ensures algorithm == PStr("Tc") && RecommendNewsSpec(table, words, count, algorithm, wordsList, binarize, cosTops, format4).Ok? ==>
      var r := RecommendNewsSpec(table, words, count, algorithm, wordsList, binarize, cosTops, format4).value;
      && Sorted(r, ByRank(SimKey), true)
      && (count >= 0 ==> |NewsIds(r)| <= count)
      && forall p :: p in r ==> ScoredAgainst(p, Bin(words, wordsList), binarize, format4)
  {
    if algorithm == PStr("Tc") {
      var q := Bin(words, wordsList);
      assert |q| == |wordsList|;
      TopMatchesError(binarize, q, count);
      var t := TopMatches(binarize, q, count);
      if t.Ok? {
        TcBranch(table, q, count, binarize, format4);
      }
    }
  }

  /** `p` carries the formatted Tanimoto score of a stored bin of its own
      article against the query bin `q`, a score that is neither 0 nor 1. */
  predicate ScoredAgainst(p: (Article, string), q: seq<bool>, binarize: seq<(NewsId, seq<bool>)>, format4: real -> string) {
    && Ones(q) > 0
    && exists i :: (0 <= i < |binarize| && binarize[i].0 == p.0.newsID && |binarize[i].1| == |q|
                    && Related(Tanimoto(q, binarize[i].1)) && p.1 == format4(Tanimoto(q, binarize[i].1)))
  }

  /** The distinct newsIDs of a result. */
  function NewsIds(r: seq<(Article, string)>): set<NewsId> {
    set p | p in r :: p.0.newsID
  }

  lemma TcBranch(table: seq<Article>, q: seq<bool>, count: int, binarize: seq<(NewsId, seq<bool>)>, format4: real -> string)
    requires Ones(q) > 0 && TopMatches(binarize, q, count).Ok?
    ensures var r := RankedNews(table, TopMatches(binarize, q, count).value, format4);
      && r.Ok?
      && Sorted(r.value, ByRank(SimKey), true)
      && (count >= 0 ==> |NewsIds(r.value)| <= count)
      && forall p :: p in r.value ==> ScoredAgainst(p, q, binarize, format4)
  {
    var tops := TopMatches(binarize, q, count).value;
    RankedNewsOk(table, tops, format4);
    TopMatchesSorted(binarize, q, count);
    var r := RankedNews(table, tops, format4).value;
    forall p | p in r ensures ScoredAgainst(p, q, binarize, format4) {
      var k :| 0 <= k < |tops| && tops[k].0 == p.0.newsID && p.1 == format4(tops[k].1);
      TopMatchesEntry(binarize, q, count, tops[k]);
      var i :| 0 <= i < |binarize| && binarize[i].0 == tops[k].0 && |binarize[i].1| == |q| && tops[k].1 == Tanimoto(q, binarize[i].1);
      RelatedIff(q, binarize[i].1);
    }
    if count >= 0 {
      IdsAmongTops(r, tops);
    }
  }

  lemma IdsAmongTops(r: seq<(Article, string)>, tops: seq<(NewsId, real)>)
    requires forall p :: p in r ==> exists k :: 0 <= k < |tops| && tops[k].0 == p.0.newsID
    ensures |NewsIds(r)| <= |tops|
  {
    var ids := set k | 0 <= k < |tops| :: tops[k].0;
    assert NewsIds(r) <= ids;
    SetOfIndexBound(tops);
    SubsetCard(NewsIds(r), ids);
  }

  lemma {:induction false} SetOfIndexBound(tops: seq<(NewsId, real)>)
    ensures |set k | 0 <= k < |tops| :: tops[k].0| <= |tops|
  {
    if tops != [] {
      var init := tops[..|tops| - 1];
      SetOfIndexBound(init);
      var a := set k | 0 <= k < |init| :: init[k].0;
      var b := set k | 0 <= k < |tops| :: tops[k].0;
      assert b == a + {tops[|tops| - 1].0} by {
        forall x | x in b ensures x in a + {tops[|tops| - 1].0} {
          var k :| 0 <= k < |tops| && tops[k].0 == x;
          if k < |init| { assert init[k] == tops[k]; }
        }
        forall x | x in a ensures x in b {
          var k :| 0 <= k < |init| && init[k].0 == x;
          assert tops[k] == init[k];
        }
      }
    }
  }

  lemma SubsetCard<T>(a: set<T>, b: set<T>)
    requires a <= b
    ensures |a| <= |b|
  {
    assert b == a + (b - a);
  }

  /** `recommend_by_ID(newsID, count, method)`: the newsID check, then
      `"Tc"` recommends from the stored fragments of that article (an
      unknown article raises `KeyError`), `"CosDist"` from the function
      `cosDist` standing for that branch, and any other method returns
      `None`. */
  function RecommendByIdSpec(table: seq<Article>, newsID: PyVal, count: int, algorithm: PyVal,
                             wordFrags: seq<(NewsId, seq<string>)>, wordsList: seq<string>, binarize: seq<(NewsId, seq<bool>)>,
                             cosDist: NewsId -> Result<seq<(NewsId, real)>>, format4: real -> string)
    : Result<Option<seq<(Article, string)>>>
    requires algorithm == PStr("Tc") && IsInt(newsID) && Lookup(wordFrags, IntOf(newsID)).Some? ==>
      Ones(Bin(Lookup(wordFrags, IntOf(newsID)).value, wordsList)) > 0
  {
    var id :- PositiveInt(newsID);
    if algorithm == PStr("Tc") then
      match Lookup(wordFrags, id)
      case None => Err(KeyError)
      case Some(words) =>
        var rows :- RecommendNewsSpec(table, words, count, algorithm, wordsList, binarize, [], format4);
        Ok(Some(rows))
    else if algorithm == PStr("CosDist") then
      var tops :- cosDist(id);
      var rows :- RecommendNewsSpec(table, [], count, algorithm, wordsList, binarize, tops, format4);
      Ok(Some(rows))
    else Ok(None)
  }

  /** A bad newsID raises `ValueError`; a method other than the two returns
      `None`; with `"Tc"`, the answer fails only for an article without
      stored fragments (`KeyError`) or a stored bin of another length, and
      otherwise lists rows of at most `count` articles, best first, each
      scored against the article's own keyword bin. */
  lemma RecommendByIdShape(table: seq<Article>, newsID: PyVal, count: int, algorithm: PyVal,
                           wordFrags: seq<(NewsId, seq<string>)>, wordsList: seq<string>, binarize: seq<(NewsId, seq<bool>)>,
                           cosDist: NewsId -> Result<seq<(NewsId, real)>>, format4: real -> string)
    requires algorithm == PStr("Tc") && IsInt(newsID) && Lookup(wordFrags, IntOf(newsID)).Some? ==>
      Ones(Bin(Lookup(wordFrags, IntOf(newsID)).value, wordsList)) > 0
    ensures PositiveInt(newsID).Err? ==>
      RecommendByIdSpec(table, newsID, count, algorithm, wordFrags, wordsList, binarize, cosDist, format4) == Err(ValueError)
    ensures PositiveInt(newsID).Ok? && algorithm != PStr("Tc") && algorithm != PStr("CosDist") ==>
      RecommendByIdSpec(table, newsID, count, algorithm, wordFrags, wordsList, binarize, cosDist, format4) == Ok(None)
    ensures PositiveInt(newsID).Ok? && algorithm == PStr("Tc") ==>
      var r := RecommendByIdSpec(table, newsID, count, algorithm, wordFrags, wordsList, binarize, cosDist, format4);
      && (r.Err? <==> IntOf(newsID) !in Firsts(wordFrags) || exists i :: 0 <= i < |binarize| && |binarize[i].1| != |wordsList|)
      && (IntOf(newsID) !in Firsts(wordFrags) ==> r == Err(KeyError))
      && (r.Ok? ==> r.value.Some?)
      && (r.Ok? ==> Sorted(r.value.value, ByRank(SimKey), true))
      && (r.Ok? && count >= 0 ==> |NewsIds(r.value.value)| <= count)
      && (r.Ok? ==> forall p :: p in r.value.value ==>
            ScoredAgainst(p, Bin(Lookup(wordFrags, IntOf(newsID)).value, wordsList), binarize, format4))
  {
    if PositiveInt(newsID).Ok? && algorithm == PStr("Tc") {
      var id := IntOf(newsID);
      if Lookup(wordFrags, id).Some? {
        var words := Lookup(wordFrags, id).value;
        RecommendNewsShape(table, words, count, algorithm, wordsList, binarize, [], format4);
      }
    }
  }

  /** `recommend_by_article(article, count, method)`: a missing article or
      method raises `ValueError`, and otherwise the segmented article goes to
      `_get_recommend_news`; `words` stands for `jieba.cut(article)`. */
  function RecommendByArticleSpec(table: seq<Article>, article: PyVal, words: seq<string>, count: int, algorithm: PyVal,
                                  wordsList: seq<string>, binarize: seq<(NewsId, seq<bool>)>,
                                  cosTops: seq<(NewsId, real)>, format4: real -> string)
    : Result<seq<(Article, string)>>
    requires algorithm == PStr("Tc") ==> Ones(Bin(words, wordsList)) > 0
  {
    if article == PNone then Err(ValueError)
    else if algorithm == PNone then Err(ValueError)
    else RecommendNewsSpec(table, words, count, algorithm, wordsList, binarize, cosTops, format4)
  }

  /** The view's own check of `method` adds nothing to that of
      `_get_recommend_news`: once an article is given, recommending by it is
      recommending by its words. So a bad method raises its error, and
      `"Tc"` fails only on a stored bin of another length and otherwise
      ranks at most `count` articles, best first, by their score against
      the article's own bin. */
  lemma RecommendByArticleShape(table: seq<Article>, article: PyVal, words: seq<string>, count: int, algorithm: PyVal,
                                wordsList: seq<string>, binarize: seq<(NewsId, seq<bool>)>,
                                cosTops: seq<(NewsId, real)>, format4: real -> string)
    requires algorithm == PStr("Tc") ==> Ones(Bin(words, wordsList)) > 0
    ensures article == PNone ==>
      RecommendByArticleSpec(table, article, words, count, algorithm, wordsList, binarize, cosTops, format4) == Err(ValueError)
    ensures article != PNone ==>
      RecommendByArticleSpec(table, article, words, count, algorithm, wordsList, binarize, cosTops, format4) ==
      RecommendNewsSpec(table, words, count, algorithm, wordsList, binarize, cosTops, format4)
    ensures article != PNone && MethodCheck(algorithm).Some? ==>
      RecommendByArticleSpec(table, article, words, count, algorithm, wordsList, binarize, cosTops, format4) == Err(MethodCheck(algorithm).value)
    ensures article != PNone && algorithm == PStr("Tc") ==>
      var r := RecommendByArticleSpec(table, article, words, count, algorithm, wordsList, binarize, cosTops, format4);
      && (r.Err? <==> exists i :: 0 <= i < |binarize| && |binarize[i].1| != |wordsList|)
      && (r.Ok? ==> Sorted(r.value, ByRank(SimKey), true))
      && (r.Ok? && count >= 0 ==> |NewsIds(r.value)| <= count)
      && (r.Ok? ==> forall p :: p in r.value ==> ScoredAgainst(p, Bin(words, wordsList), binarize, format4))
  {
    RecommendNewsShape(table, words, count, algorithm, wordsList, binarize, cosTops, format4);
  }
}
