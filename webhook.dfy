/** The official account's webhook (`app/views/pkuyouth_server.py`): the
    GET handshake that proves the server knows the token, and the POST
    handler that reads a pushed message and picks the passive reply: the
    default text, the "q" search over the article database by date or
    keyword, the administrator's menu command, the image echo and the
    welcome text for new followers. */
module Webhook {
  import opened Wrappers
  import opened Text
  import opened Collections
  import Utf8
  import Dates
  import ServerDb
  import Reply
  import Receive
  import Cryptor
  import Search
  import PyInt
  import Xml
  import opened PyValues

  const RootDefaultResponse: string := "Hello! This is the WebServer Platform of PKUYouth WeChat Official Account !"
  const DefaultPassiveReply: string := "谢谢您的留言，小编会尽快回复：）点击下方菜单栏，可以查看各栏目精选哟"
  const WelcomeReply: string := "欢迎关注北大青年！点击下方菜单栏，可以查看不同栏目的文章精选哟~"
  const QIntroReply: string :=
    "欢迎使用 q 检索！\n1) q yymm 搜索当月文章\n2) q yymmdd 搜索当日文章\n3) q [kw1 kw2 ...] or逻辑的关键词搜索"
  const VerificationError: string := "Verification Error !"
  const UnsupportedMessage: string := "[Unsupported Message]"
  const NoDayNews: string := "当日没有发文"
  const NoMonthNews: string := "当月没有发文"
  const EmptySearch: string := "搜索结果为空"

  /** `admin_cmd`: the one administrator command and the text its system
      message carries. */
  const MenuCommand: string := "chmenu"
  const MenuCommandText: string := "修改自定义菜单"

  /* ---------- GET: the token handshake ---------- */

  const HandshakeKeys: set<string> := {"signature", "timestamp", "nonce", "echostr"}

  /** The GET answer: with exactly the four handshake arguments, `echostr`
      when the SHA-1 (a parameter) of the sorted concatenation of token,
      timestamp and nonce is the signature, else the verification error;
      with any other arguments the platform banner. */
  function GetAnswer(args: map<string, string>, token: string, sha1: seq<byte> -> string): (r: string)
    ensures args.Keys != HandshakeKeys ==> r == RootDefaultResponse
    ensures args.Keys == HandshakeKeys ==>
      r == if Cryptor.SignatureOf([token, args["timestamp"], args["nonce"]], sha1) == args["signature"]
           then args["echostr"] else VerificationError
  {
    if args.Keys == HandshakeKeys then
      if Cryptor.SignatureOf([token, args["timestamp"], args["nonce"]], sha1) == args["signature"] then args["echostr"]
      else VerificationError
    else RootDefaultResponse
  }

  /** The handshake depends on timestamp and nonce only as strings sorted
      with the token: two requests that exchange them get the same answer. */
  lemma GetAnswerSymmetric(args: map<string, string>, swapped: map<string, string>, token: string, sha1: seq<byte> -> string)
    requires args.Keys == HandshakeKeys && swapped.Keys == HandshakeKeys
    requires swapped["timestamp"] == args["nonce"] && swapped["nonce"] == args["timestamp"]
    requires swapped["signature"] == args["signature"] && swapped["echostr"] == args["echostr"]
    ensures GetAnswer(args, token, sha1) == GetAnswer(swapped, token, sha1)
  {
    var a := [token, args["timestamp"], args["nonce"]];
    var b := [token, swapped["timestamp"], swapped["nonce"]];
    assert multiset(a) == multiset(b);
    Cryptor.SignatureOfPermutation(a, b, sha1);
  }

  /** A request with the right arguments and a correct signature gets its
      `echostr` back; a wrong signature never does unless `echostr` is the
      error text itself. */
  lemma GetAnswerEcho(args: map<string, string>, token: string, sha1: seq<byte> -> string)
    requires args.Keys == HandshakeKeys && args["echostr"] != VerificationError
    ensures GetAnswer(args, token, sha1) == args["echostr"] <==>
      Cryptor.SignatureOf([token, args["timestamp"], args["nonce"]], sha1) == args["signature"]
  {
  }

  /* ---------- the two regular expressions ---------- */

  /** `regex_q.match(s)` for `^q(.*?)$|q` with `re.I`: no match unless `s`
      starts with q or Q; then group 1 is what follows, up to the end or
      to a final newline, when the rest holds no other newline (`.` does
      not match one); otherwise the second alternative matches the bare q
      and group 1 is `None`. */
  function QMatch(s: string): (r: Option<Option<string>>)
    ensures r.None? <==> s == [] || (s[0] != 'q' && s[0] != 'Q')
    ensures r.Some? && r.value.Some? ==> '\n' !in r.value.value
  {
    if s == [] || (s[0] != 'q' && s[0] != 'Q') then None
    else
      var rest := s[1..];
      if '\n' !in rest then Some(Some(rest))
      else if rest[|rest| - 1] == '\n' && '\n' !in rest[..|rest| - 1] then Some(Some(rest[..|rest| - 1]))
      else Some(None)
  }

  /** On a line without newlines the group is everything after the q. */
  lemma QMatchLine(s: string)
    requires '\n' !in s && s != [] && (s[0] == 'q' || s[0] == 'Q')
    ensures QMatch(s) == Some(Some(s[1..]))
  {
    assert forall c :: c in s[1..] ==> c in s;
  }

  /** A newline inside the text leaves the lazy group no way to reach the
      end, so only the bare q matches. */
  lemma QMatchInnerNewline(s: string, k: nat)
    requires s != [] && (s[0] == 'q' || s[0] == 'Q')
    requires 1 <= k < |s| - 1 && s[k] == '\n'
    ensures QMatch(s) == Some(None)
  {
    var rest := s[1..];
    assert rest[k - 1] == '\n';
    if rest[|rest| - 1] == '\n' {
      assert rest[..|rest| - 1][k - 1] == '\n';
    }
  }

  /** The date a keyword spells for `regex_date`: six digits are yy mm dd,
      four are yy mm, anything else is a keyword. */
  datatype DateKey = Day(yy: string, mm: string, dd: string) | Month(yy: string, mm: string) | NotDate

  /** `regex_date.match(keyword)` for `^(\d{2})(\d{2})(\d{2})$|^(\d{2})(\d{2})$`:
      `$` also matches before one final newline. */
  function DateMatch(keyword: string): (r: DateKey)
    ensures r.Day? ==> |r.yy| == 2 && |r.mm| == 2 && |r.dd| == 2 && IsDigitStr(r.yy + r.mm + r.dd)
    ensures r.Month? ==> |r.yy| == 2 && |r.mm| == 2 && IsDigitStr(r.yy + r.mm)
  {
    var t := if keyword != [] && keyword[|keyword| - 1] == '\n' then keyword[..|keyword| - 1] else keyword;
    if |t| == 6 && IsDigitStr(t) then
      assert t == t[..2] + t[2..4] + t[4..];
      Day(t[..2], t[2..4], t[4..])
    else if |t| == 4 && IsDigitStr(t) then
      assert t == t[..2] + t[2..];
      Month(t[..2], t[2..])
    else NotDate
  }

  /** On text without a final newline the match reads the digits exactly:
      a keyword is a day iff it is six digits, a month iff it is four. */
  lemma DateMatchDigits(keyword: string)
    requires keyword == [] || keyword[|keyword| - 1] != '\n'
    ensures DateMatch(keyword).Day? <==> |keyword| == 6 && IsDigitStr(keyword)
    ensures DateMatch(keyword).Month? <==> |keyword| == 4 && IsDigitStr(keyword)
    ensures DateMatch(keyword).Day? ==> DateMatch(keyword).yy + DateMatch(keyword).mm + DateMatch(keyword).dd == keyword
    ensures DateMatch(keyword).Month? ==> DateMatch(keyword).yy + DateMatch(keyword).mm == keyword
  {
    var r := DateMatch(keyword);
    if r.Day? {
      assert keyword == keyword[..2] + keyword[2..4] + keyword[4..];
    } else if r.Month? {
      assert keyword == keyword[..2] + keyword[2..];
    }
  }

  /* ---------- POST: picking the reply ---------- */

  /** What the handler answers: a reply message of one of the four kinds,
      a plain string, or nothing (an unhandled message is only logged). */
  datatype Answer =
    | TextReply(content: string)
    | NewsReply(items: seq<Reply.Article>)
    | ImageReply(mediaId: Option<string>)
    | SystemReply(content: string)
    | Plain(s: string)
    | NoReply

  /** The database behind the search: its article table, the publishing
      dates, the search index and the index's scorer. */
  datatype Store = Store(table: seq<ServerDb.NewsRow>, published: seq<Dates.Date>, idx: ServerDb.Index,
                         scorer: (string, seq<string>) -> seq<ServerDb.Doc>)

  /** SQLite's `date()` only yields real calendar dates. */
  predicate StoreValid(db: Store) {
    forall i :: 0 <= i < |db.published| ==> Dates.IsCalendarDate(db.published[i])
  }

  /** The fields `ArticleMsg` takes from a row. */
  function ArticleOf(row: ServerDb.NewsRow): Reply.Article {
    Reply.Article(row.title, row.digest, row.coverUrl, row.newsUrl)
  }

  /** `"{time} {title}"` for the month listing. */
  function ListingLine(row: ServerDb.NewsRow): string {
    row.time + " " + row.title
  }

  /** `q yymmdd`: the validator's message when the day is refused, else the
      day's articles as news, or `NoDayNews`. The date check fails only
      for an empty table or an unparsable field. */
  function DayAnswer(y: string, m: string, d: string, db: Store): (r: Result<Answer>)
    requires StoreValid(db)
    ensures r.Err? <==> ServerDb.IsValidDate(db.published, y, m, Some(d)).Err?
    ensures r.Err? ==> r.error == TypeError || r.error == ValueError
  {
    ServerDb.IsValidDateShape(db.published, y, m, Some(d));
    var verdict :- ServerDb.IsValidDate(db.published, y, m, Some(d));
    if !verdict.0 then Ok(TextReply(verdict.1))
    else
      var rows := ServerDb.SearchByDate(db.table, y, m, Some(d));
      Ok(if rows != [] then NewsReply(MapSeq(ArticleOf, rows)) else TextReply(NoDayNews))
  }

  /** `q yymm`: the validator's message when the month is refused, else one
      "time title" line per article, or `NoMonthNews`. */
  function MonthAnswer(y: string, m: string, db: Store): (r: Result<Answer>)
    requires StoreValid(db)
    ensures r.Err? <==> ServerDb.IsValidDate(db.published, y, m, None).Err?
    ensures r.Err? ==> r.error == TypeError || r.error == ValueError
  {
    ServerDb.IsValidDateShape(db.published, y, m, None);
    var verdict :- ServerDb.IsValidDate(db.published, y, m, None);
    if !verdict.0 then Ok(TextReply(verdict.1))
    else
      var rows := ServerDb.SearchByDate(db.table, y, m, None);
      Ok(if rows != [] then TextReply(Join("\n", MapSeq(ListingLine, rows))) else TextReply(NoMonthNews))
  }

  /** `q kw1 kw2 ...`: the first eight hits as news, or `EmptySearch`. */
  function SearchAnswer(keyword: string, db: Store): (r: Result<Answer>)
    ensures r.Err? <==> ServerDb.SearchByKeywordSpec(db.table, db.idx, db.scorer, keyword, 8).Err?
    ensures r.Err? ==> r.error == KeyError
  {
    SearchFails(keyword, db);
    var hits :- ServerDb.SearchByKeywordSpec(db.table, db.idx, db.scorer, keyword, 8);
    Ok(if hits == [] then TextReply(EmptySearch) else NewsReply(MapSeq((p: (ServerDb.NewsRow, nat)) => ArticleOf(p.0), hits)))
  }

  /** With a positive limit the index always answers; only the join of
      rows and hits can fail, when the table has more rows for the hits
      than there are hits. */
  lemma SearchFails(keyword: string, db: Store)
    ensures var r := ServerDb.SearchByKeywordSpec(db.table, db.idx, db.scorer, keyword, 8);
      r.Err? ==> r.error == KeyError
  {
    ServerDb.SearchByKeywordPasses(db.table, db.idx, db.scorer, keyword, 8);
  }

  /** The answer to a `q` keyword, already stripped and not blank: a date
      when it spells one, else a keyword search. */
  function KeywordAnswer(keyword: string, db: Store): (r: Result<Answer>)
    requires StoreValid(db)
    ensures r.Err? ==> r.error != NameError
  {
    match DateMatch(keyword)
    case Day(y, m, d) => DayAnswer(y, m, d, db)
    case Month(y, m) => MonthAnswer(y, m, db)
    case NotDate => SearchAnswer(keyword, db)
  }

  /** The answer to a text message's content. `None` content (an empty
      Content element) has no `lower()`: `AttributeError`. The menu
      command also triggers the menu update, a network call left out. */
  function TextAnswer(content: Option<string>, isAdmin: bool, db: Store): (r: Result<Answer>)
    requires StoreValid(db)
    ensures content.None? ==> r == Err(AttributeError)
    ensures r.Err? ==> r.error != NameError
  {
    match content
    case None => Err(AttributeError)
    case Some(c) =>
      if c == UnsupportedMessage then Ok(TextReply(c))
      else if Lower(c) == MenuCommand then
        if !isAdmin then Ok(TextReply(DefaultPassiveReply)) else Ok(SystemReply(MenuCommandText))
      else
        QAnswer(Strip(c), db)
  }

  /** The answer to any other (stripped) text: the default reply unless it
      is a q command, the introduction for a q without keyword, else the
      search. */
  function QAnswer(text: string, db: Store): (r: Result<Answer>)
    requires StoreValid(db)
    ensures QMatch(text).None? ==> r == Ok(TextReply(DefaultPassiveReply))
    ensures r.Err? ==> r.error != NameError
  {
    match QMatch(text)
    case None => Ok(TextReply(DefaultPassiveReply))
    case Some(None) => Ok(TextReply(QIntroReply))
    case Some(Some(g)) =>
      if Strip(g) == [] then Ok(TextReply(QIntroReply))
      else KeywordAnswer(Strip(g), db)
  }

  /** An attribute of the received message object. */
  function Attr(attrs: Receive.Attrs, key: string): (r: Result<Option<string>>)
    ensures r.Ok? <==> key in attrs
    ensures r.Err? ==> r.error == AttributeError
  {
    if key in attrs then Ok(attrs[key]) else Err(AttributeError)
  }

  /** The handler for a parsed message, as written: the sender (the
      message's FromUserName) is checked against the administrators for
      the menu command; an `unsubscribe` event leaves `replyMsg` unbound,
      so sending it raises `UnboundLocalError`, a `NameError`. */
  function Handle(parsed: Receive.Parsed, admins: set<string>, db: Store): (r: Result<Answer>)
    requires StoreValid(db)
    ensures parsed.Raw? ==> r == Ok(NoReply)
  {
    match parsed
    case Raw(_) => Ok(NoReply)
    case Msg(kind, attrs) =>
      match kind
      case TextMessage =>
        var toUser :- Attr(attrs, "FromUserName");
        var content :- Attr(attrs, "Content");
        TextAnswer(content, toUser.Some? && toUser.value in admins, db)
      case ImageMessage =>
        var mediaId :- Attr(attrs, "MediaId");
        Ok(ImageReply(mediaId))
      case FollowEvent => Ok(TextReply(WelcomeReply))
      case UnFollowEvent => Err(NameError)
  }

  /** The handler as evidently intended: an unsubscribe needs no reply. */
  function HandleFixed(parsed: Receive.Parsed, admins: set<string>, db: Store): (r: Result<Answer>)
    requires StoreValid(db)
    ensures parsed.Raw? ==> r == Ok(NoReply)
  {
    match parsed
    case Msg(UnFollowEvent, _) => Ok(NoReply)
    case _ => Handle(parsed, admins, db)
  }

  const PostKeys: set<string> := {"signature", "nonce", "openid", "timestamp", "encrypt_type", "msg_signature"}

  /** The POST answer as written: with exactly the six push arguments the
      body is decrypted (the outcome of `Cryptor.decrypt` is a parameter),
      parsed and handled by `Handle`, so an unsubscribe event raises;
      otherwise the default passive text, unencrypted. */
  function Post(argKeys: set<string>, decrypted: Result<string>, parse: string -> Option<Xml.Element>,
                admins: set<string>, db: Store): (r: Result<Answer>)
    requires StoreValid(db)
    ensures argKeys != PostKeys ==> r == Ok(Plain(DefaultPassiveReply))
    ensures argKeys == PostKeys && decrypted.Err? ==> r == Err(decrypted.error)
    ensures argKeys == PostKeys && decrypted.Ok? ==>
      match Receive.ParseMsg(decrypted.value, parse)
      case Err(e) => r == Err(e)
      case Ok(parsed) => r == Handle(parsed, admins, db)
  {
    if argKeys != PostKeys then Ok(Plain(DefaultPassiveReply))
    else
      var xml :- decrypted;
      var parsed :- Receive.ParseMsg(xml, parse);
      Handle(parsed, admins, db)
  }

  /** The POST answer with the corrected handler `HandleFixed`. */
  function PostFixed(argKeys: set<string>, decrypted: Result<string>, parse: string -> Option<Xml.Element>,
                     admins: set<string>, db: Store): (r: Result<Answer>)
    requires StoreValid(db)
    ensures argKeys != PostKeys ==> r == Ok(Plain(DefaultPassiveReply))
    ensures argKeys == PostKeys && decrypted.Err? ==> r == Err(decrypted.error)
    ensures argKeys == PostKeys && decrypted.Ok? ==>
      match Receive.ParseMsg(decrypted.value, parse)
      case Err(e) => r == Err(e)
      case Ok(parsed) => r == HandleFixed(parsed, admins, db)
  {
    if argKeys != PostKeys then Ok(Plain(DefaultPassiveReply))
    else
      var xml :- decrypted;
      var parsed :- Receive.ParseMsg(xml, parse);
      HandleFixed(parsed, admins, db)
  }

  /** The view as written and the corrected one differ only on a pushed
      unsubscribe event: there the one as written raises `NameError` and
      the corrected one sends no reply. The corrected view never raises
      `NameError`. */
  lemma PostFixedAgrees(argKeys: set<string>, decrypted: Result<string>, parse: string -> Option<Xml.Element>,
                        admins: set<string>, db: Store)
    requires StoreValid(db)
    ensures var unfollow := argKeys == PostKeys && decrypted.Ok? &&
        Receive.ParseMsg(decrypted.value, parse).Ok? &&
        Receive.ParseMsg(decrypted.value, parse).value.Msg? &&
        Receive.ParseMsg(decrypted.value, parse).value.kind == Receive.UnFollowEvent;
      (unfollow ==> Post(argKeys, decrypted, parse, admins, db) == Err(NameError) &&
                    PostFixed(argKeys, decrypted, parse, admins, db) == Ok(NoReply)) &&
      (!unfollow ==> PostFixed(argKeys, decrypted, parse, admins, db) == Post(argKeys, decrypted, parse, admins, db))
    ensures PostFixed(argKeys, decrypted, parse, admins, db).Err? ==>
      PostFixed(argKeys, decrypted, parse, admins, db).error != NameError ||
      (argKeys == PostKeys && decrypted == Err(NameError))
  {
    if argKeys == PostKeys && decrypted.Ok? {
      var p := Receive.ParseMsg(decrypted.value, parse);
      if p.Ok? {
        HandleFixedEvents(p.value, admins, db);
        if p.value.Msg? && p.value.kind == Receive.UnFollowEvent {
          UnfollowRaises(p.value.attrs, admins, db);
        }
      } else {
        Receive.ParseMsgErrors(decrypted.value, parse);
      }
    }
  }

  /* ---------- what the handler replies ---------- */

  /** The menu command is recognised in any letter case; a non-administrator
      gets the default reply and an administrator the system message. */
  lemma AdminCommand(c: string, isAdmin: bool, db: Store)
    requires StoreValid(db) && Lower(c) == MenuCommand
    ensures TextAnswer(Some(c), isAdmin, db) ==
      if isAdmin then Ok(SystemReply(MenuCommandText)) else Ok(TextReply(DefaultPassiveReply))
  {
    assert |c| == 6;
    assert c != UnsupportedMessage;
  }

  /** Text that, stripped, starts with q or Q and has nothing but blanks
      after it gets the q introduction. */
  lemma QIntro(c: string, isAdmin: bool, db: Store)
    requires StoreValid(db)
    requires Strip(c) != [] && (Strip(c)[0] == 'q' || Strip(c)[0] == 'Q')
    requires '\n' !in Strip(c) && Strip(Strip(c)[1..]) == []
    ensures TextAnswer(Some(c), isAdmin, db) == Ok(TextReply(QIntroReply))
  {
    NotCommand(c);
    QMatchLine(Strip(c));
  }

  /** Text whose stripped form starts with q: neither the unsupported
      marker nor the menu command. */
  lemma NotCommand(c: string)
    requires Strip(c) != [] && (Strip(c)[0] == 'q' || Strip(c)[0] == 'Q')
    ensures c != UnsupportedMessage && Lower(c) != MenuCommand
  {
    NotUnsupported(c);
    NotMenuCommand(c);
  }

  lemma NotUnsupported(c: string)
    requires Strip(c) != [] && Strip(c)[0] != '['
    ensures c != UnsupportedMessage
  {
    StripHead(c);
  }

  lemma NotMenuCommand(c: string)
    requires Strip(c) != [] && Strip(c)[0] != 'c' && Strip(c)[0] != 'C'
    ensures Lower(c) != MenuCommand
  {
    StripHead(c);
    CommandHead(c);
  }

  /** A string that lower-cases to the menu command starts with c or C. */
  lemma CommandHead(c: string)
    ensures Lower(c) == MenuCommand ==> c != [] && (c[0] == 'c' || c[0] == 'C')
  {
    if Lower(c) == MenuCommand {
      assert LowerChar(c[0]) == Lower(c)[0];
    }
  }

  /** Text whose stripped form does not start with q or Q (and that is
      neither the unsupported marker nor the menu command) gets the
      default reply. */
  lemma DefaultReply(c: string, isAdmin: bool, db: Store)
    requires StoreValid(db)
    requires c != UnsupportedMessage && Lower(c) != MenuCommand
    requires Strip(c) == [] || (Strip(c)[0] != 'q' && Strip(c)[0] != 'Q')
    ensures TextAnswer(Some(c), isAdmin, db) == Ok(TextReply(DefaultPassiveReply))
  {
  }

  /** A six-digit keyword is answered as the day yy mm dd. */
  lemma DayKeyword(y: string, m: string, d: string, db: Store)
    requires StoreValid(db) && |y| == 2 && |m| == 2 && |d| == 2 && IsDigitStr(y + m + d)
    ensures KeywordAnswer(y + m + d, db) == DayAnswer(y, m, d, db)
  {
    var k := y + m + d;
    assert k[|k| - 1] == d[1];
    assert IsDigit(k[5]);
    DateMatchDigits(k);
    assert k[..2] == y && k[2..4] == m && k[4..] == d;
  }

  /** A four-digit keyword is answered as the month yy mm. */
  lemma MonthKeyword(y: string, m: string, db: Store)
    requires StoreValid(db) && |y| == 2 && |m| == 2 && IsDigitStr(y + m)
    ensures KeywordAnswer(y + m, db) == MonthAnswer(y, m, db)
  {
    var k := y + m;
    assert IsDigit(k[3]);
    DateMatchDigits(k);
    assert k[..2] == y && k[2..] == m;
  }

  /** Once the fields parse and the table is not empty, a day that is no
      calendar date gets the illegal-date text, a day outside the publishing
      period the period's text, and a day within it that day's articles
      (or `NoDayNews`). */
  lemma DayAnswerVerdict(y: string, m: string, d: string, db: Store)
    requires StoreValid(db) && db.published != []
    requires PyInt.ParseInt(y).Ok? && PyInt.ParseInt(m).Ok? && PyInt.ParseInt(d).Ok?
    ensures var t := ServerDb.Requested(y, m, Some(d));
      var rows := ServerDb.SearchByDate(db.table, y, m, Some(d));
      DayAnswer(y, m, d, db) ==
        if !Dates.IsCalendarDate(t) then Ok(TextReply(ServerDb.IllegalDate))
        else if ServerDb.WithinPublished(db.published, t) then
          Ok(if rows != [] then NewsReply(MapSeq(ArticleOf, rows)) else TextReply(NoDayNews))
        else Ok(TextReply(ServerDb.OutOfRange(ServerDb.Earliest(db.published), ServerDb.Latest(db.published))))
  {
    ServerDb.IsValidDateShape(db.published, y, m, Some(d));
    ServerDb.VerdictShape(db.published, ServerDb.Requested(y, m, Some(d)));
    ServerDb.OutOfRangeNotIllegal(ServerDb.Earliest(db.published), ServerDb.Latest(db.published));
  }

  /** The same for a month, read as its first day. */
  lemma MonthAnswerVerdict(y: string, m: string, db: Store)
    requires StoreValid(db) && db.published != []
    requires PyInt.ParseInt(y).Ok? && PyInt.ParseInt(m).Ok?
    ensures var t := ServerDb.Requested(y, m, None);
      var rows := ServerDb.SearchByDate(db.table, y, m, None);
      MonthAnswer(y, m, db) ==
        if !Dates.IsCalendarDate(t) then Ok(TextReply(ServerDb.IllegalDate))
        else if ServerDb.WithinPublished(db.published, t) then
          Ok(TextReply(if rows != [] then Join("\n", MapSeq(ListingLine, rows)) else NoMonthNews))
        else Ok(TextReply(ServerDb.OutOfRange(ServerDb.Earliest(db.published), ServerDb.Latest(db.published))))
  {
    ServerDb.IsValidDateShape(db.published, y, m, None);
    ServerDb.VerdictShape(db.published, ServerDb.Requested(y, m, None));
    ServerDb.OutOfRangeNotIllegal(ServerDb.Earliest(db.published), ServerDb.Latest(db.published));
  }

  /** Over an index with the discarded articles masked, the search answer
      is the empty-search text or a news reply of one to eight articles. */
  lemma KeywordSearchBounded(keyword: string, table: seq<ServerDb.NewsRow>, published: seq<Dates.Date>,
                             docs: seq<ServerDb.Doc>, discardIds: seq<ServerDb.NewsId>,
                             scorer: (string, seq<string>) -> seq<ServerDb.Doc>)
    requires ServerDb.UniqueIds(docs) && ServerDb.OpenIndex(docs, discardIds).Ok?
    requires forall d :: d in scorer(Search.Query(keyword, "AND"), ServerDb.KeywordFields) ==> d in docs
    requires StoreValid(Store(table, published, ServerDb.OpenIndex(docs, discardIds).value, scorer))
    ensures var r := SearchAnswer(keyword, Store(table, published, ServerDb.OpenIndex(docs, discardIds).value, scorer));
      r.Ok? ==> (r.value == TextReply(EmptySearch) || (r.value.NewsReply? && 0 < |r.value.items| <= 8))
  {
    ServerDb.SearchByKeywordMasked(table, docs, discardIds, scorer, keyword, 8);
  }

  /** As written, an unsubscribe event raises instead of answering. */
  lemma UnfollowRaises(attrs: Receive.Attrs, admins: set<string>, db: Store)
    requires StoreValid(db)
    ensures Handle(Receive.Msg(Receive.UnFollowEvent, attrs), admins, db) == Err(NameError)
  {
  }

  /** The corrected handler answers every event, and agrees with the one
      as written on everything else. */
  lemma HandleFixedEvents(parsed: Receive.Parsed, admins: set<string>, db: Store)
    requires StoreValid(db)
    ensures parsed.Msg? && (parsed.kind == Receive.FollowEvent || parsed.kind == Receive.UnFollowEvent) ==>
      HandleFixed(parsed, admins, db).Ok?
    ensures !(parsed.Msg? && parsed.kind == Receive.UnFollowEvent) ==> HandleFixed(parsed, admins, db) == Handle(parsed, admins, db)
    ensures HandleFixed(parsed, admins, db).Err? ==> HandleFixed(parsed, admins, db).error != NameError
  {

  }
}
