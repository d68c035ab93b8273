/** The request guards and parameter validators of the mini-program API:
    reading a parameter from the query string or the JSON body, the
    timestamp window and login checks the route decorators run before a
    view, and the validators that either raise or hand the parameter back
    unchanged. */
module ApiUtil {
  import opened Wrappers
  import opened PyValues
  import opened Text
  import PyInt

  // ---------------------------------------------------------------------
  // Reading a parameter

  /** The part of a Flask request the guards read: a GET carries string
      arguments, a POST a JSON body (`None` when the body is not JSON). */
  datatype Request =
    | Get(args: map<string, string>)
    | Post(json: Option<map<string, PyVal>>)
    | OtherMethod

  /** `util_get_param(name)`: the argument or JSON member, `None` when it
      is absent; a POST without a JSON body fails on `None.get`, and any
      other method aborts with 405 (an exception as well). */
  function GetParam(req: Request, name: string): (r: Result<PyVal>)
    ensures req.Get? ==> r == Ok(if name in req.args then PStr(req.args[name]) else PNone)
    ensures req.Post? && req.json.Some? ==> r == Ok(if name in req.json.value then req.json.value[name] else PNone)
    ensures req.Post? && req.json.None? ==> r == Err(AttributeError)
    ensures req.OtherMethod? ==> r == Err(GenericError)
  {
    match req
    case Get(args) => Ok(if name in args then PStr(args[name]) else PNone)
    case Post(json) =>
      if json.None? then Err(AttributeError)
      else Ok(if name in json.value then json.value[name] else PNone)
    case OtherMethod => Err(GenericError)
  }

  // ---------------------------------------------------------------------
  // Route guards

  /** What a guard decides: run the view, answer `{"errcode": -1, "error":
      message}` for the guard's own error, or answer with the `repr` of
      another exception raised while checking. */
  datatype Verdict = Proceed | Refused(message: string) | Raised(error: PyError)

  /** `verify_timestamp`: the request must carry a timestamp, in
      milliseconds, less than 8 seconds away from the server clock
      `nowMs` (`1000 * time.time()`). A timestamp `int()` cannot read
      raises, and so does one too large for a float, when the subtraction
      converts it (`OverflowError`); the guard answers with that
      exception. */
  function TimestampVerdict(req: Request, nowMs: real): (v: Verdict)
    ensures v.Proceed? <==>
      (&& GetParam(req, "timestamp").Ok?
       && GetParam(req, "timestamp").value != PNone
       && PyInt.ToInt(GetParam(req, "timestamp").value).Ok?
       && FitsFloat(PyInt.ToInt(GetParam(req, "timestamp").value).value)
       && Distance(nowMs, PyInt.ToInt(GetParam(req, "timestamp").value).value as real) < 8000.0)
    ensures GetParam(req, "timestamp") == Ok(PNone) ==> v == Refused("timestamp is missing !")
    ensures (&& GetParam(req, "timestamp").Ok?
             && GetParam(req, "timestamp").value != PNone
             && PyInt.ToInt(GetParam(req, "timestamp").value).Ok?
             && !FitsFloat(PyInt.ToInt(GetParam(req, "timestamp").value).value)) ==> v == Raised(OverflowError)
  {
    match GetParam(req, "timestamp")
    case Err(e) => Raised(e)
    case Ok(timestamp) =>
      if timestamp == PNone then Refused("timestamp is missing !")
      else
        match PyInt.ToInt(timestamp)
        case Err(e) => Raised(e)
        case Ok(t) =>
          if !FitsFloat(t) then Raised(OverflowError)
          else if Distance(nowMs, t as real) >= 8000.0 then Refused("illegal timestamp !") else Proceed
  }

  /** The least magnitude an int cannot be converted to a float with:
      2^1024 - 2^970 rounds (to even) past the largest double,
      (2^53 - 1) * 2^971. */
  const FloatOverflow: nat := 0xfffffffffffffc00_0000000000000000_0000000000000000_0000000000000000_0000000000000000_0000000000000000_0000000000000000_0000000000000000_0000000000000000_0000000000000000_0000000000000000_0000000000000000_0000000000000000_0000000000000000_0000000000000000_0000000000000000

  /** Whether `float(t)` succeeds rather than raising `OverflowError`. */
  predicate FitsFloat(t: int) {
    -(FloatOverflow as int) < t < FloatOverflow
  }

  /** The clock is a finite double: it stays far enough from the float
      range's end that the whole window around it lies inside. */
  predicate ClockFinite(nowMs: real) {
    Distance(nowMs, 0.0) + 8000.0 <= FloatOverflow as real
  }

  /** `abs(a - b)`. */
  function Distance(a: real, b: real): (d: real)
    ensures d >= 0.0 && (d == a - b || d == b - a)
  {
    if a >= b then a - b else b - a
  }

  /** The window is symmetric: a timestamp as far ahead of the clock as
      another is behind it gets the same verdict, when both convert to a
      float. */
  lemma TimestampSymmetric(nowMs: real, ahead: int, behind: int)
    requires ahead as real - nowMs == nowMs - behind as real
    requires FitsFloat(ahead) && FitsFloat(behind)
    ensures TimestampVerdict(Post(Some(map["timestamp" := PInt(ahead)])), nowMs)
         == TimestampVerdict(Post(Some(map["timestamp" := PInt(behind)])), nowMs)
  {
    assert Distance(nowMs, ahead as real) == Distance(nowMs, behind as real);
  }

  /** A query-string timestamp is read by `int()`: the decimal text of a
      time within the window passes. */
  lemma TimestampFromQuery(nowMs: real, t: int)
    requires ClockFinite(nowMs) && Distance(nowMs, t as real) < 8000.0
    ensures TimestampVerdict(Get(map["timestamp" := IntToStr(t)]), nowMs) == Proceed
  {
    assert PyInt.ToInt(PStr(IntToStr(t))) == Ok(t) by {
      PyInt.ParseIntRoundTrip(t);
    }
    assert FitsFloat(t) by {
      assert Distance(t as real, 0.0) <= Distance(nowMs, 0.0) + Distance(nowMs, t as real);
    }
    TimestampOfText(nowMs, IntToStr(t), t);
  }

  /** The verdict on a query-string timestamp that `int()` reads as `t`. */
  lemma TimestampOfText(nowMs: real, text: string, t: int)
    requires PyInt.ToInt(PStr(text)) == Ok(t)
    ensures TimestampVerdict(Get(map["timestamp" := text]), nowMs) ==
      if !FitsFloat(t) then Raised(OverflowError)
      else if Distance(nowMs, t as real) >= 8000.0 then Refused("illegal timestamp !")
      else Proceed
  {
    assert GetParam(Get(map["timestamp" := text]), "timestamp") == Ok(PStr(text));
  }

  /** A timestamp too large for a float (about 1.8 * 10^308 ms or more)
      makes the subtraction raise `OverflowError`, which the
      guard answers with, wherever the clock stands. */
  lemma TimestampTooLarge(nowMs: real, t: int)
    requires !FitsFloat(t)
    ensures TimestampVerdict(Get(map["timestamp" := IntToStr(t)]), nowMs) == Raised(OverflowError)
  {
    assert PyInt.ToInt(PStr(IntToStr(t))) == Ok(t) by {
      PyInt.ParseIntRoundTrip(t);
    }
    TimestampOfText(nowMs, IntToStr(t), t);
  }

  /** `verify_login`: the request must carry a token, the session must
      still hold the user's openid, and `verify(token, openid)` (the
      deserialisation and `Encipher.verify`, whose failures are
      exceptions) must accept the pair; the checks run in that order. */
  function LoginVerdict(req: Request, session: map<string, PyVal>, verify: (PyVal, PyVal) -> Result<bool>): (v: Verdict)
    ensures v.Proceed? <==>
      (&& GetParam(req, "token").Ok?
       && GetParam(req, "token").value != PNone
       && "openid" in session && session["openid"] != PNone
       && verify(GetParam(req, "token").value, session["openid"]) == Ok(true))
    ensures GetParam(req, "token") == Ok(PNone) ==> v == Refused("token is missing !")
    ensures (GetParam(req, "token").Ok? && GetParam(req, "token").value != PNone
             && ("openid" !in session || session["openid"] == PNone)) ==> v == Refused("session is expired !")
  {
    match GetParam(req, "token")
    case Err(e) => Raised(e)
    case Ok(token) =>
      if token == PNone then Refused("token is missing !")
      else if "openid" !in session || session["openid"] == PNone then Refused("session is expired !")
      else
        match verify(token, session["openid"])
        case Err(e) => Raised(e)
        case Ok(ok) => if !ok then Refused("failed to verify token !") else Proceed
  }

  /** A login that passes depends on no more than the token and the stored
      openid: any other session content, and the way the token was sent,
      do not change the verdict. */
  lemma LoginIgnoresRest(token: PyVal, openid: PyVal, s1: map<string, PyVal>, s2: map<string, PyVal>,
                         verify: (PyVal, PyVal) -> Result<bool>)
    requires token != PNone && token.PStr?
    requires "openid" in s1 && "openid" in s2 && s1["openid"] == openid && s2["openid"] == openid
    ensures LoginVerdict(Get(map["token" := token.s]), s1, verify)
         == LoginVerdict(Post(Some(map["token" := token])), s2, verify)
  {
  }

  // ---------------------------------------------------------------------
  // Parameter validators

  /** `int_param(name, param, mini, maxi)`: `None` raises `KeyError`, a
      non-int `TypeError` (a bool is an int to Python), a value below
      `mini` or above `maxi` `ValueError`, a missing bound checks nothing;
      otherwise the parameter is returned unchanged. */
  function IntParam(param: PyVal, mini: Option<int>, maxi: Option<int>): (r: Result<PyVal>)
    ensures r.Ok? <==> IsInt(param) && (mini.Some? ==> IntOf(param) >= mini.value) && (maxi.Some? ==> IntOf(param) <= maxi.value)
    ensures r.Ok? ==> r.value == param
    ensures param == PNone ==> r == Err(KeyError)
    ensures param != PNone && !IsInt(param) ==> r == Err(TypeError)
    ensures IsInt(param) && r.Err? ==> r.error == ValueError
  {
    if param == PNone then Err(KeyError)
    else if !IsInt(param) then Err(TypeError)
    else if mini.Some? && IntOf(param) < mini.value then Err(ValueError)
    else if maxi.Some? && IntOf(param) > maxi.value then Err(ValueError)
    else Ok(param)
  }

  /** The default lower bound is 1. */
  const DefaultMini: Option<int> := Some(1)

  /** Loosening the bounds never rejects a value that passed. */
  lemma IntParamLooser(param: PyVal, mini: Option<int>, maxi: Option<int>, mini': Option<int>, maxi': Option<int>)
    requires IntParam(param, mini, maxi).Ok?
    requires mini'.Some? ==> mini.Some? && mini'.value <= mini.value
    requires maxi'.Some? ==> maxi.Some? && maxi'.value >= maxi.value
    ensures IntParam(param, mini', maxi') == IntParam(param, mini, maxi)
  {
  }

  /** With the default bound, 0 and `False` are refused but `True`, equal
      to 1, passes as it is. */
  lemma IntParamDefaults()
    ensures IntParam(PInt(0), DefaultMini, None) == Err(ValueError)
    ensures IntParam(PBool(false), DefaultMini, None) == Err(ValueError)
    ensures IntParam(PBool(true), DefaultMini, None) == Ok(PBool(true))
    ensures IntParam(PStr("1"), DefaultMini, None) == Err(TypeError)
  {
  }

  /** `str_param(name, param)`: `None` and `""` raise `KeyError`, a
      non-string `TypeError`; otherwise the parameter is returned
      unchanged. */
  function StrParam(param: PyVal): (r: Result<PyVal>)
    ensures r.Ok? <==> param.PStr? && param.s != []
    ensures r.Ok? ==> r.value == param
    ensures param == PNone || param == PStr([]) ==> r == Err(KeyError)
    ensures param != PNone && !param.PStr? ==> r == Err(TypeError)
  {
    if param == PNone then Err(KeyError)
    else if !param.PStr? then Err(TypeError)
    else if param.s == [] then Err(KeyError)
    else Ok(param)
  }

  /** Validating a validated string again gives it back again. */
  lemma StrParamIdempotent(param: PyVal)
    requires StrParam(param).Ok?
    ensures StrParam(StrParam(param).value) == StrParam(param)
  {
  }

  /** `limited_param(name, param, rational)`: `None` and a value not `in`
      the allowed list (by Python's `==`) raise `KeyError`; otherwise the
      parameter is returned unchanged. */
  function LimitedParam(param: PyVal, rational: seq<PyVal>): (r: Result<PyVal>)
    ensures r.Ok? <==> param != PNone && PyIn(param, rational)
    ensures r.Ok? ==> r.value == param
    ensures r.Err? ==> r.error == KeyError
  {
    if param == PNone then Err(KeyError)
    else if !PyIn(param, rational) then Err(KeyError)
    else Ok(param)
  }

  /** Allowing more values never rejects one that passed, and the empty
      default list rejects everything. */
  lemma LimitedParamWider(param: PyVal, rational: seq<PyVal>, more: seq<PyVal>)
    requires LimitedParam(param, rational).Ok?
    ensures LimitedParam(param, rational + more) == Ok(param)
    ensures LimitedParam(param, []).Err?
  {
    var k :| 0 <= k < |rational| && PyEq(param, rational[k]);
    assert (rational + more)[k] == rational[k];
  }
}
