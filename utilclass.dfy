/** The logic of app/lib/utilclass.py: the `method$salt$code` password-hash
    codec and the token scheme of `Encipher`, the SQL text that `SQLiteDB`
    builds for `select_join`, `insert_many` and `update`, and the shared
    `get_news_by_ID`. SQL execution, werkzeug's hashing and the itsdangerous
    serializer are outside the model: the hasher and the checker are
    parameters, and a token is its payload list. */
module UtilClass {
  import opened Wrappers
  import opened PyValues
  import opened Text
  import opened Collections
  import opened Sorting

  type NewsId = string

  // ---------------------------------------------------------------------
  // Encipher: the hash string and its parts

  /** The first index at or after `i` holding `c`. */
  function FindFrom(s: string, c: char, i: nat): (r: Option<nat>)
    requires i <= |s|
    ensures r.Some? ==> i <= r.value < |s| && s[r.value] == c
    decreases |s| - i
  {
    if i == |s| then None
    else if s[i] == c then Some(i)
    else FindFrom(s, c, i + 1)
  }

  /** The search passes over positions not holding `c`. */
  lemma {:induction false} FindFromSkips(s: string, c: char, i: nat)
    requires i <= |s| && FindFrom(s, c, i).Some?
    ensures forall k :: i <= k < FindFrom(s, c, i).value ==> s[k] != c
    decreases |s| - i
  {
    if s[i] != c {
      FindFromSkips(s, c, i + 1);
    }
  }

  /** The search stops at or before any position holding `c`. */
  lemma {:induction false} FindFromFirst(s: string, c: char, i: nat, k: nat)
    requires i <= k < |s| && s[k] == c
    ensures FindFrom(s, c, i).Some? && FindFrom(s, c, i).value <= k
    decreases |s| - i
  {
    if s[i] != c {
      FindFromFirst(s, c, i + 1, k);
    }
  }

  /** The search finds `k` when `k` holds `c` and nothing before it does. */
  lemma {:induction false} FindFromExact(s: string, c: char, i: nat, k: nat)
    requires i <= k < |s| && s[k] == c && forall j :: i <= j < k ==> s[j] != c
    ensures FindFrom(s, c, i) == Some(k)
    decreases k - i
  {
    if i < k {
      FindFromExact(s, c, i + 1, k);
    }
  }

  lemma NotInSlice(s: string, c: char, i: nat, j: nat)
    requires i <= j <= |s| && c !in s
    ensures c !in s[i..j]
  {
    assert s == s[..i] + s[i..j] + s[j..];
  }

  /** What `$` lets the pattern span: the text without one final newline. */
  function Body(raw: string): (t: string)
    ensures raw == t || raw == t + "\n"
  {
    if |raw| > 0 && raw[|raw| - 1] == '\n' then raw[..|raw| - 1] else raw
  }

  /** Where the second `.*?:` ends: the second colon. */
  function SecondColon(t: string): (r: Option<nat>)
    ensures r.Some? ==> r.value < |t|
  {
    var o1 := FindFrom(t, ':', 0);
    if o1.None? then None else FindFrom(t, ':', o1.value + 1)
  }

  /** The two `$` that delimit the salt: the first after the second colon
      and the next one. */
  function Dollars(t: string): (r: Option<(nat, nat)>)
    ensures r.Some? ==> r.value.0 < r.value.1 < |t| && t[r.value.0] == '$' && t[r.value.1] == '$'
  {
    var o2 := SecondColon(t);
    if o2.None? then None else
    var o3 := FindFrom(t, '$', o2.value + 1);
    if o3.None? then None else
    var o4 := FindFrom(t, '$', o3.value + 1);
    if o4.None? then None else
    Some((o3.value, o4.value))
  }

  /** The match of `^.*?:.*?:.*?\$(?P<salt>.*?)\$(?P<code>.*?)$` as
      `(method, salt, code)`: the method runs to the first `$` after the
      second colon, the salt to the next `$`, the code to the end. No `.`
      spans a newline, so a newline anywhere but at the very end means no
      match, and `.group` on the `None` that `match` returns raises
      `AttributeError`. */
  function Split(raw: string): (r: Result<(string, string, string)>)
    ensures r.Err? ==> r.error == AttributeError
  {
    var t := Body(raw);
    if '\n' in t then Err(AttributeError)
    else match Dollars(t)
      case None => Err(AttributeError)
      case Some((i3, i4)) => Ok((t[..i3], t[i3 + 1..i4], t[i4 + 1..]))
  }

  /** `__parse`: `group(2, 1)`, the code and then the salt. */
  function Parse(raw: string): (r: Result<(string, string)>)
    ensures r.Ok? <==> Split(raw).Ok?
    ensures r.Ok? ==> r.value == (Split(raw).value.2, Split(raw).value.1)
  {
    var (_, salt, code) :- Split(raw);
    Ok((code, salt))
  }

  /** `__join(code, salt)`: `"{}${}${}".format(hashMethod, salt, code)`. */
  function Join(hashMethod: string, code: string, salt: string): string {
    hashMethod + "$" + salt + "$" + code
  }

  /** A method name of werkzeug's form, such as `pbkdf2:sha256:50000`: two
      colons at least, and neither `$` nor a newline. */
  predicate HashMethod(m: string) {
    '$' !in m && '\n' !in m && exists i, j :: 0 <= i < j < |m| && m[i] == ':' && m[j] == ':'
  }

  /** Parts that `Join` can put together and `Split` take apart again. */
  predicate Joinable(hashMethod: string, code: string, salt: string) {
    HashMethod(hashMethod) && '$' !in salt && '\n' !in salt && '\n' !in code
  }

  /** Two colons in a method at the head of `t` are found by the first two
      searches, inside the method. */
  lemma ColonsFound(t: string, m: string)
    requires HashMethod(m) && |m| <= |t| && t[..|m|] == m
    ensures SecondColon(t).Some? && SecondColon(t).value < |m|
  {
    var i, j :| 0 <= i < j < |m| && m[i] == ':' && m[j] == ':';
    assert t[i] == m[i] && t[j] == m[j];
    FindFromFirst(t, ':', 0, i);
    FindFromFirst(t, ':', FindFrom(t, ':', 0).value + 1, j);
  }

  /** The pieces of a joined hash. */
  lemma JoinPieces(hashMethod: string, code: string, salt: string)
    ensures var t := Join(hashMethod, code, salt);
      var m := |hashMethod|;
      var s := |salt|;
      && |t| == m + s + 2 + |code|
      && t[..m] == hashMethod && t[m] == '$' && t[m + 1..m + 1 + s] == salt
      && t[m + 1 + s] == '$' && t[m + 2 + s..] == code
  {
  }

  /** The first `$` after a colon inside a `$`-free head is the one that
      ends the head. */
  lemma DollarAfterHead(t: string, i: nat, m: nat)
    requires i < m < |t| && t[m] == '$' && '$' !in t[..m]
    ensures FindFrom(t, '$', i + 1) == Some(m)
  {
    forall j | i + 1 <= j < m ensures t[j] != '$' {
      assert t[..m][j] == t[j];
    }
    FindFromExact(t, '$', i + 1, m);
  }

  /** The salt's delimiters are found after a method at the head of `t`. */
  lemma DollarsAt(t: string, m: nat, s: nat)
    requires m + 1 + s < |t| && HashMethod(t[..m])
    requires t[m] == '$' && t[m + 1 + s] == '$' && '$' !in t[m + 1..m + 1 + s]
    ensures Dollars(t) == Some((m, m + 1 + s))
  {
    ColonsFound(t, t[..m]);
    var i2 := SecondColon(t).value;
    DollarAfterHead(t, i2, m);
    forall j | m + 1 <= j < m + 1 + s ensures t[j] != '$' {
      assert t[m + 1..m + 1 + s][j - m - 1] == t[j];
    }
    FindFromExact(t, '$', m + 1, m + 1 + s);
    DollarsUnfold(t, i2, m, m + 1 + s);
  }

  lemma DollarsUnfold(t: string, i2: nat, a: nat, b: nat)
    requires SecondColon(t) == Some(i2) && FindFrom(t, '$', i2 + 1) == Some(a) && FindFrom(t, '$', a + 1) == Some(b)
    ensures Dollars(t) == Some((a, b))
  {
  }

  /** The salt's delimiters in a joined hash are the two `$` it adds. */
  lemma DollarsOfJoin(hashMethod: string, code: string, salt: string)
    requires Joinable(hashMethod, code, salt)
    ensures Dollars(Join(hashMethod, code, salt)) == Some((|hashMethod|, |hashMethod| + 1 + |salt|))
  {
    JoinPieces(hashMethod, code, salt);
    DollarsAt(Join(hashMethod, code, salt), |hashMethod|, |salt|);
  }

  /** No newline in the parts, none in the joined hash, which therefore is
      its own body. */
  lemma JoinNoNewline(hashMethod: string, code: string, salt: string)
    requires Joinable(hashMethod, code, salt)
    ensures '\n' !in Join(hashMethod, code, salt)
    ensures Body(Join(hashMethod, code, salt)) == Join(hashMethod, code, salt)
  {
    var t := Join(hashMethod, code, salt);
    assert t == hashMethod + ("$" + salt + "$" + code);
    assert t[|t| - 1] in t;
  }

  /** Splitting a joined hash gives back its method, salt and code. */
  lemma SplitJoin(hashMethod: string, code: string, salt: string)
    requires Joinable(hashMethod, code, salt)
    ensures Split(Join(hashMethod, code, salt)) == Ok((hashMethod, salt, code))
    ensures Parse(Join(hashMethod, code, salt)) == Ok((code, salt))
  {
    JoinNoNewline(hashMethod, code, salt);
    DollarsOfJoin(hashMethod, code, salt);
    JoinPieces(hashMethod, code, salt);
  }

  /** The salt between the two delimiters holds no `$`. */
  lemma SaltFree(t: string)
    requires Dollars(t).Some?
    ensures '$' !in t[Dollars(t).value.0 + 1..Dollars(t).value.1]
  {
    var i2 := SecondColon(t).value;
    var i3 := FindFrom(t, '$', i2 + 1).value;
    FindFromSkips(t, '$', i3 + 1);
    var salt := t[i3 + 1..Dollars(t).value.1];
    forall k | 0 <= k < |salt| ensures salt[k] != '$' {
      assert salt[k] == t[i3 + 1 + k];
    }
  }

  /** `t` cut at two positions around the characters there. */
  lemma CutAt(t: string, i: nat, j: nat)
    requires i < j < |t|
    ensures t == t[..i] + [t[i]] + t[i + 1..j] + [t[j]] + t[j + 1..]
  {
    assert t[i..] == [t[i]] + t[i + 1..];
    assert t[i + 1..] == t[i + 1..j] + t[j..];
    assert t[j..] == [t[j]] + t[j + 1..];
    assert t == t[..i] + t[i..];
  }

  /** What `Split` accepts is a join of its parts, followed at most by one
      newline: the salt has no `$`, and no part has a newline. */
  lemma JoinSplit(raw: string)
    requires Split(raw).Ok?
    ensures var (m, salt, code) := Split(raw).value;
      && Body(raw) == Join(m, code, salt)
      && (raw == Join(m, code, salt) || raw == Join(m, code, salt) + "\n")
      && '$' !in salt && '\n' !in m && '\n' !in salt && '\n' !in code
  {
    var t := Body(raw);
    var (i3, i4) := Dollars(t).value;
    SaltFree(t);
    CutAt(t, i3, i4);
    NotInSlice(t, '\n', 0, i3);
    NotInSlice(t, '\n', i3 + 1, i4);
    NotInSlice(t, '\n', i4 + 1, |t|);
    assert t[0..i3] == t[..i3] && t[i4 + 1..|t|] == t[i4 + 1..];
  }

  // ---------------------------------------------------------------------
  // Encipher: tokens

  /** `encode(raw)`: hash the text with werkzeug (`hash` stands for
      `generate_password_hash` with its random salt) and parse the result
      into `(code, salt)`. */
  function Encode(hash: string -> string, raw: string): (r: Result<(string, string)>)
    ensures r == Parse(hash(raw))
  {
    Parse(hash(raw))
  }

  /** `get_token(raw)`: a string is hashed and its `(code, salt)` becomes
      the token's payload; any other object is serialised on its own. The
      signed serialisation itself is not modelled: a token is its payload. */
  function GetToken(hash: string -> string, raw: PyVal): (r: Result<seq<PyVal>>)
    ensures !raw.PStr? ==> r == Ok([raw])
    ensures raw.PStr? ==> (r.Ok? <==> Parse(hash(raw.s)).Ok?)
    ensures raw.PStr? && r.Ok? ==> r.value == [PStr(Parse(hash(raw.s)).value.0), PStr(Parse(hash(raw.s)).value.1)]
  {
    if raw.PStr? then
      var (code, salt) :- Encode(hash, raw.s);
      Ok([PStr(code), PStr(salt)])
    else Ok([raw])
  }

  /** `verify(token, raw)`: a payload of two elements is checked as
      `(code, salt)` against `raw` with werkzeug (`checkHash` stands for
      `check_password_hash`, `render` for `str.format` of one value); any
      other length makes the call to `check` raise `TypeError`, and the
      first payload element is compared with `raw`, which raises
      `IndexError` on an empty payload. */
  function Verify(checkHash: (string, string) -> bool, render: PyVal -> string, hashMethod: string,
                  token: seq<PyVal>, raw: string): (r: Result<bool>)
    ensures r.Err? <==> token == []
    ensures r.Err? ==> r.error == IndexError
    ensures |token| == 2 ==> r == Ok(checkHash(hashMethod + "$" + render(token[1]) + "$" + render(token[0]), raw))
    ensures |token| != 2 && token != [] ==> r == Ok(token[0] == PStr(raw))
  {
    if |token| == 2 then Ok(checkHash(Join(hashMethod, render(token[0]), render(token[1])), raw))
    else if token == [] then Err(IndexError)
    else Ok(PyEq(token[0], PStr(raw)))
  }

  /** A token made for a string is checked against the very hash that was
      made for it: `verify(get_token(s), raw)` asks `check_password_hash`
      whether `raw` matches `hash(s)`, as long as that hash uses the
      configured method. */
  lemma VerifyOwnToken(hash: string -> string, checkHash: (string, string) -> bool, render: PyVal -> string,
                       hashMethod: string, s: string, raw: string)
    requires forall x :: render(PStr(x)) == x
    requires Split(hash(s)).Ok? && Split(hash(s)).value.0 == hashMethod && Body(hash(s)) == hash(s)
    ensures GetToken(hash, PStr(s)).Ok?
    ensures Verify(checkHash, render, hashMethod, GetToken(hash, PStr(s)).value, raw) == Ok(checkHash(hash(s), raw))
  {
    JoinSplit(hash(s));
    var (m, salt, code) := Split(hash(s)).value;
    assert GetToken(hash, PStr(s)).value == [PStr(code), PStr(salt)];
    assert render(PStr(code)) == code && render(PStr(salt)) == salt;
    assert hash(s) == Join(m, code, salt);
  }

  /** A token made for any other object holds that object alone, and
      `verify` compares it with `raw` by Python's `==`: a non-string is
      never equal to the string it is checked against. */
  lemma VerifyObjectToken(hash: string -> string, checkHash: (string, string) -> bool, render: PyVal -> string,
                          hashMethod: string, v: PyVal, raw: string)
    requires !v.PStr?
    ensures GetToken(hash, v) == Ok([v])
    ensures Verify(checkHash, render, hashMethod, [v], raw) == Ok(false)
  {
  }

  // ---------------------------------------------------------------------
  // SQL text

  /** `','.join('?' * n)`: one placeholder per value. */
  function Placeholders(n: nat): (r: string)
    ensures n == 0 ==> r == ""
  {
    Text.Join(",", seq(n, _ => "?"))
  }

  /** The placeholders hold exactly `n` question marks. */
  lemma {:induction false} PlaceholderCount(n: nat)
    ensures Count(Placeholders(n), '?') == n
  {
    if n > 1 {
      var ps := seq(n, _ => "?");
      assert ps[1..] == seq(n - 1, _ => "?");
      PlaceholderCount(n - 1);
      assert Placeholders(n) == "?" + "," + Placeholders(n - 1);
      CountAppend("?,", Placeholders(n - 1), '?');
    } else if n == 1 {
      assert Placeholders(1) == "?";
    }
  }

  /** A separator-join of parts free of `c` is free of `c`. */
  lemma {:induction false} JoinExcludes(sep: string, parts: seq<string>, c: char)
    requires c !in sep && forall i :: 0 <= i < |parts| ==> c !in parts[i]
    ensures c !in Text.Join(sep, parts)
  {
    if |parts| > 1 {
      JoinExcludes(sep, parts[1..], c);
      assert Text.Join(sep, parts) == parts[0] + sep + Text.Join(sep, parts[1..]);
    }
  }

  lemma {:induction false} FlattenExcludes(parts: seq<string>, c: char)
    requires forall i :: 0 <= i < |parts| ==> c !in parts[i]
    ensures c !in Flatten(parts)
  {
    if parts != [] {
      FlattenExcludes(parts[1..], c);
    }
  }

  /** An SQL name: no placeholder character in it. */
  predicate Name(s: string) {
    '?' !in s
  }

  predicate Names(ks: seq<string>) {
    forall i :: 0 <= i < |ks| ==> Name(ks[i])
  }

  /** A statement with the parameters bound to it (`None` when executed
      without parameters). */
  datatype Statement = Statement(sql: string, params: Option<seq<PyVal>>)

  // SQLiteDB.select_join

  /** `table.col` for every listed column of `table`. */
  function Qualify(table: string, cols: seq<string>): (r: seq<string>)
    ensures |r| == |cols|
  {
    MapSeq((col: string) => table + "." + col, cols)
  }

  /** The qualified columns of all the tables, flattened in order. */
  function QualifiedColumns(cols: seq<(string, seq<string>)>): seq<string> {
    Flatten(MapSeq((tc: (string, seq<string>)) => Qualify(tc.0, tc.1), cols))
  }

  function SelectHead(cols: seq<(string, seq<string>)>): string
    requires cols != []
  {
    "SELECT " + Text.Join(",", QualifiedColumns(cols)) + " FROM " + cols[0].0 + " \n"
  }

  /** The join of one more table on the shared key. */
  function JoinOn(table0: string, table: string, key: string): string {
    "INNER JOIN " + table + " ON " + table0 + "." + key + " == " + table + "." + key + " \n"
  }

  function JoinClauses(cols: seq<(string, seq<string>)>, key: string): (r: seq<string>)
    requires cols != []
    ensures |r| == |cols| - 1
  {
    MapSeq((tc: (string, seq<string>)) => JoinOn(cols[0].0, tc.0, key), cols[1..])
  }

  function WhereIn(table0: string, key: string, n: nat): string {
    "WHERE " + table0 + "." + key + " IN (" + Placeholders(n) + ")"
  }

  /** The statement `select_join(cols, key, newsIDs)` executes. An empty
      column list makes `fields.pop(0)` raise `IndexError`. */
  function SelectJoinSpec(cols: seq<(string, seq<string>)>, key: string, newsIDs: Option<seq<PyVal>>): Result<Statement> {
    if cols == [] then Err(IndexError)
    else
      var sql := SelectHead(cols) + Flatten(JoinClauses(cols, key));
      Ok(match newsIDs
        case None => Statement(sql, None)
        case Some(ids) => Statement(sql + WhereIn(cols[0].0, key, |ids|), Some(ids)))
  }

  /** `select_join`: the head, then one `INNER JOIN` appended per table
      after the first, then the `WHERE … IN` list when IDs are given. */
  method SelectJoin(cols: seq<(string, seq<string>)>, key: string, newsIDs: Option<seq<PyVal>>)
    returns (r: Result<Statement>)
    ensures r == SelectJoinSpec(cols, key, newsIDs)
  {
    if cols == [] {
      return Err(IndexError);
    }
    var table0 := cols[0].0;
    var head := SelectHead(cols);
    var sql := head;
    ghost var clauses := JoinClauses(cols, key);
    var i := 1;
    while i < |cols|
      invariant 1 <= i <= |cols|
      invariant sql == head + Flatten(clauses[..i - 1])
    {
      JoinClauseAt(cols, key, i);
      FlattenPrefixStep(clauses, i - 1);
      sql := sql + JoinOn(table0, cols[i].0, key);
      i := i + 1;
    }
    assert clauses[..i - 1] == clauses;
    match newsIDs {
      case None =>
        r := Ok(Statement(sql, None));
      case Some(ids) =>
        sql := sql + WhereIn(table0, key, |ids|);
        r := Ok(Statement(sql, Some(ids)));
    }
  }

  /** The join clause of the `i`th table. */
  lemma JoinClauseAt(cols: seq<(string, seq<string>)>, key: string, i: nat)
    requires 1 <= i < |cols|
    ensures JoinClauses(cols, key)[i - 1] == JoinOn(cols[0].0, cols[i].0, key)
  {
    assert cols[1..][i - 1] == cols[i];
  }

  /** Every column is selected as `table.col`, and every selected name is
      one of those. */
  lemma {:induction false} QualifiedColumnsIn(cols: seq<(string, seq<string>)>, q: string)
    ensures q in QualifiedColumns(cols) <==>
      exists i, j :: 0 <= i < |cols| && 0 <= j < |cols[i].1| && q == cols[i].0 + "." + cols[i].1[j]
  {
    if cols != [] {
      var f := (tc: (string, seq<string>)) => Qualify(tc.0, tc.1);
      assert MapSeq(f, cols) == [Qualify(cols[0].0, cols[0].1)] + MapSeq(f, cols[1..]);
      assert QualifiedColumns(cols) == Qualify(cols[0].0, cols[0].1) + QualifiedColumns(cols[1..]);
      QualifiedColumnsIn(cols[1..], q);
      if q in QualifiedColumns(cols[1..]) {
        var i, j :| 0 <= i < |cols[1..]| && 0 <= j < |cols[1..][i].1| && q == cols[1..][i].0 + "." + cols[1..][i].1[j];
        assert cols[i + 1] == cols[1..][i];
      }
      if exists i, j :: 0 <= i < |cols| && 0 <= j < |cols[i].1| && q == cols[i].0 + "." + cols[i].1[j] {
        var i, j :| 0 <= i < |cols| && 0 <= j < |cols[i].1| && q == cols[i].0 + "." + cols[i].1[j];
        if i == 0 {
          assert Qualify(cols[0].0, cols[0].1)[j] == q;
        } else {
          assert cols[1..][i - 1] == cols[i];
        }
      }
    }
  }

  /** The columns hold no placeholder when no table or column name does. */
  lemma {:induction false} QualifiedColumnsNamed(cols: seq<(string, seq<string>)>)
    requires forall i :: 0 <= i < |cols| ==> Name(cols[i].0) && forall j :: 0 <= j < |cols[i].1| ==> Name(cols[i].1[j])
    ensures forall i :: 0 <= i < |QualifiedColumns(cols)| ==> Name(QualifiedColumns(cols)[i])
  {
    forall k | 0 <= k < |QualifiedColumns(cols)| ensures Name(QualifiedColumns(cols)[k]) {
      var q := QualifiedColumns(cols)[k];
      QualifiedColumnsIn(cols, q);
      var i, j :| 0 <= i < |cols| && 0 <= j < |cols[i].1| && q == cols[i].0 + "." + cols[i].1[j];
      assert q == cols[i].0 + ("." + cols[i].1[j]);
    }
  }

  /** `select_join` selects the qualified columns from the first table,
      emits one `INNER JOIN t ON t0.key == t.key` for each later table, in
      order, and with IDs binds them to exactly as many placeholders (when
      no name holds a `?`). */
  lemma SelectJoinShape(cols: seq<(string, seq<string>)>, key: string, newsIDs: Option<seq<PyVal>>)
    requires cols != []
    ensures var r := SelectJoinSpec(cols, key, newsIDs);
      && r.Ok?
      && IsPrefix(SelectHead(cols), r.value.sql)
      && |JoinClauses(cols, key)| == |cols| - 1
      && (forall i :: 1 <= i < |cols| ==> JoinClauses(cols, key)[i - 1] == JoinOn(cols[0].0, cols[i].0, key))
      && r.value.params == newsIDs
  {
    var r := SelectJoinSpec(cols, key, newsIDs);
    var head := SelectHead(cols);
    assert r.value.sql[..|head|] == head;
  }

  /** The head selects names free of placeholders. */
  lemma HeadNamed(cols: seq<(string, seq<string>)>)
    requires cols != []
    requires forall i :: 0 <= i < |cols| ==> Name(cols[i].0) && forall j :: 0 <= j < |cols[i].1| ==> Name(cols[i].1[j])
    ensures Name(SelectHead(cols))
  {
    QualifiedColumnsNamed(cols);
    JoinExcludes(",", QualifiedColumns(cols), '?');
    assert SelectHead(cols) == "SELECT " + (Text.Join(",", QualifiedColumns(cols)) + (" FROM " + (cols[0].0 + " \n")));
  }

  lemma JoinOnNamed(table0: string, table: string, key: string)
    requires Name(table0) && Name(table) && Name(key)
    ensures Name(JoinOn(table0, table, key))
  {
    assert JoinOn(table0, table, key)
      == "INNER JOIN " + (table + (" ON " + (table0 + ("." + (key + (" == " + (table + ("." + (key + " \n")))))))));
  }

  lemma JoinsNamed(cols: seq<(string, seq<string>)>, key: string)
    requires cols != [] && Name(key)
    requires forall i :: 0 <= i < |cols| ==> Name(cols[i].0)
    ensures Name(Flatten(JoinClauses(cols, key)))
  {
    var joins := JoinClauses(cols, key);
    forall k | 0 <= k < |joins| ensures Name(joins[k]) {
      assert joins[k] == JoinOn(cols[0].0, cols[k + 1].0, key);
      JoinOnNamed(cols[0].0, cols[k + 1].0, key);
    }
    FlattenExcludes(joins, '?');
  }

  /** The `WHERE … IN (…)` clause holds one `?` per ID. */
  lemma WhereInCount(table0: string, key: string, n: nat)
    requires Name(table0) && Name(key)
    ensures Count(WhereIn(table0, key, n), '?') == n
  {
    var prefix := "WHERE " + table0 + "." + key + " IN (";
    assert Name(prefix) by { assert prefix == "WHERE " + (table0 + ("." + (key + " IN ("))); }
    assert WhereIn(table0, key, n) == prefix + Placeholders(n) + ")";
    CountAppend(prefix, Placeholders(n), '?');
    CountAppend(prefix + Placeholders(n), ")", '?');
    PlaceholderCount(n);
  }

  /** The number of `?` in the statement is the number of bound IDs, when
      no table, column or key name holds one. */
  lemma SelectJoinPlaceholders(cols: seq<(string, seq<string>)>, key: string, ids: seq<PyVal>)
    requires cols != [] && Name(key)
    requires forall i :: 0 <= i < |cols| ==> Name(cols[i].0) && forall j :: 0 <= j < |cols[i].1| ==> Name(cols[i].1[j])
    ensures SelectJoinSpec(cols, key, Some(ids)).Ok?
    ensures Count(SelectJoinSpec(cols, key, Some(ids)).value.sql, '?') == |ids|
  {
    var before := SelectHead(cols) + Flatten(JoinClauses(cols, key));
    HeadNamed(cols);
    JoinsNamed(cols, key);
    WhereInCount(cols[0].0, key, |ids|);
    CountAppend(before, WhereIn(cols[0].0, key, |ids|), '?');
  }

  // SQLiteDB.insert_many

  /** A dict as its `(key, value)` items; keys are distinct. */
  type Row = seq<(string, PyVal)>

  predicate DistinctKeys(row: Row) {
    forall i, j :: 0 <= i < j < |row| ==> row[i].0 != row[j].0
  }

  function ByKey(item: (string, PyVal)): SortKey {
    Text(item.0)
  }

  /** `OrderedDict(sorted(dataDict.items()))`: the items by ascending key
      (distinct keys decide the comparison of the pairs). */
  function SortedItems(row: Row): (r: Row)
    ensures multiset(r) == multiset(row) && |r| == |row|
  {
    SortBy(row, ByKey, false)
  }

  function Values(row: Row): (r: seq<PyVal>)
    ensures |r| == |row| && forall i :: 0 <= i < |row| ==> r[i] == row[i].1
  {
    MapSeq((item: (string, PyVal)) => item.1, row)
  }

  /** The column list of `INSERT OR REPLACE INTO table (…) VALUES (…)`. */
  function InsertSql(table: string, k: seq<string>): string {
    "INSERT OR REPLACE INTO " + table + " (" + Text.Join(",", k) + ") VALUES (" + Placeholders(|k|) + ")"
  }

  /** The statement and parameter tuples `insert_many(table, dataDicts)`
      passes to `executemany`; no dicts make `dataDicts[0]` raise
      `IndexError`. */
  function InsertMany(table: string, dataDicts: seq<Row>): (r: Result<(string, seq<seq<PyVal>>)>)
    ensures r.Err? <==> dataDicts == []
    ensures r.Err? ==> r.error == IndexError
  {
    if dataDicts == [] then Err(IndexError)
    else Ok((InsertSql(table, Columns(dataDicts[0])), Tuples(dataDicts)))
  }

  /** `dataDicts[0].keys()` after sorting. */
  function Columns(d0: Row): (k: seq<string>)
    ensures |k| == |d0|
  {
    Firsts(SortedItems(d0))
  }

  /** `[tuple(dataDict.values()) for dataDict in dataDicts]` after sorting. */
  function Tuples(dataDicts: seq<Row>): (vs: seq<seq<PyVal>>)
    ensures |vs| == |dataDicts|
    ensures forall i :: 0 <= i < |dataDicts| ==> vs[i] == Values(SortedItems(dataDicts[i]))
  {
    MapSeq((row: Row) => Values(SortedItems(row)), dataDicts)
  }

  /** Two dicts with the same keys list their sorted items under the same
      keys, in the same order. */
  lemma SameKeysSameOrder(a: Row, b: Row)
    requires multiset(Keys(a, ByKey)) == multiset(Keys(b, ByKey))
    ensures Firsts(SortedItems(a)) == Firsts(SortedItems(b))
  {
    SortBySorted(a, ByKey, false);
    SortBySorted(b, ByKey, false);
    SortedKeysAscending(SortedItems(a), ByKey);
    SortedKeysAscending(SortedItems(b), ByKey);
    KeysSortBy(a, ByKey, false);
    KeysSortBy(b, ByKey, false);
    AscendingUnique(Keys(SortedItems(a), ByKey), Keys(SortedItems(b), ByKey));
    forall i | 0 <= i < |a| ensures SortedItems(a)[i].0 == SortedItems(b)[i].0 {
      KeysAt(SortedItems(a), ByKey, i);
      KeysAt(SortedItems(b), ByKey, i);
    }
  }

  /** Every key of a permuted row is a key of the original. */
  lemma FirstsIn(a: Row, b: Row, x: string)
    requires multiset(a) == multiset(b) && x in Firsts(a)
    ensures x in Firsts(b)
  {
    var i :| 0 <= i < |a| && Firsts(a)[i] == x;
    assert a[i] in multiset(b);
    var j := IndexOf(a[i], b);
    assert Firsts(b)[j] == x;
  }

  /** In a sequence where `x` occurs once, no later position holds it. */
  lemma OnceAt(b: Row, i: nat, j: nat)
    requires i < j < |b| && multiset(b)[b[i]] == 1
    ensures b[i] != b[j]
  {
    assert b == b[..j] + b[j..];
    assert b[..j][i] == b[i];
    assert multiset(b[..j])[b[i]] >= 1;
    assert multiset(b[j..])[b[i]] == 0;
    assert b[j..][0] == b[j];
  }

  /** An item of a dict with distinct keys occurs in it once. */
  lemma DistinctOnce(a: Row, p: nat)
    requires DistinctKeys(a) && p < |a|
    ensures multiset(a)[a[p]] == 1
  {
    assert a == a[..p] + [a[p]] + a[p + 1..];
    forall k | 0 <= k < p ensures a[..p][k] != a[p] {
      assert a[..p][k] == a[k];
    }
    var tail := a[p + 1..];
    forall k | 0 <= k < |tail| ensures tail[k] != a[p] {
      assert tail[k] == a[p + 1 + k];
    }
  }

  /** Reordering items with distinct keys keeps the keys distinct. */
  lemma PermutedDistinct(a: Row, b: Row)
    requires DistinctKeys(a) && multiset(a) == multiset(b)
    ensures DistinctKeys(b)
  {
    forall i, j | 0 <= i < j < |b| ensures b[i].0 != b[j].0 {
      var p := IndexOf(b[i], a);
      var q := IndexOf(b[j], a);
      DistinctOnce(a, p);
      OnceAt(b, i, j);
      assert p != q;
    }
  }

  /** `insert_many`'s columns are the first dict's keys, each once, in
      ascending order. */
  lemma InsertManyKeys(d0: Row)
    requires DistinctKeys(d0)
    ensures var k := Columns(d0);
      && (forall x :: x in k <==> x in Firsts(d0))
      && (forall i, j :: 0 <= i < j < |k| ==> StrLt(k[i], k[j]))
  {
    var s0 := SortedItems(d0);
    var k := Firsts(s0);
    forall x ensures x in k <==> x in Firsts(d0) {
      if x in k { FirstsIn(s0, d0, x); }
      if x in Firsts(d0) { FirstsIn(d0, s0, x); }
    }
    SortBySorted(d0, ByKey, false);
    PermutedDistinct(d0, s0);
    forall i, j | 0 <= i < j < |k| ensures StrLt(k[i], k[j]) {
      assert !Before(s0[j], s0[i], ByKey, false);
      StrLtTotal(k[i], k[j]);
    }
  }

  /** The values `v` line up with the columns `k`: each pair of a column
      and the value at its position is an item of the dict `d`. */
  predicate Aligned(k: seq<string>, v: seq<PyVal>, d: Row) {
    |v| == |k| && forall j :: 0 <= j < |k| ==> (k[j], v[j]) in d
  }

  lemma SameKeysLength(a: Row, b: Row)
    requires multiset(Keys(a, ByKey)) == multiset(Keys(b, ByKey))
    ensures |a| == |b|
  {
    assert |multiset(Keys(a, ByKey))| == |multiset(Keys(b, ByKey))|;
  }

  /** A dict's sorted items, read as columns and values, line up. */
  lemma SortedAligned(d: Row)
    ensures Aligned(Firsts(SortedItems(d)), Values(SortedItems(d)), d)
  {
    var sd := SortedItems(d);
    forall j | 0 <= j < |sd| ensures (Firsts(sd)[j], Values(sd)[j]) in d {
      assert sd[j] == (Firsts(sd)[j], Values(sd)[j]);
      assert sd[j] in multiset(d);
    }
  }

  /** A dict with the first dict's keys has its value for column `k[j]` at
      position `j` of its tuple. */
  lemma InsertManyValues(dataDicts: seq<Row>, i: nat)
    requires i < |dataDicts| && multiset(Keys(dataDicts[i], ByKey)) == multiset(Keys(dataDicts[0], ByKey))
    ensures Aligned(Columns(dataDicts[0]), Tuples(dataDicts)[i], dataDicts[i])
  {
    var di, d0 := dataDicts[i], dataDicts[0];
    SameKeysLength(di, d0);
    SameKeysSameOrder(di, d0);
    SortedAligned(di);
  }

  /** One placeholder per column, when no name holds a `?`. */
  lemma InsertSqlCount(table: string, k: seq<string>)
    requires Name(table) && Names(k)
    ensures Count(InsertSql(table, k), '?') == |k|
  {
    JoinExcludes(",", k, '?');
    var prefix := "INSERT OR REPLACE INTO " + table + " (" + Text.Join(",", k) + ") VALUES (";
    assert Name(prefix) by {
      assert prefix == "INSERT OR REPLACE INTO " + (table + (" (" + (Text.Join(",", k) + ") VALUES (")));
    }
    assert InsertSql(table, k) == prefix + Placeholders(|k|) + ")";
    CountAppend(prefix, Placeholders(|k|), '?');
    CountAppend(prefix + Placeholders(|k|), ")", '?');
    PlaceholderCount(|k|);
  }

  /** `insert_many` names the first dict's keys, each once and in
      ascending order, with one placeholder per column. */
  lemma InsertManyColumns(table: string, dataDicts: seq<Row>)
    requires dataDicts != [] && Name(table) && DistinctKeys(dataDicts[0])
    ensures InsertMany(table, dataDicts) == Ok((InsertSql(table, Columns(dataDicts[0])), Tuples(dataDicts)))
    ensures var k := Columns(dataDicts[0]);
      && (forall x :: x in k <==> x in Firsts(dataDicts[0]))
      && (forall i, j :: 0 <= i < j < |k| ==> StrLt(k[i], k[j]))
      && (Names(k) ==> Count(InsertSql(table, k), '?') == |k|)
  {
    var k := Columns(dataDicts[0]);
    InsertManyKeys(dataDicts[0]);
    if Names(k) {
      InsertSqlCount(table, k);
    }
  }

  /** Each dict's tuple holds its values in the order of its own sorted
      keys; for every dict with the first dict's keys that order is the
      column order, so each value lands in its column. */
  lemma InsertManyAligned(dataDicts: seq<Row>)
    requires dataDicts != []
    ensures var k := Columns(dataDicts[0]);
      var vs := Tuples(dataDicts);
      && (forall i :: 0 <= i < |vs| ==> |vs[i]| == |dataDicts[i]|)
      && (forall i :: 0 <= i < |vs| && multiset(Keys(dataDicts[i], ByKey)) == multiset(Keys(dataDicts[0], ByKey)) ==>
            Aligned(k, vs[i], dataDicts[i]))
  {
    forall i | 0 <= i < |dataDicts| && multiset(Keys(dataDicts[i], ByKey)) == multiset(Keys(dataDicts[0], ByKey))
      ensures Aligned(Columns(dataDicts[0]), Tuples(dataDicts)[i], dataDicts[i])
    {
      InsertManyValues(dataDicts, i);
    }
  }

  // SQLiteDB.update

  /** The assignments `k = ?` of the `SET` list. */
  function Assignments(ks: seq<string>): (r: seq<string>)
    ensures |r| == |ks|
  {
    MapSeq((k: string) => k + " = ?", ks)
  }

  /** The statement `update(table, newsID, newVal)` executes and its
      parameters: the values in the dict's order, then the newsID. `zip` of
      an empty dict unpacks into nothing, which raises `ValueError`. */
  function Update(table: string, newsID: PyVal, newVal: Row): (r: Result<Statement>)
    ensures r.Err? <==> newVal == []
    ensures r.Err? ==> r.error == ValueError
  {
    if newVal == [] then Err(ValueError)
    else
      Ok(Statement(UpdateSql(table, Firsts(newVal)), Some(Values(newVal) + [newsID])))
  }

  function UpdateSql(table: string, ks: seq<string>): string {
    "UPDATE " + table + " SET " + Text.Join(",", Assignments(ks)) + " WHERE newsID = ?"
  }

  /** `','.join(["%s = ?" % k for k in ks])` holds one `?` per key. */
  lemma {:induction false} CountAssignments(ks: seq<string>)
    requires forall i :: 0 <= i < |ks| ==> Name(ks[i])
    ensures Count(Text.Join(",", Assignments(ks)), '?') == |ks|
  {
    if ks != [] {
      var a := Assignments(ks);
      assert Count(a[0], '?') == 1 by {
        assert a[0] == ks[0] + " = " + "?";
        CountAppend(ks[0], " = ", '?');
        CountAppend(ks[0] + " = ", "?", '?');
      }
      if |ks| > 1 {
        assert a[1..] == Assignments(ks[1..]);
        CountAssignments(ks[1..]);
        assert Text.Join(",", a) == a[0] + "," + Text.Join(",", a[1..]);
        CountAppend(a[0], ",", '?');
        CountAppend(a[0] + ",", Text.Join(",", a[1..]), '?');
      }
    }
  }

  lemma WhereNewsIdCount()
    ensures Count(" WHERE newsID = ?", '?') == 1
  {
    assert " WHERE newsID = ?" == " WHERE newsID = " + "?";
    assert '?' !in " WHERE newsID = ";
    CountAppend(" WHERE newsID = ", "?", '?');
  }

  /** `update` binds the new values in the dict's order and the newsID
      last. */
  lemma UpdateParams(table: string, newsID: PyVal, newVal: Row)
    requires newVal != []
    ensures var r := Update(table, newsID, newVal);
      && r.Ok? && r.value.params.Some?
      && |r.value.params.value| == |newVal| + 1
      && (forall i :: 0 <= i < |newVal| ==> r.value.params.value[i] == newVal[i].1)
      && r.value.params.value[|newVal|] == newsID
  {
  }

  /** `update` sets each key of the dict to one placeholder and ends with
      `WHERE newsID = ?`: one placeholder per bound value. */
  lemma UpdatePlaceholders(table: string, newsID: PyVal, newVal: Row)
    requires newVal != [] && Name(table)
    requires forall i :: 0 <= i < |newVal| ==> Name(newVal[i].0)
    ensures Update(table, newsID, newVal).Ok?
    ensures Count(Update(table, newsID, newVal).value.sql, '?') == |newVal| + 1
  {
    UpdateSqlCount(table, Firsts(newVal));
  }

  lemma UpdateSqlCount(table: string, ks: seq<string>)
    requires Name(table) && forall i :: 0 <= i < |ks| ==> Name(ks[i])
    ensures Count(UpdateSql(table, ks), '?') == |ks| + 1
  {
    var sets := Text.Join(",", Assignments(ks));
    var head := "UPDATE " + table + " SET ";
    assert Name(head) by { assert head == "UPDATE " + (table + " SET "); }
    CountAssignments(ks);
    CountAppend(head, sets, '?');
    WhereNewsIdCount();
    CountAppend(head + sets, " WHERE newsID = ?", '?');
  }

  // ---------------------------------------------------------------------
  // SQLiteDB.get_news_by_ID

  /** A row of the `newsInfo`/`newsDetail` join as `get_news_by_ID`
      selects it; `in_use` is the stored integer flag. */
  datatype InfoRow = InfoRow(title: string, time: string, sn: string, likeNum: int, readNum: int,
                             inUse: int, newsID: NewsId)

  /** The `newsID` argument: a string, a list/tuple/set of them, or
      anything else. */
  datatype IdArg = OneId(id: NewsId) | ManyIds(ids: seq<NewsId>) | OtherArg

  /** A single string is wrapped in a list and a collection listed; any
      other argument leaves `newsIDs` unbound, which raises `NameError`
      (an `UnboundLocalError`). */
  function IdsOf(arg: IdArg): (r: Result<seq<NewsId>>)
    ensures r.Ok? <==> !arg.OtherArg?
    ensures r.Err? ==> r.error == NameError
    ensures arg.OneId? ==> r == Ok([arg.id])
    ensures arg.ManyIds? ==> r == Ok(arg.ids)
  {
    match arg
    case OneId(id) => Ok([id])
    case ManyIds(ids) => Ok(ids)
    case OtherArg => Err(NameError)
  }

  /** `get_news_by_ID(newsID, orderBy, filter_in_use)`: the rows of the
      join (given in the order `orderBy` sorts it) whose newsID is asked
      for, and with `filter_in_use` only those whose `in_use` is truthy. */
  function GetNewsById(table: seq<InfoRow>, arg: IdArg, filterInUse: bool): Result<seq<InfoRow>> {
    var ids :- IdsOf(arg);
    var rows := Filter(table, Asked(ids));
    Ok(if filterInUse then Filter(rows, InUse) else rows)
  }

  function Asked(ids: seq<NewsId>): InfoRow -> bool {
    (row: InfoRow) => row.newsID in ids
  }

  function InUse(row: InfoRow): bool {
    row.inUse != 0
  }

  /** A row comes back exactly when it is asked for and, when filtering,
      its `in_use` is non-zero; a single ID behaves as the list of it. */
  lemma GetNewsByIdRows(table: seq<InfoRow>, arg: IdArg, filterInUse: bool, row: InfoRow)
    ensures GetNewsById(table, arg, filterInUse).Ok? <==> !arg.OtherArg?
    ensures GetNewsById(table, arg, filterInUse).Ok? ==>
      (row in GetNewsById(table, arg, filterInUse).value <==>
        row in table && row.newsID in IdsOf(arg).value && (filterInUse ==> row.inUse != 0))
    ensures arg.OneId? ==> GetNewsById(table, arg, filterInUse) == GetNewsById(table, ManyIds([arg.id]), filterInUse)
  {
  }
}
