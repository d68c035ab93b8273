# PKU Youth web server: a verified model of its core

PKUyouthWebServer is the back end of the PKU Youth WeChat official account
and its mini program. Around its Flask views, SQLite and MongoDB stores,
Whoosh index and WeChat API calls sits a core of plain logic, which this
project models in Dafny and proves properties of:

- **Recommender.** The content-similarity recommender of `app/lib/tfidf.py`
  and the versions before it (`app/lib/frequency.py`, `app/lib/minipgm_api_db.py`,
  `app/views/miniprogram_develop.py`). It filters the segmented tokens,
  counts document frequencies, marks mono words, extracts tf-idf keywords
  and builds 0/1 bins over the keyword vocabulary. It then ranks the other
  documents by the Tanimoto coefficient, dropping scores of exactly 0 and
  exactly 1 (modules `TfIdf`, `Frequency`, `Similarity`).
- **Search.** The search plumbing of the two database layers and the
  mini-program views. It builds the `OR`/`AND` queries, applies the
  discard mask, joins hits to rows by newsID to copy their ranks, filters
  by date and checks dates (modules `Search`, `ServerDb`, `ApiDb`,
  `MinipgmApiDb`, `MiniprogramDevelop`).
- **Per-user records.** Registration, the favourites list, starred
  reporters and like counters, kept as maps the classes update in place
  (`ApiDb.UserDB`, `ApiDb.ReporterDB`, `MinipgmApiDb.MongoDB`).
- **Codecs and builders.**
  - SQL escaping, chunking, flattening and the CJK test (`UtilFuncs`).
  - The password-hash strings and SQL text builders (`UtilClass`).
  - PKCS #7 padding with 32-byte blocks, the WeChat plaintext frame and
    the message signature (`Cryptor`).
  - `to_bytes`, `xml2json` and URL joining (`CosUtil`).
  - UTF-8 (`Utf8`).
- **Validators and state machines.** The request-parameter validators
  (`ApiUtil`). In the DOCX-to-HTML coder of `app/lib/final.py` (`Final`):
  the zone state machine, the options, the read time, the full-width
  conversion and the bold test.
- **Crawler records.** Filtering and reshaping the crawled records, the idx/sn
  query parameters, the composite newsID, paging and the column name
  (`UpdateDb`, `UpdateData`, `SentList`, `UrlQuery`).
- **WeChat messages.** Classifying incoming XML (`Receive`, `Xml`), the
  webhook's text commands (`Webhook`), and the dict-to-XML reply builder
  (`Reply`).

Supporting modules:
- `Wrappers`: `Option`/`Result` and the Python exceptions.
- `PyValues`: dynamic Python values and `==`.
- `Text`, `Collections`, `Sorting`: strings, lists and Python's stable
  `sorted`.
- `PyInt`: `int()` on text.
- `Dates`: calendar dates.
- `PyRandom`: `random.sample` over a supplied draw. `randint` is `MinipgmApiDb.RandInt`.

Python's exceptions are the `Err` side of a `Result`. Objects whose fields
the source updates are classes with `modifies` clauses. Loops are `while`
loops proved against the functions that specify them.

## Model

| member | source | states |
|---|---|---|
| Utf8.EncodeChar | app/lib/pkuyouth_server/cryptor.py:57 | a code point takes one to four bytes, one exactly when it is ASCII |
| Utf8.Decode | app/lib/pkuyouth_server/cryptor.py:87 | decoding fails only with `ValueError` (`UnicodeDecodeError`) |
| Utf8.DecodeEncodeChar | app/lib/pkuyouth_server/cryptor.py:79-87 | the decoder reads back each encoded code point whatever follows it |
| Utf8.DecodeEncode | app/lib/pkuyouth_server/cryptor.py:79-87 | `s.encode('utf-8').decode('utf-8') == s` for every string |
| Utf8.EncodeAppend | app/lib/pkuyouth_server/cryptor.py:103 | encoding distributes over concatenation |
| Utf8.EncodeAscii | app/lib/pkuyouth_server/cryptor.py:76 | ASCII text is one byte per character, each the character's code |
| PyRandom.PickMultiset | app/lib/minipgm_api/db.py:55 | one draw takes one element and leaves the rest of the pool, as multisets |
| PyRandom.DrawShape | app/lib/minipgm_api/db.py:55 | a draw of `k` from a pool of at least `k` has `k` elements, a sub-multiset of the pool |
| PyRandom.SubMultisetDistinct | app/lib/minipgm_api/db.py:55 | drawing from distinct ids gives distinct ids |
| PyRandom.SampleShape | app/lib/minipgm_api/db.py:55 | `random.sample(population, k)` raises `ValueError` iff `k` is negative or above the population size; else it has `k` elements drawn without repetition from the population |
| PyRandom.Sample | app/lib/minipgm_api/db.py:55 | the selection loop computes exactly the specified draw |
| PyInt.ParseInt | app/views/miniprogram_develop.py:189 | `int(s)` fails only with `ValueError` |
| PyInt.ToInt | app/views/miniprogram_develop.py:189 | `int(v)` keeps an int and raises `TypeError` for `None` and lists |
| PyInt.DigitsValueOfNat | app/views/miniprogram_develop.py:189 | the digits of a natural read back as that natural |
| PyInt.ParseIntRoundTrip | app/views/miniprogram_develop.py:189 | `int(str(i)) == i` |
| PyInt.RenderedNoSpace | app/views/miniprogram_develop.py:189 | a rendered integer holds no whitespace |
| Dates.DaysInMonth | app/lib/pkuyouth_server/db.py:114 | months have 28 to 31 days, 29 exactly for February of a leap year (the dates `strptime` accepts) |
| Dates.Digits | app/views/miniprogram_develop.py:207 | a field is rendered with exactly its width in decimal digits |
| Dates.DigitsInjective | app/views/miniprogram_develop.py:207 | distinct fields in range render differently |
| Text.LStrip | app/lib/pkuyouth_server/db.py:135 | `lstrip()` drops exactly the leading whitespace: the result is a suffix, what it drops is whitespace, and it does not start with whitespace |
| Text.RStrip | app/lib/pkuyouth_server/db.py:135 | `rstrip()` drops exactly the trailing whitespace |
| Text.Strip | app/lib/pkuyouth_server/db.py:135 | `strip()` leaves no whitespace at either end |
| Text.StripSplits | app/lib/pkuyouth_server/db.py:135 | the input is whitespace, the stripped text, then whitespace |
| Text.StripNoSpace | app/lib/pkuyouth_server/db.py:135 | a string without whitespace is its own `strip()` |
| Text.TakeWord | app/lib/pkuyouth_server/db.py:135 | a word is the longest prefix free of whitespace |
| Text.SplitWs | app/lib/pkuyouth_server/db.py:135 | `split()` gives non-empty words free of whitespace |
| Text.SplitJoinRoundTrip | app/lib/minipgm_api/db.py:80 | splitting words joined by one whitespace character gives the words back |
| Text.Join | app/lib/minipgm_api/db.py:80 | joining no parts gives the empty string, joining one part gives that part |
| Text.PadLeft | app/lib/update_db.py:174 | right alignment pads on the left with the fill up to the width and keeps the text as suffix |
| Text.SplitOn | app/lib/cos_v5/util.py:73 | `s.split(sep)` gives at least one piece, none holding the separator, each made of the string's characters |
| Text.JoinSplitOn | app/lib/cos_v5/util.py:73 | joining the pieces with the separator gives the string back |
| Text.SplitOnJoin | app/lib/cos_v5/util.py:73 | splitting separator-free pieces joined by the separator gives them back |
| Text.SplitOnSep | app/lib/cos_v5/util.py:73 | splitting at a separator splits the two sides independently |
| Collections.Dedup | app/views/miniprogram_develop.py:244 | the distinct elements, in order of first occurrence, each from the input and every input element present |
| Collections.Lookup | app/lib/minipgm_api/db.py:55 | a key is found iff it is among the keys, and the value found is paired with it in the list |
| Collections.LookupDistinct | app/lib/minipgm_api/db.py:55 | with distinct keys the lookup finds the entry at the key's position |
| Collections.Filter | app/lib/minipgm_api/db.py:55 | a list comprehension's filter keeps exactly the elements that pass |
| Collections.TakePy | app/views/miniprogram_develop.py:320 | `s[:n]` is the prefix of length `n`, counted from the end when `n` is negative, clamped to the list |
| Sorting.KeyLtTransitive | app/views/miniprogram_develop.py:320 | the key order is transitive |
| Sorting.KeyLtTotal | app/views/miniprogram_develop.py:320 | any two distinct keys are ordered |
| Sorting.SortBy | app/views/miniprogram_develop.py:320 | `sorted` permutes its input |
| Sorting.SortBySorted | app/views/miniprogram_develop.py:320 | the output of `sorted` is ordered by the key, descending under `reverse=True` |
| Sorting.SortByStable | app/views/miniprogram_develop.py:345 | elements with equal keys keep their relative order |
| Sorting.KeysSortBy | app/views/miniprogram_develop.py:320 | sorting permutes the keys too |
| Sorting.SortedUnique | app/views/miniprogram_develop.py:320 | with a key that tells elements apart, there is only one sorted permutation |
| Sorting.TopN | app/views/miniprogram_develop.py:320-338 | the top `n` are sorted, come from the input, have `min(n, len)` elements, and nothing left out may come before anything kept |
| Sorting.TopNLeftOut | app/views/miniprogram_develop.py:320-338 | an element missing from the top `n` does not come before any element kept |
| Sorting.TopNIn | app/views/miniprogram_develop.py:320-338 | the top `n` come from the input |
| Utf8.Encode | app/lib/cos_v5/util.py:39 | the encoding is never shorter than the text |
| Utf8.DecodeChar | app/lib/pkuyouth_server/cryptor.py:87 | a decoded code point consumes between one byte and the whole input; malformed input raises `ValueError` |
| PyValues.PyEqTrueIsOne | app/lib/update_data.py:150 | Python `==` equates `1` with `True` and `0.0` with `False`, but not `"1"` with `1` nor `None` with `False` |
| UtilFuncs.EscapesShape | app/lib/utilfuncs.py:69-72 | each escape is `/` (or `'` for the quote) followed by the character it stands for |
| UtilFuncs.FwdStep | app/lib/utilfuncs.py:73-75 | forward pass `k` escapes exactly the table's `k`-th character; the escapes already written hold no later table character |
| UtilFuncs.EncStep | app/lib/utilfuncs.py:76-77 | reverse pass `k` undoes exactly the `k`-th escape of an escaped word |
| UtilFuncs.FwdPasses | app/lib/utilfuncs.py:73-75 | after `k` forward passes the word has its first `k` table characters escaped |
| UtilFuncs.EncPasses | app/lib/utilfuncs.py:76-77 | after `k` reverse passes an escaped word has its first `k` escapes undone |
| UtilFuncs.ToEscForward | app/lib/utilfuncs.py:67-78 | forward `toESC` escapes each character on its own: `/` doubled, `'` doubled, and `/` put before `[`, `]`, `%`, `&`, `_`, `(` and `)` |
| UtilFuncs.ToEscRoundTrip | app/lib/utilfuncs.py:67-78 | `toESC(toESC(w), reverse=True) == w` for every word |
| UtilFuncs.ToEsc | app/lib/utilfuncs.py:67-78 | the loop gives the escaped word forward, and in reverse gives back any word that was escaped |
| UtilFuncs.DictToEsc | app/lib/utilfuncs.py:80-82 | succeeds iff every listed key holds a string; then the keys and their order are kept, listed values are escaped or unescaped and the others copied |
| UtilFuncs.ChunksShape | app/lib/utilfuncs.py:86 | the chunks put together are the list; every chunk but the last has `n` elements and the last between 1 and `n` |
| UtilFuncs.ChunksSnoc | app/lib/utilfuncs.py:86 | after a whole number of chunks, the next piece is the next chunk |
| UtilFuncs.ListSplit | app/lib/utilfuncs.py:84-86 | `n == 0` raises `ValueError` from `range`; a negative `n` gives `[]`; a positive one gives chunks of at most `n` elements, all full but the last, which put together are the list |
| UtilFuncs.GenSplit | app/lib/utilfuncs.py:123-131 | the buffering generator yields the chunks of `n` elements, the last possibly shorter, none empty, which put together are the input; with `n <= 1` each element is its own chunk |
| UtilFuncs.IterSplit | app/lib/utilfuncs.py:118-134 | a list is sliced as `listSplit` does, a generator goes through the buffer, anything else raises `TypeError` |
| UtilFuncs.LeavesAppend | app/lib/utilfuncs.py:137-144 | flattening distributes over concatenation |
| UtilFuncs.LeavesOfFlat | app/lib/utilfuncs.py:137-144 | a list holding no lists or tuples flattens to itself |
| UtilFuncs.IterFlat | app/lib/utilfuncs.py:137-144 | the recursive loop gives the leaves in order |
| UtilFuncs.IsChinese | app/lib/utilfuncs.py:147-152 | true iff every character lies in U+4E00..U+9FA5 |
| UtilFuncs.IsChineseEmpty | app/lib/utilfuncs.py:147-152 | the empty word counts as Chinese, "a" does not, "北大" does |
| UtilClass.FindFromExact | app/lib/utilclass.py:239 | the lazy search for a character finds exactly its first occurrence at or after the start |
| UtilClass.Split | app/lib/utilclass.py:239 | a hash that does not match `^.*?:.*?:.*?\$(salt)\$(code)$` raises `AttributeError` on the missing match |
| UtilClass.Parse | app/lib/utilclass.py:245-246 | `__parse` succeeds exactly when the pattern matches, and gives the code and then the salt |
| UtilClass.Join | app/lib/utilclass.py:248-249 | `__join`: method, `$`, salt, `$`, code; its round trips with `__parse` are UtilClass.SplitJoin and UtilClass.JoinSplit |
| UtilClass.DollarsOfJoin | app/lib/utilclass.py:239 | in a joined hash the salt's delimiters are the two `$` that `__join` adds |
| UtilClass.SplitJoin | app/lib/utilclass.py:239-249 | `__parse(__join(hashMethod, code, salt)) == (code, salt)` for a method with two colons and parts without `$` or newlines in method and salt |
| UtilClass.JoinSplit | app/lib/utilclass.py:239-249 | everything the pattern accepts is the join of its parts, followed at most by one newline, with a `$`-free salt |
| UtilClass.GetToken | app/lib/utilclass.py:263-267 | a string is signed as the code and salt of its hash, failing when the hash does not parse; any other value is signed as itself |
| UtilClass.Verify | app/lib/utilclass.py:272-276 | an empty payload raises `IndexError`; a two-part payload is checked as the rebuilt hash `method$salt$code`; any other payload compares its first part with the string |
| UtilClass.VerifyOwnToken | app/lib/utilclass.py:251-276 | the token made for a string verifies against a raw string exactly when the password check of the string's hash does |
| UtilClass.VerifyObjectToken | app/lib/utilclass.py:263-276 | a token made for a non-string verifies as false against every string |
| UtilClass.PlaceholderCount | app/lib/utilclass.py:412-414 | `','.join('?' * n)` holds exactly `n` placeholders |
| UtilClass.SelectJoin | app/lib/utilclass.py:387-416 | the string-building loop produces the statement of the head, one join clause per further table and the optional `WHERE … IN` clause |
| UtilClass.QualifiedColumnsIn | app/lib/utilclass.py:398-400 | a selected name is exactly some table's `table.col` for one of its listed columns |
| UtilClass.SelectJoinShape | app/lib/utilclass.py:400-411 | the statement starts with the `SELECT` head, joins each further table to the first on the key, and binds the given IDs |
| UtilClass.SelectJoinPlaceholders | app/lib/utilclass.py:412-416 | with IDs the statement holds one placeholder per ID, when no name holds a `?` |
| UtilClass.InsertMany | app/lib/utilclass.py:425-432 | an empty list of dicts raises `IndexError`, anything else builds a statement and its tuples |
| UtilClass.InsertManyKeys | app/lib/utilclass.py:427-429 | the columns are the first dict's keys, each once, in ascending order |
| UtilClass.InsertManyColumns | app/lib/utilclass.py:425-432 | the statement names the sorted keys of the first dict with one placeholder per column |
| UtilClass.InsertManyAligned | app/lib/utilclass.py:427-431 | every dict with the first dict's keys has its value for each column at that column's position in its tuple |
| UtilClass.PermutedDistinct | app/lib/utilclass.py:427 | sorting a dict's items keeps its keys distinct |
| UtilClass.Update | app/lib/utilclass.py:434-445 | an empty dict raises `ValueError` on unpacking; a non-empty one builds the statement |
| UtilClass.UpdateParams | app/lib/utilclass.py:436-444 | the bound values are the dict's values in order, then the newsID |
| UtilClass.UpdatePlaceholders | app/lib/utilclass.py:436-444 | the statement holds one placeholder per bound value |
| UtilClass.IdsOf | app/lib/utilclass.py:455-458 | one ID becomes the list of it, a list or tuple is kept, anything else fails with the unbound list |
| UtilClass.GetNewsByIdRows | app/lib/utilclass.py:454-477 | a row is returned exactly when its ID is asked for and, when filtering, its `in_use` is non-zero; one ID acts as the list of it |
| Final.BoolLike | app/lib/final.py:160 | `value not in {True, False}` raises `TypeError` exactly for an unhashable value, and otherwise accepts exactly the numbers equal to 0 or 1 (booleans included) |
| Final.SetFlag | app/lib/final.py:163 | storing a parameter changes that parameter and no other |
| Final.ApplyParamsAccepts | app/lib/final.py:157-163 | the loop over the keyword arguments gets through iff every argument has a known name and an acceptable value, and then each parameter holds the last value given for it |
| Final.ApplyParamsStops | app/lib/final.py:157-161 | the first argument that fails stops the loop with its own error, whatever follows |
| Final.SetParamsResult | app/lib/final.py:155-166 | after `_set_params` succeeds every parameter is still 0/1-like and the two counts are not both switched on |
| Final.LastValueAcceptable | app/lib/final.py:157-163 | the last acceptable value of a parameter stays 0/1-like |
| Final.PictureCountNeedsWordsOff | app/lib/final.py:120-166 | counting words is the default, so asking for the picture count alone raises; switching words off first is accepted, whether as booleans or as 0 and 1 |
| Final.LastCloseGreedy | app/lib/final.py:116 | the greedy `(\S+)` group ends at the last position that `[ ]*%}` can follow, and there is no match when there is no such position |
| Final.ZoneNameWord | app/lib/final.py:116 | a zone name read from a marker is non-empty and holds no whitespace |
| Final.ZoneNameOf | app/lib/final.py:116 | `{%`, blanks, a name, at least one blank and `%}` is read as that name, whatever follows |
| Final.ZoneNameGreedy | app/lib/final.py:116 | without a blank the group runs on to the last `%}` of the run |
| Final.ZoneNameTight | app/lib/final.py:116 | `{%body%}` is still read as `body` |
| Final.ZoneNameEmpty | app/lib/final.py:116 | a marker without a name does not match |
| Final.EndOf | app/lib/final.py:458-460 | the zone an end marker closes is what follows `end` |
| Final.ZoneStep | app/lib/final.py:455-475 | an end marker succeeds iff it names a registered zone that is the open one, and then closes it; a start marker succeeds iff it names a registered zone and none is open, and then opens it; the end of an unopened zone and a start inside a zone raise the corresponding error |
| Final.ZoneNames | app/lib/final.py:117-118 | no registered zone looks like an end marker, and `end` plus a zone is that zone's end marker |
| Final.BodyStep | app/lib/final.py:491-526 | a body paragraph raises `IndexError` iff `back()` is due and the body holds no `br` yet (a picture next to a picture, with the call corrected, or a centred caption that is not bold, via `pNote`); otherwise a picture adds one to `pictSum`, a text paragraph adds the length of its stripped text to `wordSum`, the `br` count grows by one unless `back()` took one first or the paragraph is blank, and the zone is unchanged |
| Final.Step | app/lib/final.py:424-437 | one turn of the loop of `_code`, with line 495 corrected; its properties are those of Final.ScanZones, Final.StepCounts, Final.PictureAfterPicture and Final.CaptionFirstRaises |
| Final.StepAsWritten | app/lib/final.py:491-497 | one turn of the loop as written, where a body picture next to a picture raises `TypeError`; its properties are those of Final.PictureAfterPicture and Final.PictureAfterPictureStops |
| Final.Finish | app/lib/final.py:439-440 | `_code` succeeds after the loop iff the loop raised nothing and no zone is left open |
| Final.ScanZones | app/lib/final.py:424-437 | unless a `back()` in the body raises `IndexError` first, the loop raises exactly when `_asZone` over the marker names alone raises, with the same error; when it raises nothing it ends in the zone those markers leave open |
| Final.ZoneRunBalanced | app/lib/final.py:455-475 | from outside any zone the markers end outside any zone iff they pair up, and inside a zone iff they pair up and then open that zone |
| Final.CodeBalanced | app/lib/final.py:422-440 | when `_code` passes its zone checks the markers pair up; unless a `back()` raises `IndexError` first, they pass iff the markers pair up |
| Final.CodeMissingEnd | app/lib/final.py:439-440 | a zone left open at the end is reported by name, unless a `back()` raised `IndexError` before |
| Final.LoopSkips | app/lib/final.py:424-426 | a paragraph the loop leaves alone can be removed, wherever it stands |
| Final.ScanSkipsComment | app/lib/final.py:425-426 | a paragraph starting with `#` changes nothing, wherever it stands |
| Final.LoopStops | app/lib/final.py:424-437 | once the loop has raised, later paragraphs are not read |
| Final.StepCounts | app/lib/final.py:497-526 | one paragraph never lowers a count and adds at most one picture |
| Final.ScanCounts | app/lib/final.py:424-437 | the counts only grow, the picture count by at most one per paragraph |
| Final.PictureAfterPicture | app/lib/final.py:491-497 | as written, a body picture next to a picture raises `TypeError`; corrected, `back()` takes the last `br` and the picture adds one to the picture count, or `IndexError` when the body has no `br` yet |
| Final.CaptionFirstRaises | app/lib/final.py:251-258 | `{%body%}` followed at once by a centred caption that is not bold stops the conversion with `IndexError`, because `pNote`'s `back()` finds no `br` |
| Final.OpensBody | app/lib/final.py:455-475 | the marker `{%body%}` outside any zone opens the body |
| Final.NoteRaises | app/lib/final.py:251-258 | `pNote` in a body with no `br` yet raises `IndexError` |
| Final.PictureAfterPictureStops | app/lib/final.py:424-497 | as written, such a picture stops the whole conversion, whatever follows; corrected, it is counted and the loop goes on once the body holds a `br` |
| Final.ReadTime | app/lib/final.py:347-359 | counting words gives `wordSum // 600`; otherwise counting pictures gives the picture minutes; with neither switched on the result is `None` |
| Final.PictMinutesMonotone | app/lib/final.py:351-359 | the picture reading time is never below 3 and never goes down as pictures are added |
| Final.PictMinutesStep | app/lib/final.py:358-359 | past 31 pictures every 20 more add one minute |
| Final.IsBold | app/lib/final.py:368-380 | no `w:b` gives False; an absent or empty `w:val` gives True; "false" gives False; any other value gives True |
| Final.SbcFoldStep | app/lib/final.py:338-344 | each turn of the loop splits on one character, drops the empty pieces and joins with its partner, in the chosen direction |
| Final.ToSbcCase | app/lib/final.py:326-345 | the loop computes the fold of both translations over the text |
| Final.RetextLacks | app/lib/final.py:340-341 | the rewritten text holds neither the character it split on nor any character the input lacked, apart from the joiner |
| Final.SbcForwardClean | app/lib/final.py:339-341 | converted to full width, a text holds no ASCII space and no `|` |
| Final.SbcReverseClean | app/lib/final.py:342-344 | converted back, a text holds no U+3000 and no U+FF5C |
| Final.SbcOfWords | app/lib/final.py:339-341 | words without whitespace or bars, joined by single spaces, come out joined by U+3000 |
| Final.RetextJoined | app/lib/final.py:340-341 | non-empty pieces without the separator, joined by it, are rejoined with the other character |
| Final.RetextWhole | app/lib/final.py:340-341 | a stripped text without the separator is left alone |
| Final.HtmlCoder.constructor | app/lib/final.py:119-126 | a new converter is outside any zone, counts words only, has counted nothing and has no `br` in its body |
| Final.HtmlCoder.Store | app/lib/final.py:163 | storing a parameter changes only that parameter and leaves the counters alone |
| Final.HtmlCoder.SetParams | app/lib/final.py:155-166 | the new parameters and the error are those of the specification, and the counters are unchanged |
| Final.HtmlCoder.AsZone | app/lib/final.py:455-475 | the zone becomes what `ZoneStep` gives, or stays as it was when it raises; the counters are unchanged |
| Final.HtmlCoder.Back | app/lib/final.py:299-311 | `back()` in the body removes the last `br`, or raises `IndexError` and changes nothing when there is none; nothing else changes |
| Final.HtmlCoder.AsBody | app/lib/final.py:491-526 | the state and error move as `BodyStep` says, with line 495 corrected, and the state is unchanged when it raises |
| Final.HtmlCoder.AsBodyText | app/lib/final.py:514-526 | a paragraph with text and without a picture moves the state and error as `BodyStep` says: a caption goes through `pNote`, any other paragraph adds a `br`, and the stripped text is counted |
| Final.HtmlCoder.PNote | app/lib/final.py:251-265 | `pNote` raises `IndexError` and changes nothing when the body holds no `br`, and otherwise takes the last `br` and adds its own, so the count of `br` is unchanged and nothing else moves |
| Final.HtmlCoder.Visit | app/lib/final.py:424-437 | one turn of `_code` moves the state as `Step` does, and the state is unchanged when it raises |
| Final.HtmlCoder.Code | app/lib/final.py:422-440 | the state and error after `_code` are those of `Finish(Scan(...))` |
| SentList.Get | app/lib/update_db.py:165-166 | `record[key]` is the stored value when the key is present and `KeyError` exactly when it is not |
| SentList.Field | app/lib/update_data.py:150-151 | a message's scalar field is found exactly when present, else `KeyError` |
| SentList.IsArticleMessage | app/lib/update_data.py:150 | the type test fails with `KeyError` exactly when `type` is missing, and holds iff the type equals 9 under Python `==` |
| SentList.SentTime | app/lib/update_data.py:152 | `sent_info["time"]` is found exactly when both levels are present, else `KeyError` |
| SentList.Articles | app/lib/update_data.py:153 | `appmsg_info` is found exactly when present, else `KeyError` |
| SentList.Restrict | app/lib/update_data.py:155-157 | the comprehension keeps exactly the keys of the record that are in the field set, with their values |
| SentList.QueryItems | app/lib/update_data.py:158 | a text URL gives the items of `parse_qs` on its query; ASCII bytes or a falsy value give no items; bytes holding a byte of 128 or more raise `ValueError` (`UnicodeDecodeError`); any other value raises `AttributeError`, and only those |
| SentList.ApplyQuery | app/lib/update_data.py:158-160 | the loop over the query items equals the fold `QueryOverride` |
| SentList.QueryOverrideSpec | app/lib/update_data.py:158-160 | the loop succeeds iff every `idx`/`itemidx` value converts; then the record is the original with `idx` set from the last `idx`/`itemidx` item and `sn` from the last `sn`/`sign` item, and nothing else changed |
| SentList.QueryOverrideErr | app/lib/update_data.py:158-160 | a conversion error in some item ends the loop with that error, whatever follows |
| SentList.LastIn | app/lib/update_db.py:169-173 | the value chosen is that of an item with one of the keys; none is chosen only when no item has one |
| SentList.Overridden | app/lib/update_db.py:169-173 | the record with `idx`/`sn` replaced has the old keys plus the replaced ones, the given values at `idx` and `sn`, every other value unchanged |
| SentList.KeysDisjoint | app/lib/update_db.py:170-172 | no query key sets both `idx` and `sn` |
| SentList.CollectSnoc | app/lib/update_data.py:149-162 | one more iteration appends that item's output to the list, or stops the loop with its error |
| SentList.CollectErr | app/lib/update_data.py:149-162 | an exception raised on some item is the outcome of the whole loop |
| SentList.CollectOk | app/lib/update_data.py:149-162 | the loop completes iff no item raises |
| SentList.CollectFrom | app/lib/update_data.py:149-162 | every collected element is the output of some item |
| SentList.CollectAppend | app/lib/update_data.py:149-162 | looping over two lists in turn equals looping over their concatenation |
| SentList.CollectSingle | app/lib/update_db.py:88-92 | a loop producing one value per item succeeds iff every item does, and then yields exactly one value per item, position by position |
| UrlQuery.IndexOf | app/lib/update_db.py:206 | the position found holds the character sought and no earlier position does; the length when it is absent |
| UrlQuery.IndexOfAt | app/lib/update_db.py:206 | in `a + [c] + b` with no `c` in `a` the first `c` is at `|a|` |
| UrlQuery.QueryOf | app/lib/update_data.py:158 | the query component never contains a fragment `#` |
| UrlQuery.QueryOfSplit | app/lib/update_data.py:158 | the query of `base?query` is `query` (no `?` in base, no `#` anywhere), and a URL without `?` has an empty query |
| UrlQuery.Segments | app/lib/update_data.py:158 | splitting on `&` and `;` always gives at least one piece |
| UrlQuery.Pair | app/lib/update_data.py:158 | a piece without `=` or with an empty value yields no pair; a pair never has an empty value |
| UrlQuery.Pairs | app/lib/update_data.py:158 | there are at most as many pairs as pieces |
| UrlQuery.FirstValuesSpec | app/lib/update_db.py:169 | the items of `parse_qs` have each key once, exactly the keys of the pairs, each with the value of its first pair |
| UrlQuery.ParseQsOne | app/lib/update_db.py:169 | a single `name=value` query without separators or `+` parses to that one pair |
| UpdateData.Pages | app/lib/update_data.py:275-279 | the first `k` pages, one per offset `begin + 7*i` |
| UpdateData.BatchGetPages | app/lib/update_data.py:275-279 | when pages `0..k-1` are non-empty and page `k` is empty, the recursion returns pages `0..k-1` concatenated in order |
| UpdateData.BatchGetSpec | app/lib/update_data.py:275-279 | there is a first empty page `k`, and the result is exactly the pages before it, concatenated |
| UpdateData.Defaulted | app/lib/update_data.py:107-112 | skipped iff both `comment_id` and `copyright_type` are missing; a missing `comment_id` gets `"none"` and `comment_num` 0; a missing `copyright_type` gets -1 and `modify_status` -1; a record with both is unchanged, and no other key changes |
| UpdateData.DefaultedIdempotent | app/lib/update_data.py:107-112 | defaulting a defaulted record changes nothing |
| UpdateData.ValuesRow | app/lib/update_data.py:113-114 | the formatted row holds the record's value for each of the 14 columns in column order; a missing column raises `KeyError`, and only then |
| UpdateData.RowOf | app/lib/update_data.py:106-114 | a skipped record contributes no row, a kept one at most one, and it fails iff its defaulted form lacks a column |
| UpdateData.BatchRows | app/lib/update_data.py:115-117 | a statement that succeeds inserts a non-empty list of rows, the rows of the records in order |
| UpdateData.BatchValuesSkips | app/lib/update_data.py:107-108 | a record lacking both `comment_id` and `copyright_type` adds nothing, wherever it stands in the list |
| UpdateData.BatchValuesFrom | app/lib/update_data.py:106-114 | every inserted row is the row of some kept record with its defaults filled in |
| UpdateData.BatchRowsOk | app/lib/update_data.py:106-114 | building the rows succeeds iff every kept record has all 14 columns |
| UpdateData.IntIdx | app/lib/update_data.py:159 | `int(value[0])` succeeds exactly when the text parses as an int, giving that int, and raises `ValueError` otherwise |
| UpdateData.EscapeFields | app/lib/update_data.py:162 | escaping succeeds iff every listed value present is text; the key set and every unlisted value are unchanged and each listed value is escaped; bytes raise `TypeError`, other values `AttributeError` |
| UpdateData.EscapeRoundTrip | app/lib/update_data.py:162 | unescaping the escaped fields gives the record back |
| UpdateData.ArticleRecord | app/lib/update_data.py:155-162 | an article without `content_url` raises `KeyError` |
| UpdateData.ArticleInfo | app/lib/update_data.py:154-162 | a missing `is_deleted` raises `KeyError`, a deleted article adds nothing, a live one adds its record or raises its error |
| UpdateData.MsgNewsInfo | app/lib/update_data.py:150 | a message whose type is not 9 adds nothing; one without a type raises `KeyError` |
| UpdateData.FieldNames | app/lib/update_data.py:155-162 | `idx`, `sn`, `msgid` and `masssend_time` are not whitelisted keys, and the escaped fields are whitelisted ones |
| UpdateData.OverrideInt | app/lib/update_data.py:158-160 | the query loop only adds `idx` and `sn`, leaves every other key unchanged, and any `idx` it adds is an int |
| UpdateData.EscapeStep | app/lib/update_data.py:161-162 | adding `msgid` and `masssend_time` and then escaping gives the keys plus those two, the two values given, listed fields escaped and all else unchanged |
| UpdateData.ArticleKept | app/lib/update_data.py:155-162 | a kept record holds only whitelisted keys plus `idx`, `sn`, `msgid` and `masssend_time`; `msgid` and the send time are the message's; `idx` is an int; other values are the article's own, with `title`, `cover` and `content_url` escaped |
| UpdateData.NewsInfoFrom | app/lib/update_data.py:149-162 | every record of the list comes from a live article of a type-9 message of the list |
| UpdateData.CollectArticles | app/lib/update_data.py:153-162 | the inner loop over one message's articles gives `Collect` of the article step |
| UpdateData.CollectNewsInfo | app/lib/update_data.py:148-162 | the outer loop gives `NewsInfoList` of the messages |
| UpdateData.Inserted | app/lib/update_data.py:164-165 | batches only add rows: the table before the loop stays a prefix of the table after it |
| UpdateData.InsertedErr | app/lib/update_data.py:164-165 | once a batch fails, the later batches are not run |
| UpdateData.InsertedAll | app/lib/update_data.py:164-165 | when every batch inserts, the table gains the rows of all records, in record order, and no error is raised |
| UpdateData.InsertedFails | app/lib/update_data.py:164-165 | the loop stops with an error only when some batch raised that error |
| UpdateData.BatchesCover | app/lib/update_data.py:164-165 | `listSplit(l, 500)` covers all records in order, every batch holding 1 to 500 records; when every batch inserts, the table gains exactly the rows of all records |
| UpdateData.NewsInfoTable.BatchAddNewsInfo | app/lib/update_data.py:102-121 | one statement: the table gains the rows of all kept records, in order, or on any error the table is unchanged and the error is raised |
| UpdateData.NewsInfoTable.BuildTableNewsInfo | app/lib/update_data.py:136-168 | an error while collecting the records leaves the table untouched; otherwise the table (emptied when `rebuild`) receives batches of 500 in order until one fails, earlier batches staying committed |
| UpdateDb.BatchGetNewsInfo | app/lib/update_db.py:70-79 | the `while True` loop returns the same list as the recursive crawler: the pages at `begin`, `begin+7`, … before the first empty one, concatenated |
| UpdateDb.WithContent | app/lib/update_db.py:81-92 | a record without `content_url` raises `KeyError`; otherwise a failed fetch raises; on success the keys are the old ones minus `content_url` plus `digest` and `content`, which hold the fetched texts, and every other value is unchanged |
| UpdateDb.ContentAll | app/lib/update_db.py:88-92 | the loop over the records succeeds iff every record's update does, and then the list holds each record's updated form at its position |
| UpdateDb.RewriteEach | app/lib/update_db.py:88-92 | rewriting rows in place, in order, stops at the first failure: the rows before it rewritten, it and the rest as they were; on success every row is its rewritten form |
| UpdateDb.BatchGetNewsContent | app/lib/update_db.py:88-92 | the array afterwards is the list of updated records, or the first error is returned |
| UpdateDb.AppMsgIdText | app/lib/update_db.py:174 | `{appmsgid:0>10d}` renders an int zero-padded to ten digits, bools as 1 or 0, and raises for every other kind; it is never shorter than ten characters |
| UpdateDb.IdxText | app/lib/update_db.py:174 | `{idx}` renders text as itself and an int in decimal |
| UpdateDb.NewsId | app/lib/update_db.py:174 | the newsID exists iff `appmsgid` and `idx` are present and `appmsgid` formats; it is the formatted appmsgid followed by the idx text |
| UpdateDb.PadDigits | app/lib/update_db.py:174 | zero-padding the digits of a number below `10^width` gives its `width`-digit decimal form |
| UpdateDb.NewsIdSplit | app/lib/update_db.py:174 | for an appmsgid below `10^10` and a text idx, the first ten characters of the newsID are the appmsgid's digits (reading back as it) and the rest is the idx |
| UpdateDb.NewsIdInjective | app/lib/update_db.py:174 | records with different appmsgids or different idx texts get different newsIDs |
| UpdateDb.TextIdx | app/lib/update_db.py:170-171 | the idx query value is kept as text |
| UpdateDb.NewsRecord | app/lib/update_db.py:168-175 | an article without `content_url` raises `KeyError` |
| UpdateDb.ArticleNews | app/lib/update_db.py:165-176 | a missing `is_deleted` raises `KeyError`; a deleted article, or one with neither `comment_id` nor `copyright_type`, adds nothing; any other article adds its record or raises its error |
| UpdateDb.MsgNews | app/lib/update_db.py:161 | a message whose type is not 9 adds nothing; one without a type raises `KeyError` |
| UpdateDb.OverrideText | app/lib/update_db.py:169-173 | the query loop never fails, only adds `idx` and `sn`, sets them to the last matching query value as text, and leaves every other key as it was |
| UpdateDb.FieldNames | app/lib/update_db.py:157 | `idx`, `sn`, `newsID` and `masssend_time` are among the kept fields and are distinct names |
| UpdateDb.Stamped | app/lib/update_db.py:174-175 | setting `newsID` and `masssend_time` leaves every other key as it was |
| UpdateDb.NewsKept | app/lib/update_db.py:168-175 | a kept record holds only the listed fields; `idx` is the last `idx`/`itemidx` query value and `sn` the last `sn`/`sign` one, when present; every other value but `newsID` and `masssend_time` is the article's own |
| UpdateDb.NewsKeptId | app/lib/update_db.py:174-175 | `newsID` is the record's appmsgid zero-padded to ten digits followed by its idx, and `masssend_time` is the converted send time |
| UpdateDb.NewsDictsFrom | app/lib/update_db.py:160-176 | every record comes from a kept article of a type-9 message |
| UpdateDb.CollectNews | app/lib/update_db.py:165-176 | the inner loop gives `Collect` of the article step over the message's articles |
| UpdateDb.BuildNewsDicts | app/lib/update_db.py:158-176 | the outer loop gives `NewsDicts` of the messages |
| UpdateDb.BracketName | app/lib/update_db.py:202-207 | a name is found only after a leading 【: it is followed by 】 and holds neither 】 nor a newline |
| UpdateDb.FirstPipe | app/lib/update_db.py:203-209 | the position found is the first of `| ｜ 〡 丨`, or the length when there is none |
| UpdateDb.PipeHead | app/lib/update_db.py:209 | `re_pipe.split(title)[0]` is the title up to its first pipe character |
| UpdateDb.ColumnBracket | app/lib/update_db.py:206-210 | a title `【name】rest` has the column `name`, stripped |
| UpdateDb.ColumnPipe | app/lib/update_db.py:208-210 | a title not opening with 【 and with a pipe character after a pipe-free `head` has the column `head`, stripped |
| UpdateDb.PipeAt | app/lib/update_db.py:209 | the first pipe of `head + [p] + rest` is `p` when `head` has none |
| UpdateDb.ColumnPlain | app/lib/update_db.py:208-210 | a title that neither opens with 【 nor holds a pipe character is its own column, stripped |
| UpdateDb.DetailRow | app/lib/update_db.py:204-210 | a row without `title` raises `KeyError`, a non-text title fails; otherwise the keys are the old ones minus `title` plus `column` |
| UpdateDb.DetailRowValues | app/lib/update_db.py:205-210 | the rewritten row's `column` is the column of its title, and every other field but the title is the original's |
| UpdateDb.BuildNewsDetail | app/lib/update_db.py:199-216 | the array afterwards is the list of rewritten rows, or the first error is returned |
| UpdateDb.DetailAll | app/lib/update_db.py:204-210 | the loop succeeds iff every row has a text title, and then each row is replaced by its rewritten form at its position |
| Webhook.GetAnswer | app/views/pkuyouth_server.py:51-61 | with exactly the four handshake arguments the answer is `echostr` when the SHA-1 of the sorted token, timestamp and nonce equals `signature`, else the verification error; any other arguments get the platform banner |
| Webhook.GetAnswerSymmetric | app/views/pkuyouth_server.py:55 | exchanging timestamp and nonce does not change the answer, since the three strings are sorted before hashing |
| Webhook.GetAnswerEcho | app/views/pkuyouth_server.py:55-59 | `echostr` is echoed iff the signature checks |
| Webhook.QMatch | app/views/pkuyouth_server.py:28-83 | `regex_q` matches iff the text starts with q or Q; a group it captures holds no newline |
| Webhook.QMatchLine | app/views/pkuyouth_server.py:28-83 | on a line without newline the group is everything after the q |
| Webhook.QMatchInnerNewline | app/views/pkuyouth_server.py:28-83 | with a newline inside the text only the bare `q` alternative matches, and the group is `None` |
| Webhook.DateMatch | app/views/pkuyouth_server.py:29-89 | a day match has three two-digit groups, a month match two |
| Webhook.DateMatchDigits | app/views/pkuyouth_server.py:29-103 | on text without a final newline a keyword is a day iff it is six digits and a month iff it is four, the groups spelling the keyword |
| Webhook.DayAnswer | app/views/pkuyouth_server.py:91-101 | the day answer fails exactly when the date validator fails (an unparsable field or an empty table), with `TypeError` or `ValueError` |
| Webhook.MonthAnswer | app/views/pkuyouth_server.py:102-112 | the month answer fails exactly when the date validator fails, with `TypeError` or `ValueError` |
| Webhook.SearchAnswer | app/views/pkuyouth_server.py:113-118 | the keyword answer fails exactly when the limit-8 keyword search fails, with `KeyError` |
| Webhook.SearchFails | app/views/pkuyouth_server.py:114 | the keyword search can fail only with `KeyError` |
| Webhook.KeywordAnswer | app/views/pkuyouth_server.py:88-118 | answering a `q` keyword never raises `NameError`: every branch binds a reply |
| Webhook.TextAnswer | app/views/pkuyouth_server.py:67-120 | a text message without `Content` raises `AttributeError`; no text branch leaves the reply unbound |
| Webhook.QAnswer | app/views/pkuyouth_server.py:80-120 | text not starting with q gets the default reply; no branch leaves the reply unbound |
| Webhook.Attr | app/views/pkuyouth_server.py:66-68 | a message attribute is read when present, else `AttributeError` |
| Webhook.Handle | app/views/pkuyouth_server.py:64-133 | as written: an unsubscribe raises; raw XML is only logged, and the view then returns `None`, which Flask refuses; the model gives it no reply |
| Webhook.HandleFixed | app/views/pkuyouth_server.py:64-133 | as intended: raw XML gets no reply and an unsubscribe needs none |
| Webhook.Post | app/views/pkuyouth_server.py:62-135 | as written, through `Handle`: without exactly the six push arguments the answer is the default passive text; a decryption or parse error is raised as is; otherwise the answer is what the handler gives the parsed message, so an unsubscribe raises `NameError` |
| Webhook.PostFixed | app/views/pkuyouth_server.py:62-135 | as intended: the same request handling with the corrected handler |
| Webhook.PostFixedAgrees | app/views/pkuyouth_server.py:62-135 | the corrected view answers an unsubscribe with no reply where the view as written raises `NameError`, agrees with it on every other request, and raises `NameError` only when decryption does |
| Webhook.AdminCommand | app/views/pkuyouth_server.py:71-78 | the menu command in any letter case gets the default reply from a non-administrator and the system message from an administrator |
| Webhook.QIntro | app/views/pkuyouth_server.py:80-85 | stripped text starting with q or Q with only blanks after it gets the q introduction |
| Webhook.NotCommand | app/views/pkuyouth_server.py:69-71 | text whose stripped form starts with q is neither the unsupported marker nor the menu command |
| Webhook.DefaultReply | app/views/pkuyouth_server.py:119-120 | text that is no command and does not start with q, stripped, gets the default passive reply |
| Webhook.DayKeyword | app/views/pkuyouth_server.py:89-92 | a six-digit keyword is answered as the day yy mm dd |
| Webhook.MonthKeyword | app/views/pkuyouth_server.py:89-103 | a four-digit keyword is answered as the month yy mm |
| Webhook.DayAnswerVerdict | app/views/pkuyouth_server.py:91-101 | with parsable fields and a non-empty table: an impossible date gets the illegal-date text, a date outside the publishing period the period's text, and a date inside it its articles, or "当日没有发文" |
| Webhook.MonthAnswerVerdict | app/views/pkuyouth_server.py:102-112 | the same for a month: its "time title" lines, or "当月没有发文" |
| Webhook.KeywordSearchBounded | app/views/pkuyouth_server.py:113-118 | over a masked index the search answer is "搜索结果为空" or one to eight articles |
| Webhook.UnfollowRaises | app/views/pkuyouth_server.py:128-131 | as written, an unsubscribe event leaves `replyMsg` unbound and raises `NameError` |
| Webhook.HandleFixedEvents | app/views/pkuyouth_server.py:124-131 | the corrected handler answers both events, agrees with the one as written on everything but unsubscribe, and never raises `NameError` |
| Xml.TextOf | app/lib/pkuyouth_server/receive.py:50 | `element.text` is present exactly when the element has text, and is that text |
| Xml.FindIndex | app/lib/pkuyouth_server/receive.py:14 | the position found holds the first child with the tag; none is found only when no child has it |
| Xml.Find | app/lib/pkuyouth_server/receive.py:14 | `find(tag)` returns a child with that tag, and `None` exactly when there is none |
| Xml.FindText | app/lib/pkuyouth_server/receive.py:14-50 | `find(tag).text` raises `AttributeError` exactly when the child is missing, else gives that child's text |
| Xml.FindAppend | app/lib/pkuyouth_server/receive.py:50 | children appended after a match do not change what is found |
| Xml.FindSkip | app/lib/pkuyouth_server/receive.py:50 | when no earlier child has the tag the search continues among the later ones |
| Xml.FindIndexAt | app/lib/pkuyouth_server/receive.py:50 | the first child with the tag is the one found |
| Xml.FindTextAt | app/lib/pkuyouth_server/receive.py:50 | `find(tag).text` on an element whose `i`-th child is the first with the tag is that child's text |
| Receive.ReadKeys | app/lib/pkuyouth_server/receive.py:49-50 | reading the keys fails only with `AttributeError` |
| Receive.ReadKeysSpec | app/lib/pkuyouth_server/receive.py:49-50 | the comprehension succeeds exactly when every key has an element, and then maps each key to that element's text and holds no other key |
| Receive.ReadKeysAppend | app/lib/pkuyouth_server/receive.py:64-73 | reading `a + b` reads `a` and `b` the same way and unites the results |
| Receive.Received.constructor | app/lib/pkuyouth_server/receive.py:36-37 | a new message object holds the tree and no attribute |
| Receive.Received.Update | app/lib/pkuyouth_server/receive.py:49-50 | `_update()` adds one attribute per key holding its element's text; a missing element raises `AttributeError` and leaves the object as it was |
| Receive.Classify | app/lib/pkuyouth_server/receive.py:12-29 | text for MsgType "text", image for "image", follow and unfollow for the two events, nothing for anything else; a missing MsgType, or Event with MsgType "event", raises `AttributeError` |
| Receive.ParseMsg | app/lib/pkuyouth_server/receive.py:12-29 | unparsable text raises; an unknown kind returns the raw XML; a known kind returns the message whose attributes are read with its class's keys |
| Receive.ParseMsgErrors | app/lib/pkuyouth_server/receive.py:12-29 | parsing a message raises only the parser's error or `AttributeError` |
| Receive.ParseMsgKnown | app/lib/pkuyouth_server/receive.py:16-50 | a known kind gives its message with each key mapped to its element's text, or `AttributeError` when some key is missing |
| Receive.MessageAttrsIncluded | app/lib/pkuyouth_server/receive.py:56-73 | text and image messages carry every attribute of a plain message with the same values |
| Receive.ParsedAttrs | app/lib/pkuyouth_server/receive.py:49-82 | a parsed message has exactly its class's keys as attributes, each holding the text of its element |
| Reply.ChildOf | app/lib/pkuyouth_server/reply.py:39-51 | the child appended for an item is tagged with the key; a scalar or pair gives a leaf; an element with children has no text |
| Reply.Children | app/lib/pkuyouth_server/reply.py:39-51 | a dictionary yields one child per item, in its order |
| Reply.SiblingsChildren | app/lib/pkuyouth_server/reply.py:47-49 | the dicts of a list all fill the same child, one after another |
| Reply.FormXml | app/lib/pkuyouth_server/reply.py:39-51 | the recursive method appends to the element exactly the children of the dictionary, in order |
| Reply.ReadBackChild | app/lib/pkuyouth_server/reply.py:39-51 | reading back the child built for an item gives the item itself, except that a plain scalar reads back as a CDATA tuple, the dicts of a list merge into one and an empty dict or list leaves an empty child |
| Reply.SystemContent | app/lib/pkuyouth_server/reply.py:73-83 | the system content exists exactly when the receiver is an administrator; otherwise `KeyError` |
| Reply.Message.constructor | app/lib/pkuyouth_server/reply.py:15-22 | a new message is an `<xml>` root holding exactly the header |
| Reply.Message.Update | app/lib/pkuyouth_server/reply.py:36-37 | `_update(d)` appends the dictionary's children to the root and nothing else |
| Reply.TextMsg | app/lib/pkuyouth_server/reply.py:62-68 | a text message is the header followed by Content |
| Reply.ImageMsg | app/lib/pkuyouth_server/reply.py:89-95 | an image message is the header followed by Image holding MediaId |
| Reply.ArticleMsg | app/lib/pkuyouth_server/reply.py:98-114 | a news message is the header followed by the article count and the articles |
| Reply.SystemMsg | app/lib/pkuyouth_server/reply.py:71-83 | a system message fails with `KeyError` exactly when the receiver is not an administrator, else it is a text message with the system content |
| Reply.HeaderShape | app/lib/pkuyouth_server/reply.py:15-22 | every message begins with ToUserName, FromUserName (CDATA), CreateTime (not CDATA) and MsgType (CDATA), in that order, then its body |
| Reply.HeaderFields | app/lib/pkuyouth_server/reply.py:15-22 | the header fields read back with `find(...).text` as given |
| Reply.TextReply | app/lib/pkuyouth_server/reply.py:62-68 | a text reply has five children, the last Content in CDATA, which reads back as the text |
| Reply.ImageReply | app/lib/pkuyouth_server/reply.py:89-95 | an image reply nests MediaId (CDATA) under Image |
| Reply.ArticleReply | app/lib/pkuyouth_server/reply.py:98-114 | a news reply gives ArticleCount = the number of articles without CDATA and one item per article, in order, with Title, Description, PicUrl and Url |
| Reply.ItemsFlatten | app/lib/pkuyouth_server/reply.py:106-113 | the items of the article dicts, flattened, are the item elements in article order |
| Reply.SystemContentShape | app/lib/pkuyouth_server/reply.py:79-83 | the system content starts with "[System] " and the timestamp and ends with the message |
| Cryptor.PadAmount | app/lib/pkuyouth_server/cryptor.py:53-56 | the pad count lies between 1 and 32 and brings the length to a multiple of 32 |
| Cryptor.Pkcs7Encode | app/lib/pkuyouth_server/cryptor.py:52-58 | the padded text has a length that is a multiple of 32, keeps the text as prefix and appends 1 to 32 bytes, each equal to the pad count |
| Cryptor.Pkcs7Decode | app/lib/pkuyouth_server/cryptor.py:60-61 | unpadding fails on empty input only (`TypeError` from `ord` of an empty slice); otherwise it gives the prefix that drops the last byte's count, and the empty prefix when that count is 0 or not below the length |
| Cryptor.Pkcs7RoundTrip | app/lib/pkuyouth_server/cryptor.py:52-61 | `decode(encode(t)) == t` for every byte string |
| Cryptor.Be32 | app/lib/pkuyouth_server/cryptor.py:80 | the length field is four bytes |
| Cryptor.FromBe32 | app/lib/pkuyouth_server/cryptor.py:85 | the length read back is below 2^32 |
| Cryptor.Be32RoundTrip | app/lib/pkuyouth_server/cryptor.py:80-85 | reading the length field back gives the length written |
| Cryptor.NewPrpcrypt | app/lib/pkuyouth_server/cryptor.py:68-73 | construction succeeds iff the key decodes to 32 bytes; the appId is stored UTF-8 encoded and the cipher is made from the key |
| Cryptor.Random16 | app/lib/pkuyouth_server/cryptor.py:75-76 | the random prefix is 16 bytes |
| Cryptor.SampleAscii | app/lib/pkuyouth_server/cryptor.py:76 | letters and digits encode to one byte each |
| Cryptor.Frame | app/lib/pkuyouth_server/cryptor.py:80 | the frame is 16 random bytes, the 4-byte length, the message and the appId |
| Cryptor.Encrypt | app/lib/pkuyouth_server/cryptor.py:78-81 | encryption of a text or bytes payload fails with `OverflowError` exactly when its length does not fit 32 bits, else gives the Base64 of the padded, encrypted frame |
| Cryptor.Unframe | app/lib/pkuyouth_server/cryptor.py:84-87 | fewer than four bytes raise `struct.error`; bytes after the declared length other than the appId raise `AssertionError`; otherwise the message is decoded |
| Cryptor.Decrypt | app/lib/pkuyouth_server/cryptor.py:83-87 | decryption succeeds only when Base64, the cipher and the unpadding succeed and the bytes after the declared length equal the appId |
| Cryptor.UnframeFrame | app/lib/pkuyouth_server/cryptor.py:80-87 | reading a frame gives back the message it was built from, decoded |
| Cryptor.FrameContent | app/lib/pkuyouth_server/cryptor.py:80-86 | after the random bytes a frame holds the length field, whose value is the message length, then the message and the appId |
| Cryptor.EncryptDecrypt | app/lib/pkuyouth_server/cryptor.py:78-87 | with AES and Base64 inverted by their decoders, `decrypt(encrypt(x))` is `x` for text and the UTF-8 decoding for bytes |
| Cryptor.OpenSealed | app/lib/pkuyouth_server/cryptor.py:81-84 | decrypting a sealed frame reads that frame |
| Cryptor.DecryptOtherAppId | app/lib/pkuyouth_server/cryptor.py:86 | a frame sealed for another appId is refused with `AssertionError` |
| Cryptor.SignatureOfPermutation | app/lib/pkuyouth_server/cryptor.py:103 | the signature depends only on the multiset of the parts |
| Cryptor.GetSignature | app/lib/pkuyouth_server/cryptor.py:101-103 | signing succeeds iff timestamp and nonce are text and the ciphertext is text or decodable bytes; it is SHA-1 of the sorted four strings |
| Cryptor.GetSignatureSymmetric | app/lib/pkuyouth_server/cryptor.py:103 | any reordering of token, timestamp, nonce and ciphertext signs the same |
| Cryptor.GetSignatureBytes | app/lib/pkuyouth_server/cryptor.py:102 | signing the ciphertext as bytes or as the text they spell is the same |
| Cryptor.NonceOrDraw | app/lib/pkuyouth_server/cryptor.py:107 | a non-empty nonce is kept; an empty or missing one becomes nine distinct digits |
| Cryptor.DigitsDistinct | app/lib/pkuyouth_server/cryptor.py:107 | the ten digits are distinct |
| Cryptor.Generate | app/lib/pkuyouth_server/cryptor.py:39-45 | the reply wrapper is an `xml` element with four children whose texts are the ciphertext, signature, timestamp and nonce |
| Cryptor.TimestampOrNow | app/lib/pkuyouth_server/cryptor.py:108 | a non-empty timestamp is kept, else the clock's seconds in decimal |
| Cryptor.CryptorEncrypt | app/lib/pkuyouth_server/cryptor.py:105-110 | a payload too long for the length field raises `OverflowError` |
| Cryptor.CryptorEncryptShape | app/lib/pkuyouth_server/cryptor.py:105-110 | the reply wraps the ciphertext, its signature over the token, the given or current timestamp and the given or drawn nonce |
| Cryptor.CryptorDecrypt | app/lib/pkuyouth_server/cryptor.py:112-117 | a body missing ToUserName or Encrypt raises `AttributeError`; otherwise the checks run on the extracted ciphertext |
| Cryptor.CheckedDecrypt | app/lib/pkuyouth_server/cryptor.py:114-117 | a missing `encrypt_type` raises `AttributeError`, one that is not "AES" in upper case raises `AssertionError`, a wrong signature raises `AssertionError`; otherwise the ciphertext is decrypted |
| Cryptor.Arg | app/lib/pkuyouth_server/cryptor.py:114 | `postArgs.get(name)` is the value when present, else `None` |
| Cryptor.UpperAes | app/lib/pkuyouth_server/cryptor.py:115 | `encrypt_type.upper() == 'AES'` iff it is "aes" in some letter case |
| Cryptor.CryptorDecryptChecks | app/lib/pkuyouth_server/cryptor.py:112-117 | a body is accepted only when `encrypt_type` is "AES" in any case, timestamp and nonce are given, and `msg_signature` equals the computed signature |
| Cryptor.Incoming | app/lib/pkuyouth_server/cryptor.py:33-37 | the incoming body reads back its receiver and ciphertext |
| Cryptor.CryptorRoundTrip | app/lib/pkuyouth_server/cryptor.py:105-117 | a reply encrypted and signed for the same arguments decrypts to its text |
| Cryptor.CryptorDecryptAccepts | app/lib/pkuyouth_server/cryptor.py:112-117 | with "AES" and a correct signature the outcome is that of `Prpcrypt.decrypt` |
| Cryptor.CheckedDecryptAccepts | app/lib/pkuyouth_server/cryptor.py:114-117 | with "AES" and a correct signature the checks let the ciphertext through to `Prpcrypt.decrypt` |
| Cryptor.DecryptCiphertext | app/lib/pkuyouth_server/cryptor.py:78-87 | the ciphertext of a text decrypts to the text |
| CosUtil.Str | app/lib/cos_v5/util.py:38-39 | `str(data)` is defined exactly for str, int (bool included) and float, and is the text itself for a str |
| CosUtil.ToBytes | app/lib/cos_v5/util.py:35-39 | bytes pass unchanged; `None` and lists give `None`; every other kind gives the UTF-8 encoding of `str(data)` |
| CosUtil.ToBytesDecodes | app/lib/cos_v5/util.py:38-39 | whatever `to_bytes` makes of a str, int or float decodes back to `str(data)` |
| CosUtil.ToBytesBool | app/lib/cos_v5/util.py:38-39 | `True` is sent as the text "True", distinct from the bytes of `1` |
| CosUtil.Xml2JsonTree | app/lib/cos_v5/util.py:47-54 | the dictionary is keyed by the element's tag; it holds a list of one entry per child exactly when there are children, else the stripped text |
| CosUtil.Xml2JsonWellFormed | app/lib/cos_v5/util.py:47-54 | every dictionary made holds lists only where there are children and stripped text at the leaves |
| CosUtil.Xml2JsonBack | app/lib/cos_v5/util.py:47-54 | reading the dictionary back as XML gives the element with its inner text dropped and leaf text stripped: nothing else is lost |
| CosUtil.Xml2JsonOfJson | app/lib/cos_v5/util.py:47-54 | every well-formed dictionary is what `__xml2json` makes of some element |
| CosUtil.Xml2Json | app/lib/cos_v5/util.py:56-62 | a falsy document gives `{}`; a non-empty list raises (the `to_bytes(None)` path); a syntax error gives `{}`; any dictionary returned is well formed |
| CosUtil.Xml2JsonParsed | app/lib/cos_v5/util.py:56-58 | an accepted document's dictionary is the root's and reads back as the normalised document |
| CosUtil.StripSlash | app/lib/cos_v5/util.py:73 | `strip('/')` leaves no slash at either end |
| CosUtil.StripSlashSplits | app/lib/cos_v5/util.py:73 | the input is some slashes, the result, then some slashes |
| CosUtil.StripSlashFree | app/lib/cos_v5/util.py:73 | a part without slashes is unchanged |
| CosUtil.UrlJoin | app/lib/cos_v5/util.py:72-73 | `url_join`: the parts stripped of end slashes and joined by `/`; its properties are those of CosUtil.UrlJoinSegments, CosUtil.UrlJoinCons and CosUtil.UrlJoinParts |
| CosUtil.UrlJoinSegments | app/lib/cos_v5/util.py:72-73 | the joined path splits on `/` into the pieces of the stripped parts, in order |
| CosUtil.UrlJoinCons | app/lib/cos_v5/util.py:73 | joining is the first stripped part, a slash, then the join of the rest |
| CosUtil.UrlJoinParts | app/lib/cos_v5/util.py:72-73 | parts with no inner slash are recovered by splitting the joined path |
| CosUtil.NameStart | app/lib/cos_v5/util.py:76 | the name starts one past the last slash, at 0 when there is none |
| CosUtil.Basename | app/lib/cos_v5/util.py:76 | `os.path.basename` contains no slash |
| CosUtil.RemotePath | app/lib/cos_v5/util.py:75-76 | `remote_path`: the folder joined with the base name of each path; its property is CosUtil.RemotePathSegments |
| CosUtil.RemotePathSegments | app/lib/cos_v5/util.py:75-76 | the remote path splits into the folder's segments followed by each path's base name |
| ApiUtil.GetParam | app/lib/minipgm_api/util.py:37-44 | a GET reads the query string (all values strings, `None` when missing), a POST reads the JSON body (`AttributeError` without one), any other method aborts |
| ApiUtil.TimestampVerdict | app/lib/minipgm_api/util.py:46-61 | the call proceeds exactly when the timestamp is present, converts with `int()`, fits a float and lies less than 8000 ms from the clock; a missing one is refused as missing, and one too large for a float is answered with `OverflowError` |
| ApiUtil.TimestampTooLarge | app/lib/minipgm_api/util.py:53-57 | a query-string timestamp of 2^1024 - 2^970 ms or more in magnitude raises `OverflowError` in the subtraction, and the guard answers with that error, whatever the clock says |
| ApiUtil.TimestampSymmetric | app/lib/minipgm_api/util.py:53 | the window is symmetric around the clock, for timestamps that convert to a float |
| ApiUtil.TimestampFromQuery | app/lib/minipgm_api/util.py:50-53 | a query-string timestamp within the window lets the call through |
| ApiUtil.LoginVerdict | app/lib/minipgm_api/util.py:63-80 | the call proceeds exactly when the token is present, the session holds an `openid`, and the token verifies against it; each missing piece is refused with its own message, in that order |
| ApiUtil.LoginIgnoresRest | app/lib/minipgm_api/util.py:37-44 | the same token sent by GET or by POST, with the same `openid` in the session, gets the same verdict |
| ApiUtil.IntParam | app/lib/minipgm_api/util.py:82-92 | values pass exactly when they are ints (or bools) within the given bounds and are returned unchanged; `None` raises `KeyError`, a non-int `TypeError`, an int out of bounds `ValueError` |
| ApiUtil.IntParamLooser | app/lib/minipgm_api/util.py:87-90 | loosening the bounds never rejects a value that passed |
| ApiUtil.IntParamDefaults | app/lib/minipgm_api/util.py:82 | with the default `mini=1`, 0 and `False` are refused, `True` passes, a digit string is a type error |
| ApiUtil.StrParam | app/lib/minipgm_api/util.py:94-102 | values pass exactly when they are non-empty strings; `None` and `''` raise `KeyError`, other types `TypeError` |
| ApiUtil.StrParamIdempotent | app/lib/minipgm_api/util.py:94-102 | a validated string validates again to itself |
| ApiUtil.LimitedParam | app/lib/minipgm_api/util.py:104-110 | values pass exactly when not `None` and equal to one of the allowed values, else `KeyError` |
| ApiUtil.LimitedParamWider | app/lib/minipgm_api/util.py:104-110 | allowing more values keeps every value that passed; the default empty list rejects everything |
| ApiDb.InitRow | app/lib/minipgm_api/db.py:100-105 | a new user has an empty favourites list and an empty list of starred reporters |
| ApiDb.RegisterIdempotent | app/lib/minipgm_api/db.py:107-118 | registering twice is registering once; it adds exactly the openid, with an empty record when absent, and never touches another record |
| ApiDb.UserDB.Register | app/lib/minipgm_api/db.py:116-118 | the collection becomes the registered one |
| ApiDb.UserDB.GetNewsCol | app/lib/minipgm_api/db.py:120-125 | an unknown user raises `TypeError`; otherwise the newsIDs in stored order, or with `withTime` a map holding exactly the stored newsIDs |
| ApiDb.TimesOfLast | app/lib/minipgm_api/db.py:123 | with `withTime`, each newsID maps to the time of its last entry |
| ApiDb.UpdatedColActions | app/lib/minipgm_api/db.py:134-140 | "star" appends `{newsID, actionTime}` after the kept entries; "unstar" keeps exactly the entries of other newsIDs; any other action changes nothing |
| ApiDb.UnstarAfterStar | app/lib/minipgm_api/db.py:134-140 | unstarring undoes a star of the same article |
| ApiDb.UserDB.UpdateNewsCol | app/lib/minipgm_api/db.py:127-142 | an unregistered user raises `UnregisteredError` and nothing is written; otherwise only that user's favourites are replaced by the updated list |
| ApiDb.UserDB.GetStarRpt | app/lib/minipgm_api/db.py:144-145 | an unknown user raises `TypeError`; otherwise the stored list |
| ApiDb.RemoveFirst | app/lib/minipgm_api/db.py:157 | `list.remove` succeeds exactly when the name is present, one element shorter, and raises `ValueError` otherwise |
| ApiDb.RemoveFirstAt | app/lib/minipgm_api/db.py:157 | the removal cuts out the first occurrence of the name |
| ApiDb.RemoveAfterAppend | app/lib/minipgm_api/db.py:154-157 | removing after appending the same name gives back the same names, and the same list when the name was absent |
| ApiDb.UpdatedRptActions | app/lib/minipgm_api/db.py:152-159 | only "unstar" of an absent name fails, with `ValueError`; "star" then "unstar" leaves the same names |
| ApiDb.UserDB.UpdateStarRpt | app/lib/minipgm_api/db.py:147-159 | an unregistered user raises `UnregisteredError`, an absent name on "unstar" raises `ValueError`, both writing nothing; otherwise only that user's list is replaced |
| ApiDb.InitReporter | app/lib/minipgm_api/db.py:168-177 | a new reporter keeps the given names and newsIDs and has no avatar, no description and no likes |
| ApiDb.LikedActions | app/lib/minipgm_api/db.py:197-200 | "star" adds 1, "unstar" subtracts 1, any other action leaves the count; the two undo each other |
| ApiDb.LikedAllCounts | app/lib/minipgm_api/db.py:195-202 | after a run of actions the count moves by the stars minus the unstars |
| ApiDb.ReporterDB.UpdateLike | app/lib/minipgm_api/db.py:195-202 | an unknown reporter raises on the missing record and writes nothing; otherwise only that reporter's `like` is replaced |
| ApiDb.GetRandomNews | app/lib/minipgm_api/db.py:54-56 | the method computes the rows of a `random.sample` of the newsIDs |
| ApiDb.RandomNewsRows | app/lib/minipgm_api/db.py:54-56 | a count below 0 or above the number of IDs raises `ValueError`; otherwise exactly `count` sampled IDs, distinct when the IDs are, and a row is returned exactly when it is in use and sampled |
| ApiDb.GetLatestNews | app/lib/minipgm_api/db.py:58-66 | the method computes the latest rows with their digests attached |
| ApiDb.LatestShape | app/lib/minipgm_api/db.py:58-66 | the first `count` in-use rows, each reduced to newsID, title, digest and time (`get_news_by_ID` selects no cover or URL); a row without a digest raises `KeyError` |
| ApiDb.LatestDigest | app/lib/minipgm_api/db.py:60-63 | each row carries the digest of the last `newsContent` entry for its newsID |
| ApiDb.SearchStrings | app/lib/minipgm_api/db.py:41-45 | the index's hits with their rank as position, at most `limit` of them; a limit below 1 raises `ValueError` |
| ApiDb.SearchNews | app/lib/minipgm_api/db.py:78-91 | the method computes the search as written |
| ApiDb.SearchNewsRows | app/lib/minipgm_api/db.py:78-91 | the result is in ascending rank and holds only in-use rows of hits, one per row found |
| ApiDb.SearchNewsAligned | app/lib/minipgm_api/db.py:84-91 | when every hit has exactly one in-use row, each row gets the rank of its own hit |
| ApiDb.SearchNewsMisranked | app/lib/minipgm_api/db.py:84-91 | a hit ranked 0 that is not in use makes the hit ranked 1 come back with rank 0 |
| ApiDb.SearchNewsByLookup | app/lib/minipgm_api/db.py:78-91 | `search_news` as evidently intended, each row taking the rank of its own hit; its properties are those of ApiDb.SearchNewsByLookupRanks and ApiDb.SearchNewsByLookupExample |
| ApiDb.SearchNewsByLookupRanks | app/lib/minipgm_api/db.py:84-91 | the corrected join gives every in-use row of the hits the rank of its own hit, in ascending rank, whatever is in use |
| ApiDb.SearchNewsByLookupExample | app/lib/minipgm_api/db.py:84-91 | on the same input the corrected join answers the second hit with its own rank 1 |
| MinipgmApiDb.RegisterIdempotent | app/lib/minipgm_api_db.py:84-89 | registering twice is registering once; only the openid is added, with an empty `newsCol`, and no existing record changes |
| MinipgmApiDb.MongoDB.Register | app/lib/minipgm_api_db.py:87-89 | the collection becomes the registered one |
| MinipgmApiDb.MongoDB.GetNewsCol | app/lib/minipgm_api_db.py:91-96 | an unknown user raises `TypeError`; otherwise the stored newsIDs in order, or with `withTime` a map holding exactly the stored newsIDs |
| MinipgmApiDb.TimesOfLast | app/lib/minipgm_api_db.py:94 | each newsID maps to the time of its last entry |
| MinipgmApiDb.StarKeeps | app/lib/minipgm_api_db.py:108-112 | "star" keeps every entry in place and appends `{newsID, actionTime}` at the end |
| MinipgmApiDb.UnstarRemoves | app/lib/minipgm_api_db.py:113-114 | "unstar" keeps exactly the entries of other newsIDs, in their order |
| MinipgmApiDb.UnstarAfterStar | app/lib/minipgm_api_db.py:108-114 | unstarring undoes a star of the same article |
| MinipgmApiDb.MongoDB.UpdateNewsCol | app/lib/minipgm_api_db.py:98-116 | an unknown user raises `NameError`, because `UnregisteredError` is neither defined nor imported in this file (lines 5-29), and nothing is written; otherwise only that user's list is replaced |
| MinipgmApiDb.UnescapedStored | app/lib/minipgm_api_db.py:170-171 | a row stored with escaped title and URLs reads back as it was |
| MinipgmApiDb.NewsById | app/lib/minipgm_api_db.py:160-171 | every row returned is the unescaped form of a stored row whose newsID was asked for |
| MinipgmApiDb.SearchNews | app/lib/minipgm_api_db.py:184-196 | the method computes the search with its rank join |
| MinipgmApiDb.SearchAligned | app/lib/minipgm_api_db.py:190-196 | when every hit has exactly one row, each row gets the rank of its own hit, in ascending rank |
| MinipgmApiDb.RecommendNews | app/lib/minipgm_api_db.py:198-224 | the method computes the recommendation |
| MinipgmApiDb.RecommendShape | app/lib/minipgm_api_db.py:198-224 | it fails only for an unknown article or a stored bin of another length; otherwise at most `limit` IDs, rows only of those IDs, each with its own score strictly between 0 and 1, highest first |
| MinipgmApiDb.RandInt | app/lib/minipgm_api_db.py:181 | `randint(lo, hi)` lands in the range and raises `ValueError` on an empty one |
| MinipgmApiDb.RandomIdsShape | app/lib/minipgm_api_db.py:179-181 | exactly `count` IDs are drawn, each between 1 and the number of rows; an empty table with a positive count raises |
| MinipgmApiDb.GetRandomNews | app/lib/minipgm_api_db.py:178-182 | the rows of the drawn IDs, and the IDs |
| MiniprogramDevelop.GetDateRange | app/views/miniprogram_develop.py:170-184 | the loop builds the date tree of the stored publishing times |
| MiniprogramDevelop.AddDateInPlace | app/views/miniprogram_develop.py:177-183 | one loop step adds the year, then the month, then the day, each only when absent |
| MiniprogramDevelop.DateRangeShape | app/views/miniprogram_develop.py:175-183 | key 0 with the sentinel `[0]` is kept at every level, and every month's list starts with the sentinel and holds each day once |
| MiniprogramDevelop.DateRangeOf | app/views/miniprogram_develop.py:176-183 | the tree holds exactly the years, months and days of the stored times |
| MiniprogramDevelop.DateRangeIncreasing | app/views/miniprogram_develop.py:171-183 | times read in ascending order give each month's days in ascending order after the sentinel |
| MiniprogramDevelop.PositiveInt | app/views/miniprogram_develop.py:106-112 | a count passes exactly when it is an int (or bool) of at least 1, else `ValueError` |
| MiniprogramDevelop.PositiveIntAccepts | app/views/miniprogram_develop.py:258-263 | every positive int passes, and `True`; no float, string or list passes |
| MiniprogramDevelop.RecommendKindOf | app/views/miniprogram_develop.py:114-118 | only "newsID" and "content" are accepted; `None` and other values raise `ValueError`, an unhashable list `TypeError` |
| MiniprogramDevelop.GetRecommendChecks | app/views/miniprogram_develop.py:101-128 | a request passes exactly when its count and type do, a bad count is reported first, and the call carries the count and the request's method; only the checks are modelled, since a failing check leaves `db` unbound and `db.close()` in the `finally` then raises `UnboundLocalError` in place of the check's error |
| MiniprogramDevelop.IntValues | app/views/miniprogram_develop.py:189 | every value is converted with `int()`, keys kept in order; any value that does not convert raises |
| MiniprogramDevelop.DateQuery | app/views/miniprogram_develop.py:186-211 | `date_query`: never lists more rows than the table holds; its other properties are those of MiniprogramDevelop.DateQueryErrors and MiniprogramDevelop.DateQueryRows |
| MiniprogramDevelop.DateQueryErrors | app/views/miniprogram_develop.py:186-198 | a missing or empty date raises `ValueError`, a value that does not convert its own error, and an absent field that is read `KeyError` |
| MiniprogramDevelop.DateQueryRows | app/views/miniprogram_develop.py:205-211 | the listing holds exactly the selected rows, unescaped, in table order |
| MiniprogramDevelop.PadDigits | app/views/miniprogram_develop.py:198-204 | for a number that fits, `{:>04}` and `{:>02}` give its fixed-width digits |
| MiniprogramDevelop.DateFilterMatches | app/views/miniprogram_develop.py:190-209 | year 0 selects every row, month 0 the rows of that year, day 0 those of that month, otherwise that very day |
| MiniprogramDevelop.NewsByIdRows | app/views/miniprogram_develop.py:157-168 | a row is returned exactly when it is the unescaped form of a stored row whose newsID was asked for |
| MiniprogramDevelop.FieldsList | app/views/miniprogram_develop.py:220-230 | the loop over title, content and digest computes the list of flagged fields |
| MiniprogramDevelop.FieldsOfShape | app/views/miniprogram_develop.py:220-230 | the loop passes exactly when every flag is a boolean, then lists exactly the fields flagged true, in order; otherwise `ValueError` |
| MiniprogramDevelop.OrQuery | app/views/miniprogram_develop.py:234 | a string query becomes its whitespace-split words joined with " OR "; anything else has no `strip` |
| MiniprogramDevelop.KeywordQuery | app/views/miniprogram_develop.py:213-255 | the method computes the keyword search |
| MiniprogramDevelop.KeywordQueryChecks | app/views/miniprogram_develop.py:214-219 | a falsy query string, missing or empty fields or a falsy limit raise `ValueError`, in that order |
| MiniprogramDevelop.KeywordQueryPasses | app/views/miniprogram_develop.py:232-255 | past its checks the search is the rank join of the hits of the `OR` query over the flagged fields |
| MiniprogramDevelop.KeywordQueryAligned | app/views/miniprogram_develop.py:238-255 | when the table holds one row per hit, each row gets its own hit's rank and terms, in ascending rank |
| MiniprogramDevelop.RandomNewsShape | app/views/miniprogram_develop.py:257-267 | a bad count or an empty table raises `ValueError`; otherwise `count` IDs between 1 and the number of rows |
| MiniprogramDevelop.Similarities | app/views/miniprogram_develop.py:341-344 | each top is paired with its formatted similarity |
| MiniprogramDevelop.MethodCheck | app/views/miniprogram_develop.py:295-299 | only "Tc" and "CosDist" pass |
| MiniprogramDevelop.GetRecommendNews | app/views/miniprogram_develop.py:292-345 | the method computes the recommendation |
| MiniprogramDevelop.RankedNewsOk | app/views/miniprogram_develop.py:341-345 | every row gets the formatted score of its own article, highest first |
| MiniprogramDevelop.RecommendNewsShape | app/views/miniprogram_develop.py:292-345 | a bad method raises; "Tc" fails only on a bin of another length and otherwise gives at most `count` articles, best first, each with its own score, neither 0 nor 1 |
| MiniprogramDevelop.RecommendByIdShape | app/views/miniprogram_develop.py:269-282 | a bad newsID raises `ValueError`, an unknown method gives `None`, "Tc" on an article without fragments raises `KeyError`, else as the recommender |
| MiniprogramDevelop.RecommendByArticleSpec | app/views/miniprogram_develop.py:284-290 | `recommend_by_article`: a missing article or method raises `ValueError`, else the article's words go to `_get_recommend_news`; its properties are those of MiniprogramDevelop.RecommendByArticleShape |
| MiniprogramDevelop.RecommendByArticleShape | app/views/miniprogram_develop.py:284-290 | a missing article raises `ValueError`; given an article, the answer is `_get_recommend_news` on its words, so a bad method raises its error, and "Tc" fails only on a stored bin of another length and otherwise ranks at most `count` articles best first by their score against the article's bin |
| MiniprogramDevelop.NewsByIdIds | app/views/miniprogram_develop.py:157-168 | every article returned has one of the requested newsIDs |
| MiniprogramDevelop.UnescapedSorted | app/views/miniprogram_develop.py:238-255 | unescaping the rows keeps the order by rank |
| ServerDb.Rels | app/lib/pkuyouth_server/db.py:51-56 | the relation holds exactly the stored newsIDs |
| ServerDb.RelsOfDoc | app/lib/pkuyouth_server/db.py:51-56 | with unique newsIDs every document is found under its own newsID |
| ServerDb.DocNums | app/lib/pkuyouth_server/db.py:63-64 | the set holds exactly the document numbers of the given newsIDs; an unindexed newsID raises `KeyError` |
| ServerDb.OpenIndexMask | app/lib/pkuyouth_server/db.py:35-40 | opening the index fails with `KeyError` exactly when a discarded newsID is not indexed; otherwise every document of a discarded newsID is masked |
| ServerDb.SearchStringsMasked | app/lib/pkuyouth_server/db.py:66-76 | a limit below 1 raises `ValueError`; otherwise at most `limit` hits ranked 0, 1, 2, …, each a matching document and none discarded |
| ServerDb.GetNewsByIdRows | app/lib/pkuyouth_server/db.py:86-109 | a row is returned exactly when its newsID is asked for and, when filtering, it is in use; one newsID acts as the list of it; another argument leaves the list unbound |
| ServerDb.GetNewsByIdInUse | app/lib/pkuyouth_server/db.py:106-107 | filtering drops exactly the rows not in use and keeps the order of the rest |
| ServerDb.Earliest | app/lib/pkuyouth_server/db.py:112 | the first publishing date is one of them and no later than any |
| ServerDb.Latest | app/lib/pkuyouth_server/db.py:113 | the last publishing date is one of them and no earlier than any |
| ServerDb.IsValidDate | app/lib/pkuyouth_server/db.py:111-124 | `is_valid_date` over the publishing dates; its properties are those of ServerDb.IsValidDateShape, ServerDb.VerdictShape and ServerDb.PublishedVerdict |
| ServerDb.IsValidDateShape | app/lib/pkuyouth_server/db.py:111-124 | the check raises only for an empty table or a field that does not parse with `int()`, and otherwise gives the verdict on `2000+yy`, `mm`, `dd` |
| ServerDb.VerdictShape | app/lib/pkuyouth_server/db.py:116-124 | an impossible calendar date gets "日期非法!", a date within the period `(True, "")`, any other date the out-of-range message naming the period |
| ServerDb.PublishedDayValid | app/lib/pkuyouth_server/db.py:111-124 | every day an article came out, asked for by two-digit fields, is judged valid |
| ServerDb.SearchByDate | app/lib/pkuyouth_server/db.py:126-131 | `search_by_date`: all rows fetched by their newsIDs, then those of the month or day; its properties are those of ServerDb.SearchByDateRows and ServerDb.SearchByDateMatches |
| ServerDb.SearchByDateRows | app/lib/pkuyouth_server/db.py:126-131 | the search keeps exactly the rows whose time matches the asked month or day, in table order |
| ServerDb.SearchByDateMatches | app/lib/pkuyouth_server/db.py:128-131 | a row stamped `YYYY-MM-DD` matches `yy-mm` exactly when it is of that year modulo 100 and month, and `yy-mm-dd` when of that day as well |
| ServerDb.SearchByKeyword | app/lib/pkuyouth_server/db.py:133-146 | the method computes the keyword search |
| ServerDb.SearchByKeywordMasked | app/lib/pkuyouth_server/db.py:133-146 | a limit below 1 raises `ValueError`; otherwise rows of the table in ascending rank, at most `limit`, never a discarded article |
| ServerDb.SearchByKeywordPasses | app/lib/pkuyouth_server/db.py:134-146 | the search is the rank join of the hits of the `AND` query with the unfiltered rows for them |
| ServerDb.SearchByKeywordAligned | app/lib/pkuyouth_server/db.py:139-146 | when the table holds one row per hit, each row gets the rank of its own hit, in ascending rank |
| ServerDb.PublishedVerdict | app/lib/pkuyouth_server/db.py:116-124 | a real date on which news was published is valid, with no message |
| ServerDb.OutOfRangeNotIllegal | app/lib/pkuyouth_server/db.py:116-124 | a real calendar date is never reported as illegal, only as out of range |
| Search.Words | app/lib/pkuyouth_server/db.py:135 | `keyword.strip().split()` gives non-empty words free of whitespace |
| Search.QueryWords | app/lib/pkuyouth_server/db.py:135 | the query read back word by word is the user's words in order, with the operator between each pair; no word is lost or merged |
| Search.JoinWords | app/lib/minipgm_api/db.py:80 | words joined with `" OR "` split back into the words and the operators |
| Search.Zip | app/lib/pkuyouth_server/db.py:143-144 | `zip` gives each row the rank of the hit at its position |
| Search.RankJoinRows | app/lib/pkuyouth_server/db.py:141-145 | the sort, copy and re-sort loop computes the positional rank join |
| Search.RankJoinFrom | app/lib/pkuyouth_server/db.py:141-145 | whatever the alignment, the join keeps every row once, pairs only given rows, and is in rank order |
| Search.RankJoinAligned | app/lib/pkuyouth_server/db.py:141-145 | when the rows name exactly the hits' newsIDs, every row gets the rank of its own hit |
| Search.SameIdsAfterSort | app/lib/minipgm_api/db.py:86-87 | sorted by newsID, rows and hits name the same newsID at every position when they name the same newsIDs |
| Search.WithRanks | app/lib/minipgm_api_db.py:218-222 | each row gets the score stored under its newsID, raising `KeyError` for a row without one |
| Search.AddRanks | app/lib/minipgm_api_db.py:221-222 | the update loop computes the rows with their scores |
| Search.RankByLookupShape | app/lib/minipgm_api_db.py:218-223 | the lookup join raises only for a row with no score; otherwise every row once, with its own score, ordered by score |
| Similarity.Dot | app/lib/tfidf.py:157 | the dot product of two bins counts at most the set entries of either |
| Similarity.Tanimoto | app/lib/tfidf.py:159 | `dot/(|A|+|B|-dot)` lies between 0 and 1 when the query bin is not empty |
| Similarity.TanimotoZeroIff | app/lib/tfidf.py:159-160 | a score of 0 means the two bins share no keyword |
| Similarity.TanimotoOneIff | app/lib/tfidf.py:159-160 | a score of 1 means the two bins are equal |
| Similarity.RelatedIff | app/lib/tfidf.py:160 | a candidate is kept exactly when it shares some but not all keywords with the query |
| Similarity.DotSymmetric | app/lib/tfidf.py:157 | the dot product is symmetric |
| Similarity.Bin | app/lib/tfidf.py:135 | a bin has the vocabulary's length and `bin[i]` holds exactly when `vocabulary[i]` is a keyword of the document |
| Similarity.BinEqualIff | app/lib/tfidf.py:135 | over a vocabulary holding both keyword lists, bins are equal exactly when the keyword sets are |
| Similarity.BinDotZeroIff | app/lib/tfidf.py:135-159 | the dot product of two bins is zero exactly when the documents share no keyword |
| Similarity.BinEmptyIff | app/lib/tfidf.py:135 | a bin is empty exactly when the document has no keyword |
| Similarity.BinsOf | app/lib/tfidf.py:135-136 | every document gets its bin over the one vocabulary, keyed as the documents are |
| Similarity.Candidates | app/lib/tfidf.py:154-161 | scoring fails with `ValueError` exactly when a stored bin has another length |
| Similarity.CandidatesFrom | app/lib/tfidf.py:155-161 | every candidate is a stored document with its Tanimoto score, neither 0 nor 1 |
| Similarity.CandidatesComplete | app/lib/tfidf.py:155-161 | every related document is a candidate |
| Similarity.ScoreAll | app/lib/tfidf.py:154-161 | the scoring loop computes the candidates |
| Similarity.BuildBin | app/lib/minipgm_api_db.py:204-208 | the `newsBin` loop computes the bin of the words over the vocabulary |
| Similarity.TopMatchesError | app/lib/tfidf.py:152-163 | ranking fails only for a stored bin of another length |
| Similarity.TopMatchesSorted | app/lib/tfidf.py:163 | at most `count` entries, in non-increasing score |
| Similarity.TopMatchesEntry | app/lib/tfidf.py:155-163 | every entry is a stored document with its own score strictly between 0 and 1 |
| Similarity.TopMatchesLeftOut | app/lib/tfidf.py:163 | a related document left out scores no higher than any entry |
| Similarity.DotZeroIff | app/lib/tfidf.py:158 | the dot product is zero exactly when no position is set in both bins |
| Similarity.FullOverlapEqual | app/lib/tfidf.py:158-160 | a dot product equal to both counts of ones means the bins are equal |
| TfIdf.CutTokens | app/lib/tfidf.py:90-95 | every word `cut` yields is an all-CJK token of the input, longer than one character after stripping, and not a stop word |
| TfIdf.CutSingle | app/lib/tfidf.py:92-95 | a token is kept exactly when it passes the test, and then unchanged by `strip` |
| TfIdf.CutAppend | app/lib/tfidf.py:91-95 | `cut` works token by token, so the input order is kept |
| TfIdf.KeptIsStripped | app/lib/tfidf.py:95 | a kept token has no whitespace, so the stripped word is the token |
| TfIdf.TFIDF.Cut | app/lib/tfidf.py:90-98 | the generator loop computes `lcut` of the tokens |
| TfIdf.CutAll | app/lib/tfidf.py:106 | every document keeps its newsID and gets the `lcut` of its tokens |
| TfIdf.TFIDF.GetFragments | app/lib/tfidf.py:100-107 | the loop computes the fragments of every document |
| TfIdf.DocFreqBounds | app/lib/tfidf.py:110 | a word's document frequency lies between 1 and the number of documents |
| TfIdf.DocFreqPositive | app/lib/tfidf.py:110 | a word has a positive document frequency exactly when it occurs somewhere |
| TfIdf.WordsSumIsDocFreq | app/lib/tfidf.py:110 | counting over the per-document sets counts each word once per document |
| TfIdf.MonoWordsExactly | app/lib/tfidf.py:112 | a mono word is exactly a word whose document frequency is 1 |
| TfIdf.IdfDict | app/lib/tfidf.py:115-116 | every word that occurs gets an idf weight, and no other word |
| TfIdf.IdfDictEntries | app/lib/tfidf.py:116 | every weight is taken at a document frequency between 1 and the number of documents |
| TfIdf.Filtered | app/lib/tfidf.py:122 | the filtered words are input words that are not mono words |
| TfIdf.FilteredKeeps | app/lib/tfidf.py:122 | a word survives the filter exactly when it is an input word and not a mono word |
| TfIdf.TfIdfPairs | app/lib/tfidf.py:124 | one pair per distinct word, in first-occurrence order; a word without idf raises `KeyError` |
| TfIdf.Extract | app/lib/tfidf.py:121-126 | the weighted pairs with `weight`, their words without |
| TfIdf.ExtractError | app/lib/tfidf.py:124 | `extract` fails with `KeyError` exactly when a word that is not a mono word has no idf |
| TfIdf.ExtractEmpty | app/lib/tfidf.py:122-125 | an input that is empty after the filter gives no keywords |
| TfIdf.ExtractSorted | app/lib/tfidf.py:125 | at most `top` words, in non-increasing tf-idf |
| TfIdf.ExtractWords | app/lib/tfidf.py:122-125 | every kept word is an input word, not a mono word, with its tf-idf |
| TfIdf.ExtractDistinct | app/lib/tfidf.py:124-125 | every word is kept at most once |
| TfIdf.ExtractTop | app/lib/tfidf.py:125 | a word left out scores no higher than any word kept |
| TfIdf.ExtractStable | app/lib/tfidf.py:124-125 | ties keep first-occurrence order |
| TfIdf.KeyWordsOf | app/lib/tfidf.py:129 | every document keeps its newsID and gets its keywords |
| TfIdf.KeyWordsOfDefined | app/lib/tfidf.py:129 | extraction cannot fail on an idf table covering the fragments |
| TfIdf.Vocabulary | app/lib/tfidf.py:132 | the vocabulary has no duplicates |
| TfIdf.VocabularyIsUnion | app/lib/tfidf.py:132 | the vocabulary is exactly the union of all keyword lists |
| TfIdf.KeyWordsInVocabulary | app/lib/tfidf.py:132-135 | each document's keywords lie in the vocabulary |
| TfIdf.TFIDF.Update | app/lib/tfidf.py:141-149 | the fragments, idf table, mono words, keywords, vocabulary and bins are those of the contents, keyed as the contents are; the stop words and the loaded bins are left alone |
| TfIdf.MatchError | app/lib/tfidf.py:152-163 | `match` fails exactly for an unknown document (`KeyError`) or bins of unequal length |
| TfIdf.MatchSorted | app/lib/tfidf.py:163 | at most `count` entries, best first |
| TfIdf.MatchEntry | app/lib/tfidf.py:155-163 | every entry is a stored document with its Tanimoto score strictly between 0 and 1, and never the query document itself |
| TfIdf.MatchTop | app/lib/tfidf.py:163 | a related document left out scores no higher than any returned |
| TfIdf.TFIDF.Match | app/lib/tfidf.py:152-163 | the loop computes the match |
| TfIdf.TFIDF.InitForUpdate | app/lib/tfidf.py:81-83 | only the stop words change |
| TfIdf.TFIDF.InitForMatch | app/lib/tfidf.py:85-88 | only the bins change |
| TfIdf.TFIDF.constructor | app/lib/tfidf.py:74-79 | nothing is loaded: no stop words, fragments, mono words, idf table or bins |
| Frequency.CutWordsCount | app/lib/frequency.py:77-78 | the filter keeps every occurrence of an accepted token and none of a rejected one |
| Frequency.CutWordsKeeps | app/lib/frequency.py:77-78 | a word is kept exactly when it is an input token that is not a stop word, not whitespace only and not digits only |
| Frequency.WordFragsOf | app/lib/frequency.py:75-81 | every document keeps its newsID and gets its filtered tokens |
| Frequency.Analyzer.CutWords | app/lib/frequency.py:67-81 | the loop computes the filtered fragments of every news text |
| Frequency.Analyzer.constructor | app/lib/frequency.py:56-59 | the stop words and fragments are the given ones and `details` starts empty |
| Frequency.AddKeys | app/lib/frequency.py:88-89 | the dict's keys after the loop are the old keys, then each new word at its first occurrence, still distinct |
| Frequency.Tally | app/lib/frequency.py:90 | a word has a count exactly when it was counted before or occurs in the input |
| Frequency.TallySnoc | app/lib/frequency.py:90 | one more word raises its own count by one and leaves the rest alone |
| Frequency.TallyTokens | app/lib/frequency.py:86-90 | the counting loops add every token's key and count each occurrence once |
| Frequency.TallyWords | app/lib/frequency.py:87-90 | the loop over one document counts each of its words |
| Frequency.TallyWord | app/lib/frequency.py:88-90 | one step adds the key if it is new and raises its `total_freq` by one |
| Frequency.Restrict | app/lib/frequency.py:93 | after pops a count is kept exactly for a word still present, unchanged |
| Frequency.Pop | app/lib/frequency.py:93 | `pop(w)` leaves exactly the other keys |
| Frequency.KeepOnly | app/lib/frequency.py:91-95 | the dict keeps exactly the given keys, in that order |
| Frequency.PopRejected | app/lib/frequency.py:91-95 | the removal loop over a snapshot of the keys leaves exactly the accepted words, in order, with their counts |
| Frequency.PopStep | app/lib/frequency.py:93 | popping a rejected key moves the loop one key further on |
| Frequency.KeptWordIff | app/lib/frequency.py:92-95 | a word survives exactly when it is non-empty and Chinese; a Chinese word is never punctuation |
| Frequency.FreshTotal | app/lib/frequency.py:85-95 | on a fresh analyser the words left are document tokens that pass the test and have no occurrence count yet |
| Frequency.Analyzer.GetTotalFreq | app/lib/frequency.py:85-95 | `details` becomes the counted words that survive the test; nothing else changes |
| Frequency.DocCountBounds | app/lib/frequency.py:104-106 | a word's document count is at most the number of documents and its number of occurrences, and positive exactly when it occurs |
| Frequency.Occurrences | app/lib/frequency.py:103-106 | a word gets an occurrence count exactly when it is in `details` and already had one or occurs in some document |
| Frequency.OccurrencesAt | app/lib/frequency.py:103-106 | every occurring word of `details` gains its document count |
| Frequency.Bump | app/lib/frequency.py:104-106 | one document adds counts only for words of `details` that it holds |
| Frequency.BumpDocument | app/lib/frequency.py:104-106 | the loop over one document's distinct words bumps each once |
| Frequency.CountOccurrences | app/lib/frequency.py:103-106 | the counting loop computes the occurrence counts |
| Frequency.OccurAfterTotal | app/lib/frequency.py:102-109 | after `get_total_freq` every word left has an occurrence count, so the removal cannot raise |
| Frequency.PopOnce | app/lib/frequency.py:107-109 | the words counted once are popped; a word without a count raises `KeyError` after the pops before it |
| Frequency.ScanOnce | app/lib/frequency.py:107-109 | the loop stops at the end of the keys or at the first key without a count, with every key before it examined |
| Frequency.Analyzer.GetOccurFreq | app/lib/frequency.py:102-109 | `KeyError` exactly when a word has no count; otherwise `details` keeps the words counted more than once |
| Frequency.Items | app/lib/frequency.py:98 | one `(word, total_freq)` pair per key, in key order |
| Frequency.HighFreqWords | app/lib/frequency.py:97-100 | the sort key raises `KeyError` exactly when some entry has no total count |
| Frequency.HighFreqBound | app/lib/frequency.py:99 | at most `top` words, all of them words of `details` |
| Frequency.HighFreqTop | app/lib/frequency.py:98-99 | every word chosen is at least as frequent as every word left out |
| Frequency.Analyzer.SetHighFreqWords | app/lib/frequency.py:138 | only the high-frequency words change |
| Frequency.CountHigh | app/lib/frequency.py:114-117 | each high-frequency word gets its count in the document, and no other word |
| Frequency.AppendCounts | app/lib/frequency.py:118-119 | each word's list grows by that word's count |
| Frequency.Analyzer.GetDetailSum | app/lib/frequency.py:111-120 | one list per high-frequency word, holding its count in each document in document order |
| Frequency.Analyzer.GetBinarization | app/lib/frequency.py:122-131 | each document's vector is its 0/1 word vector over the word list |
| Frequency.TopsShape | app/lib/frequency.py:186-206 | `KeyError` for an unknown document; otherwise fails only for vectors of unequal length, and returns at most `top` pairs, best first, each scoring strictly between 0 and 1 |
| Frequency.GetTops | app/lib/frequency.py:186-206 | the method computes the ranking |

## Left out

- Storage and I/O are not modelled: SQLite, MongoDB, the Whoosh index, the pickle, CSV and stop-word files, and the WeChat and object-storage HTTP calls. Tables and collections are sequences and maps that are passed in or held in fields. The Whoosh search is a supplied function from a query to newsIDs in order of relevance.
- `jieba` segmentation is outside the model: a news text arrives as its list of tokens.
- Randomness (`random.sample`, `random.randint`) and the clock (`time.time`) are parameters. The model fixes how the numbers are used, not which numbers come out.
- Floating point is not modelled. Scores are exact rationals. `math.log` in the idf is an abstract function of the document count and the document frequency. `"%.4f"` formatting is the parameter `format4`.
- numpy's mean, standard deviation and coefficient of variation in `detail_analyse`, `filter_results`, `work` and both `plt_show` of `app/lib/frequency.py` are floating point and plotting, so they are not modelled.
- The `pkl_dump("wordFrags.pkl")` call in `_cut_words` is a file write and is not modelled. As written it passes no data, so that path would stop with `TypeError`.
- TfIdf.Vocabulary: `list(set(...))` has no order Python promises. The model takes first-occurrence order, and the bin lemmas rely only on a duplicate-free enumeration of the union.
- Similarity.Tanimoto: the source divides by zero (numpy gives NaN) when both bins are empty. This model requires a non-empty query bin, and so do the members built on it: Similarity.Candidates, Similarity.ScoreAll, Similarity.TopMatches.
- TfIdf.TFIDF.Match: requires the query document's bin to be non-empty (`QueryScorable`), for the same reason.
- Frequency.GetTops: requires the query document's bin to be non-empty, for the same reason.
- MinipgmApiDb.RecommendNews: requires the query document's bin to be non-empty, for the same reason.
- MiniprogramDevelop.GetRecommendNews: requires a non-empty query bin on the "Tc" branch, for the same reason.
- The cipher is not modelled: AES-CBC, Base64 and SHA-1 are parameters, and only "decryption undoes encryption" is assumed of them. An AES object's CBC state carried across calls is not modelled. Each call starts from a fresh cipher.
- The hashes and tokens are not modelled: werkzeug's password hashing and the itsdangerous signed serializer are parameters. A token is its payload list.
- PyInt.ParseInt: reads ASCII decimal digits only. Python's `int()` also takes other Unicode decimal digits and underscores between digits ("1_000").
- PyInt.ToInt: reads ASCII decimal digits only, with no underscores, through PyInt.ParseInt.
- UpdateData.IntIdx: reads ASCII decimal digits only, with no underscores, as `int()` does not.
- Webhook.DateMatch: `\d` matches ASCII digits only here. Python's `re` on `str` also matches other Unicode decimal digits.
- Webhook.DateMatchDigits: ASCII digits only, for the same reason.
- ApiUtil.TimestampVerdict: reads the timestamp with ASCII decimal digits only, with no underscores. The distance to the clock is exact: the rounding of the float subtraction is not modelled, and only its `OverflowError` is.
- MiniprogramDevelop.IntValues: converts ASCII decimal digits only, with no underscores.
- MiniprogramDevelop.DateQuery: converts the date fields through MiniprogramDevelop.IntValues, so ASCII decimal digits only, with no underscores.
- ServerDb.IsValidDateShape: parses the fields with ASCII decimal digits only, with no underscores.
- ServerDb.IsValidDate: parses the fields with ASCII decimal digits only, with no underscores, as ServerDb.IsValidDateShape states.
- Frequency.CutWordsKeeps: `isdigit` is ASCII digits only. Python's `str.isdigit` also accepts other Unicode digits such as "²", which the source would drop.
- Frequency.Analyzer.CutWords: ASCII digits only, for the same reason.
- PyRandom.Sample: follows CPython's pool strategy for `random.sample` only. For a large population CPython draws with a set of chosen indices instead, which uses the random numbers differently.
- Reply.ChildOf: lxml's `etree.CDATA` raises `ValueError` on text containing "]]>". The model wraps any text.
- Reply.FormXml: the same `etree.CDATA` limit is not modelled.
- Final.HtmlCoder.AsZone: the zone name is lower-cased for ASCII letters only. Python's `.lower()` also maps some other characters to ASCII letters (for example U+212A to "k"). Final.Step and Final.MarkerOf read zone names the same way.
- MiniprogramDevelop.GetRecommendNews: the "CosDist" branch of `_get_recommend_news` (cosine distances over the `kwsarray.pkl.pkuyouth` vectors, floating point with numpy norms) is not modelled. Its ranking is the parameter `cosTops`, and only how that ranking is turned into answer rows is modelled.
- MiniprogramDevelop.RecommendByIdShape: for "CosDist" the ranking is the parameter `cosDist`, for the same reason. Nothing is claimed about which articles it picks.
- MiniprogramDevelop.RecommendByArticleSpec: the article's segmentation is the parameter `words`, since `jieba` is outside the model. An article that is not text fails inside `jieba`, and that failure is not modelled. On the "Tc" branch it requires the article's words to hit the vocabulary (a non-empty query bin), inherited from Similarity.Tanimoto: an article sharing no word with `wordsList`, for which the source scores every non-empty stored bin 0 and recommends nothing (and gets NaN for an empty one), is outside the model.
- Cryptor.UpperAes: `str.upper` is modelled for ASCII letters only. Python also maps a few other characters to ASCII capitals (for example U+017F to "S").
- XML parsing and serialising (lxml) are not modelled. Messages are element trees, and syntax errors are a supplied outcome.
- Percent-decoding in `parse_qs` is not modelled. `+` is read as a space.
- The HTML that `HTMLcoder` builds (its BeautifulSoup tree, the picture upload and the templates) is not modelled. The model keeps its zone state, counters, options, text conversions and the number of `br` sections in the body, which `back()` removes.
- Flask's `request`, `abort`, `jsonify`, sessions and logging are not modelled. A rejected request is an `Err` value with the error the view's own checks raise. That is not always what reaches the client. In `query` and `get_random` of `app/views/miniprogram_develop.py`, once `db` is bound, the `return jsonify(jsonPack)` in the `finally` swallows the error and the client gets the JSON with errcode -1. In `get_recommend`, a bad count or type is raised before `db` is bound, so `db.close()` in the `finally` raises `UnboundLocalError` and no JSON is sent.
- The menu update that the admin command triggers is a network call and is not modelled.
- `get_hot_news`, `get_column_news`, `get_rpt`, `get_rpts`, `get_names` and `has_rpt` in `app/lib/minipgm_api/db.py` are not part of this model.
- The `WhooshIdx` classes of `app/lib/minipgm_api/db.py` and `app/lib/update_data.py` are not part of this model.
- The constructors of the MongoDB stores and of `UpdateData.NewsInfoTable` start from empty collections. Data already stored is what the methods are given.

## Findings

| source | as written | input that shows it | evidently intended | confidence | as-written member | corrected member |
|---|---|---|---|---|---|---|
| app/lib/minipgm_api/db.py:78-91 | `search_news` reads the hit rows with the default `filter_in_use=True`, then zips rows and hits by position after sorting both by newsID | two hits "a" (rank 0) and "b" (rank 1) where row "a" is not in use: row "b" is paired with hit "a" and answered with rank 0 | each row gets the rank of the hit with its own newsID | high (not executed) | ApiDb.SearchNewsMisranked | ApiDb.SearchNewsByLookup, with ApiDb.SearchNewsByLookupRanks |
| app/views/pkuyouth_server.py:124-131 | the `unsubscribe` event branch is `pass`, and the shared `replyMsg.send()` after the branches then reads an unbound name | an `event` message with Event `unsubscribe` | no reply for an unsubscribe | high (not executed) | Webhook.Handle and Webhook.Post, with Webhook.UnfollowRaises | Webhook.HandleFixed and Webhook.PostFixed, with Webhook.HandleFixedEvents and Webhook.PostFixedAgrees |
| app/lib/final.py:491-497 | `_asBody` calls `self.back(inSec="body")` for a picture next to a picture, but `back` (line 299) takes no `inSec` parameter, so Python raises `TypeError` | a body picture without text whose previous paragraph also holds a picture | drop the blank line and count the picture | high (not executed) | Final.StepAsWritten, with Final.PictureAfterPictureStops | Final.Step (used by Final.HtmlCoder.AsBody), with Final.PictureAfterPicture |
