# Verification model of CaaL's TOML reader and session daemon

The project models two components and proves properties of them.

**The TOML reader** (`src/lib/tomlc17.c`). The scanner, the parser, the string pool, the
in-place unescaper, the UTF-8 coder, and copy, merge and comparison of trees. Each part comes
twice. A function says what a call returns (`Scan.dfy`, `Unescape.dfy`, `Document.dfy`,
`Parse.dfy`, `Override.dfy`), and a method does it step by step as the C code does, on a cursor,
a buffer or a pool (`Scanner.dfy`, `Parser.dfy`, `Norm.dfy`, `Numbers.dfy`, `Merge.dfy`,
`Pool.dfy`, `StampReaders.dfy`, `Get.dfy`) and is proved to agree. The laws are proved about the
functions: what every expression does to the tree (`DocumentLaws.dfy`, `HeaderPaths.dfy`,
`InlineTables.dfy`, `TopLevel.dfy`), what whole documents mean (`DocumentRuns.dfy`), which
headers, key/values and pairs are refused (`Refusals.dfy`, `HeaderHistory.dfy`, `KeyValues.dfy`,
`KeyValueHistory.dfy`), and what holds of `toml_parse` on every byte string (`ParseLaws.dfy`,
`ValueLaws.dfy`, `TomlLaws.dfy`, `Nesting.dfy`).

The grammar, which the repository does not have, is written down as data types whose values are
pieces of text with every choice that the format leaves (`Layout.dfy`, `StringText.dfy`,
`NumberText.dfy`, `StampText.dfy`, `Print.dfy`), with what they mean (`Meaning.dfy`). Reading
gives that meaning back (`StringBack.dfy`, `NumberBack.dfy`, `StampBack.dfy`, `ReadBack.dfy`,
`RoundTrip.dfy`, `Tidy.dfy`, `LineRuns.dfy`, `InlinePairs.dfy`, `WrittenTrees.dfy`,
`Writable.dfy`), and every text that is accepted belongs to the grammar (`AcceptStrings.dfy`,
`AcceptNumbers.dfy`, `AcceptStamps.dfy`, `Accept.dfy`, `AcceptValues.dfy`, `AcceptDocs.dfy`), so
that `toml_parse` is known exactly. With the grammar the refusals and the departures from the
standard are stated on text (`RefusedLines.dfy`, `Limits.dfy`, `Window.dfy`, `Fractions.dfy`,
`Escapes.dfy`).

The UTF-8 check is compared with RFC 3629 (`Rfc3629.dfy`), and from text that passes it comes
only such text (`Utf8Cuts.dfy`, `TextLaws.dfy`, `TextTrees.dfy`). A datum is a value; the current
table is a path of keys and array indices into the tree.

**The session daemon and its wire protocol** (`src/caald.c`, `src/lib/caald_client.c`). The slot
table is a class over an array (`SessionTable.dfy`) that refines a value (`Sessions.dfy`), which
stands for a bag of sessions, as ids are not checked for duplicates. Runs of any requests and
reloads are in `SessionRuns.dfy`. Messages are bytes (`Protocol.dfy`) that travel over pipes which
grant each read and write as many bytes as they like, or none (`Socket.dfy`). `Daemon.dfy`,
`Client.dfy`, `Config.dfy` and `Caald.dfy` put these together, up to the main loop, whose
configuration file goes through the TOML reader.

Parameters of the model: the conversion of number text to a double, the sizes granted to reads
and writes, the outcome of `realloc` on a reload, and the clock.

Where the code differs from what it documents or from the standard it names, the model follows
the code:

- The UTF-8 check accepts overlong forms and codes above 0x10FFFF. `Rfc3629.Utf8Exactly` and
  `Rfc3629.AcceptedDeparts` say which accepted texts the standard does not allow.
- An escape may name a code above 0x10FFFF (`EscapeLimits.StringExactly`, `EscapeLimits.MeaningDeparts`).
- Inline tables can be extended, by the condition of `InlineTables.InlineTableGains`; on text,
  `TextLimits.InlineTableExtended`.
- The limit of 30 nested arrays grows by one with every `[header]` (`TextLimits.ArrayDepth`).
- Numbers are read from a window of 49 bytes. It changes nothing for a number that fits, and a
  document with a longer one is refused (`NumberWindows.WindowExactly`,
  `NumberWindows.NumberExactly`).
- A fraction of a second has six digits at most; a longer one is not truncated but refused
  (`FractionLimits.FractionExactly`).
- `toml_get` compares keys as C strings, so a key with a NUL in it can stand in for a shorter one
  (`Getting.GetIsFind`, `Config.ShadowedSetting`).
- A failed write in the middle of a LIST answer does not end the answer (`Sockets.HoleInStream`,
  `Client.LostHeader`); what arrives is a prefix under the condition of `Sockets.InitialSegment`.
- `max_sessions` is cast to `int` (`Config.SettingWraps`).

## Model

| member | source | states |
|---|---|---|
| StringPool.Pool.constructor | src/lib/tomlc17.c:82-94 | a pool of the requested size, or of 100 bytes when zero or fewer are asked for, with nothing handed out |
| StringPool.Pool.Alloc | src/lib/tomlc17.c:105-112 | hands out the next n bytes, or refuses and changes nothing when fewer than n are left |
| Utf8.Utf8ToUcs | src/lib/tomlc17.c:2750-2849 | the decoder, reading bytes in place, computes the code and the length that the reference decoding gives, or fails where it fails |
| Utf8.CheckUtf8 | src/lib/tomlc17.c:793-818 | the validation loop accepts exactly when every position it stops at decodes to a non-surrogate code |
| Utf8.DecodeEncode | src/lib/tomlc17.c:2750-2944 | for every code up to 0x1FFFFF, decoding its encoding anywhere in a text returns the code and the length of the encoding |
| Utf8.EncodeIsShortest | src/lib/tomlc17.c:2851-2944 | no byte string that decodes to a code is shorter than its encoding, and one of the same length is the encoding (section 3 of RFC 3629) |
| Utf8.ValidExactly | src/lib/tomlc17.c:793-818 | the strings the validation loop accepts are exactly the concatenations of layouts, shortest or not, of non-surrogate codes |
| Utf8.EncodingsAreValid | src/lib/tomlc17.c:793-818 | every concatenation of encodings of non-surrogate codes up to 0x1FFFFF passes the validation loop |
| Utf8Cuts.CutValid | src/lib/tomlc17.c:793-818 | valid text can be cut in front of any byte that is not 10xxxxxx: both parts pass the loop |
| Utf8Cuts.JoinValid | src/lib/tomlc17.c:793-818 | and two texts that pass it pass it together |
| Rfc3629.Utf8Exactly | src/lib/tomlc17.c:793-818 | a text is a sequence of encodings of characters up to U+10FFFF, no surrogates, if and only if the loop accepts it and, at every position where the loop stops, the code is at most 0x10FFFF and its form the shortest (section 3 of RFC 3629) |
| Rfc3629.AcceptedDeparts | src/lib/tomlc17.c:793-818 | of the texts that the loop accepts exactly those are no UTF-8 by the standard that have a byte C0, C1 or F5 and above, E0 before a byte below A0, F0 before one below 90, or F4 before one from 90 up (section 4 of RFC 3629) |
| Rfc3629.OverlongAccepted | src/lib/tomlc17.c:2750-2849 | an overlong form and a code above 0x10FFFF: two strings that the loop accepts and the standard does not |
| Numbers.Squeeze | src/lib/tomlc17.c:2351-2373 | the in-place underscore phase accepts exactly when every underscore of the original text stands between two digits of the base, and leaves the text without its underscores: no neighbour is tested after it has been overwritten |
| Numbers.CheckPoints | src/lib/tomlc17.c:2375-2385 | the second phase accepts exactly when every decimal point stands between digits, and leaves the text in lower case |
| Numbers.ProcessNumstr | src/lib/tomlc17.c:2349-2395 | the three phases in a row: accepts exactly the texts with good underscores, points and no leading zero, and leaves their squeezed lower-case form |
| Numbers.SqueezedKeeps | src/lib/tomlc17.c:2354-2372 | squeezing leaves no underscore and distributes over concatenation: the other characters stay, in order |
| Datum.TabFind | src/lib/tomlc17.c:249-258 | the loop returns the first entry with the key, or -1 |
| Datum.DatumEquiv | src/lib/tomlc17.c:499-564 | the recursive comparison decides the equivalence of trees: key order counts, NaN equals NaN, each timestamp type compares its own fields |
| Datum.EquivReflexive | src/lib/tomlc17.c:499-564 | a tree is equivalent to itself exactly when no zeroed datum is left in it |
| Datum.EquivSymmetric | src/lib/tomlc17.c:499-564 | equivalence is symmetric |
| Datum.EquivTransitive | src/lib/tomlc17.c:499-564 | equivalence is transitive, through both zeros and all NaNs |
| Merging.TabEmplace | src/lib/tomlc17.c:262-309 | finds the slot of a key or appends a zeroed one, and refuses only a full table |
| Merging.DatumCopy | src/lib/tomlc17.c:394-440 | the copy that re-inserts every entry and takes string space from a pool agrees with its specification, result and pool top |
| MergeLaws.CopyExactly | src/lib/tomlc17.c:394-440 | on a well-formed tree the copy succeeds exactly when the pool has room for its string bytes, and then uses exactly that room |
| MergeLaws.CopyNeedsDistinctKeys | src/lib/tomlc17.c:394-440 | a copy of a table that succeeds has all of its entries exactly when its keys are distinct; with a repeated key it is smaller and not equivalent to its original |
| MergeLaws.CopiedEquiv | src/lib/tomlc17.c:394-440 | a copy is equivalent to its original |
| MergeLaws.CopiedBytes | src/lib/tomlc17.c:394-440 | a copy holds as many string bytes as its original |
| Merging.DatumMerge | src/lib/tomlc17.c:452-496 | the recursive merge on a destination and a pool agrees with its specification, result and pool top |
| Overriding.MergeExactly | src/lib/tomlc17.c:452-496 | datum_merge computes the override of the left by the right, takes exactly the string bytes of the right from the pool, and given that much room fails exactly when a table or an array would outgrow its limit |
| TomlMerge.OverrideByPath | src/lib/tomlc17.c:452-496 | every path in a merged tree: what the right reaches overrides, what the right leaves alone is as on the left, and below a value of the right that is not a table there is nothing |
| TomlMerge.Merged | src/lib/tomlc17.c:585-625 | toml_merge of two results: a fresh pool sized by the two tops, a copy of the left and a merge of the right into it, or a failure |
| TomlMerge.MergeOfFinished | src/lib/tomlc17.c:585-625 | toml_merge fails exactly when a table or array would outgrow its limit, never for want of pool; its result again satisfies what a merge needs, so merges of merges do too |
| TomlMerge.MergeByPath | src/lib/tomlc17.c:566-625 | for every path, up to equivalence: a leaf or plain array on the right wins, an array of tables on the right is appended to an array, a new path gets the value of the right, an untouched path keeps the value of the left |
| TomlMerge.KeyOrder | src/lib/tomlc17.c:452-496 | the keys of the left come first in their order, then the new keys of the right in theirs |
| TomlMerge.EmptyIsIdentity | src/lib/tomlc17.c:585-625 | the empty table is a left and a right identity of toml_merge, up to equivalence |
| TomlMerge.OverrideBytes | src/lib/tomlc17.c:452-496 | a merged tree holds no more string bytes than its two sources together |
| Scanning.TokenLies | src/lib/tomlc17.c:2621-2695 | every token lies behind the position it was scanned from and inside the text; only the end of the text and an empty bare key take no input |
| Scanners.Scanner.constructor | src/lib/tomlc17.c:1796-1806 | a scanner at the first byte, on line 1, with both nesting counters at 0 |
| Scanners.Scanner.Get | src/lib/tomlc17.c:1718-1730 | returns the next character, CR LF as one newline, and keeps the line number equal to one plus the line feeds passed |
| Scanners.Scanner.NMatch | src/lib/tomlc17.c:1758-1768 | whether the next n bytes are all the given one |
| Scanners.Scanner.Restore | src/lib/tomlc17.c:2605-2618 | brings any marked position back with the number of its line, and leaves the nesting counters as they are |
| Scanners.Scanner.SkipEscape | src/lib/tomlc17.c:1855-1903 | behind a backslash: simple escapes, 2, 4 or 8 hexadecimal digits, and in a multi-line string the blanks of a line-ending backslash; refuses anything else |
| Scanners.Scanner.StringBody | src/lib/tomlc17.c:1923-1969 | finds the closing quote that the specification finds, and the first backslash before it |
| Scanners.Scanner.MlStringBody | src/lib/tomlc17.c:1819-1906 | the same for a multi-line string, with its rule for runs of quotes |
| Scanners.Scanner.StringToken | src/lib/tomlc17.c:1808-1977 | the token of a basic or multi-line basic string and the position behind its quotes |
| Scanners.Scanner.LitStringToken | src/lib/tomlc17.c:1979-2042 | the token of a literal or multi-line literal string and the position behind its quotes |
| Scanners.Scanner.LiteralToken | src/lib/tomlc17.c:2593-2602 | a bare key: the longest run of its characters, possibly none |
| Scanners.Scanner.FloatValue | src/lib/tomlc17.c:2397-2429 | copies 49 bytes, spans, squeezes in place and converts: the value and length of the specification |
| Scanners.Scanner.NumberValue | src/lib/tomlc17.c:2431-2512 | integers of four bases, and the fall-back to floats, with the value and length of the specification |
| Scanners.Scanner.BoolValue | src/lib/tomlc17.c:2514-2540 | true or false, followed by nothing but the listed delimiters |
| StampReaders.ReadIntAt | src/lib/tomlc17.c:2088-2099 | the digits at a position and their number, or none when it exceeds INT_MAX |
| StampReaders.ReadFraction | src/lib/tomlc17.c:2157-2170 | the loop over the digits of a fraction takes six at most and gives microseconds |
| StampReaders.StampToken | src/lib/tomlc17.c:2102-2347 | on the buffer: date, time and offset in the order of scan_timestamp, with its range checks, as the specification reads them |
| ReadingStamps.StampScanned | src/lib/tomlc17.c:2102-2347 | every form of a date, a time, or both is read as what it says, with T, t or a space between them, with or without seconds, with up to six digits of a fraction, and with no offset, Z, z or a numeric one; or refused if there is no such day, time or offset |
| ReadingStamps.StampsExactly | src/lib/tomlc17.c:2045-2347 | a date or time can be read from some text if and only if it is one of these, with -1 in the fields it does not have |
| FractionLimits.FractionExactly | src/lib/tomlc17.c:2157-2347 | behind any accepted lines, a free key is given a time, alone or behind a date and with any separator and offset: accepted if and only if a fraction of its seconds has at most six digits; the standard wants further digits truncated |
| FractionLimits.LongFractionRefused | src/lib/tomlc17.c:2157-2170 | with more than six digits the document is refused, whatever the key, whatever stands before and behind, and whether the rest of the time is good or not |
| Scanners.Scanner.StampValue | src/lib/tomlc17.c:2205-2347 | copies 19 or 79 bytes and reads a time or a timestamp, with the value and length of the specification |
| Scanners.Scanner.ValueToken | src/lib/tomlc17.c:2572-2590 | dispatches on the first characters, and moves past the value without losing the line number |
| NumberWindows.WindowExactly | src/lib/tomlc17.c:229-236 | a number that could be read from the whole text is read the same through the window of 49 bytes if and only if its run of characters fits in it |
| NumberWindows.CutElement | src/lib/tomlc17.c:1104-1161 | an array element behind which a character of numbers stands, as when it was cut at the end of its window, is refused with its array |
| NumberWindows.CutPairValue | src/lib/tomlc17.c:1166-1264 | the same for a value in an inline table |
| NumberWindows.CutKeyValue | src/lib/tomlc17.c:1492-1561 | and for a key/value: the document is refused |
| NumberWindows.LongNumberRefused | src/lib/tomlc17.c:2431-2512 | on text: behind any lines and with any key, a number whose run of characters is longer than 49 refuses the document, whatever strtod makes of it and whatever follows |
| NumberWindows.LongWrittenRefused | src/lib/tomlc17.c:2431-2512 | so does every integer of the four bases and every float of more than 49 characters, however it is written |
| NumberWindows.NumberExactly | src/lib/tomlc17.c:2431-2512 | behind any accepted lines, a free key is given a number that has a value: accepted if and only if it is written in at most 49 characters |
| Scanners.ValueOnOneLine | src/lib/tomlc17.c:2205-2540 | no date, time, number or boolean spans a newline, so moving the cursor over it keeps the line number right |
| Scanners.Scanner.Next | src/lib/tomlc17.c:2621-2695 | skips blanks and comments and returns the token and position that the specification gives for the mode |
| Scanners.Scanner.CheckOverflow | src/lib/tomlc17.c:2698-2722 | counts brackets and braces up and down and refuses the 31st open one |
| Scanners.Scanner.Tok | src/lib/tomlc17.c:2724-2746 | one token with its effect on the counters; after a failure nothing moves any more |
| Unescaping.EscapeAgrees | src/lib/tomlc17.c:1566-1711 | at every escape the unescaper stops where the scanner stopped, or meets a code that cannot be encoded |
| Unescaping.StringAgrees | src/lib/tomlc17.c:1916-1977 | no body accepted by scan_string makes the unescaper meet an unknown escape |
| Unescaping.MlStringAgrees | src/lib/tomlc17.c:1808-1914 | no body accepted by scan_multiline_string makes the unescaper meet an unknown escape or a bad line-ending backslash |
| Unescaping.TokenUnescapes | src/lib/tomlc17.c:1566-1711 | for every token of a basic string the unescape succeeds or meets a surrogate or a code above 0x1FFFFF |
| Normalizing.EscapeStep | src/lib/tomlc17.c:1611-1707 | one turn of the switch writes what the escape stands for at the writing pointer, which stays behind the reading one |
| Normalizing.UnescapeInPlace | src/lib/tomlc17.c:1597-1711 | the two-pointer loop turns the token in the pool into exactly its left-to-right unescape followed by a NUL, needs no byte beyond the token, and changes nothing before or behind it |
| ReadingStrings.PiecesUnescaped | src/lib/tomlc17.c:1597-1711 | the unescape of a body is what its pieces mean: each byte as itself, by its short escape (b 8, t 9, n 10, f 12, r 13, e 27), or by its code in two, four or eight digits of either case; newlines, and line-ending backslashes with all the white space behind them, which mean nothing |
| ReadingStrings.StrScanned | src/lib/tomlc17.c:1808-2042 | a basic, literal, multi-line basic or multi-line literal string is one token of its kind with exactly its body: quotes in the body, and a newline right behind three quotes, which is left out |
| Writable.EveryText | src/lib/tomlc17.c:1566-1977 | every byte string is the meaning of a string that can be written, as a value and as a part of a key |
| EscapeLimits.StringExactly | src/lib/tomlc17.c:1566-1711 | behind any accepted lines, a free key is given a string: refused if and only if one of its escapes names a surrogate or a code above 0x1FFFFF |
| EscapeLimits.MeaningDeparts | src/lib/tomlc17.c:2851-2944 | the text of an accepted code is UTF-8 by the standard if and only if the code is at most 0x10FFFF |
| Tokens.TokenSound | src/lib/tomlc17.c:1808-1977 | a basic string token holds no NUL, and its escp is its first backslash |
| Trees.PutFrame | src/lib/tomlc17.c:249-347 | overwriting the node at one place shows below that place only: every other node of the tree is as before |
| Trees.AddEntryEffect | src/lib/tomlc17.c:313-326 | a new entry: the table has one key more at the end, its value is below it, and every other node is as before |
| Trees.AddElemEffect | src/lib/tomlc17.c:330-347 | a new element: the array is one longer, the element is at its end, and every other node is as before |
| Documents.TabAddEffect | src/lib/tomlc17.c:313-326 | an accepted tab_add appends under a key that was not there, keeps the tree well formed and adds exactly the string bytes and leaves of the value |
| DocumentLaws.WalkEffect | src/lib/tomlc17.c:1022-1082 | a descent ends at a table and only adds empty tables on its way: no leaf, no string byte, nothing removed |
| DocumentLaws.OpenTableEffect | src/lib/tomlc17.c:1302-1380 | an accepted [header] makes a table current that was never defined before and adds no leaf |
| DocumentLaws.OpenElementEffect | src/lib/tomlc17.c:1385-1488 | an accepted [[header]] makes a new element current and adds no leaf |
| DocumentLaws.KeyValueEffect | src/lib/tomlc17.c:1492-1561 | an accepted key/value puts its value at the place its key spells below the current table, which was free, and adds no other leaf |
| DocumentLaws.KeyValueClosed | src/lib/tomlc17.c:1506-1544 | a key/value leaves the entries of every defined table, array element and the root alone, except those of the current table |
| HeaderPaths.OpenTableSpells | src/lib/tomlc17.c:1302-1380 | [a.b.c] makes the table spelled a.b.c current, through the latest element of every array on the way |
| HeaderPaths.OpenElementSpells | src/lib/tomlc17.c:1385-1488 | [[a.b.c]] makes a new empty last element of the array spelled a.b.c current |
| DocumentRuns.RunValid | src/lib/tomlc17.c:834-873 | after every expression of a document: distinct keys within the limits, the two definition flags on tables only, and a current table that exists |
| DocumentRuns.RunGrows | src/lib/tomlc17.c:834-873 | every place of an earlier tree is a place of every later one, with the same leaf or at least the same keys or elements in order |
| DocumentRuns.RunMeaning | src/lib/tomlc17.c:834-873 | the leaves of the final tree are exactly the values of the key/values, each at the place its key spells from the table current at that moment |
| DocumentRuns.TargetsApart | src/lib/tomlc17.c:834-873 | no two key/values of a document assign to the same place |
| DocumentRuns.NeverReopened | src/lib/tomlc17.c:1347-1379 | no header makes a table current that has been current before |
| DocumentRuns.NeverReturns | src/lib/tomlc17.c:1347-1379 | once the current table has moved on it never comes back |
| DocumentRuns.OneBlock | src/lib/tomlc17.c:1506-1544 | after the current table has moved on from the root, a header table or an array element, no key/value adds an entry to it |
| DocumentRuns.RunBytes | src/lib/tomlc17.c:834-873 | the string bytes of the tree are those of the values assigned so far |
| Refusals.HeaderRefused | src/lib/tomlc17.c:1302-1380 | [keys] is refused, in any valid document, if and only if a part but the last runs into a value that is neither a table nor an array with a table at its end, a table that lacks a part is full, the last part would be new in an inline table, or all parts are there and the last is defined or was made by no header |
| Refusals.ElementRefused | src/lib/tomlc17.c:1385-1488 | [[keys]] is refused, in any valid document, if and only if a part but the last runs into such a value or into an array that is a value, a table that lacks a part is full, or all parts are there and the last is no array, an array that is a value, or a full one |
| Refusals.PairRefused | src/lib/tomlc17.c:1166-1264 | whatever its value, a pair is refused by the inline table read so far if and only if a part of its key but the last runs into such a value, a table that lacks a part is full, the last part would be added to a value, or there is something under the key already |
| KeyValueRefusals.KeyValueRefused | src/lib/tomlc17.c:1492-1561 | whatever its value, a key/value is refused, in any valid document, if and only if a part but the last holds something that is no table; a part is missing in a table that is full, or that is not the current one and has FLAG_EXPLICIT; the parts but the last lead to a table that is inlined, or that is not the current one and has FLAG_EXPLICIT; or the last part is there already |
| HeaderHistory.FlagsRemember | src/lib/tomlc17.c:1347-1379 | in every run: a table that is no array element carries FLAG_STDEXPR exactly when no key/value has made it, and then FLAG_EXPLICIT exactly when it has been the current table |
| HeaderHistory.HeaderRefusedExactly | src/lib/tomlc17.c:1302-1380 | so the last of these four holds exactly when the place of the key holds something that is no table, or a table that has been current before, or one that a key/value has made |
| RefusedLines.HeaderLineRefused | src/lib/tomlc17.c:1302-1380 | on text: behind any accepted lines, however they are written, a header line is refused if and only if its key cannot be read or one of the four holds in the run of those lines |
| KeyValueHistory.ExplicitRemembers | src/lib/tomlc17.c:1504-1544 | in every run: a table that is neither an array element nor a value carries FLAG_EXPLICIT exactly when it has been the current table |
| KeyValueHistory.KeyValueRefusedExactly | src/lib/tomlc17.c:1492-1561 | so, in every run, a dotted key/value is refused for a table on its way exactly when that lacks the next part and has been current before, and for the table it leads to exactly when that is a value or has been current before |
| RefusedLines.KeyValueLineRefused | src/lib/tomlc17.c:1492-1561 | on text: behind any accepted lines, a key/value line is refused if and only if its key or its value cannot be read or one of these holds in the run of those lines |
| RefusedLines.ElementLineRefused | src/lib/tomlc17.c:1385-1488 | and an array header line if and only if its key cannot be read or it is refused by the tree of those lines |
| InlinePairs.PairsRefused | src/lib/tomlc17.c:1166-1264 | an inline table is refused if and only if, behind the pairs before it, there is a pair whose key or value cannot be read or that is refused by the table read so far |
| InlinePairs.PairsMeaning | src/lib/tomlc17.c:1166-1264 | the leaves of an inline table are exactly those of its values, each at the place that its key spells, through the latest element of every array on the way |
| TopLevel.RootStep | src/lib/tomlc17.c:834-873 | of the entries of the root an accepted expression changes nothing but for one more at the end, for the first part of a key that starts at the root and is new there |
| PlainValues.ParsedPlain | src/lib/tomlc17.c:1104-1297 | no part of a value that the parser has read carries FLAG_STDEXPR |
| InlineTables.ExprGains | src/lib/tomlc17.c:1022-1561 | whether an accepted expression of any kind adds an entry to a table that is already there: it adds one exactly when the first parts of its key lead to the table and it lacks the next part, and none otherwise |
| InlineTables.LacksOnce | src/lib/tomlc17.c:1022-1082 | at most one table lacks a part of a key in this sense, so no expression adds to two tables that are already there |
| InlineTables.InlineTableGains | src/lib/tomlc17.c:1504-1544 | an inline table gains an entry from an accepted expression if and only if the key leads to it, it lacks the next part, and that part is not the last, or the expression is a [[header]] |
| InlineTables.ElementInInline | src/lib/tomlc17.c:1402-1465 | [[a.b]] where a is an inline table: accepted exactly when the table has room and lacks b, with the whole tree before and after; refused by the kind of what b holds otherwise |
| ParseLaws.NormGood | src/lib/tomlc17.c:1566-1573 | the characters of a token always fit in what is left of the pool, with one byte to spare for a bare key |
| ParseLaws.ParseKeyGood | src/lib/tomlc17.c:963-1017 | after a key the pool is at most one byte ahead of the input, and the counters are off by the token that was looked at and put back |
| ParseLaws.EqualInBothModes | src/lib/tomlc17.c:2621-2695 | an equals sign scanned as a value is the token that was looked at as a key |
| ValueLaws.ParseValGood | src/lib/tomlc17.c:1104-1297 | a value leaves both nesting counters as they were, a well-formed tree, and its strings within the pool taken for them; its refusals are about the document |
| TomlLaws.ParseDocGood | src/lib/tomlc17.c:834-873 | the whole loop: the expressions lead from the tree before to a valid tree after, the bracket counter is down by the number of [headers], and strings fit in the pool taken |
| TomlLaws.RefusedForItsOwnSake | src/lib/tomlc17.c:782-893 | on every byte string a refusal is about the document: never an exhausted pool of len + 10 bytes, and never a branch the code takes to be impossible |
| TomlLaws.AcceptedIsRun | src/lib/tomlc17.c:782-893 | an accepted text is a sequence of expressions whose application builds the returned tree, and no more pool was taken than there are bytes of text |
| TomlLaws.MergeOfParses | src/lib/tomlc17.c:566-625 | merging two parse results never runs out of pool |
| Nesting.NestedArrays | src/lib/tomlc17.c:1104-1161 | n nested arrays are accepted exactly when the bracket counter stays within 30, and leave it where it was |
| Nesting.CountersBetweenExpressions | src/lib/tomlc17.c:2614-2618 | between expressions the bracket counter is minus the number of [headers] so far, since the bracket that closes a header is counted twice, and no brace is open |
| Nesting.ArrayDepthLimit | src/lib/tomlc17.c:2698-2722 | on any text: arrays nested n deep in a key/value after h headers are accepted exactly when n is at most 30 + h |
| Nesting.EmptyKeyAgain | src/lib/tomlc17.c:2593-2602 | where a bare key of no characters was scanned it is scanned again, and as a value nothing but a number, date or boolean |
| Nesting.EmptyKeyRefused | src/lib/tomlc17.c:2593-2602 | an expression or a pair that starts with a zero-width bare key is refused, so it cannot recur in a loop |
| Parsers.Parser.ParseNorm | src/lib/tomlc17.c:1566-1711 | leaves the unescaped text behind everything handed out before, with a NUL, and changes no byte of an earlier string |
| Parsers.Parser.ParseKey | src/lib/tomlc17.c:963-1017 | the key parts and the scanner state of the specification, with mark and restore around the token looked at |
| Parsers.Parser.ParseVal | src/lib/tomlc17.c:1267-1297 | in front of every value the brace counter is the number of open inline tables and the bracket counter plus the number of headers is the number of open arrays, hence at most 30 and 30 plus the headers; both are back behind it |
| Parsers.Parser.ParseInlineArray | src/lib/tomlc17.c:1104-1161 | the array, or the refusal, of the specification; stops on every input |
| Parsers.Parser.ParseInlineTable | src/lib/tomlc17.c:1166-1264 | the inline table, or the refusal, of the specification; stops on every input |
| Parsers.Descend | src/lib/tomlc17.c:1022-1082 | the loop over key parts agrees with the recursive descent for inline keys, both headers and key/values |
| Parsers.Parser.DefineTable | src/lib/tomlc17.c:1325-1380 | finds or adds the table of a [header], checks its flags in the order of the code, and makes it current |
| Parsers.Parser.AppendElement | src/lib/tomlc17.c:1405-1488 | finds or adds the array of a [[header]], and appends and selects an empty element |
| Parsers.Parser.LocateTable | src/lib/tomlc17.c:1504-1544 | the table a key/value assigns in, or why it must not |
| Parsers.Parser.ParseKeyValue | src/lib/tomlc17.c:1492-1561 | one key/value: tree, current table, pool and scanner end as the specification says |
| Parsers.Parser.Run | src/lib/tomlc17.c:834-873 | the main loop computes toml_parse of the specification on every byte string, and stops |
| Parsers.Parse | src/lib/tomlc17.c:782-893 | toml_parse: the tree and the top of a fresh pool of len + 10 bytes, or the refusal |
| ReadingNumbers.IntegerScanned | src/lib/tomlc17.c:2431-2512 | an integer of base 2, 8, 10 or 16, with underscores between its digits, digits of either case and, in base 10, a sign, is read as the number that it spells, or refused if that needs more than 64 bits |
| ReadingNumbers.FloatScanned | src/lib/tomlc17.c:2397-2429 | a float with underscores, sign, fraction and exponent of any form is what strtod makes of its text without underscores and in lower case |
| Writable.EveryInteger | src/lib/tomlc17.c:2431-2512 | every 64-bit integer is the meaning of a decimal integer that fits in the window |
| ReadingBack.BareRun | src/lib/tomlc17.c:2593-2602 | a bare key, of the 64 characters that are listed, ends at the first byte that is none of them |
| ReadingBack.KeyBack | src/lib/tomlc17.c:963-1017 | a key of bare and quoted parts in any spelling, with blanks around each, is read back part by part; refused are an eleventh part and a code that cannot be encoded |
| ReadingBack.ValueBack | src/lib/tomlc17.c:1104-1297 | a value of any kind in any spelling, arrays and inline tables nested in any way and to any depth, with blanks, comments and newlines between their parts and with or without a last comma, is read back from its text, to its last byte and with the counters restored, or refused as its evaluation says |
| RoundTrips.DocumentRoundTrip | src/lib/tomlc17.c:782-893 | any document of headers, array elements and key/values, with bare and quoted keys, every spelling of every kind of value, blanks between the tokens, comments, blank lines, newlines of both kinds and with or without one at the end: toml_parse returns the tree that its expressions build, or the refusal of the first that is refused; arrays may be nested 30 deep, and one deeper for every header before |
| LayoutFree.SameWithoutLayout | src/lib/tomlc17.c:2621-2695 | with all of its blanks, comments, blank lines, carriage returns, inner newlines and last commas taken out, a document gives the same tree or the same refusal |
| AcceptedDocuments.AcceptedExactly | src/lib/tomlc17.c:782-893 | and toml_parse accepts nothing else: if strtod reads no text of digits, signs, points and e but decimal numbers, a text is accepted if and only if it is such a document and its evaluation is not refused |
| AcceptedDocuments.AcceptedIsWritten | src/lib/tomlc17.c:782-893 | an accepted text, taken apart token by token, is the text of a document: every blank, comment, key, string, number, date, array and inline table in it is one that the grammar has |
| AcceptedValues.ValueFrom | src/lib/tomlc17.c:1104-1297 | so is an accepted value of any kind and depth |
| AcceptedStrings.StringOf | src/lib/tomlc17.c:1808-2042 | whatever is scanned between quotes or apostrophes is a string of its kind: no control character, no unknown escape, no third quote, no white space left behind a line-ending backslash |
| AcceptedNumbers.NumberFrom | src/lib/tomlc17.c:2397-2512 | whatever number is read is an integer or a float of the grammar: underscores only between digits, no leading zero, no sign before a prefix, digits on both sides of a point |
| AcceptedStamps.StampWritten | src/lib/tomlc17.c:2045-2347 | whatever date or time is read is written in one of the forms |
| LineRuns.LineIsApplied | src/lib/tomlc17.c:834-873 | a line is accepted exactly when its key and its value can be read and the expression of the run that it stands for can be applied, and does what that does |
| LineRuns.LinesAreRun | src/lib/tomlc17.c:834-873 | accepted lines make a run whose expressions are theirs, one by one, and whose values are as the laws of runs want them |
| WrittenTrees.EvalIsDatum | src/lib/tomlc17.c:1104-1264 | a value without dotted keys that keeps to the limits on depth, size and names means the tree that it spells, in order |
| WrittenTrees.TreeRoundTrip | src/lib/tomlc17.c:782-893 | key/values with different names and such values are parsed back from their text, entry by entry and in order, however they are written |
| TextLimits.ArrayDepth | src/lib/tomlc17.c:2698-2722 | on text: behind any accepted lines with h headers among them, a key that can be given a value can be given arrays nested n deep, written in any way, if and only if n is at most 30 + h |
| TextLimits.ArrayDepthInstance | src/lib/tomlc17.c:2698-2722 | the line [t] and 31 nested arrays are accepted, the same arrays without it are refused |
| TextLimits.InlineTableExtended | src/lib/tomlc17.c:1402-1465 | on text: a = { ... } and then [[a.b]] is accepted if and only if the inline table has room and no key b, and the tree is then the inline table with b added |
| TextLaws.TokenValid | src/lib/tomlc17.c:1808-2042 | the characters of every key and string token of valid UTF-8 are valid UTF-8 |
| TextLaws.UnescapeValid | src/lib/tomlc17.c:1597-1711 | so is the unescape of valid UTF-8 |
| TextTrees.ParsedTextsValid | src/lib/tomlc17.c:793-873 | if the text passes the validation loop and is accepted, every key and every string of the tree passes it |
| TextTrees.MergedTextsValid | src/lib/tomlc17.c:585-625 | and every key and string of a merge of two such trees |
| Sessions.RegisterBag | src/caald.c:174-202 | registering fails exactly when the active sessions number max_sessions, and otherwise adds exactly the new session to the bag |
| Sessions.LeaveBag | src/caald.c:208-220 | unregistering or killing takes exactly one session with the id out of the bag, and fails without a change exactly when there is none |
| Sessions.KillUserBag | src/caald.c:299-320 | killing by user takes out all of the sessions of that user and no others |
| Sessions.FreedUserActive | src/caald.c:299-320 | and keeps the others in their order |
| SessionRuns.RunBounded | src/caald.c:174-202 | in every run: active sessions <= session_count <= max_sessions <= INT_MAX |
| SessionRuns.RunGrowsOnly | src/caald.c:126-152 | neither max_sessions nor session_count ever decreases |
| SessionRuns.MaxIsLargestSetting | src/caald.c:119-152 | max_sessions is the largest setting that any reload has read and found memory for; no smaller one and no request changes it |
| SessionRuns.RunBag | src/caald.c:174-320 | in every run the sessions that joined are those active and those that left |
| SessionRuns.Conservation | src/caald.c:174-320 | active sessions = successful registers - unregisters - kills - the sum of the kill-user counts, after any interleaving |
| SessionRuns.PeakIsCount | src/caald.c:174-202 | session_count is the largest number of sessions active at once so far |
| SessionRuns.NextKeepsSlot | src/caald.c:174-320 | a session stays in its slot until an event removes it |
| SessionRuns.LeftIsGone | src/caald.c:159-166 | with distinct ids, a session that has left is not found by its id again |
| SessionRuns.LeavesOnce | src/caald.c:208-320 | with distinct ids each session leaves the table at most once |
| SessionRuns.LateUnregister | src/caalsh.c:216-242 | with distinct ids the unregister of a shell whose session was killed changes nothing, even when its slot has a new occupant |
| SessionRuns.SharedIdHazard | src/caald.c:159-166 | without distinct ids it does not: a run in which it takes out another session |
| SessionTables.SessionTable.FindSession | src/caald.c:159-166 | the first active slot with the id |
| SessionTables.SessionTable.Register | src/caald.c:174-202 | on the array: reuse of the first inactive slot, append, or refusal, as the specification says |
| SessionTables.SessionTable.Unregister | src/caald.c:208-220 | on the array: one slot made inactive, or failure |
| SessionTables.SessionTable.Kill | src/caald.c:280-292 | the same, and SIGTERM goes to the process of that session |
| SessionTables.SessionTable.KillUser | src/caald.c:299-320 | on the array: every slot of the user made inactive, each process signalled in slot order, and their number returned |
| SessionTables.SessionTable.CountActive | src/caald.c:225-233 | the number of active sessions |
| SessionTables.SessionTable.Reload | src/caald.c:126-153 | grow-only: a larger table with the slots in use copied over, or no change |
| Getting.TomlGet | src/lib/tomlc17.c:638-651 | the first entry whose key reads as the given one up to its first NUL |
| Getting.GetIsFind | src/lib/tomlc17.c:638-651 | toml_get finds the entry with the key, as tab_find does, if and only if no key with a NUL in it that reads the same stands before that entry, or anywhere when there is none |
| Getting.TomlSeek | src/lib/tomlc17.c:659-691 | follows the parts of a dotted key through tables; none when it is longer than 255 bytes |
| Getting.SeekIsPath | src/lib/tomlc17.c:659-691 | in a tree whose keys have no NUL, seeking parts without dots and NULs is following the path of these keys |
| Config.ReadMax | src/caald.c:104-124 | the maximum read from the configuration text by toml_parse and toml_seek: none when the file is missing or refused, 1024 when it sets no positive integer |
| Config.WrittenSettings | src/caald.c:104-124 | from text to daemon, for every document however it is written: none if its evaluation is refused, and otherwise the setting of the first line that starts at the root with a key whose first part reads as max_sessions up to its first NUL |
| Config.WrittenSetting | src/caald.c:104-124 | in an accepted configuration the line max_sessions, its key bare or quoted, is the one that counts if and only if no line before it has a key whose first part reads the same; such a part has a NUL in it, and then one of those lines counts |
| Config.ShadowedSetting | src/caald.c:104-124 | a text of two lines with different keys where it does not: the tree has max_sessions = 5 and the daemon takes 7 |
| Config.SettingHonoured | src/caald.c:119-138 | a positive setting takes effect as written if and only if it fits an int |
| Config.SettingWraps | src/caald.c:119-122 | a setting of 2^32 + 1 becomes 1 |
| Sockets.SteadyMoves | src/caald.c:61-91 | if no call fails, all n bytes are moved, however they are split, and the rest of the schedule serves what follows |
| Sockets.Pipe.WriteAll | src/caald.c:65-75 | delivers a prefix of the bytes, all of them exactly when it returns true |
| Sockets.Pipe.ReadAll | src/caald.c:81-91 | takes a prefix of what was sent, n bytes of it exactly when it returns true |
| Sockets.SentWhole | src/caald.c:242-271 | ignoring the results of several write_all calls delivers everything if and only if none of them was false |
| Sockets.InitialSegment | src/caald.c:65-75 | the bytes that arrive are those of an initial segment of the stream if and only if no write after the first that falls short moves a byte |
| Sockets.SentIsArrived | src/caald.c:65-75 | byte for byte, what is sent is what stood at the positions that arrive |
| Sockets.NoHolePrefix | src/caald.c:242-271 | under that condition what arrives is a prefix of the answer |
| Sockets.HoleInStream | src/caald.c:252-266 | after a failed write a later one may still deliver: the stream then lacks bytes in its middle |
| Client.LostHeader | src/caald.c:242-271 | a LIST answer whose header is lost and whose records get through: the client takes the first byte of the first user name for the flag, and goes on if there is one |
| Protocol.RequestRoundTrip | src/lib/caald_proto.h:29-34 | the 133 bytes of a request decode to its type, names and pid |
| Protocol.FieldWithoutNul | src/caald.c:194-195 | a character field without a NUL equals no stored name, and is stored as its first 63 bytes |
| Protocol.ResponseRoundTrip | src/lib/caald_proto.h:42-46 | the 69 bytes of a response decode to its flag, count and text |
| Protocol.InfoRoundTrip | src/lib/caald_proto.h:53-58 | the 140 bytes of a session record decode to its names, pid and start time, negative numbers included |
| Daemon.HandleList | src/caald.c:242-271 | sends a header with the number of active sessions and one record for each, in slot order, whatever the writes return |
| Daemon.Dispatch | src/caald.c:337-360 | every request type changes the table, signals and answers as specified, an unknown type included |
| Daemon.HandleClient | src/caald.c:329-364 | any 133 bytes that arrive whole are decoded, carried out and answered; less than that changes nothing |
| Daemon.NextNames | src/caald.c:194-195 | no request, whatever its bytes, brings in a name that does not fit its field |
| Client.Send | src/lib/caald_client.c:59-61 | the bytes of the request, or a prefix of them |
| Client.ReceiveSessions | src/lib/caald_client.c:114-138 | -1, or the first min(count, capacity) records that follow the header; never -1 when everything is there and no read fails |
| Client.ListingSent | src/caald.c:235-271 | what LIST sends is a listing: the count in the header is the number of records behind it, which are the active sessions in slot order |
| Client.Exchange | src/caald.c:329-364 | over any connection, whatever fails on it: if every byte of the request is written and read the daemon has carried out exactly the request built and written as much of its answer as the writes allow; otherwise nothing has changed and nothing is answered |
| Client.SteadyThrough | src/caald.c:61-91 | when no call fails the bytes are all written and all read, however they are split |
| Client.SessionRegister | src/lib/caald_client.c:67-83 | over any connection: true exactly when the request arrives, the daemon is not full and the response arrives; the bag gains the session, with names cut to 63 bytes, exactly when the first two hold, and nothing changes otherwise |
| Client.SessionUnregister | src/lib/caald_client.c:85-98 | the same: one session with the id, cut the same way, leaves exactly when the request arrives and there is one; true exactly when the response arrives as well |
| Client.SessionCount | src/lib/caald_client.c:100-112 | the size of the bag when the request and the response arrive, -1 otherwise; nothing changes |
| Client.SessionList | src/lib/caald_client.c:114-138 | nothing changes; -1 if the request does not arrive; -1 or the first min(count, capacity) active sessions in slot order, intact, if the answer is sent without a hole; and not -1 if no call fails |
| Client.SessionKill | src/lib/caald_client.c:140-153 | one session with the id leaves and its own process is signalled exactly when the request arrives and there is one, or nothing happens; true exactly when the response arrives as well |
| Client.SessionKillUser | src/lib/caald_client.c:155-168 | all sessions of the user leave and are signalled in slot order, and the others stay in theirs, exactly when the request arrives and there are any; true exactly when the response arrives as well |
| Caald.Serve | src/caald.c:433-450 | one turn of the main loop is one event of the run: a reload from the configuration text, or one client |
| Caald.Loop | src/caald.c:433-450 | whatever files and clients come, the table goes through a run from the empty table, and the processes signalled are those of the run |

## Left out

- `strtod`: a parameter from text to an optional double; doubles are told apart only as far as equality and NaN need. `AcceptedDocuments.AcceptedExactly` asks of it what section 7.22.1.3 of the C standard says of decimal text.
- `malloc` failure, except where a reload tries to grow the table; `int` overflow of sizes beyond 2 GB of text.
- Error-message text and the token line numbers in it; errors are kinds.
- Sharing: strings are values, so the model does not capture that a merged tree may point into the keys of its sources, nor freeing. That no string in the pool is overwritten is part of `Parsers.Parser.ParseNorm` and of the parser's methods.
- The tree under construction is a value that the parser reassigns; that pointers into it stay valid while it grows is replaced by paths that are proved to stay valid.
- What `toml_parse` does before it starts: the test that the text ends in a NUL, and `check_utf8`, which is off unless asked for (`Utf8.CheckUtf8` is proved on its own).
- Reading the configuration file into memory (`toml_parse_file`) and the API's options.
- Protocol.FieldWithoutNul: `snprintf` reads past such a field for its return value, which is ignored; that reading is not modelled, what it stores is.
- Sockets.Pipe.Read: a read that would wait for more bytes is a read of what is there; the five-second timeout is a failed read.
- Config.SettingHonoured: about one reload that finds memory; reloads without it change nothing.
- Sockets, accept, signals, syslog, the pid file and the daemon's start-up; the shell, `caalctl`, containers, disks and the PTY bridge.
- Limits across concurrent logins: the shell counts and registers in two connections.
