# pegadias request generation, modelled in Dafny

pegadias prepares data requests for infrasound stations of the CTBTO's
International Monitoring System. For each date and station it writes one
IMS 2.0 request document, `<STATION>_<Y>_<M>_<D>.req`. It also writes a
bash script, `run_nmsclient.sh`, with one `nms_client.sh <stem>.req -f
<stem>.mseed` line per request.

The program has two variants, and this project models both.

- **Current**: `generate_request_file` in `pegadias_func/io.py`.
  - It truncates the script and writes the header `#!/bin/bash \n\n`.
  - For each date it writes the eight-line request (ending `stop\n`) and appends the script line.
  - It fails at the first date that does not unpack into exactly three `/`-parts.
- **Legacy**: `pegadias_func/pegadias.py`.
  - `lista_dias_req` reads the lines of a CSV text. For each line after the header, it takes the first comma field, then the first whitespace word of that field. It splits the word into `day/month/year` and returns `year/zfill(month,2)/zfill(day,2)`. A line with a blank field, or with fewer than three parts, fails the read.
  - `req` is the same emitter with two differences: it only appends to the script, and its document ends in `stop` with no newline. It names the file after the first three `/`-parts of the date, and it writes the whole date on the `time` line.
  - The module-level run reads the days and writes the header once. It then calls `req` for the five stations `i01ar`, `i11cv`, `i42pt`, `i37no` and `i56us`, in that order.

Modules:

- `Strings` (strings.dfy): ASCII `upper`/`lower`, `split(sep)`, `split()` on whitespace, `zfill` and line termination, with their laws.
- `Files` (files.dfy): the working directory as a map from file name to contents. The class `Directory` has `Write` (mode `'w'`) and `Append` (mode `'a'`, which creates a missing file).
- `Template` (template.dfy): the parts the two variants share.
  - A variant-indexed file stem, document and script line.
  - A `Request` value: name, document and command.
  - `WriteAll`: a left fold that gives the directory after a sequence of requests has been emitted.
  - The first date that cannot be split (`GoodPrefix`, `OutcomeOf`).
- `Io` (io.dfy): `generate_request_file` as an imperative method over a `Directory`, with lemmas about its effect.
- `Pegadias` (pegadias.dfy): `lista_dias_req`, `req` and the module-level run, as imperative methods, with specification functions and lemmas.

Each method is proved equal to a specification function:

- `ListDays` to `Days`;
- `GenerateRequestFile` to `AfterCall` and `OutcomeOf`;
- `Req` to `AfterReq`;
- `Run` to `AfterStations`.

The lemmas state the program's promises about those functions.

How errors are modelled:

- A Python exception that stops the program part-way becomes a returned value: `Outcome.FailedAt(i)` for the emitters, `Result.Err(ParseError(line, reason))` for the reader.
- The directory keeps the writes made before the failure.

Two details of the code that the model keeps exactly:

- The script header is `#!/bin/bash`, then a space, then two newlines (`pegadias_func/io.py:77`, `pegadias_func/pegadias.py:56`).
- `generate_request_file` reopens the script in mode `'w'` on every call, so each call throws away the lines of the calls before it. `Io.CallTwice` states this.

## Model

| member | source | states |
|---|---|---|
| Files.Directory.Write | pegadias_func/io.py:88 | opening in mode 'w' and writing replaces the file's contents with the text, creating the file if needed, and leaves every other file as it was |
| Files.Directory.Append | pegadias_func/io.py:80 | opening in mode 'a' and writing adds the text after the file's old contents (empty if the file did not exist), and leaves every other file as it was |
| Strings.Upper | pegadias_func/io.py:83 | `upper()` keeps the length, leaves no lower-case letter and agrees with the input letter by letter up to case |
| Strings.Lower | pegadias_func/io.py:91 | `lower()` keeps the length, leaves no upper-case letter and agrees with the input letter by letter up to case |
| Strings.CaseKeepsNonLetter | pegadias_func/io.py:83 | changing case neither adds nor removes a character that is not a letter (such as '/', '_' or '\n') |
| Strings.CaseRoundTrip | pegadias_func/io.py:91-93 | upper-casing after lower-casing equals upper-casing, and the other way round |
| Strings.SplitOn | pegadias_func/io.py:82 | `split(sep)` gives at least one part; no part holds the separator; every character of a part comes from the input; joining the parts with the separator gives back the input |
| Strings.SplitJoin | pegadias_func/io.py:82 | splitting the join of separator-free parts gives back exactly those parts |
| Strings.SplitOnCons | pegadias_func/io.py:82 | a separator-free head followed by the separator splits into that head followed by the split of the rest |
| Strings.SplitOnNone | pegadias_func/io.py:82 | a text without the separator splits into itself alone |
| Strings.SplitThree | pegadias_func/io.py:82 | `x/y/z` with separator-free parts splits into exactly `[x, y, z]` |
| Strings.TerminatedAppend | pegadias_func/io.py:81-99 | the terminated text of two runs of lines is the concatenation of their texts |
| Strings.TerminatedIsJoin | pegadias_func/io.py:89-96 | newline-terminated lines followed by a last piece are the join of lines and piece with '\n' |
| Strings.LinesOfTerminated | pegadias_func/io.py:89-96 | splitting newline-terminated lines (without inner newlines) on '\n' gives those lines and one final empty part |
| Strings.WordLength | pegadias_func/pegadias.py:14 | the first word runs up to (not including) the first whitespace character or the end |
| Strings.Tokens | pegadias_func/pegadias.py:14 | `split()` gives non-empty words without whitespace, and gives no word exactly when the text is all whitespace; `TokensCons` fixes where the words begin and end |
| Strings.TokensCons | pegadias_func/pegadias.py:14 | `split()` skips leading whitespace and takes as first word the whole run of non-space characters up to the next whitespace or the end, the other words being those of the rest; with the blank case of `Tokens` this fixes `split()` for every input |
| Strings.TokensKeepNonSpace | pegadias_func/pegadias.py:14 | the words of `split()`, concatenated, are the input with its whitespace removed: no character is lost, reordered or invented |
| Strings.NonSpaceAppend | pegadias_func/pegadias.py:14 | removing whitespace distributes over concatenation |
| Strings.NonSpaceOfWord | pegadias_func/pegadias.py:14 | a text without whitespace is unchanged by removing whitespace |
| Strings.Zeros | pegadias_func/pegadias.py:25 | a run of n '0' characters |
| Strings.ZFill | pegadias_func/pegadias.py:25 | `zfill(width)` has length max(len, width); a text at least `width` long is unchanged; a shorter one is `width - len` '0' characters followed by the text, or, when the text starts with a sign, the sign, then the '0' characters, then the rest of the text |
| Strings.LeadingZeros | pegadias_func/pegadias.py:25 | leading zeros do not change the value of a digit string |
| Strings.ZFillKeepsValue | pegadias_func/pegadias.py:25 | zero-filling a digit string keeps it a digit string with the same value |
| Strings.ZFillIdempotent | pegadias_func/pegadias.py:25 | zero-filling twice to the same width is zero-filling once |
| Template.Header | pegadias_func/io.py:76-77 | the script's first two lines, `#!/bin/bash` with a trailing space and then an empty line, as io.py:77 and pegadias.py:56 write them |
| Template.WellFormed | pegadias_func/io.py:82 | defines when a date can be emitted: exactly three '/'-parts for io.py, whose unpacking fails otherwise, and at least three for pegadias.py, which indexes parts 0 to 2 (pegadias.py:35-37) |
| Template.Stem | pegadias_func/io.py:83 | defines the file stem `UPPER(station)_Y_M_D` from the first three '/'-parts of the date; `RequestNameOfDate`, `LegacyExtraParts` and `RequestNameInjective` state its properties |
| Template.RequestName | pegadias_func/io.py:84 | defines the request file name, the stem followed by `.req`; `RequestNameIsNotScript` and `RequestNameInjective` state its properties |
| Template.OutputName | pegadias_func/io.py:85 | defines the output file name, the stem followed by `.mseed`; `RequestNameOfDate` states its form |
| Template.Invocation | pegadias_func/io.py:99 | defines the script line `nms_client.sh <stem>.req -f <stem>.mseed` without its line end; `InvocationHasNoNewline` and `EmittersAgree` state its properties |
| Template.TemplateLines | pegadias_func/io.py:89-96 | defines the eight lines of a request document; `TemplateLinesHaveNoNewline`, `DocumentIdentifiesRequest` and `Io.TestLines` state their properties |
| Template.Document | pegadias_func/io.py:88-96 | defines a request document: the eight lines, each ended by '\n' except that the legacy variant's last line `stop` has none; `CurrentDocumentIsTerminated`, `CurrentDocumentEndsLine` and `DocumentLines` state its form |
| Template.RequestFor | pegadias_func/io.py:82-99 | defines the request for one date: its file name, its document and its script line |
| Template.Requests | pegadias_func/io.py:81-99 | defines the requests of a date list, one per date, in order |
| Template.Commands | pegadias_func/io.py:99 | defines the script lines of a run of requests, in order |
| Template.WriteOne | pegadias_func/io.py:88-99 | defines the effect of one loop iteration on the directory; `WriteOneInTwoSteps` splits it into the document write and the script append |
| Template.WriteAll | pegadias_func/io.py:81-99 | defines the effect of the loop as a left fold of `WriteOne` over the requests; `WriteAllScript`, `WriteAllKeepsOthers`, `WriteAllLastWrite`, `WriteAllAppend` and `WriteAllRepeat` state its properties |
| Template.Emit | pegadias_func/io.py:80-99 | defines the emission of a date list as `WriteAll` over its requests |
| Template.RequestNameOfDate | pegadias_func/io.py:82-85 | for a date `y/m/d` with slash-free parts, the request file is `UPPER(station)_y_m_d.req` and the output file `UPPER(station)_y_m_d.mseed` |
| Template.LegacyExtraParts | pegadias_func/pegadias.py:35-43 | a legacy date with more than three parts names the same file as its first three parts, while its document differs (the whole date is on the time line); the current emitter rejects such a date |
| Template.ExtraPartsSplit | pegadias_func/pegadias.py:35 | `y/m/d/tail` splits into `y`, `m`, `d` followed by the parts of `tail` |
| Template.RequestNameIsNotScript | pegadias_func/io.py:84 | no request file name is `run_nmsclient.sh`, so writing a request never touches the script |
| Template.RequestNameInjective | pegadias_func/io.py:83-84 | for dates without '_', different dates give different request files |
| Template.CurrentDocumentEndsLine | pegadias_func/pegadias.py:47 | the current document is the legacy document followed by one '\n' |
| Template.TemplateLinesHaveNoNewline | pegadias_func/io.py:89-96 | for a station and date without newlines, no template line holds a newline |
| Template.CurrentDocumentIsTerminated | pegadias_func/io.py:89-96 | the current document is its eight template lines, each followed by '\n' |
| Template.DocumentLines | pegadias_func/io.py:88-96 | splitting a document on '\n' gives back the eight template lines, plus a final empty part for the current variant only |
| Template.DocumentIdentifiesRequest | pegadias_func/io.py:91-93 | equal documents come from the same date and from stations with the same upper-case and lower-case forms |
| Template.TimeLineNamesDate | pegadias_func/io.py:92 | the time line determines the date it was written for |
| Template.RequestsAreNotScript | pegadias_func/io.py:84-88 | none of the requests of a call is named like the script |
| Template.WriteOneInTwoSteps | pegadias_func/io.py:88-99 | emitting one request writes its document, then adds its command line to the script |
| Template.GoodPrefix | pegadias_func/io.py:81-82 | the dates handled before the first date that cannot be split: all of them split, and the next one does not |
| Template.OutcomeOf | pegadias_func/io.py:82 | a call completes exactly when every date splits; otherwise it fails at a date that does not split, all earlier ones having split |
| Template.WriteAllScript | pegadias_func/io.py:80-99 | after emitting requests, the script is its old contents followed by one command line per request, in order, and it exists if it existed or a request was emitted |
| Template.WriteAllKeepsOthers | pegadias_func/io.py:88-99 | a file that is neither the script nor a request's file is neither created, removed nor changed |
| Template.WriteAllLastWrite | pegadias_func/io.py:88 | a request's file holds that request's document unless a later request writes the same file |
| Template.WriteAllAppend | pegadias_func/io.py:81 | emitting two runs of requests is emitting the first run, then the second |
| Template.WriteAllRepeat | pegadias_func/io.py:84-88 | emitting a request twice in a row leaves every file other than the script as emitting it once |
| Template.InvocationHasNoNewline | pegadias_func/io.py:99 | for a station and date without newlines, a script line holds no newline of its own |
| Template.ScriptLines | pegadias_func/io.py:76-99 | a script made of the header and the command lines splits on '\n' into `#!/bin/bash `, an empty line, one line per date in order, and a final empty part |
| Io.AfterCall | pegadias_func/io.py:76-99 | defines the directory after a call: the script truncated to the header, then the dates before the first bad one emitted in order; the `Call` lemmas state its properties |
| Io.GenerateRequestFile | pegadias_func/io.py:40-99 | the call completes or fails exactly as `OutcomeOf` says; the directory after it is the script truncated to the header, then each date before the first bad one emitted in order (`AfterCall`) |
| Io.CallScript | pegadias_func/io.py:76-99 | after a call, the script is the header followed by one command line per date handled, in input order |
| Io.CallTwice | pegadias_func/io.py:76-77 | after two calls, the script holds only the second call's lines |
| Io.CallWithoutDates | pegadias_func/io.py:76-81 | with no dates, the script is just the header and no other file is created or changed |
| Io.CallStopsAtBadDate | pegadias_func/io.py:82 | a call failing at date k has the same effect as a call on the first k dates, which completes: earlier writes remain and nothing after them happens |
| Io.CallWritesDocument | pegadias_func/io.py:88-96 | every date handled whose file no later date rewrites leaves its request file holding its document |
| Io.CallWritesEveryDocument | pegadias_func/io.py:81-96 | for distinct dates that all split and contain no '_', every date's request file holds its document |
| Io.CallChangesNothingElse | pegadias_func/io.py:88-99 | a file other than the script and the request files of the dates handled is neither created, removed nor changed |
| Io.CallRepeatedDate | pegadias_func/io.py:84-88 | repeating a date at the end overwrites its file with the same document, so every file other than the script is as with the date once |
| Io.DocumentForTest | pegadias_func/tests.py:22-47 | station `test` and date `2023/01/01` give the file `TEST_2023_01_01.req` with exactly the expected eight-line document |
| Io.ScriptForOneDate | pegadias_func/io.py:61-67 | station `i01ar` and date `2024/04/15` give the script `#!/bin/bash \n\n` followed by the line `nms_client.sh I01AR_2024_04_15.req -f I01AR_2024_04_15.mseed` |
| Pegadias.DateField | pegadias_func/pegadias.py:12-13 | defines the first comma field of a line; `DateFieldBeforeComma` states what it is |
| Pegadias.DateParts | pegadias_func/pegadias.py:14-15 | defines the '/'-parts of the first word of the date field |
| Pegadias.ReformatLine | pegadias_func/pegadias.py:12-25 | defines the reading of one data line, with its two failures; `ReformatLineSpec` and `ReformatDateLine` state its properties |
| Pegadias.ReformatLineSpec | pegadias_func/pegadias.py:12-25 | a line fails with a blank field exactly when its first comma field is all whitespace; it gives a date exactly when that field's first word has at least three '/'-parts; a short date records how many parts it had; the date given splits into year, zero-filled month and zero-filled day |
| Pegadias.ReformattedDateIsWellFormed | pegadias_func/pegadias.py:25 | every date the reader gives splits into exactly three parts, so both emitters accept it |
| Pegadias.DateFieldBeforeComma | pegadias_func/pegadias.py:12-13 | the first comma field of a comma-free text followed by `,...` or by nothing is that text |
| Pegadias.PartsOfDate | pegadias_func/pegadias.py:15-18 | `d/m/y` followed by nothing or by more '/'-parts gives day d, month m and year y |
| Pegadias.ReformatDateLine | pegadias_func/pegadias.py:12-25 | a line whose first field is optional whitespace, the word `d/m/y[/...]`, then nothing or whitespace and more words, reads as `y/zfill(m,2)/zfill(d,2)`; parts after the third, words after the first and fields after the first are ignored |
| Pegadias.CanonicalDate | pegadias_func/pegadias.py:25 | for a four-digit year and a one- or two-digit day and month, the output is `YYYY/MM/DD`, with the year unchanged and the month and day keeping their values |
| Pegadias.DataLines | pegadias_func/pegadias.py:11 | the lines read are all but the header line: one fewer than the input, none for an empty input |
| Pegadias.LineResults | pegadias_func/pegadias.py:11-27 | one reading per line after the header, in order |
| Pegadias.Collect | pegadias_func/pegadias.py:10-28 | defines the result of reading the lines in turn: every date, or the first line that fails; `CollectOk`, `CollectError` and `CollectKeepsError` state its properties |
| Pegadias.Days | pegadias_func/pegadias.py:7-28 | defines `lista_dias_req` over the lines of the file; `DaysOk`, `DaysValues` and `DaysError` state its properties |
| Pegadias.CollectKeepsError | pegadias_func/pegadias.py:11-18 | once a line fails, the lines after it do not change the result |
| Pegadias.CollectOk | pegadias_func/pegadias.py:11-27 | the read succeeds exactly when every line can be read, and then gives one date per line, in line order |
| Pegadias.CollectError | pegadias_func/pegadias.py:11-18 | a failed read names a line within range, with that line's own error, every earlier line having been read |
| Pegadias.DaysOk | pegadias_func/pegadias.py:11-28 | `lista_dias_req` returns exactly when every line after the header can be read |
| Pegadias.DaysValues | pegadias_func/pegadias.py:11-28 | a successful read gives one date per line after the header (the header line is skipped), each that line's reformatted date, in line order |
| Pegadias.DaysError | pegadias_func/pegadias.py:11-18 | a failed read names a line other than the header, with its own error, every line before it having been read |
| Pegadias.DaysWellFormed | pegadias_func/pegadias.py:25 | every date read splits into exactly three parts, so the emitters that follow never fail on it |
| Pegadias.LineResultWellFormed | pegadias_func/pegadias.py:25 | a line that reads gives a date both emitters accept |
| Pegadias.ListDays | pegadias_func/pegadias.py:7-28 | the loop over the lines after the header returns `Days`: the dates in order, or the first line that fails and why |
| Pegadias.AfterReq | pegadias_func/pegadias.py:32-49 | defines the directory after `req`: the script created if missing, then the dates before the first bad one emitted in order, never truncating; `ReqScript`, `ReqWritesDocument` and `ReqChangesNothingElse` state its properties |
| Pegadias.Req | pegadias_func/pegadias.py:31-49 | `req` completes or fails exactly as `OutcomeOf` says; the directory after it is the old one (script created if missing), then each date before the first bad one emitted in order, with the script only ever added to |
| Pegadias.ReqScript | pegadias_func/pegadias.py:32-49 | `req` never truncates: the script becomes its old contents followed by one command line per date handled, in input order |
| Pegadias.ReqWritesDocument | pegadias_func/pegadias.py:37-47 | every date handled whose file no later date rewrites leaves its request file holding the legacy document |
| Pegadias.ReqChangesNothingElse | pegadias_func/pegadias.py:37-49 | a file other than the script and the request files of the dates handled is neither created, removed nor changed |
| Pegadias.EmittersAgree | pegadias_func/pegadias.py:35-49 | for a date of three parts, both variants name the same file and write the same script line, and the current document is the legacy one plus a final '\n' |
| Pegadias.Stations | pegadias_func/pegadias.py:58-62 | the five stations `i01ar`, `i11cv`, `i42pt`, `i37no`, `i56us`, in the order the run calls `req` for them |
| Pegadias.AfterStations | pegadias_func/pegadias.py:58-62 | defines the directory after `req` has run for each station in turn; `StationsWriteAll` and `RunScript` state its properties |
| Pegadias.RunRequests | pegadias_func/pegadias.py:58-62 | defines the requests of the run, station after station and date after date within a station; `RunRequestsLength` and `RunRequestsAt` state its shape |
| Pegadias.RunRequestsLength | pegadias_func/pegadias.py:58-62 | the run emits one request per station and day |
| Pegadias.RunRequestsAt | pegadias_func/pegadias.py:58-62 | request number `j*days + k` of the run is station j's request for day k: stations in call order, days within each station |
| Pegadias.ReqAllWellFormed | pegadias_func/pegadias.py:31-49 | on days that all split and with the script present, `req` emits every day's request, in order |
| Pegadias.StationsWriteAll | pegadias_func/pegadias.py:58-62 | calling `req` for each station in turn emits the run's requests in that station-major order |
| Pegadias.Run | pegadias_func/pegadias.py:52-62 | the run returns what `lista_dias_req` gives; if the read fails, no file changes; otherwise the script is truncated to the header and `req` runs for the five stations in order |
| Pegadias.RunScript | pegadias_func/pegadias.py:55-62 | after a successful run, the script is the header followed by the command lines of all five stations' requests, station-major, with 5 lines per day |
| Pegadias.ExampleLine | pegadias_func/pegadias.py:12-25 | the line `1/1/2023,...` reads as `2023/01/01` |
| Pegadias.ExampleLineWithTime | pegadias_func/pegadias.py:12-25 | the line ` 1/1/2023 12:00,...`, with whitespace around the date and a time after it, reads as `2023/01/01` |
| Pegadias.DaysForExample | pegadias_func/pegadias.py:7-28 | a file of a header and the line `1/1/2023,...` reads as `["2023/01/01"]` |

## Left out

- `get_days` (`pegadias_func/io.py:7-38`) and its test `test_get_days` are not part of this model. They rely entirely on the date parsing of an outside table library, whose rules are not visible.
- File opening, reading and closing:
  - The directory is a map from name to contents.
  - The lines of `viena.csv` are a parameter of `ListDays` and `Run`. Each line is one line as `readlines()` gives it, terminator included.
  - Newline translation and output buffering are not modelled.
  - Failures of the filesystem (permissions, a full disk) are not modelled.
- `print(lista_req)` (`pegadias_func/pegadias.py:53`) has no effect on the files, so it is not modelled.
- Running `nms_client.sh` and the script itself is not modelled: the program only writes their names into text.
- The eight `write` calls of a request document are modelled as one write of their concatenation, which gives the same final contents.
- Strings.Upper: only ASCII letters change case, so the Unicode case mapping of `str.upper` for other letters is not modelled. The same holds for Strings.Lower and `str.lower`.
- Strings.Tokens: whitespace is the ASCII whitespace characters and `\x1c`-`\x1f`, which `str.split()` also treats as whitespace. Unicode spaces beyond these are not modelled.
- The commented-out two-digit-year century rule (`pegadias_func/pegadias.py:20-23`) is dead code, so it is not modelled.
- Io.CallWritesEveryDocument: requires distinct dates without '_', so that no two dates name the same file. Dates that do name the same file are covered by Io.CallWritesDocument and Io.CallRepeatedDate instead.
- File names are taken as distinct files exactly when they are distinct strings: there is no path normalisation (`./X` and `X`), no subdirectory for a station code holding '/', and no case folding of a case-insensitive filesystem. Io.CallChangesNothingElse, Pegadias.ReqChangesNothingElse and Template.WriteAllKeepsOthers rely on this.
- The text stray inside the docstring of `generate_request_file` is not code, so it is not modelled.
