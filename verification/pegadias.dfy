/** pegadias.py: read the dates of a comma-separated table, one per line
    after the header line, as `D/M/Y`, and turn each into `Y/MM/DD`
    (`lista_dias_req`); emit the requests of a date list for one station,
    only ever appending to the batch script (`req`); and the module-level
    run, which writes the script header once and emits the dates for five
    stations in turn. */
module Pegadias {
  import opened Strings
  import opened Files
  import opened Template

  datatype Result<T, E> = Ok(value: T) | Err(error: E)

  /** Why a data line cannot be read. In the program both are an IndexError:
      the date field has no word at all, or its first word has fewer than
      three '/'-parts (`found` of them). */
  datatype LineError = BlankField | MissingPart(found: nat)

  /** The error of the whole read: the index of the first line (counting
      the header line as 0) that cannot be read, and why. */
  datatype ParseError = ParseError(line: nat, reason: LineError)

  // ---------------------------------------------------------------------
  // One line
  // ---------------------------------------------------------------------

  /** The first comma-separated field of a line. */
  function DateField(line: string): string {
    SplitOn(line, ',')[0]
  }

  /** The '/'-parts of the first word of the date field; only meaningful
      when the field is not blank. */
  function DateParts(line: string): seq<string>
    requires Tokens(DateField(line)) != []
  {
    SplitOn(Tokens(DateField(line))[0], '/')
  }

  /** One data line, `D/M/Y` in the first word of its first field, as
      `Y/MM/DD`: the year unchanged, month and day zero-filled to two. */
  function ReformatLine(line: string): Result<string, LineError> {
    var data := Tokens(DateField(line));
    if data == [] then Err(BlankField)
    else
      var p := SplitOn(data[0], '/');
      if |p| < 3 then Err(MissingPart(|p|))
      else Ok(p[2] + "/" + ZFill(p[1], 2) + "/" + ZFill(p[0], 2))
  }

  /** A line fails as blank exactly when its date field is all white space;
      it fails with a missing part exactly when the first word of the field
      has fewer than three '/'-parts; otherwise the result is the third,
      second and first part, the last two zero-filled, separated by '/'. */
  lemma ReformatLineSpec(line: string)
    ensures var r := ReformatLine(line);
      && (r == Err(BlankField) <==> forall i :: 0 <= i < |DateField(line)| ==> IsSpace(DateField(line)[i]))
      && (r.Ok? <==> Tokens(DateField(line)) != [] && |DateParts(line)| >= 3)
      && (r.Err? && r.error.MissingPart? ==>
            Tokens(DateField(line)) != [] && r.error.found == |DateParts(line)| < 3)
      && (r.Ok? ==> var p := DateParts(line);
            SplitOn(r.value, '/') == [p[2], ZFill(p[1], 2), ZFill(p[0], 2)])
  {
    if Tokens(DateField(line)) != [] {
      var p := DateParts(line);
      if |p| >= 3 {
        NoSlashInZFill(p[0]);
        NoSlashInZFill(p[1]);
        SplitThree(p[2], ZFill(p[1], 2), ZFill(p[0], 2), '/');
      }
    }
  }

  lemma NoSlashInZFill(s: string)
    requires '/' !in s
    ensures '/' !in ZFill(s, 2)
  {
  }

  /** A reformatted date has exactly three '/'-parts, so both emitters can
      name a file after it. */
  lemma ReformattedDateIsWellFormed(line: string)
    requires ReformatLine(line).Ok?
    ensures WellFormed(Legacy, ReformatLine(line).value)
    ensures WellFormed(Current, ReformatLine(line).value)
  {
    ReformatLineSpec(line);
  }

  /** The date field of a line is everything before its first comma. */
  lemma DateFieldBeforeComma(w: string, rest: string)
    requires ',' !in w
    requires rest == [] || rest[0] == ','
    ensures DateField(w + rest) == w
  {
    if rest == [] {
      assert w + rest == w;
      SplitOnNone(w, ',');
    } else {
      assert w + rest == w + [','] + rest[1..];
      SplitOnCons(w, rest[1..], ',');
    }
  }

  /** The first three '/'-parts of `D/M/Y...` are `D`, `M` and `Y`. */
  lemma PartsOfDate(d: string, m: string, y: string, more: string)
    requires '/' !in d && '/' !in m && '/' !in y
    requires more == [] || more[0] == '/'
    ensures var p := SplitOn(d + "/" + m + "/" + y + more, '/');
      |p| >= 3 && p[0] == d && p[1] == m && p[2] == y
  {
    assert d + "/" + m + "/" + y + more == d + ['/'] + (m + ['/'] + (y + more));
    SplitOnCons(d, m + ['/'] + (y + more), '/');
    SplitOnCons(m, y + more, '/');
    if more == [] {
      assert y + more == y;
      SplitOnNone(y, '/');
    } else {
      assert y + more == y + ['/'] + more[1..];
      SplitOnCons(y, more[1..], '/');
    }
  }

  /** For a line whose date field, up to the first comma, holds the word
      `D/M/Y` (possibly followed by more '/'-parts) after optional white
      space, and then nothing or white space and further words, the result
      is `Y/zfill2(M)/zfill2(D)`: parts beyond the third, words after the
      first and fields after the first are ignored, and the year is kept as
      it is. */
  lemma ReformatDateLine(lead: string, d: string, m: string, y: string, more: string, after: string, rest: string)
    requires forall i :: 0 <= i < |lead| ==> IsSpace(lead[i])
    requires '/' !in d && '/' !in m && '/' !in y
    requires more == [] || more[0] == '/'
    requires forall i :: 0 <= i < |d + "/" + m + "/" + y + more| ==> !IsSpace((d + "/" + m + "/" + y + more)[i])
    requires after == [] || IsSpace(after[0])
    requires ',' !in lead + (d + "/" + m + "/" + y + more) + after
    requires rest == [] || rest[0] == ','
    ensures ReformatLine(lead + (d + "/" + m + "/" + y + more) + after + rest)
         == Ok(y + "/" + ZFill(m, 2) + "/" + ZFill(d, 2))
  {
    var w := d + "/" + m + "/" + y + more;
    DateFieldBeforeComma(lead + w + after, rest);
    TokensCons(lead, w, after);
    PartsOfDate(d, m, y, more);
  }

  /** The ten characters `YYYY/MM/DD`, each field made of digits. */
  predicate IsCanonicalDate(s: string) {
    |s| == 10 && s[4] == '/' && s[7] == '/'
    && IsDigits(s[..4]) && IsDigits(s[5..7]) && IsDigits(s[8..])
  }

  lemma DateSlices(y: string, mm: string, dd: string)
    requires |y| == 4 && |mm| == 2 && |dd| == 2
    ensures var s := y + "/" + mm + "/" + dd;
      |s| == 10 && s[4] == '/' && s[7] == '/' && s[..4] == y && s[5..7] == mm && s[8..] == dd
  {
    var s := y + "/" + mm + "/" + dd;
    assert s == y + ("/" + (mm + ("/" + dd)));
  }

  /** A date written with one- or two-digit day and month and a four-digit
      year comes out as the ten characters `YYYY/MM/DD`, with the same
      day, month and year values. */
  lemma CanonicalDate(d: string, m: string, y: string)
    requires IsDigits(d) && IsDigits(m) && IsDigits(y)
    requires 1 <= |d| <= 2 && 1 <= |m| <= 2 && |y| == 4
    ensures var s := y + "/" + ZFill(m, 2) + "/" + ZFill(d, 2);
      IsCanonicalDate(s)
      && Value(s[..4]) == Value(y) && Value(s[5..7]) == Value(m) && Value(s[8..]) == Value(d)
  {
    var mm, dd := ZFill(m, 2), ZFill(d, 2);
    ZFillKeepsValue(m, 2);
    ZFillKeepsValue(d, 2);
    assert |mm| == 2 && |dd| == 2;
    DateSlices(y, mm, dd);
  }

  // ---------------------------------------------------------------------
  // `lista_dias_req`
  // ---------------------------------------------------------------------

  /** The lines after the header line. */
  function DataLines(lines: seq<string>): (d: seq<string>)
    ensures |d| == if lines == [] then 0 else |lines| - 1
  {
    if lines == [] then [] else lines[1..]
  }

  /** The result of reading each line after the header line, in order. */
  function LineResults(lines: seq<string>): (rs: seq<Result<string, LineError>>)
    ensures |rs| == |DataLines(lines)|
  {
    var d := DataLines(lines);
    seq(|d|, k requires 0 <= k < |d| => ReformatLine(d[k]))
  }

  /** The read's result from the line results, in order: all the dates, or
      the error of the first line that cannot be read (`rs[k]` is line
      `k + 1`, the header line being line 0). */
  function Collect(rs: seq<Result<string, LineError>>): Result<seq<string>, ParseError>
    decreases |rs|
  {
    if rs == [] then Ok([])
    else
      match Collect(rs[..|rs| - 1])
      case Err(e) => Err(e)
      case Ok(days) =>
        match rs[|rs| - 1]
        case Err(reason) => Err(ParseError(|rs|, reason))
        case Ok(day) => Ok(days + [day])
  }

  /** `lista_dias_req` as a function of the lines of the file. */
  function Days(lines: seq<string>): Result<seq<string>, ParseError> {
    Collect(LineResults(lines))
  }

  lemma CollectStep(rs: seq<Result<string, LineError>>, i: nat)
    requires i < |rs|
    ensures Collect(rs[..i + 1])
         == match Collect(rs[..i])
            case Err(e) => Err(e)
            case Ok(days) =>
              match rs[i]
              case Err(reason) => Err(ParseError(i + 1, reason))
              case Ok(day) => Ok(days + [day])
  {
    assert rs[..i + 1][..i] == rs[..i];
  }

  /** Once a line cannot be read, the lines after it do not matter. */
  lemma {:induction false} CollectKeepsError(rs: seq<Result<string, LineError>>, i: nat)
    requires i <= |rs|
    requires Collect(rs[..i]).Err?
    ensures Collect(rs) == Collect(rs[..i])
    decreases |rs| - i
  {
    if i == |rs| {
      assert rs[..i] == rs;
    } else {
      CollectStep(rs, i);
      CollectKeepsError(rs, i + 1);
    }
  }

  /** Collecting succeeds exactly when every line can be read, and then
      gives every line's date, in order. */
  lemma {:induction false} CollectOk(rs: seq<Result<string, LineError>>)
    ensures Collect(rs).Ok? <==> forall k :: 0 <= k < |rs| ==> rs[k].Ok?
    ensures Collect(rs).Ok? ==>
              |Collect(rs).value| == |rs|
              && forall k :: 0 <= k < |rs| ==> Collect(rs).value[k] == rs[k].value
    decreases |rs|
  {
    if rs != [] {
      var front := rs[..|rs| - 1];
      CollectOk(front);
      assert forall k :: 0 <= k < |front| ==> front[k] == rs[k];
    }
  }

  /** A failed collection names the first line that cannot be read, with
      that line's own error. */
  lemma {:induction false} CollectError(rs: seq<Result<string, LineError>>)
    requires Collect(rs).Err?
    ensures var e := Collect(rs).error;
      1 <= e.line <= |rs|
      && rs[e.line - 1] == Err(e.reason)
      && forall k :: 0 <= k < e.line - 1 ==> rs[k].Ok?
    decreases |rs|
  {
    var front := rs[..|rs| - 1];
    assert forall k :: 0 <= k < |front| ==> front[k] == rs[k];
    if Collect(front).Err? {
      CollectError(front);
    } else {
      CollectOk(front);
    }
  }

  lemma LineResultAt(lines: seq<string>, j: nat)
    requires j < |DataLines(lines)|
    ensures LineResults(lines)[j] == ReformatLine(DataLines(lines)[j])
  {
  }

  /** The read succeeds exactly when every line after the header can be
      read. */
  lemma DaysOk(lines: seq<string>)
    ensures Days(lines).Ok? <==> forall k :: 0 <= k < |DataLines(lines)| ==> ReformatLine(DataLines(lines)[k]).Ok?
  {
    var rs := LineResults(lines);
    CollectOk(rs);
    forall k | 0 <= k < |rs| ensures rs[k] == ReformatLine(DataLines(lines)[k]) {
      LineResultAt(lines, k);
    }
  }

  /** A successful read gives one date per line after the header, each the
      reformatted line, in line order. */
  lemma DaysValues(lines: seq<string>)
    requires Days(lines).Ok?
    ensures |Days(lines).value| == |DataLines(lines)|
    ensures forall k :: 0 <= k < |DataLines(lines)| ==>
              ReformatLine(DataLines(lines)[k]) == Ok(Days(lines).value[k])
  {
    var rs := LineResults(lines);
    CollectOk(rs);
    forall k | 0 <= k < |rs| ensures rs[k] == ReformatLine(DataLines(lines)[k]) {
      LineResultAt(lines, k);
    }
  }

  /** A failed read names the first line that cannot be read, never the
      header line, with that line's own error. */
  lemma DaysError(lines: seq<string>)
    requires Days(lines).Err?
    ensures var e := Days(lines).error;
      1 <= e.line < |lines|
      && ReformatLine(lines[e.line]) == Err(e.reason)
      && forall k :: 0 <= k < e.line - 1 ==> ReformatLine(DataLines(lines)[k]).Ok?
  {
    var rs := LineResults(lines);
    CollectError(rs);
    var e := Days(lines).error;
    LineResultAt(lines, e.line - 1);
    forall k | 0 <= k < e.line - 1 ensures rs[k] == ReformatLine(DataLines(lines)[k]) {
      LineResultAt(lines, k);
    }
  }

  /** Every date the read gives can be emitted by either emitter. */
  lemma DaysWellFormed(lines: seq<string>)
    requires Days(lines).Ok?
    ensures AllWellFormed(Legacy, Days(lines).value)
    ensures AllWellFormed(Current, Days(lines).value)
  {
    var rs := LineResults(lines);
    CollectOk(rs);
    var days := Collect(rs).value;
    forall k | 0 <= k < |days|
      ensures WellFormed(Legacy, days[k]) && WellFormed(Current, days[k])
    {
      LineResultWellFormed(lines, k);
    }
  }

  lemma LineResultWellFormed(lines: seq<string>, j: nat)
    requires j < |DataLines(lines)|
    requires LineResults(lines)[j].Ok?
    ensures WellFormed(Legacy, LineResults(lines)[j].value)
    ensures WellFormed(Current, LineResults(lines)[j].value)
  {
    LineResultAt(lines, j);
    ReformattedDateIsWellFormed(DataLines(lines)[j]);
  }

  /** `lista_dias_req` over the lines of the file (the header line first). */
  method ListDays(lines: seq<string>) returns (r: Result<seq<string>, ParseError>)
    ensures r == Days(lines)
  {
    var days: seq<string> := [];
    // `range(1, len(lines))` is empty
    if |lines| <= 1 {
      return Ok(days);
    }
    ghost var rs := LineResults(lines);
    var i := 1;
    while i < |lines|
      invariant 1 <= i <= |lines|
      invariant Collect(rs[..i - 1]) == Ok(days)
    {
      CollectStep(rs, i - 1);
      LineResultAt(lines, i - 1);
      assert DataLines(lines)[i - 1] == lines[i];
      var fields := SplitOn(lines[i], ',');
      var data := Tokens(fields[0]);
      if |data| == 0 {
        assert rs[i - 1] == Err(BlankField);
        CollectKeepsError(rs, i);
        return Err(ParseError(i, BlankField));
      }
      var parts := SplitOn(data[0], '/');
      if |parts| < 3 {
        assert rs[i - 1] == Err(MissingPart(|parts|));
        CollectKeepsError(rs, i);
        return Err(ParseError(i, MissingPart(|parts|)));
      }
      var day, month, year := parts[0], parts[1], parts[2];
      var out := year + "/" + ZFill(month, 2) + "/" + ZFill(day, 2);
      assert rs[i - 1] == Ok(out);
      days := days + [out];
      i := i + 1;
    }
    assert rs[..i - 1] == rs;
    return Ok(days);
  }

  // ---------------------------------------------------------------------
  // `req`
  // ---------------------------------------------------------------------

  /** The directory after `req(dates, station)`, whether it completes or
      stops at a date with fewer than three parts. Opening the script in
      mode 'a' creates it, empty, when it is missing. */
  function AfterReq(files: map<string, string>, dates: seq<string>, station: string): map<string, string> {
    Emit(Legacy, files[ScriptName := ContentsOf(files, ScriptName)], station, dates[..GoodPrefix(Legacy, dates)])
  }

  method Req(dir: Directory, dates: seq<string>, station: string) returns (r: Outcome)
    modifies dir
    ensures r == OutcomeOf(Legacy, dates)
    ensures dir.files == AfterReq(old(dir.files), dates, station)
  {
    dir.Append(ScriptName, "");
    assert ContentsOf(old(dir.files), ScriptName) + "" == ContentsOf(old(dir.files), ScriptName);
    ghost var start := dir.files;
    ghost var n := GoodPrefix(Legacy, dates);
    ghost var todo := Requests(Legacy, station, dates[..n]);
    var i := 0;
    while i < |dates|
      invariant 0 <= i <= n
      invariant WriteAll(dir.files, todo[i..]) == WriteAll(start, todo)
    {
      var dataReq := SplitOn(dates[i], '/');
      if |dataReq| < 3 {
        return FailedAt(i);
      }
      var stem := Upper(station) + "_" + dataReq[0] + "_" + dataReq[1] + "_" + dataReq[2];
      var fil := stem + ".req";
      var mseed := stem + ".mseed";
      var command := "nms_client.sh " + fil + " -f " + mseed;
      assert dates[..n][i] == dates[i];
      RequestOfParts(Legacy, station, dates[i]);
      assert todo[i] == Request(fil, Document(Legacy, station, dates[i]), command);
      WriteAllStep(dir.files, todo, i);
      RequestNameIsNotScript(Legacy, station, dates[i]);
      WriteOneInTwoSteps(dir.files, todo[i]);
      dir.Write(fil, Document(Legacy, station, dates[i]));
      dir.Append(ScriptName, command + "\n");
      i := i + 1;
    }
    assert todo[i..] == [];
    return Completed;
  }

  /** `req` never truncates: the script is what it was, followed by one
      command line per date handled, in date order. */
  lemma ReqScript(files: map<string, string>, dates: seq<string>, station: string)
    ensures var n := GoodPrefix(Legacy, dates);
      && ScriptName in AfterReq(files, dates, station)
      && AfterReq(files, dates, station)[ScriptName]
         == ContentsOf(files, ScriptName) + Terminated(Commands(Requests(Legacy, station, dates[..n])))
  {
    var n := GoodPrefix(Legacy, dates);
    WriteAllScript(files[ScriptName := ContentsOf(files, ScriptName)], Requests(Legacy, station, dates[..n]));
  }

  /** The request file of a handled date that no later handled date shares
      holds that date's document, whose last line `stop` has no newline. */
  lemma ReqWritesDocument(files: map<string, string>, dates: seq<string>, station: string, k: nat)
    requires k < GoodPrefix(Legacy, dates)
    requires forall j :: k < j < GoodPrefix(Legacy, dates) ==>
               RequestName(Legacy, station, dates[j]) != RequestName(Legacy, station, dates[k])
    ensures var name := RequestName(Legacy, station, dates[k]);
      name in AfterReq(files, dates, station)
      && AfterReq(files, dates, station)[name] == Document(Legacy, station, dates[k])
  {
    var n := GoodPrefix(Legacy, dates);
    var rs := Requests(Legacy, station, dates[..n]);
    RequestsAreNotScript(Legacy, station, dates[..n]);
    WriteAllLastWrite(files[ScriptName := ContentsOf(files, ScriptName)], rs, k);
  }

  /** `req` changes no file other than the script and the request files of
      the dates it handles. */
  lemma ReqChangesNothingElse(files: map<string, string>, dates: seq<string>, station: string, name: string)
    requires name != ScriptName
    requires forall i :: 0 <= i < GoodPrefix(Legacy, dates) ==> RequestName(Legacy, station, dates[i]) != name
    ensures name in AfterReq(files, dates, station) <==> name in files
    ensures name in files ==> AfterReq(files, dates, station)[name] == files[name]
  {
    var n := GoodPrefix(Legacy, dates);
    WriteAllKeepsOthers(files[ScriptName := ContentsOf(files, ScriptName)], Requests(Legacy, station, dates[..n]), name);
  }

  /** For a date of exactly three parts the two emitters agree on the file
      name and the script line; the document of io.py is pegadias.py's with
      a newline after `stop`. */
  lemma EmittersAgree(station: string, date: string)
    requires WellFormed(Current, date)
    ensures WellFormed(Legacy, date)
    ensures RequestFor(Legacy, station, date).name == RequestFor(Current, station, date).name
    ensures RequestFor(Legacy, station, date).command == RequestFor(Current, station, date).command
    ensures RequestFor(Current, station, date).document == RequestFor(Legacy, station, date).document + "\n"
  {
    CurrentDocumentEndsLine(station, date);
  }

  // ---------------------------------------------------------------------
  // The module-level run
  // ---------------------------------------------------------------------

  /** The stations the run emits requests for, in call order. */
  const Stations: seq<string> := ["i01ar", "i11cv", "i42pt", "i37no", "i56us"]

  /** The directory after `req(days, s)` for each station `s`, in order. */
  function AfterStations(files: map<string, string>, stations: seq<string>, days: seq<string>): map<string, string>
    decreases |stations|
  {
    if stations == [] then files
    else AfterStations(AfterReq(files, days, stations[0]), stations[1..], days)
  }

  /** The requests of `req(days, s)` for each station `s`, in order. */
  function RunRequests(stations: seq<string>, days: seq<string>): seq<Request>
    requires AllWellFormed(Legacy, days)
    decreases |stations|
  {
    if stations == [] then []
    else Requests(Legacy, stations[0], days) + RunRequests(stations[1..], days)
  }

  /** One request per station and date. */
  lemma {:induction false} RunRequestsLength(stations: seq<string>, days: seq<string>)
    requires AllWellFormed(Legacy, days)
    ensures |RunRequests(stations, days)| == |stations| * |days|
    decreases |stations|
  {
    if stations != [] {
      RunRequestsLength(stations[1..], days);
      assert RunRequests(stations, days) == Requests(Legacy, stations[0], days) + RunRequests(stations[1..], days);
      MulStep(|stations|, |days|);
    }
  }

  /** The requests are grouped by station in call order, and by date within
      a station: request `j * |days| + k` is the one for station `j` and
      date `k`. */
  lemma {:induction false} RunRequestsAt(stations: seq<string>, days: seq<string>, j: nat, k: nat)
    requires AllWellFormed(Legacy, days)
    requires j < |stations| && k < |days|
    ensures j * |days| + k < |RunRequests(stations, days)|
    ensures RunRequests(stations, days)[j * |days| + k] == RequestFor(Legacy, stations[j], days[k])
    decreases j
  {
    var n := |days|;
    var first := Requests(Legacy, stations[0], days);
    var later := RunRequests(stations[1..], days);
    assert RunRequests(stations, days) == first + later;
    assert |first| == n;
    if j == 0 {
      assert (first + later)[k] == first[k];
    } else {
      RunRequestsAt(stations[1..], days, j - 1, k);
      var i := (j - 1) * n + k;
      MulStep(j, n);
      assert (first + later)[n + i] == later[i];
      assert stations[j] == stations[1..][j - 1];
    }
  }

  lemma MulStep(a: nat, n: nat)
    requires a >= 1
    ensures a * n == n + (a - 1) * n
  {
  }

  /** A `req` call over dates that all split, once the script exists, is
      the emission of their requests. */
  lemma ReqAllWellFormed(files: map<string, string>, days: seq<string>, station: string)
    requires AllWellFormed(Legacy, days) && ScriptName in files
    ensures AfterReq(files, days, station) == WriteAll(files, Requests(Legacy, station, days))
  {
    assert OutcomeOf(Legacy, days) == Completed;
    assert days[..GoodPrefix(Legacy, days)] == days;
    assert files[ScriptName := ContentsOf(files, ScriptName)] == files;
  }

  /** Successive `req` calls over dates that all split, once the script
      exists, emit every station's requests in turn. */
  lemma {:induction false} StationsWriteAll(files: map<string, string>, stations: seq<string>, days: seq<string>)
    requires AllWellFormed(Legacy, days) && ScriptName in files
    ensures AfterStations(files, stations, days) == WriteAll(files, RunRequests(stations, days))
    decreases |stations|
  {
    if stations != [] {
      var rs := Requests(Legacy, stations[0], days);
      ReqAllWellFormed(files, days, stations[0]);
      WriteAllScript(files, rs);
      StationsWriteAll(WriteAll(files, rs), stations[1..], days);
      WriteAllAppend(files, rs, RunRequests(stations[1..], days));
    }
  }

  /** The run's five calls, one after the other. */
  lemma StationsInTurn(files: map<string, string>, days: seq<string>)
    ensures AfterStations(files, Stations, days)
         == AfterReq(AfterReq(AfterReq(AfterReq(AfterReq(files, days, "i01ar"), days, "i11cv"),
                                       days, "i42pt"), days, "i37no"), days, "i56us")
  {
    var f1 := AfterReq(files, days, "i01ar");
    var f2 := AfterReq(f1, days, "i11cv");
    var f3 := AfterReq(f2, days, "i42pt");
    var f4 := AfterReq(f3, days, "i37no");
    AfterStationsCons(files, "i01ar", ["i11cv", "i42pt", "i37no", "i56us"], days);
    AfterStationsCons(f1, "i11cv", ["i42pt", "i37no", "i56us"], days);
    AfterStationsCons(f2, "i42pt", ["i37no", "i56us"], days);
    AfterStationsCons(f3, "i37no", ["i56us"], days);
    AfterStationsCons(f4, "i56us", [], days);
  }

  lemma AfterStationsCons(files: map<string, string>, station: string, stations: seq<string>, days: seq<string>)
    ensures AfterStations(files, [station] + stations, days) == AfterStations(AfterReq(files, days, station), stations, days)
  {
    assert ([station] + stations)[1..] == stations;
  }

  /** The whole run: read the table; when that fails nothing is written;
      otherwise the script is started with its header and the dates are
      emitted for each station in turn. */
  method Run(dir: Directory, lines: seq<string>) returns (r: Result<seq<string>, ParseError>)
    modifies dir
    ensures r == Days(lines)
    ensures r.Err? ==> dir.files == old(dir.files)
    ensures r.Ok? ==> dir.files == AfterStations(old(dir.files)[ScriptName := Header], Stations, r.value)
  {
    r := ListDays(lines);
    if r.Err? {
      return;
    }
    var days := r.value;
    dir.Write(ScriptName, Header);
    StationsInTurn(dir.files, days);
    // every date read splits, so no `req` call raises and the run goes on
    DaysWellFormed(lines);
    var o := Req(dir, days, "i01ar");
    assert o == Completed;
    o := Req(dir, days, "i11cv");
    assert o == Completed;
    o := Req(dir, days, "i42pt");
    assert o == Completed;
    o := Req(dir, days, "i37no");
    assert o == Completed;
    o := Req(dir, days, "i56us");
    assert o == Completed;
  }

  /** After a successful run the script is the header followed by one
      command line per request, with the requests grouped by station in
      call order and by date within a station: five lines per date. */
  lemma RunScript(files: map<string, string>, lines: seq<string>)
    requires Days(lines).Ok?
    ensures var days := Days(lines).value;
      AllWellFormed(Legacy, days)
      && ScriptName in AfterStations(files[ScriptName := Header], Stations, days)
      && AfterStations(files[ScriptName := Header], Stations, days)[ScriptName]
         == Header + Terminated(Commands(RunRequests(Stations, days)))
      && |RunRequests(Stations, days)| == 5 * |days|
  {
    var days := Days(lines).value;
    DaysWellFormed(lines);
    var start := files[ScriptName := Header];
    StationsWriteAll(start, Stations, days);
    WriteAllScript(start, RunRequests(Stations, days));
    RunRequestsLength(Stations, days);
  }

  lemma ExampleWord()
    ensures ',' !in "1" + "/" + "1" + "/" + "2023" + []
    ensures forall i :: 0 <= i < |"1" + "/" + "1" + "/" + "2023" + []| ==> !IsSpace(("1" + "/" + "1" + "/" + "2023" + [])[i])
  {
    assert "1" + "/" + "1" + "/" + "2023" + [] == "1/1/2023";
  }

  lemma ExampleZFill()
    ensures "2023" + "/" + ZFill("1", 2) + "/" + ZFill("1", 2) == "2023/01/01"
  {
    assert ZFill("1", 2) == "01";
  }

  /** The data line `1/1/2023,...` reads as the date `2023/01/01`. */
  lemma ExampleLine(rest: string)
    ensures ReformatLine("1/1/2023," + rest) == Ok("2023/01/01")
  {
    assert "1/1/2023," + rest == [] + ("1" + "/" + "1" + "/" + "2023" + []) + [] + ("," + rest);
    ExampleWord();
    ReformatDateLine([], "1", "1", "2023", [], [], "," + rest);
    ExampleZFill();
  }

  /** A date field with white space around the date and a time after it,
      ` 1/1/2023 12:00,...`, reads as the date `2023/01/01` too. */
  lemma ExampleLineWithTime(rest: string)
    ensures ReformatLine(" 1/1/2023 12:00," + rest) == Ok("2023/01/01")
  {
    assert " 1/1/2023 12:00," + rest == " " + ("1" + "/" + "1" + "/" + "2023" + []) + " 12:00" + ("," + rest);
    ExampleWord();
    assert ',' !in " " + ("1" + "/" + "1" + "/" + "2023" + []) + " 12:00";
    ReformatDateLine(" ", "1", "1", "2023", [], " 12:00", "," + rest);
    ExampleZFill();
  }

  /** A table with a header line and the one data line `1/1/2023,...` gives
      the single date `2023/01/01`. */
  lemma DaysForExample(header: string, rest: string)
    ensures Days([header, "1/1/2023," + rest]) == Ok(["2023/01/01"])
  {
    var lines := [header, "1/1/2023," + rest];
    ExampleLine(rest);
    assert DataLines(lines)[0] == "1/1/2023," + rest;
    LineResultAt(lines, 0);
    var rs := LineResults(lines);
    assert |rs| == 1 && rs[0] == Ok("2023/01/01");
    CollectOneLine(rs);
  }

  lemma CollectOneLine(rs: seq<Result<string, LineError>>)
    requires |rs| == 1 && rs[0].Ok?
    ensures Collect(rs) == Ok([rs[0].value])
  {
    assert rs[..|rs| - 1] == [];
    assert Collect(rs[..|rs| - 1]) == Ok([]);
    assert [] + [rs[0].value] == [rs[0].value];
  }
}
