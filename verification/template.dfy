/** What both request emitters write: the name of each request file, the
    IMS 2.0 request document it holds, and the `nms_client.sh` line the batch
    script gets for it; and the effect on the working directory of emitting
    a whole list of dates for one station, as a function of the directory
    before. io.py's `generate_request_file` (Current) and pegadias.py's `req`
    (Legacy) differ only in how many '/'-parts a date may have and in the
    document's last line. */
module Template {
  import opened Strings
  import opened Files

  /** The batch script both emitters write to. */
  const ScriptName := "run_nmsclient.sh"

  /** The first two lines of the batch script, as the program writes them:
      with a space after `#!/bin/bash`. */
  const Header := "#!/bin/bash \n\n"

  datatype Variant = Current | Legacy

  /** A date the emitter can name a file after. io.py unpacks
      `date.split('/')` into exactly three names; pegadias.py indexes parts 0
      to 2 and ignores the rest. */
  predicate WellFormed(v: Variant, date: string) {
    var n := |SplitOn(date, '/')|;
    match v
    case Current => n == 3
    case Legacy => n >= 3
  }

  /** `UPPER(station)_Y_M_D`, from the first three '/'-parts of the date. */
  function Stem(v: Variant, station: string, date: string): string
    requires WellFormed(v, date)
  {
    var p := SplitOn(date, '/');
    Upper(station) + "_" + p[0] + "_" + p[1] + "_" + p[2]
  }

  function RequestName(v: Variant, station: string, date: string): string
    requires WellFormed(v, date)
  {
    Stem(v, station, date) + ".req"
  }

  function OutputName(v: Variant, station: string, date: string): string
    requires WellFormed(v, date)
  {
    Stem(v, station, date) + ".mseed"
  }

  /** The batch-script command that fetches the data of one request. */
  function Invocation(v: Variant, station: string, date: string): string
    requires WellFormed(v, date)
  {
    "nms_client.sh " + RequestName(v, station, date) + " -f " + OutputName(v, station, date)
  }

  /** The eight lines of a request, without line ends. */
  function TemplateLines(station: string, date: string): seq<string> {
    [ "begin ims2.0",
      "msg_type request",
      "msg_id mseed_" + Lower(station),
      "time " + date + " 00:00:00 to " + date + " 23:59:59",
      "sta_list " + Upper(station),
      "chan_list BDF",
      "waveform ims2.0:ms_st2_512",
      "stop" ]
  }

  /** The request document as the emitters write it: the first seven
      template lines, each followed by a newline, then `stop`, which io.py
      ends with a newline and pegadias.py does not. */
  function Document(v: Variant, station: string, date: string): string {
    Terminated(TemplateLines(station, date)[..7]) + (if v == Current then "stop\n" else "stop")
  }

  // ---------------------------------------------------------------------
  // Names
  // ---------------------------------------------------------------------

  /** A date `Y/M/D` whose parts hold no '/' gives the request file
      `UPPER(station)_Y_M_D.req` and the output file
      `UPPER(station)_Y_M_D.mseed`. */
  lemma RequestNameOfDate(station: string, y: string, m: string, d: string)
    requires '/' !in y && '/' !in m && '/' !in d
    ensures WellFormed(Current, y + "/" + m + "/" + d)
    ensures RequestName(Current, station, y + "/" + m + "/" + d) == Upper(station) + "_" + y + "_" + m + "_" + d + ".req"
    ensures OutputName(Current, station, y + "/" + m + "/" + d) == Upper(station) + "_" + y + "_" + m + "_" + d + ".mseed"
  {
    SplitThree(y, m, d, '/');
  }

  /** pegadias.py names the file after the first three parts only, but puts
      the whole date on the time line: a date with a fourth part shares its
      file with the three-part date and writes different contents into it.
      io.py refuses such a date. */
  lemma LegacyExtraParts(station: string, y: string, m: string, d: string, tail: string)
    requires '/' !in y && '/' !in m && '/' !in d
    requires '\n' !in station && '\n' !in y + m + d + tail
    ensures var date := y + "/" + m + "/" + d + "/" + tail;
      && WellFormed(Legacy, date) && WellFormed(Legacy, y + "/" + m + "/" + d)
      && !WellFormed(Current, date)
      && RequestName(Legacy, station, date) == RequestName(Legacy, station, y + "/" + m + "/" + d)
      && Document(Legacy, station, date) != Document(Legacy, station, y + "/" + m + "/" + d)
  {
    var short := y + "/" + m + "/" + d;
    var date := short + "/" + tail;
    ExtraPartsSplit(y, m, d, tail);
    SplitThree(y, m, d, '/');
    assert forall c :: c in short || c in date ==> c in y + m + d + tail || c == '/';
    if Document(Legacy, station, date) == Document(Legacy, station, short) {
      DocumentIdentifiesRequest(Legacy, station, date, station, short);
      assert false;
    }
  }

  lemma ExtraPartsSplit(y: string, m: string, d: string, tail: string)
    requires '/' !in y && '/' !in m && '/' !in d
    ensures SplitOn(y + "/" + m + "/" + d + "/" + tail, '/') == [y, m, d] + SplitOn(tail, '/')
  {
    var r := SplitOn(tail, '/');
    assert y + "/" + m + "/" + d + "/" + tail == y + ['/'] + (m + ['/'] + (d + ['/'] + tail));
    SplitOnCons(d, tail, '/');
    SplitOnCons(m, d + ['/'] + tail, '/');
    SplitOnCons(y, m + ['/'] + (d + ['/'] + tail), '/');
    assert [y] + ([m] + ([d] + r)) == [y, m, d] + r;
  }

  /** A request file name can never be the batch script's name. */
  lemma RequestNameIsNotScript(v: Variant, station: string, date: string)
    requires WellFormed(v, date)
    ensures RequestName(v, station, date) != ScriptName
  {
    var n := RequestName(v, station, date);
    assert n[|n| - 1] == 'q';
    assert ScriptName[|ScriptName| - 1] == 'h';
  }

  lemma SameSuffix(a: string, b: string, t: string)
    requires a + t == b + t
    ensures a == b
  {
    assert a == (a + t)[..|a|];
    assert b == (b + t)[..|b|];
  }

  lemma SamePrefix(t: string, a: string, b: string)
    requires t + a == t + b
    ensures a == b
  {
    assert a == (t + a)[|t|..];
    assert b == (t + b)[|t|..];
  }

  /** In io.py's shape, the request file name determines the date, as long
      as no part holds the '_' that separates the parts in the name: different
      dates never share a request file. */
  lemma RequestNameInjective(station: string, d1: string, d2: string)
    requires WellFormed(Current, d1) && WellFormed(Current, d2)
    requires '_' !in d1 && '_' !in d2
    requires RequestName(Current, station, d1) == RequestName(Current, station, d2)
    ensures d1 == d2
  {
    var p, q := SplitOn(d1, '/'), SplitOn(d2, '/');
    var x1 := p[0] + "_" + p[1] + "_" + p[2];
    var x2 := q[0] + "_" + q[1] + "_" + q[2];
    SameSuffix(Stem(Current, station, d1), Stem(Current, station, d2), ".req");
    assert Stem(Current, station, d1) == (Upper(station) + "_") + x1;
    assert Stem(Current, station, d2) == (Upper(station) + "_") + x2;
    SamePrefix(Upper(station) + "_", x1, x2);
    SplitThree(p[0], p[1], p[2], '_');
    SplitThree(q[0], q[1], q[2], '_');
    assert [p[0], p[1], p[2]] == p && [q[0], q[1], q[2]] == q;
  }

  // ---------------------------------------------------------------------
  // Documents
  // ---------------------------------------------------------------------

  /** The io.py document is the pegadias.py document with a final newline. */
  lemma CurrentDocumentEndsLine(station: string, date: string)
    ensures Document(Current, station, date) == Document(Legacy, station, date) + "\n"
  {
  }

  lemma TemplateLinesHaveNoNewline(station: string, date: string)
    requires '\n' !in station && '\n' !in date
    ensures forall k :: 0 <= k < |TemplateLines(station, date)| ==> '\n' !in TemplateLines(station, date)[k]
  {
    FixedLinesHaveNoNewline();
    CaseKeepsNonLetter(station, '\n');
    var ls := TemplateLines(station, date);
    forall k | 0 <= k < |ls| ensures '\n' !in ls[k] {
      if k == 2 {
        NotInConcat("msg_id mseed_", Lower(station), '\n');
      } else if k == 3 {
        NotInConcat("time ", date, '\n');
        NotInConcat("time " + date, " 00:00:00 to ", '\n');
        NotInConcat("time " + date + " 00:00:00 to ", date, '\n');
        NotInConcat("time " + date + " 00:00:00 to " + date, " 23:59:59", '\n');
      } else if k == 4 {
        NotInConcat("sta_list ", Upper(station), '\n');
      }
    }
  }

  lemma FixedLinesHaveNoNewline()
    ensures '\n' !in "begin ims2.0" && '\n' !in "msg_type request" && '\n' !in "chan_list BDF"
    ensures '\n' !in "waveform ims2.0:ms_st2_512" && '\n' !in "stop"
  {
  }

  lemma NotInConcat(a: string, b: string, c: char)
    requires c !in a && c !in b
    ensures c !in a + b
  {
  }

  /** io.py's document is the eight template lines, each ended by a
      newline. */
  lemma CurrentDocumentIsTerminated(station: string, date: string)
    ensures Document(Current, station, date) == Terminated(TemplateLines(station, date))
  {
    var ls := TemplateLines(station, date);
    assert ls[..7] + ["stop"] == ls;
    TerminatedAppend(ls[..7], ["stop"]);
    assert Terminated(["stop"]) == "stop\n";
  }

  /** Each document consists of exactly the eight template lines: io.py's
      ends the last line with a newline (an empty ninth part after
      splitting), pegadias.py's does not. */
  lemma DocumentLines(v: Variant, station: string, date: string)
    requires '\n' !in station && '\n' !in date
    ensures SplitOn(Document(v, station, date), '\n')
         == TemplateLines(station, date) + (if v == Current then [""] else [])
  {
    var ls := TemplateLines(station, date);
    TemplateLinesHaveNoNewline(station, date);
    if v == Current {
      CurrentDocumentIsTerminated(station, date);
      LinesOfTerminated(ls);
    } else {
      assert ls[..7] + [ls[7]] == ls;
      TerminatedIsJoin(ls[..7], "stop");
      SplitJoin(ls, '\n');
    }
  }

  /** A document names its request: two documents are equal only when they
      are for the same date and the same station up to case. */
  lemma DocumentIdentifiesRequest(v: Variant, s1: string, d1: string, s2: string, d2: string)
    requires '\n' !in s1 && '\n' !in d1 && '\n' !in s2 && '\n' !in d2
    requires Document(v, s1, d1) == Document(v, s2, d2)
    ensures d1 == d2 && Upper(s1) == Upper(s2) && Lower(s1) == Lower(s2)
  {
    DocumentLines(v, s1, d1);
    DocumentLines(v, s2, d2);
    var l1, l2 := TemplateLines(s1, d1), TemplateLines(s2, d2);
    var e := if v == Current then [""] else [];
    assert l1 == (l1 + e)[..8] && l2 == (l2 + e)[..8];
    SamePrefix("msg_id mseed_", Lower(s1), Lower(s2));
    SamePrefix("sta_list ", Upper(s1), Upper(s2));
    TimeLineNamesDate(d1, d2);
  }

  lemma TimeLineNamesDate(d1: string, d2: string)
    requires "time " + d1 + " 00:00:00 to " + d1 + " 23:59:59" == "time " + d2 + " 00:00:00 to " + d2 + " 23:59:59"
    ensures d1 == d2
  {
    var t1 := d1 + " 00:00:00 to " + d1 + " 23:59:59";
    var t2 := d2 + " 00:00:00 to " + d2 + " 23:59:59";
    assert "time " + t1 == "time " + d1 + " 00:00:00 to " + d1 + " 23:59:59";
    assert "time " + t2 == "time " + d2 + " 00:00:00 to " + d2 + " 23:59:59";
    SamePrefix("time ", t1, t2);
    assert d1 == t1[..|d1|] && d2 == t2[..|d2|];
  }

  // ---------------------------------------------------------------------
  // Emitting a list of dates
  // ---------------------------------------------------------------------

  predicate AllWellFormed(v: Variant, dates: seq<string>) {
    forall i :: 0 <= i < |dates| ==> WellFormed(v, dates[i])
  }

  /** What one date makes the emitter write: a request file with its
      contents, and a command for the batch script. */
  datatype Request = Request(name: string, document: string, command: string)

  function RequestFor(v: Variant, station: string, date: string): Request
    requires WellFormed(v, date)
  {
    Request(RequestName(v, station, date), Document(v, station, date), Invocation(v, station, date))
  }

  /** The request for a date, spelled from the parts of the date. */
  lemma RequestOfParts(v: Variant, station: string, date: string)
    requires WellFormed(v, date)
    ensures var p := SplitOn(date, '/');
      var stem := Upper(station) + "_" + p[0] + "_" + p[1] + "_" + p[2];
      RequestFor(v, station, date)
      == Request(stem + ".req", Document(v, station, date), "nms_client.sh " + (stem + ".req") + " -f " + (stem + ".mseed"))
  {
  }

  /** The requests for `dates`, in date order. */
  function Requests(v: Variant, station: string, dates: seq<string>): seq<Request>
    requires AllWellFormed(v, dates)
  {
    seq(|dates|, i requires 0 <= i < |dates| => RequestFor(v, station, dates[i]))
  }

  /** The script commands of `rs`, without line ends. */
  function Commands(rs: seq<Request>): seq<string> {
    seq(|rs|, i requires 0 <= i < |rs| => rs[i].command)
  }

  predicate NoneIsScript(rs: seq<Request>) {
    forall i :: 0 <= i < |rs| ==> rs[i].name != ScriptName
  }

  lemma RequestsAreNotScript(v: Variant, station: string, dates: seq<string>)
    requires AllWellFormed(v, dates)
    ensures NoneIsScript(Requests(v, station, dates))
  {
    forall i | 0 <= i < |dates| ensures Requests(v, station, dates)[i].name != ScriptName {
      RequestNameIsNotScript(v, station, dates[i]);
    }
  }

  /** One loop iteration: write the request file, then add its command line
      to the script. */
  function WriteOne(files: map<string, string>, r: Request): map<string, string> {
    files[r.name := r.document][ScriptName := ContentsOf(files, ScriptName) + r.command + "\n"]
  }

  /** The iteration as two file operations: a write of the request file,
      then an append to the script. */
  lemma WriteOneInTwoSteps(files: map<string, string>, r: Request)
    requires r.name != ScriptName
    ensures var written := files[r.name := r.document];
      WriteOne(files, r) == written[ScriptName := ContentsOf(written, ScriptName) + (r.command + "\n")]
  {
    var written := files[r.name := r.document];
    assert ContentsOf(written, ScriptName) == ContentsOf(files, ScriptName);
    assert ContentsOf(files, ScriptName) + (r.command + "\n") == ContentsOf(files, ScriptName) + r.command + "\n";
  }

  /** The directory after the iterations for `rs`, in order. */
  function WriteAll(files: map<string, string>, rs: seq<Request>): map<string, string>
    decreases |rs|
  {
    if rs == [] then files else WriteAll(WriteOne(files, rs[0]), rs[1..])
  }

  /** Emitting `dates` for `station`: the loop of either emitter over
      well-formed dates. */
  function Emit(v: Variant, files: map<string, string>, station: string, dates: seq<string>): map<string, string>
    requires AllWellFormed(v, dates)
  {
    WriteAll(files, Requests(v, station, dates))
  }

  /** How many dates, from the first, the emitter gets through before a date
      it cannot split. */
  function GoodPrefix(v: Variant, dates: seq<string>): (n: nat)
    ensures n <= |dates|
    ensures AllWellFormed(v, dates[..n])
    ensures n < |dates| ==> !WellFormed(v, dates[n])
    decreases |dates|
  {
    if dates == [] || !WellFormed(v, dates[0]) then 0
    else
      var n := 1 + GoodPrefix(v, dates[1..]);
      assert forall i :: 1 <= i < n ==> dates[..n][i] == dates[1..][..n - 1][i - 1];
      n
  }

  /** How a call ends: normally, or with the exception raised at one date. */
  datatype Outcome = Completed | FailedAt(index: nat)

  /** The outcome of emitting `dates`: completion exactly when every date
      splits, otherwise failure at the first date that does not. */
  function OutcomeOf(v: Variant, dates: seq<string>): (r: Outcome)
    ensures r == Completed <==> AllWellFormed(v, dates)
    ensures r.FailedAt? ==> r.index < |dates| && !WellFormed(v, dates[r.index])
                            && AllWellFormed(v, dates[..r.index])
  {
    var n := GoodPrefix(v, dates);
    if n == |dates| then
      assert dates[..n] == dates;
      Completed
    else FailedAt(n)
  }

  /** Writing requests adds one line per request to the end of the script,
      in order, behind what the script held before. */
  lemma {:induction false} WriteAllScript(files: map<string, string>, rs: seq<Request>)
    ensures ContentsOf(WriteAll(files, rs), ScriptName) == ContentsOf(files, ScriptName) + Terminated(Commands(rs))
    ensures ScriptName in files || rs != [] ==> ScriptName in WriteAll(files, rs)
    decreases |rs|
  {
    if rs != [] {
      var next := WriteOne(files, rs[0]);
      WriteAllScript(next, rs[1..]);
      var cs := Commands(rs);
      assert cs[0] == rs[0].command && cs[1..] == Commands(rs[1..]);
    }
  }

  /** Only the requests' files and the script change. */
  lemma {:induction false} WriteAllKeepsOthers(files: map<string, string>, rs: seq<Request>, name: string)
    requires name != ScriptName
    requires forall i :: 0 <= i < |rs| ==> rs[i].name != name
    ensures name in WriteAll(files, rs) <==> name in files
    ensures name in files ==> WriteAll(files, rs)[name] == files[name]
    decreases |rs|
  {
    if rs != [] {
      WriteAllKeepsOthers(WriteOne(files, rs[0]), rs[1..], name);
    }
  }

  /** The file of a request that no later request overwrites holds that
      request's document. */
  lemma {:induction false} WriteAllLastWrite(files: map<string, string>, rs: seq<Request>, k: nat)
    requires NoneIsScript(rs) && k < |rs|
    requires forall j :: k < j < |rs| ==> rs[j].name != rs[k].name
    ensures rs[k].name in WriteAll(files, rs) && WriteAll(files, rs)[rs[k].name] == rs[k].document
    decreases |rs|
  {
    var next := WriteOne(files, rs[0]);
    if k == 0 {
      WriteAllKeepsOthers(next, rs[1..], rs[0].name);
    } else {
      WriteAllLastWrite(next, rs[1..], k - 1);
    }
  }

  lemma WriteAllStep(files: map<string, string>, rs: seq<Request>, i: nat)
    requires i < |rs|
    ensures WriteAll(files, rs[i..]) == WriteAll(WriteOne(files, rs[i]), rs[i + 1..])
  {
    assert rs[i..][0] == rs[i] && rs[i..][1..] == rs[i + 1..];
  }

  lemma {:induction false} WriteAllAppend(files: map<string, string>, a: seq<Request>, b: seq<Request>)
    ensures WriteAll(files, a + b) == WriteAll(WriteAll(files, a), b)
    decreases |a|
  {
    if a == [] {
      assert a + b == b;
    } else {
      WriteAllAppend(WriteOne(files, a[0]), a[1..], b);
      assert (a + b)[0] == a[0] && (a + b)[1..] == a[1..] + b;
    }
  }

  /** Writing a request again rewrites its file with the same document:
      apart from the script, the directory is as after writing it once. */
  lemma WriteAllRepeat(files: map<string, string>, rs: seq<Request>, r: Request)
    requires r.name != ScriptName
    ensures WriteAll(files, rs + [r, r]) - {ScriptName} == WriteAll(files, rs + [r]) - {ScriptName}
  {
    WriteAllAppend(files, rs, [r, r]);
    WriteAllAppend(files, rs, [r]);
    var m := WriteAll(files, rs);
    var once := WriteOne(m, r);
    var twice := WriteOne(once, r);
    assert [r, r][0] == r && [r, r][1..] == [r] && [r][0] == r && [r][1..] == [];
    assert WriteAll(m, [r]) == WriteAll(once, []) == once;
    assert WriteAll(once, [r]) == WriteAll(twice, []) == twice;
    assert WriteAll(m, [r, r]) == WriteAll(once, [r]);
    assert twice - {ScriptName} == once - {ScriptName};
  }

  lemma InvocationHasNoNewline(v: Variant, station: string, date: string)
    requires WellFormed(v, date) && '\n' !in station && '\n' !in date
    ensures '\n' !in Invocation(v, station, date)
  {
    CaseKeepsNonLetter(station, '\n');
    var p := SplitOn(date, '/');
    assert '\n' !in p[0] && '\n' !in p[1] && '\n' !in p[2];
    var stem := Stem(v, station, date);
    NotInConcat(Upper(station) + "_", p[0], '\n');
    NotInConcat(Upper(station) + "_" + p[0] + "_", p[1], '\n');
    NotInConcat(Upper(station) + "_" + p[0] + "_" + p[1] + "_", p[2], '\n');
    NotInConcat(stem, ".req", '\n');
    NotInConcat(stem, ".mseed", '\n');
    NotInConcat("nms_client.sh ", stem + ".req", '\n');
    NotInConcat("nms_client.sh " + (stem + ".req"), " -f ", '\n');
    NotInConcat("nms_client.sh " + (stem + ".req") + " -f ", stem + ".mseed", '\n');
  }

  /** With no newline in the station code or the dates, a script made of the
      header and the commands for `dates` consists of exactly the two header
      lines and one line per date, in date order. */
  lemma ScriptLines(v: Variant, station: string, dates: seq<string>)
    requires AllWellFormed(v, dates)
    requires '\n' !in station && forall i :: 0 <= i < |dates| ==> '\n' !in dates[i]
    ensures SplitOn(Header + Terminated(Commands(Requests(v, station, dates))), '\n')
         == ["#!/bin/bash ", ""] + Commands(Requests(v, station, dates)) + [""]
  {
    var ls := Commands(Requests(v, station, dates));
    forall i | 0 <= i < |ls| ensures '\n' !in ls[i] {
      InvocationHasNoNewline(v, station, dates[i]);
    }
    var all := ["#!/bin/bash ", ""] + ls;
    assert Terminated(["#!/bin/bash ", ""]) == Header;
    TerminatedAppend(["#!/bin/bash ", ""], ls);
    assert forall k :: 0 <= k < |all| ==> '\n' !in all[k] by {
      forall k | 0 <= k < |all| ensures '\n' !in all[k] {
        if k >= 2 { assert all[k] == ls[k - 2]; }
      }
    }
    LinesOfTerminated(all);
  }
}
