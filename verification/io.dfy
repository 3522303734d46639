/** io.py's `generate_request_file(date_list, station_code)`: truncate the
    batch script to its header, then, date by date, split the date into year,
    month and day, write the request file and append its command to the
    script. A date that does not split into exactly three parts raises at
    that date; what was written before stays. */
module Io {
  import opened Strings
  import opened Files
  import opened Template

  /** The directory after `generate_request_file(dates, station)`, whether
      the call completes or stops at a date it cannot split. */
  function AfterCall(files: map<string, string>, dates: seq<string>, station: string): map<string, string> {
    Emit(Current, files[ScriptName := Header], station, dates[..GoodPrefix(Current, dates)])
  }

  method GenerateRequestFile(dir: Directory, dates: seq<string>, station: string) returns (r: Outcome)
    modifies dir
    ensures r == OutcomeOf(Current, dates)
    ensures dir.files == AfterCall(old(dir.files), dates, station)
  {
    dir.Write(ScriptName, Header);
    ghost var start := dir.files;
    ghost var n := GoodPrefix(Current, dates);
    ghost var todo := Requests(Current, station, dates[..n]);
    var i := 0;
    while i < |dates|
      invariant 0 <= i <= n
      invariant WriteAll(dir.files, todo[i..]) == WriteAll(start, todo)
    {
      var parts := SplitOn(dates[i], '/');
      if |parts| != 3 {
        return FailedAt(i);
      }
      var fileName := Upper(station) + "_" + parts[0] + "_" + parts[1] + "_" + parts[2];
      var reqFile := fileName + ".req";
      var mseedFile := fileName + ".mseed";
      var command := "nms_client.sh " + reqFile + " -f " + mseedFile;
      assert dates[..n][i] == dates[i];
      RequestOfParts(Current, station, dates[i]);
      assert todo[i] == Request(reqFile, Document(Current, station, dates[i]), command);
      WriteAllStep(dir.files, todo, i);
      RequestNameIsNotScript(Current, station, dates[i]);
      WriteOneInTwoSteps(dir.files, todo[i]);
      dir.Write(reqFile, Document(Current, station, dates[i]));
      dir.Append(ScriptName, command + "\n");
      i := i + 1;
    }
    assert todo[i..] == [];
    return Completed;
  }

  /** After a call the script is the header followed by one command line per
      date handled, in date order. */
  lemma CallScript(files: map<string, string>, dates: seq<string>, station: string)
    ensures var n := GoodPrefix(Current, dates);
      && ScriptName in AfterCall(files, dates, station)
      && AfterCall(files, dates, station)[ScriptName]
         == Header + Terminated(Commands(Requests(Current, station, dates[..n])))
  {
    var n := GoodPrefix(Current, dates);
    WriteAllScript(files[ScriptName := Header], Requests(Current, station, dates[..n]));
  }

  /** Each call starts the script afresh: after two calls it holds only the
      second call's lines. */
  lemma CallTwice(files: map<string, string>, d1: seq<string>, s1: string, d2: seq<string>, s2: string)
    ensures var n := GoodPrefix(Current, d2);
      && ScriptName in AfterCall(AfterCall(files, d1, s1), d2, s2)
      && AfterCall(AfterCall(files, d1, s1), d2, s2)[ScriptName]
      == Header + Terminated(Commands(Requests(Current, s2, d2[..n])))
  {
    CallScript(AfterCall(files, d1, s1), d2, s2);
  }

  /** With no dates, the call leaves the header as the whole script and
      touches no other file. */
  lemma CallWithoutDates(files: map<string, string>, station: string)
    ensures AfterCall(files, [], station) == files[ScriptName := Header]
  {
    assert Requests(Current, station, []) == [];
  }

  /** A call that fails at a date leaves the directory exactly as a call
      with only the dates before it would. */
  lemma CallStopsAtBadDate(files: map<string, string>, dates: seq<string>, station: string, k: nat)
    requires OutcomeOf(Current, dates) == FailedAt(k)
    ensures OutcomeOf(Current, dates[..k]) == Completed
    ensures AfterCall(files, dates, station) == AfterCall(files, dates[..k], station)
  {
    assert dates[..k][..k] == dates[..k];
  }

  /** The request file of a handled date that no later handled date shares
      holds that date's document. */
  lemma CallWritesDocument(files: map<string, string>, dates: seq<string>, station: string, k: nat)
    requires k < GoodPrefix(Current, dates)
    requires forall j :: k < j < GoodPrefix(Current, dates) ==>
               RequestName(Current, station, dates[j]) != RequestName(Current, station, dates[k])
    ensures var name := RequestName(Current, station, dates[k]);
      name in AfterCall(files, dates, station)
      && AfterCall(files, dates, station)[name] == Document(Current, station, dates[k])
  {
    var n := GoodPrefix(Current, dates);
    var rs := Requests(Current, station, dates[..n]);
    RequestsAreNotScript(Current, station, dates[..n]);
    WriteAllLastWrite(files[ScriptName := Header], rs, k);
  }

  /** When every date splits, the dates are distinct and none holds '_',
      every date has its own request file holding its document. */
  lemma CallWritesEveryDocument(files: map<string, string>, dates: seq<string>, station: string)
    requires AllWellFormed(Current, dates)
    requires forall i :: 0 <= i < |dates| ==> '_' !in dates[i]
    requires forall i, j :: 0 <= i < j < |dates| ==> dates[i] != dates[j]
    ensures forall k :: 0 <= k < |dates| ==>
      RequestName(Current, station, dates[k]) in AfterCall(files, dates, station)
      && AfterCall(files, dates, station)[RequestName(Current, station, dates[k])] == Document(Current, station, dates[k])
  {
    assert OutcomeOf(Current, dates) == Completed;
    forall k | 0 <= k < |dates|
      ensures RequestName(Current, station, dates[k]) in AfterCall(files, dates, station)
      ensures AfterCall(files, dates, station)[RequestName(Current, station, dates[k])] == Document(Current, station, dates[k])
    {
      forall j | k < j < |dates|
        ensures RequestName(Current, station, dates[j]) != RequestName(Current, station, dates[k])
      {
        if RequestName(Current, station, dates[j]) == RequestName(Current, station, dates[k]) {
          RequestNameInjective(station, dates[j], dates[k]);
        }
      }
      CallWritesDocument(files, dates, station, k);
    }
  }

  /** A call changes no file other than the script and the request files of
      the dates it handles. */
  lemma CallChangesNothingElse(files: map<string, string>, dates: seq<string>, station: string, name: string)
    requires name != ScriptName
    requires forall i :: 0 <= i < GoodPrefix(Current, dates) ==> RequestName(Current, station, dates[i]) != name
    ensures name in AfterCall(files, dates, station) <==> name in files
    ensures name in files ==> AfterCall(files, dates, station)[name] == files[name]
  {
    var n := GoodPrefix(Current, dates);
    WriteAllKeepsOthers(files[ScriptName := Header], Requests(Current, station, dates[..n]), name);
  }

  /** Repeating a date rewrites the same request file with the same
      contents: only the script tells the two calls apart. */
  lemma CallRepeatedDate(files: map<string, string>, dates: seq<string>, station: string, date: string)
    requires AllWellFormed(Current, dates) && WellFormed(Current, date)
    ensures AfterCall(files, dates + [date, date], station) - {ScriptName}
         == AfterCall(files, dates + [date], station) - {ScriptName}
  {
    var once, twice := dates + [date], dates + [date, date];
    assert AllWellFormed(Current, once) by {
      forall i | 0 <= i < |once| ensures WellFormed(Current, once[i]) {
        if i < |dates| { assert once[i] == dates[i]; }
      }
    }
    assert AllWellFormed(Current, twice) by {
      forall i | 0 <= i < |twice| ensures WellFormed(Current, twice[i]) {
        if i < |dates| { assert twice[i] == dates[i]; }
      }
    }
    assert OutcomeOf(Current, once) == Completed && OutcomeOf(Current, twice) == Completed;
    assert once[..|once|] == once && twice[..|twice|] == twice;
    var rs := Requests(Current, station, dates);
    var r := RequestFor(Current, station, date);
    assert Requests(Current, station, once) == rs + [r];
    assert Requests(Current, station, twice) == rs + [r, r];
    RequestNameIsNotScript(Current, station, date);
    WriteAllRepeat(files[ScriptName := Header], rs, r);
  }

  // ---------------------------------------------------------------------
  // Worked examples: the request tests.py expects, and the docstring's
  // one-date example. These are concrete instances of the lemmas above,
  // split into small steps; they state no further property of the model.
  // ---------------------------------------------------------------------

  lemma TestStationCase()
    ensures Upper("test") == "TEST" && Lower("test") == "test"
  {
  }

  lemma TestLinesWithStation()
    ensures TemplateLines("test", "2023/01/01")[2] == "msg_id mseed_test"
    ensures TemplateLines("test", "2023/01/01")[4] == "sta_list TEST"
  {
    TestStationCase();
  }

  lemma TestTimeLine()
    ensures TemplateLines("test", "2023/01/01")[3] == "time 2023/01/01 00:00:00 to 2023/01/01 23:59:59"
  {
  }

  lemma TestLines()
    ensures TemplateLines("test", "2023/01/01")
         == ["begin ims2.0",
             "msg_type request",
             "msg_id mseed_test",
             "time 2023/01/01 00:00:00 to 2023/01/01 23:59:59",
             "sta_list TEST",
             "chan_list BDF",
             "waveform ims2.0:ms_st2_512",
             "stop"]
  {
    TestLinesWithStation();
    TestTimeLine();
  }

  lemma TestDateParts()
    ensures WellFormed(Current, "2023/01/01")
    ensures RequestName(Current, "test", "2023/01/01") == "TEST_2023_01_01.req"
  {
    assert "TEST" + "_" + "2023" + "_" + "01" + "_" + "01" + ".req" == "TEST_2023_01_01.req";
    TestStationCase();
    assert "2023/01/01" == "2023" + "/" + "01" + "/" + "01";
    RequestNameOfDate("test", "2023", "01", "01");
  }

  /** The request tests.py expects for station `test` on 2023/01/01: the file
      `TEST_2023_01_01.req` holding these eight lines, each ended by a
      newline. */
  lemma DocumentForTest()
    ensures WellFormed(Current, "2023/01/01")
    ensures RequestName(Current, "test", "2023/01/01") == "TEST_2023_01_01.req"
    ensures Document(Current, "test", "2023/01/01")
         == Terminated(["begin ims2.0",
                        "msg_type request",
                        "msg_id mseed_test",
                        "time 2023/01/01 00:00:00 to 2023/01/01 23:59:59",
                        "sta_list TEST",
                        "chan_list BDF",
                        "waveform ims2.0:ms_st2_512",
                        "stop"])
  {
    TestDateParts();
    TestStationCase();
    TestLines();
    CurrentDocumentIsTerminated("test", "2023/01/01");
  }

  lemma OneDateParts()
    ensures WellFormed(Current, "2024/04/15")
    ensures RequestName(Current, "i01ar", "2024/04/15") == Upper("i01ar") + "_" + "2024" + "_" + "04" + "_" + "15" + ".req"
    ensures OutputName(Current, "i01ar", "2024/04/15") == Upper("i01ar") + "_" + "2024" + "_" + "04" + "_" + "15" + ".mseed"
  {
    assert "2024/04/15" == "2024" + "/" + "04" + "/" + "15";
    RequestNameOfDate("i01ar", "2024", "04", "15");
  }

  /** The docstring's example names the request `I01AR_2024_04_15.req`... */
  lemma OneDateRequestName()
    ensures WellFormed(Current, "2024/04/15")
    ensures RequestName(Current, "i01ar", "2024/04/15") == "I01AR_2024_04_15.req"
  {
    assert "I01AR" + "_" + "2024" + "_" + "04" + "_" + "15" + ".req" == "I01AR_2024_04_15.req";
    assert Upper("i01ar") == "I01AR";
    OneDateParts();
  }

  /** ... and its output `I01AR_2024_04_15.mseed`. */
  lemma OneDateOutputName()
    ensures WellFormed(Current, "2024/04/15")
    ensures OutputName(Current, "i01ar", "2024/04/15") == "I01AR_2024_04_15.mseed"
  {
    assert "I01AR" + "_" + "2024" + "_" + "04" + "_" + "15" + ".mseed" == "I01AR_2024_04_15.mseed";
    assert Upper("i01ar") == "I01AR";
    OneDateParts();
  }

  lemma OneDateCommandHead()
    ensures WellFormed(Current, "2024/04/15")
    ensures "nms_client.sh " + RequestName(Current, "i01ar", "2024/04/15") + " -f "
         == "nms_client.sh I01AR_2024_04_15.req -f "
  {
    assert "nms_client.sh " + "I01AR_2024_04_15.req" == "nms_client.sh I01AR_2024_04_15.req";
    assert "nms_client.sh I01AR_2024_04_15.req" + " -f " == "nms_client.sh I01AR_2024_04_15.req -f ";
    OneDateRequestName();
  }

  lemma OneDateInvocation()
    ensures WellFormed(Current, "2024/04/15")
    ensures Invocation(Current, "i01ar", "2024/04/15") == "nms_client.sh I01AR_2024_04_15.req -f I01AR_2024_04_15.mseed"
  {
    assert "nms_client.sh I01AR_2024_04_15.req -f " + "I01AR_2024_04_15.mseed"
        == "nms_client.sh I01AR_2024_04_15.req -f I01AR_2024_04_15.mseed";
    OneDateOutputName();
    OneDateCommandHead();
  }

  lemma OneDateHandled()
    ensures AllWellFormed(Current, ["2024/04/15"])
    ensures GoodPrefix(Current, ["2024/04/15"]) == 1
  {
    OneDateParts();
    assert OutcomeOf(Current, ["2024/04/15"]) == Completed;
  }

  lemma OneDateCommands()
    ensures AllWellFormed(Current, ["2024/04/15"])
    ensures Commands(Requests(Current, "i01ar", ["2024/04/15"]))
         == ["nms_client.sh I01AR_2024_04_15.req -f I01AR_2024_04_15.mseed"]
  {
    OneDateInvocation();
    OneDateHandled();
    var cs := Commands(Requests(Current, "i01ar", ["2024/04/15"]));
    assert |cs| == 1;
    assert cs[0] == Invocation(Current, "i01ar", "2024/04/15");
  }

  /** One date for station `i01ar`: the script gets the header and exactly
      one command line. */
  lemma ScriptForOneDate(files: map<string, string>)
    ensures ScriptName in AfterCall(files, ["2024/04/15"], "i01ar")
    ensures AfterCall(files, ["2024/04/15"], "i01ar")[ScriptName]
         == Header + Terminated(["nms_client.sh I01AR_2024_04_15.req -f I01AR_2024_04_15.mseed"])
  {
    var dates := ["2024/04/15"];
    OneDateHandled();
    OneDateCommands();
    assert dates[..1] == dates;
    CallScript(files, dates, "i01ar");
  }
}
