/** `main_v1.py`, the earlier version of the pipeline: the same grouping, reconciliation
    and durations, but a parser without the username check, no None results, and the
    report printed line by line. */
module Legacy {
  import opened Types
  import opened PyStr
  import opened Parser
  import opened Grouper
  import opened Reconciler
  import opened Aggregator
  import opened Pipeline

  /** `parse_log` of main_v1.py: three tokens, an action name last, a time first; the
      middle token is taken as the user whatever it holds. */
  function ParseLogV1(line: string): (r: Option<Event>)
    ensures r.Some? ==> 0 <= r.value.time < SecondsPerDay && r.value.user != [] && NoSpace(r.value.user)
  {
    var parts := Split(Strip(line));
    if |parts| != 3 || ActionOf(parts[2]).None? then None
    else
      match ParseTime(parts[0])
      case None => None
      case Some(t) => Some(Event(t, parts[1], ActionOf(parts[2]).value))
  }

  /** A line is accepted exactly when it splits into three tokens, the last "Start" or
      "End" and the first a valid time; the middle token becomes the user whatever it
      holds. */
  lemma ParseLogV1Accepts(line: string)
    ensures ParseLogV1(line).Some? <==>
      var ts := Split(line);
      && |ts| == 3
      && (ts[2] == "Start" || ts[2] == "End")
      && ParseTime(ts[0]).Some?
    ensures ParseLogV1(line).Some? ==>
      var e, ts := ParseLogV1(line).value, Split(line);
      Some(e.time) == ParseTime(ts[0]) && e.user == ts[1] && ActionName(e.action) == ts[2]
  {
    SplitStrip(line);
  }

  /** The events main_v1.py keeps (main_v1.py:37-38), in input order. */
  function AcceptedV1(lines: seq<string>): seq<Event> {
    FilterSome(seq(|lines|, i requires 0 <= i < |lines| => ParseLogV1(lines[i])))
  }

  // ---------------------------------------------------------------------------
  // The methods

  /** The printing loop (main_v1.py:72-73): one line per user, the user, the number of
      sessions and the total seconds separated by single spaces. */
  method PrintedLines(data: Summary) returns (printed: seq<string>)
    requires data.Valid()
    ensures printed == ReportLines(data)
  {
    ghost var lines := ReportLines(data);
    printed := [];
    var i := 0;
    while i < |data.keys|
      invariant 0 <= i <= |data.keys|
      invariant printed == lines[..i]
    {
      var user := data.keys[i];
      var line := ReportLine(user, data.vals[user]);
      assert line == lines[i];
      PrefixSnoc(lines, i);
      printed := printed + [line];
      i := i + 1;
    }
    assert lines[..i] == lines;
  }

  /** `process_logs` of main_v1.py: returns the reconciled dictionary and what it
      prints. With no accepted line, `parsed_logs[0]` raises IndexError, so at least one
      line must be accepted. */
  method ProcessLogsV1(logs: seq<string>) returns (logsByUser: Bins, printed: seq<string>)
    requires AcceptedV1(logs) != []
    ensures var es := AcceptedV1(logs);
      logsByUser == ReconcileAll(Group(es), es[0].time, es[|es| - 1].time)
    ensures printed == ReportLines(LogTimes(logsByUser))
  {
    var parsedLogs := AcceptedV1(logs);
    var firstParsedLog, lastParsedLog := parsedLogs[0].time, parsedLogs[|parsedLogs| - 1].time;
    var grouped := CreateBin(parsedLogs);
    GroupEmpty(parsedLogs);
    var reconciled := MakeEqualBinSize(grouped.value, firstParsedLog, lastParsedLog);
    logsByUser := reconciled.value;
    var data := CalculateLogTime(logsByUser);
    printed := PrintedLines(data.value);
  }

  // ---------------------------------------------------------------------------
  // Facts relating the two versions

  /** main.py's parser is main_v1.py's with the username check added: it accepts exactly
      what main_v1.py accepts with an identifier as the user, and gives the same event. */
  lemma ParseLogRefinesV1(line: string)
    ensures ParseLog(line) ==
      if ParseLogV1(line).Some? && IsIdentifier(ParseLogV1(line).value.user)
      then ParseLogV1(line) else None
  {
    var parts := Split(Strip(line));
    if |parts| == 3 {
      ValidateToken(parts[1]);
    }
  }

  /** When every line main_v1.py accepts names an identifier, both versions keep the same
      events. */
  lemma AcceptedAgree(lines: seq<string>)
    requires forall i :: 0 <= i < |lines| && ParseLogV1(lines[i]).Some? ==>
      IsIdentifier(ParseLogV1(lines[i]).value.user)
    ensures AcceptedV1(lines) == Accepted(lines)
  {
    var v1 := seq(|lines|, i requires 0 <= i < |lines| => ParseLogV1(lines[i]));
    forall i | 0 <= i < |lines|
      ensures v1[i] == Parses(lines)[i]
    {
      ParseLogRefinesV1(lines[i]);
    }
    assert v1 == Parses(lines);
  }

  /** On such a log main_v1.py prints the lines of main.py's report, and main.py's
      report is those lines joined by newlines. */
  lemma SameReport(lines: seq<string>)
    requires AcceptedV1(lines) != []
    requires forall i :: 0 <= i < |lines| && ParseLogV1(lines[i]).Some? ==>
      IsIdentifier(ParseLogV1(lines[i]).value.user)
    ensures SummaryOf(lines).Some?
    ensures var es := AcceptedV1(lines);
      var d := LogTimes(ReconcileAll(Group(es), es[0].time, es[|es| - 1].time));
      && d == SummaryOf(lines).value
      && JoinLines(ReportLines(d)) == ReportText(SummaryOf(lines).value)
  {
    AcceptedAgree(lines);
    SummaryNames(lines);
    ReportIsJoinedLines(SummaryOf(lines).value);
  }

  /** Every event main_v1.py keeps names a non-empty, whitespace-free user. */
  lemma AcceptedV1User(lines: seq<string>, p: nat)
    requires p < |AcceptedV1(lines)|
    ensures AcceptedV1(lines)[p].user != [] && NoSpace(AcceptedV1(lines)[p].user)
  {
    var ps := seq(|lines|, i requires 0 <= i < |lines| => ParseLogV1(lines[i]));
    var idx := SomeIndices(ps);
    assert ps[idx[p]] == Some(AcceptedV1(lines)[p]);
  }

  /** Each printed line reads back as the user, the number of sessions and the total,
      and the number of sessions is the number of reconciled pairs: the length of the
      user's Start list, equal to that of the End list. */
  lemma PrintedCounts(lines: seq<string>)
    requires AcceptedV1(lines) != []
    ensures var es := AcceptedV1(lines);
      var rc := ReconcileAll(Group(es), es[0].time, es[|es| - 1].time);
      var d := LogTimes(rc);
      forall k :: 0 <= k < |d.keys| ==>
        var u := d.keys[k];
        && |d.vals[u]| == |rc.vals[u][Start]| == |rc.vals[u][End]|
        && Split(ReportLines(d)[k]) == [u, NatToString(|d.vals[u]|), IntToString(Sum(d.vals[u]))]
  {
    var es := AcceptedV1(lines);
    var g := Group(es);
    var rc := ReconcileAll(g, es[0].time, es[|es| - 1].time);
    var d := LogTimes(rc);
    UsersOfMembership(es);
    forall k | 0 <= k < |d.keys|
      ensures var u := d.keys[k];
        && |d.vals[u]| == |rc.vals[u][Start]| == |rc.vals[u][End]|
        && Split(ReportLines(d)[k]) == [u, NatToString(|d.vals[u]|), IntToString(Sum(d.vals[u]))]
    {
      var u := d.keys[k];
      assert u in UsersOf(es);
      var p :| 0 <= p < |es| && es[p].user == u;
      AcceptedV1User(lines, p);
      ReconciledBucketMeaning(g.vals[u], es[0].time, es[|es| - 1].time);
      ReportLineShape(u, d.vals[u]);
    }
  }

  /** main_v1.py accepts a user name that starts with a digit; main.py rejects the
      line. */
  lemma DigitNameExample(line: string)
    requires line == "14:02:03 9Alice Start"
    ensures ParseLogV1(line) == Some(Event(50523, "9Alice", Start))
    ensures ParseLog(line).None?
  {
    DigitNameTokens(line);
    ClockExample("14:02:03");
    ParseLogRefinesV1(line);
  }

  lemma DigitNameTokens(line: string)
    requires line == "14:02:03 9Alice Start"
    ensures Split(Strip(line)) == ["14:02:03", "9Alice", "Start"]
  {
    var t, u, a := "14:02:03", "9Alice", "Start";
    assert line == t + " " + u + " " + a;
    ClockExample(t);
    DigitLedName(u);
    ActionNamePlain(Start);
    ThreeTokens(t, u, a);
    SplitStrip(line);
  }
}
