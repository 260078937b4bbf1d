/** `process_logs` and `generate_report`: the stages composed, and the report text. */
module Pipeline {
  import opened Types
  import opened PyStr
  import opened Parser
  import opened Grouper
  import opened Reconciler
  import opened Aggregator

  /** User name to that user's session durations, in order of first appearance. */
  type Summary = Dict<seq<int>>

  /** What `process_logs` computes from the lines of a file: None when no line is
      accepted, otherwise the durations of the grouped and reconciled events, with the
      first and last accepted events' times as padding. */
  function SummaryOf(lines: seq<string>): (r: Option<Summary>)
    ensures r.Some? ==> r.value.Valid()
  {
    var es := Accepted(lines);
    if es == [] then None
    else
      Some(LogTimes(ReconcileAll(Group(es), es[0].time, es[|es| - 1].time)))
  }

  /** `process_logs` (main.py:212-258). `logs` is None when the file could not be read.

      The checks of `create_bin`'s and `make_equal_bin_size`'s results for None at
      main.py:242 and main.py:251 cannot fire once some line is accepted; the method
      asserts that instead of branching. */
  method ProcessLogs(logs: Option<seq<string>>) returns (r: Option<Summary>)
    ensures logs.None? ==> r.None?
    ensures logs.Some? ==> r == SummaryOf(logs.value)
  {
    if logs.None? {
      return None;
    }
    var parsedLogs := ParseAllLogs(logs.value);
    if parsedLogs.None? {
      return None;
    }
    var es := parsedLogs.value;
    var logsByUser := CreateBin(es);
    GroupEmpty(es);
    assert logsByUser.Some?;
    var bins := logsByUser.value;
    var first, last := es[0].time, es[|es| - 1].time;
    var reconciled := MakeEqualBinSize(bins, first, last);
    assert reconciled.Some?;
    var balanced := reconciled.value;
    r := CalculateLogTime(balanced);
  }

  // ---------------------------------------------------------------------------
  // Facts about the composition

  /** `process_logs` gives None exactly when no line is accepted. */
  lemma SummaryNone(lines: seq<string>)
    ensures SummaryOf(lines).None? <==> forall i :: 0 <= i < |lines| ==> ParseLog(lines[i]).None?
  {
    AcceptedEmpty(lines);
  }

  /** The summary lists each user with an accepted line once, in order of first
      appearance, and a user's durations are the reconciled pairs of their own Start and
      End times. */
  lemma SummaryMeaning(lines: seq<string>)
    requires SummaryOf(lines).Some?
    ensures var es, d := Accepted(lines), SummaryOf(lines).value;
      && d.Valid() && d.keys == UsersOf(es)
      && forall u :: u in d.vals ==>
        var s, e := TimesOf(es, u, Start), TimesOf(es, u, End);
        d.vals[u] == Pairwise(ReconciledStarts(s, e, es[0].time), ReconciledEnds(s, e, es[|es| - 1].time))
  {
    var es := Accepted(lines);
    var d := SummaryOf(lines).value;
    forall u | u in d.vals
      ensures var s, e := TimesOf(es, u, Start), TimesOf(es, u, End);
        d.vals[u] == Pairwise(ReconciledStarts(s, e, es[0].time), ReconciledEnds(s, e, es[|es| - 1].time))
    {
      SummaryUser(es, u);
    }
  }

  /** One user's durations, from their own Start and End times. */
  lemma SummaryUser(es: seq<Event>, u: string)
    requires es != [] && u in Group(es).vals
    ensures var d := LogTimes(ReconcileAll(Group(es), es[0].time, es[|es| - 1].time));
      var s, e := TimesOf(es, u, Start), TimesOf(es, u, End);
      u in d.vals && d.vals[u] == Pairwise(ReconciledStarts(s, e, es[0].time), ReconciledEnds(s, e, es[|es| - 1].time))
  {
    GroupLists(es, u);
    ReconciledDurations(Group(es), u, es[0].time, es[|es| - 1].time);
  }

  /** A user's durations after reconciliation, from their grouped lists. */
  lemma ReconciledDurations(g: Bins, u: string, first: Time, last: Time)
    requires u in g.vals
    ensures var d, s, e := LogTimes(ReconcileAll(g, first, last)), Get(g.vals[u], Start), Get(g.vals[u], End);
      u in d.vals && d.vals[u] == Pairwise(ReconciledStarts(s, e, first), ReconciledEnds(s, e, last))
  {
    var rg := ReconcileAll(g, first, last);
    var rb := rg.vals[u];
    assert rb == ReconciledBucket(g.vals[u], first, last);
    assert LogTimes(rg).vals[u] == Pairwise(Get(rb, Start), Get(rb, End));
  }

  /** Every accepted event names an identifier. */
  lemma AcceptedUser(lines: seq<string>, p: nat)
    requires p < |Accepted(lines)|
    ensures IsIdentifier(Accepted(lines)[p].user)
  {
    var idx := SomeIndices(Parses(lines));
    assert Parses(lines)[idx[p]] == Some(Accepted(lines)[p]);
  }

  /** Every user in the summary names an identifier, so the report lines read back. */
  lemma SummaryNames(lines: seq<string>)
    requires SummaryOf(lines).Some?
    ensures forall k :: 0 <= k < |SummaryOf(lines).value.keys| ==> IsIdentifier(SummaryOf(lines).value.keys[k])
    ensures PlainNames(SummaryOf(lines).value)
  {
    var es, d := Accepted(lines), SummaryOf(lines).value;
    SummaryMeaning(lines);
    forall p | 0 <= p < |es|
      ensures IsIdentifier(es[p].user)
    {
      AcceptedUser(lines, p);
    }
    UsersNamed(es);
    assert d.keys == UsersOf(es);
  }

  /** Users whose every event names an identifier are identifiers, hence plain. */
  lemma UsersNamed(es: seq<Event>)
    requires forall p :: 0 <= p < |es| ==> IsIdentifier(es[p].user)
    ensures forall k :: 0 <= k < |UsersOf(es)| ==>
      IsIdentifier(UsersOf(es)[k]) && UsersOf(es)[k] != [] && NoSpace(UsersOf(es)[k])
  {
    UsersOfMembership(es);
    forall k | 0 <= k < |UsersOf(es)|
      ensures IsIdentifier(UsersOf(es)[k]) && UsersOf(es)[k] != [] && NoSpace(UsersOf(es)[k])
    {
      var u := UsersOf(es)[k];
      assert u in UsersOf(es);
      var p :| 0 <= p < |es| && es[p].user == u;
      assert IsIdentifier(u);
    }
  }

  /** A user has as many sessions as their larger count: Ends, or Starts plus the Starts
      inserted by the first pass; so never fewer than either count. */
  lemma SessionCount(lines: seq<string>, u: string)
    requires SummaryOf(lines).Some? && u in SummaryOf(lines).value.vals
    ensures var es := Accepted(lines);
      var s, e := TimesOf(es, u, Start), TimesOf(es, u, End);
      var n := Misaligned(s, e) + |s|;
      |SummaryOf(lines).value.vals[u]| == (if n > |e| then n else |e|)
  {
    var es := Accepted(lines);
    var d := LogTimes(ReconcileAll(Group(es), es[0].time, es[|es| - 1].time));
    assert SummaryOf(lines).value == d;
    SessionCountOf(es, u);
  }

  lemma SessionCountOf(es: seq<Event>, u: string)
    requires es != [] && u in LogTimes(ReconcileAll(Group(es), es[0].time, es[|es| - 1].time)).vals
    ensures var s, e := TimesOf(es, u, Start), TimesOf(es, u, End);
      var n := Misaligned(s, e) + |s|;
      |LogTimes(ReconcileAll(Group(es), es[0].time, es[|es| - 1].time)).vals[u]| == (if n > |e| then n else |e|)
  {
    SummaryUser(es, u);
    ReconciledLengths(TimesOf(es, u, Start), TimesOf(es, u, End), es[0].time, es[|es| - 1].time);
  }

  /** Accepted events in time order. */
  ghost predicate Chronological(es: seq<Event>) {
    forall i, j :: 0 <= i <= j < |es| ==> es[i].time <= es[j].time
  }

  /** In a chronological log a user's times of one action are in order and lie between
      the first and the last event's time. */
  lemma {:induction false} TimesOfInOrder(es: seq<Event>, u: string, a: Action)
    requires es != [] && Chronological(es)
    ensures Sorted(TimesOf(es, u, a))
    ensures forall k :: 0 <= k < |TimesOf(es, u, a)| ==>
      es[0].time <= TimesOf(es, u, a)[k] <= es[|es| - 1].time
  {
    var n := |es| - 1;
    var init := es[..n];
    var ts := TimesOf(es, u, a);
    if n == 0 {
      assert TimesOf(init, u, a) == [];
    } else {
      assert Chronological(init);
      TimesOfInOrder(init, u, a);
      var ts' := TimesOf(init, u, a);
      assert es[0].time == init[0].time && init[n - 1].time <= es[n].time;
      if es[n].user == u && es[n].action == a {
        assert ts == ts' + [es[n].time];
      } else {
        assert ts == ts';
      }
    }
  }

  /** Every duration of a chronological log is non-negative. */
  lemma ChronologicalNonNegative(lines: seq<string>)
    requires SummaryOf(lines).Some? && Chronological(Accepted(lines))
    ensures var d := SummaryOf(lines).value;
      forall u, k :: u in d.vals && 0 <= k < |d.vals[u]| ==> d.vals[u][k] >= 0
  {
    SummaryMeaning(lines);
    var es, d := Accepted(lines), SummaryOf(lines).value;
    var first, last := es[0].time, es[|es| - 1].time;
    forall u | u in d.vals
      ensures forall k :: 0 <= k < |d.vals[u]| ==> d.vals[u][k] >= 0
    {
      var s, e := TimesOf(es, u, Start), TimesOf(es, u, End);
      TimesOfInOrder(es, u, Start);
      TimesOfInOrder(es, u, End);
      ReconciledPairsInOrder(s, e, first, last);
    }
  }

  /** Out of time order, durations can be negative: user A's Start at second 10 and End
      at second 5 give two sessions of -5 seconds each, since the first pass inserts the
      first timestamp (second 10) before the Start and the second pass pads the End list
      with the last timestamp (second 5). */
  lemma OutOfOrderLog(lines: seq<string>)
    requires lines == ["00:00:10 A Start", "00:00:05 A End"]
    ensures SummaryOf(lines).Some? && SummaryOf(lines).value.keys == ["A"]
    ensures SummaryOf(lines).value.vals["A"] == [-5, -5]
  {
    ParsesLateStart(lines[0]);
    ParsesEarlyEnd(lines[1]);
    LateStartEarlyEnd(lines);
  }

  lemma LateStartEarlyEnd(lines: seq<string>)
    requires |lines| == 2
    requires ParseLog(lines[0]) == Some(Event(10, "A", Start))
    requires ParseLog(lines[1]) == Some(Event(5, "A", End))
    ensures SummaryOf(lines).Some? && SummaryOf(lines).value.keys == ["A"]
    ensures SummaryOf(lines).value.vals["A"] == [-5, -5]
  {
    AcceptedPair(lines, Event(10, "A", Start), Event(5, "A", End));
    var es := Accepted(lines);
    LateStartEarlyEndGroup(es);
    LateStartEarlyEndBins(Group(es));
  }

  /** Two lines, both accepted: their two events. */
  lemma AcceptedPair(lines: seq<string>, e1: Event, e2: Event)
    requires |lines| == 2 && ParseLog(lines[0]) == Some(e1) && ParseLog(lines[1]) == Some(e2)
    ensures Accepted(lines) == [e1, e2]
  {
    var ps := Parses(lines);
    assert ps[0] == Some(e1) && ps[1] == Some(e2);
    assert ps == [Some(e1), Some(e2)];
    FilterSomePair(e1, e2);
  }

  lemma LateStartEarlyEndBins(g: Bins)
    requires g.keys == ["A"] && g.vals.Keys == {"A"}
    requires Get(g.vals["A"], Start) == [10] && Get(g.vals["A"], End) == [5]
    ensures var d := LogTimes(ReconcileAll(g, 10, 5));
      d.keys == ["A"] && "A" in d.vals && d.vals["A"] == [-5, -5]
  {
    OutOfOrderGivesNegative();
    var b := ReconciledBucket(g.vals["A"], 10, 5);
    assert b[Start] == [10, 10] && b[End] == [5, 5];
    assert Pairwise([10, 10], [5, 5]) == [-5, -5];
  }

  lemma LateStartEarlyEndGroup(es: seq<Event>)
    requires es == [Event(10, "A", Start), Event(5, "A", End)]
    ensures Group(es).keys == ["A"] && Group(es).vals.Keys == {"A"}
    ensures Get(Group(es).vals["A"], Start) == [10] && Get(Group(es).vals["A"], End) == [5]
  {
    SameUserPair(es[0], es[1]);
  }

  lemma ParsesLateStart(line: string)
    requires line == "00:00:10 A Start"
    ensures ParseLog(line) == Some(Event(10, "A", Start))
  {
    var tt, u, an := "00:00:10", "A", "Start";
    assert line == tt + " " + u + " " + an;
    SecondsClock(tt, "10", 10);
    assert IsIdentifier(u);
    AcceptedLine(line, tt, u, an, 10, Start);
  }

  lemma ParsesEarlyEnd(line: string)
    requires line == "00:00:05 A End"
    ensures ParseLog(line) == Some(Event(5, "A", End))
  {
    var tt, u, an := "00:00:05", "A", "End";
    assert line == tt + " " + u + " " + an;
    SecondsClock(tt, "05", 5);
    assert IsIdentifier(u);
    AcceptedLine(line, tt, u, an, 5, End);
  }

  /** `00:00:ss` is `ss` seconds after midnight. */
  lemma SecondsClock(tt: string, ss: string, t: Time)
    requires |ss| == 2 && AllDigits(ss) && DecimalValue(ss) == t <= 59
    requires tt == "00" + [':'] + "00" + [':'] + ss
    ensures ParseTime(tt) == Some(t) && tt != [] && NoSpace(tt)
  {
    var zz := "00";
    assert tt == zz + [':'] + zz + [':'] + ss;
    TwoDigitFields(tt, zz, zz, ss);
    ClockTokenPlain(tt, zz, zz, ss);
    ShortDecimalValue(zz);
  }

  lemma FilterSomePair<T>(x: T, y: T)
    ensures FilterSome([Some(x), Some(y)]) == [x, y]
  {
    var xs := [Some(x), Some(y)];
    assert xs[..1] == [Some(x)];
    assert [Some(x)][..0] == [];
    assert FilterSome([Some(x)]) == FilterSome([]) + [x] == [x];
    assert FilterSome(xs) == FilterSome([Some(x)]) + [y];
  }

  /** Two events of one user: the user alone, each action with its own time. */
  lemma SameUserPair(e1: Event, e2: Event)
    requires e1.user == e2.user && e1.action == Start && e2.action == End
    ensures UsersOf([e1, e2]) == [e1.user]
    ensures TimesOf([e1, e2], e1.user, Start) == [e1.time]
    ensures TimesOf([e1, e2], e1.user, End) == [e2.time]
  {
    var es := [e1, e2];
    assert es[..1] == [e1];
    assert [e1][..0] == [];
    assert UsersOf([e1]) == UsersOf([]) + [e1.user] == [e1.user];
    assert TimesOf([e1], e1.user, Start) == [e1.time];
    assert TimesOf([e1], e1.user, End) == [];
  }

  // ---------------------------------------------------------------------------
  // The report

  /** One report line: the user, the number of sessions and the total seconds
      (`int(sum(...))` of whole-second values). */
  function ReportLine(user: string, durations: seq<int>): string {
    user + " " + IntToString(|durations|) + " " + IntToString(Sum(durations))
  }

  /** The report's lines, one per user in the summary's order. */
  function ReportLines(d: Summary): (ls: seq<string>)
    requires d.Valid()
    ensures |ls| == |d.keys|
  {
    seq(|d.keys|, i requires 0 <= i < |d.keys| => ReportLine(d.keys[i], d.vals[d.keys[i]]))
  }

  /** Lines each followed by a newline, as the loop at main.py:283-285 accumulates them. */
  function Terminated(ls: seq<string>): (r: string)
    ensures ls == [] <==> r == []
    ensures r != [] ==> r[|r| - 1] == '\n'
  {
    if ls == [] then "" else ls[0] + "\n" + Terminated(ls[1..])
  }

  /** `"\n".join(ls)` */
  function JoinLines(ls: seq<string>): string {
    if |ls| == 0 then ""
    else if |ls| == 1 then ls[0]
    else ls[0] + "\n" + JoinLines(ls[1..])
  }

  /** The text `generate_report` returns for a summary. */
  function ReportText(d: Summary): (r: string)
    requires d.Valid()
    ensures r == [] || (!IsSpace(r[0]) && !IsSpace(r[|r| - 1]))
  {
    Strip(Terminated(ReportLines(d)))
  }

  /** The loop and the final `strip()` of `generate_report` (main.py:283-287). */
  method RenderReport(summary: Summary) returns (textToPrint: string)
    requires summary.Valid()
    ensures textToPrint == ReportText(summary)
  {
    ghost var lines := ReportLines(summary);
    textToPrint := "";
    var i := 0;
    while i < |summary.keys|
      invariant 0 <= i <= |summary.keys|
      invariant textToPrint == Terminated(lines[..i])
    {
      var userName := summary.keys[i];
      var text := ReportLine(userName, summary.vals[userName]);
      assert text == lines[i];
      TerminatedSnoc(lines[..i], text);
      PrefixSnoc(lines, i);
      textToPrint := textToPrint + text + "\n";
      i := i + 1;
    }
    assert lines[..i] == lines;
    textToPrint := Strip(textToPrint);
  }

  /** `generate_report` (main.py:261-289). `contents` stands for what `read_file`
      returned: None when the file could not be read or was empty. */
  method GenerateReport(contents: Option<seq<string>>) returns (r: Option<string>)
    ensures contents.None? || SummaryOf(contents.value).None? <==> r.None?
    ensures r.Some? ==> r.value == ReportText(SummaryOf(contents.value).value)
  {
    if contents.None? {
      return None;
    }
    var summary := ProcessLogs(contents);
    if summary.None? {
      return None;
    }
    SummaryMeaning(contents.value);
    var text := RenderReport(summary.value);
    r := Some(text);
  }

  // ---------------------------------------------------------------------------
  // Facts about the report

  lemma {:induction false} TerminatedSnoc(ls: seq<string>, l: string)
    ensures Terminated(ls + [l]) == Terminated(ls) + l + "\n"
  {
    if ls != [] {
      assert (ls + [l])[1..] == ls[1..] + [l];
      TerminatedSnoc(ls[1..], l);
    } else {
      assert Terminated([l]) == l + "\n" + Terminated([]);
    }
  }

  lemma {:induction false} TerminatedJoin(ls: seq<string>)
    requires ls != []
    ensures Terminated(ls) == JoinLines(ls) + "\n"
  {
    if |ls| == 1 {
      assert ls[1..] == [];
      assert Terminated(ls[1..]) == "";
      assert Terminated(ls) == ls[0] + "\n" + "";
    } else {
      TerminatedJoin(ls[1..]);
    }
  }

  lemma {:induction false} JoinLinesEdges(ls: seq<string>)
    requires ls != [] && forall k :: 0 <= k < |ls| ==> ls[k] != []
    ensures JoinLines(ls) != []
    ensures JoinLines(ls)[0] == ls[0][0]
    ensures JoinLines(ls)[|JoinLines(ls)| - 1] == ls[|ls| - 1][|ls[|ls| - 1]| - 1]
  {
    if |ls| == 1 {
      assert JoinLines(ls) == ls[0];
    } else {
      JoinLinesEdges(ls[1..]);
    }
  }

  /** A report line for an identifier starts and ends with a visible character, holds no
      newline, and splits into the user, the session count and the total. */
  lemma ReportLineShape(u: string, ds: seq<int>)
    requires u != [] && NoSpace(u)
    ensures var line := ReportLine(u, ds);
      && line != [] && !IsSpace(line[0]) && !IsSpace(line[|line| - 1])
      && '\n' !in line
      && Split(line) == [u, NatToString(|ds|), IntToString(Sum(ds))]
  {
    var c, t := IntToString(|ds|), IntToString(Sum(ds));
    var line := u + " " + c + " " + t;
    assert line[0] == u[0];
    assert line[|line| - 1] == t[|t| - 1];
    forall q | 0 <= q < |line|
      ensures line[q] != '\n'
    {
      if q < |u| {
        assert line[q] == u[q];
      } else if q == |u| || q == |u| + 1 + |c| {
        assert line[q] == ' ';
      } else if q < |u| + 1 + |c| {
        assert line[q] == c[q - |u| - 1];
      } else {
        assert line[q] == t[q - |u| - 2 - |c|];
      }
    }
    ThreeTokens(u, c, t);
  }

  /** User names that are non-empty and hold no whitespace, as every accepted line's
      are. */
  predicate PlainNames(d: Summary) {
    forall k :: 0 <= k < |d.keys| ==> d.keys[k] != [] && NoSpace(d.keys[k])
  }

  /** When every user name is plain, the report is its lines joined by newlines: the
      final `strip()` removes only the last newline. */
  lemma ReportIsJoinedLines(d: Summary)
    requires d.Valid() && PlainNames(d)
    ensures ReportText(d) == JoinLines(ReportLines(d))
  {
    var ls := ReportLines(d);
    if ls == [] {
      assert Terminated(ls) == "";
    } else {
      TerminatedJoin(ls);
      PlainLines(d);
      JoinLinesEdges(ls);
      StripTrailingNewline(JoinLines(ls));
    }
  }

  /** With plain user names every report line is visible at both ends and holds no
      newline. */
  lemma PlainLines(d: Summary)
    requires d.Valid() && PlainNames(d)
    ensures var ls := ReportLines(d);
      forall k :: 0 <= k < |ls| ==>
        ls[k] != [] && !IsSpace(ls[k][0]) && !IsSpace(ls[k][|ls[k]| - 1]) && '\n' !in ls[k]
  {
    var ls := ReportLines(d);
    forall k | 0 <= k < |ls|
      ensures ls[k] != [] && !IsSpace(ls[k][0]) && !IsSpace(ls[k][|ls[k]| - 1]) && '\n' !in ls[k]
    {
      ReportLineShape(d.keys[k], d.vals[d.keys[k]]);
    }
  }

  lemma {:induction false} SplitOnJoinLines(ls: seq<string>, cur: string)
    requires ls != [] && forall k :: 0 <= k < |ls| ==> '\n' !in ls[k]
    ensures SplitOnFrom(JoinLines(ls), '\n', cur) == [cur + ls[0]] + ls[1..]
  {
    if |ls| == 1 {
      SplitOnWord(ls[0], [], '\n', cur);
      assert ls[0] + [] == ls[0] == JoinLines(ls);
      assert ls[1..] == [];
    } else {
      var rest := JoinLines(ls[1..]);
      assert JoinLines(ls) == ls[0] + ("\n" + rest);
      SplitOnWord(ls[0], "\n" + rest, '\n', cur);
      assert ("\n" + rest)[1..] == rest;
      SplitOnJoinLines(ls[1..], []);
      assert [] + ls[1..][0] == ls[1];
      assert [ls[1]] + ls[1..][1..] == ls[1..];
    }
  }

  /** Reading the report back: it splits on newlines into exactly its lines, one per
      user in order (each of which `ReportLineShape` reads back into its three fields). */
  lemma ReportRoundTrip(d: Summary)
    requires d.Valid() && d.keys != [] && PlainNames(d)
    ensures SplitOn(ReportText(d), '\n') == ReportLines(d)
  {
    ReportIsJoinedLines(d);
    PlainLines(d);
    SplitJoinLines(ReportLines(d));
  }

  /** Lines without newlines, joined by newlines, split back into the same lines. */
  lemma SplitJoinLines(ls: seq<string>)
    requires ls != [] && forall k :: 0 <= k < |ls| ==> '\n' !in ls[k]
    ensures SplitOn(JoinLines(ls), '\n') == ls
  {
    SplitOnJoinLines(ls, []);
    var first: string := [] + ls[0];
    assert first == ls[0];
    assert [ls[0]] + ls[1..] == ls;
  }

  /** Whatever `generate_report` returns splits at its newlines into one line per user,
      each of which splits into the user, the number of sessions and the total. */
  lemma GeneratedReportReadsBack(lines: seq<string>)
    requires SummaryOf(lines).Some?
    ensures var d := SummaryOf(lines).value;
      && SplitOn(ReportText(d), '\n') == ReportLines(d)
      && forall k :: 0 <= k < |d.keys| ==>
        Split(ReportLines(d)[k]) == [d.keys[k], NatToString(|d.vals[d.keys[k]]|), IntToString(Sum(d.vals[d.keys[k]]))]
  {
    var d := SummaryOf(lines).value;
    var es := Accepted(lines);
    SummaryNames(lines);
    SummaryMeaning(lines);
    UsersOfMembership(es);
    assert es[0].user in UsersOf(es);
    ReportRoundTrip(d);
    forall k | 0 <= k < |d.keys|
      ensures Split(ReportLines(d)[k]) == [d.keys[k], NatToString(|d.vals[d.keys[k]]|), IntToString(Sum(d.vals[d.keys[k]]))]
    {
      ReportLineShape(d.keys[k], d.vals[d.keys[k]]);
    }
  }

  /** The repository's report fixture: ALICE99 with four sessions totalling 240 seconds
      and CHARLIE with three totalling 37. */
  lemma FixtureReport(d: Summary, alice: string, charlie: string)
    requires alice == "ALICE99" && charlie == "CHARLIE"
    requires d == Dict([alice, charlie], map[alice := [31, 92, 67, 50], charlie := [2, 35, 0]])
    ensures ReportLines(d) == ["ALICE99 4 240", "CHARLIE 3 37"]
  {
    assert alice != charlie by {
      assert alice[0] != charlie[0];
    }
    var ls := ReportLines(d);
    assert d.vals[alice] == [31, 92, 67, 50] && d.vals[charlie] == [2, 35, 0];
    FixtureLine(alice, [31, 92, 67, 50], "ALICE99 4 240");
    FixtureLine(charlie, [2, 35, 0], "CHARLIE 3 37");
    assert ls == [ls[0], ls[1]];
  }

  /** The same fixture as the text `generate_report` returns: the two lines joined by
      one newline, with no trailing newline. */
  lemma FixtureReportText(d: Summary, alice: string, charlie: string)
    requires alice == "ALICE99" && charlie == "CHARLIE"
    requires d == Dict([alice, charlie], map[alice := [31, 92, 67, 50], charlie := [2, 35, 0]])
    ensures ReportText(d) == "ALICE99 4 240" + "\n" + "CHARLIE 3 37"
  {
    FixtureReport(d, alice, charlie);
    AliceName(alice);
    CharlieName(charlie);
    TwoPlainNames(d, alice, charlie);
    TwoLineReport(d, "ALICE99 4 240", "CHARLIE 3 37");
  }

  lemma TwoPlainNames(d: Summary, a: string, b: string)
    requires d.keys == [a, b] && a != [] && NoSpace(a) && b != [] && NoSpace(b)
    ensures PlainNames(d)
  {
  }

  /** A two-user report is its two lines joined by one newline. */
  lemma TwoLineReport(d: Summary, l1: string, l2: string)
    requires d.Valid() && PlainNames(d) && ReportLines(d) == [l1, l2]
    ensures ReportText(d) == l1 + "\n" + l2
  {
    ReportIsJoinedLines(d);
    assert [l1, l2][1..] == [l2];
  }

  lemma CharlieName(u: string)
    requires u == "CHARLIE"
    ensures u != [] && NoSpace(u)
  {
    assert ValidateUsername("CHARLIE");
    MatchedIdentifier(u);
    IdentifierPlain(u);
  }

  /** One line of the fixture: the count and the total spelled out. */
  lemma FixtureLine(u: string, ds: seq<int>, line: string)
    requires || (u == "ALICE99" && ds == [31, 92, 67, 50] && line == "ALICE99 4 240")
             || (u == "CHARLIE" && ds == [2, 35, 0] && line == "CHARLIE 3 37")
    ensures ReportLine(u, ds) == line
  {
    if u == "ALICE99" {
      assert Sum(ds) == 240 by {
        assert [31, 92, 67, 50][1..] == [92, 67, 50];
        assert [92, 67, 50][1..] == [67, 50];
        assert [67, 50][1..] == [50];
        assert Sum([50]) == 50;
        assert Sum([67, 50]) == 117;
        assert Sum([92, 67, 50]) == 209;
      }
      assert IntToString(4) == "4" && IntToString(240) == "240";
      assert "ALICE99 4 240" == "ALICE99" + " " + "4" + " " + "240";
    } else {
      assert Sum(ds) == 37 by {
        assert [2, 35, 0][1..] == [35, 0];
        assert [35, 0][1..] == [0];
        assert Sum([0]) == 0;
        assert Sum([35, 0]) == 35;
      }
      assert IntToString(3) == "3" && IntToString(37) == "37";
      assert "CHARLIE 3 37" == "CHARLIE" + " " + "3" + " " + "37";
    }
  }
}
