/** The event parser and username validator of `main.py`: one log line becomes a
    `(time, user, action)` event or is rejected, and `parse_all_logs` keeps the accepted
    lines in input order. */
module Parser {
  import opened Types
  import opened PyStr

  // ---------------------------------------------------------------------------
  // validate_username: re.match(r"^[a-zA-Z][a-zA-Z0-9]*$", username)

  predicate IsAsciiLetter(c: char) {
    'a' <= c <= 'z' || 'A' <= c <= 'Z'
  }

  predicate IsAsciiAlnum(c: char) {
    IsAsciiLetter(c) || IsDigit(c)
  }

  /** A non-empty name of ASCII letters and digits that starts with a letter. */
  predicate IsIdentifier(u: string) {
    && |u| > 0
    && IsAsciiLetter(u[0])
    && forall k :: 1 <= k < |u| ==> IsAsciiAlnum(u[k])
  }

  /** The regular expression's tail `[a-zA-Z0-9]*$` run from position `i`: the star
      takes letters and digits greedily, then `$` matches at the end of the string or
      just before a final newline. Backtracking cannot help, because a position the
      star gives back holds a letter or digit, where `$` fails. */
  function MatchTail(u: string, i: nat): bool
    requires i <= |u|
    decreases |u| - i
  {
    if i < |u| && IsAsciiAlnum(u[i]) then MatchTail(u, i + 1)
    else i == |u| || (i == |u| - 1 && u[i] == '\n')
  }

  /** `validate_username` */
  function ValidateUsername(u: string): bool {
    |u| > 0 && IsAsciiLetter(u[0]) && MatchTail(u, 1)
  }

  lemma {:induction false} MatchTailMeaning(u: string, i: nat)
    requires i <= |u|
    ensures MatchTail(u, i) <==>
      || (forall k :: i <= k < |u| ==> IsAsciiAlnum(u[k]))
      || (i < |u| && u[|u| - 1] == '\n' && forall k :: i <= k < |u| - 1 ==> IsAsciiAlnum(u[k]))
    decreases |u| - i
  {
    if i < |u| && IsAsciiAlnum(u[i]) {
      MatchTailMeaning(u, i + 1);
    }
  }

  /** A name is accepted exactly when it is an identifier, or an identifier followed by
      one newline (Python's `$` also matches before a final newline). */
  lemma ValidateUsernameMeaning(u: string)
    ensures ValidateUsername(u) <==>
      IsIdentifier(u) || (|u| >= 2 && u[|u| - 1] == '\n' && IsIdentifier(u[..|u| - 1]))
  {
    if |u| > 0 {
      MatchTailMeaning(u, 1);
    }
  }

  /** On a whitespace-free token, as `split()` produces, validation is exactly the
      identifier grammar. */
  lemma ValidateToken(u: string)
    requires NoSpace(u)
    ensures ValidateUsername(u) <==> IsIdentifier(u)
  {
    ValidateUsernameMeaning(u);
    if |u| >= 1 {
      assert !IsSpace(u[|u| - 1]);
    }
  }

  // ---------------------------------------------------------------------------
  // datetime.strptime(timestamp_str, "%H:%M:%S")

  /** One numeric field of the format: `%H`, `%M` and `%S` each read one or two ASCII
      digits. */
  function Field(f: string): (r: Option<nat>)
    ensures r.Some? ==> r.value < 100
  {
    if 1 <= |f| <= 2 && AllDigits(f) then
      ShortDecimalValue(f);
      Some(DecimalValue(f))
    else None
  }

  /** The time of day a token denotes under `%H:%M:%S`, or None where strptime raises
      ValueError: a wrong shape, an hour above 23, a minute above 59, or a second above
      59 (the pattern admits 60 and 61, which the datetime constructor then rejects). */
  function ParseTime(tok: string): (r: Option<Time>)
    ensures r.Some? ==> 0 <= r.value < SecondsPerDay
  {
    var fs := SplitOn(tok, ':');
    if |fs| != 3 then None
    else
      match (Field(fs[0]), Field(fs[1]), Field(fs[2]))
      case (Some(h), Some(m), Some(s)) =>
        if h <= 23 && m <= 59 && s <= 59 then Some(h * 3600 + m * 60 + s) else None
      case _ => None
  }

  /** `%02d` */
  function Pad2(n: nat): (r: string)
    requires n < 100
    ensures |r| == 2 && AllDigits(r) && NoSpace(r)
  {
    [DigitChar(n / 10), DigitChar(n % 10)]
  }

  /** `t.strftime("%H:%M:%S")` for a time of day. */
  function FormatTime(t: Time): string
    requires 0 <= t < SecondsPerDay
  {
    var r := t % 3600;
    Pad2(t / 3600) + ":" + Pad2(r / 60) + ":" + Pad2(r % 60)
  }

  lemma Pad2Field(n: nat)
    requires n < 100
    ensures Field(Pad2(n)) == Some(n)
  {
    ShortDecimalValue(Pad2(n));
  }

  /** Parsing a formatted time of day gives it back. */
  lemma ParseFormatTime(t: Time)
    requires 0 <= t < SecondsPerDay
    ensures ParseTime(FormatTime(t)) == Some(t)
  {
    var r := t % 3600;
    var a, b, c := Pad2(t / 3600), Pad2(r / 60), Pad2(r % 60);
    assert FormatTime(t) == a + [':'] + b + [':'] + c;
    SplitOnThree(a, b, c, ':');
    Pad2Field(t / 3600);
    Pad2Field(r / 60);
    Pad2Field(r % 60);
  }

  // ---------------------------------------------------------------------------
  // parse_log

  /** The action a token names; `parse_log` accepts only these two words. */
  function ActionOf(tok: string): (r: Option<Action>)
    ensures r.Some? <==> tok == "Start" || tok == "End"
    ensures r.Some? ==> ActionName(r.value) == tok
  {
    if tok == "Start" then Some(Start) else if tok == "End" then Some(End) else None
  }

  function ActionName(a: Action): string {
    match a
    case Start => "Start"
    case End => "End"
  }

  /** `parse_log`: the stripped line must split into exactly three tokens, the last
      "Start" or "End", the middle a valid username and the first a time. */
  function ParseLog(line: string): (r: Option<Event>)
    ensures r.Some? ==> 0 <= r.value.time < SecondsPerDay && IsIdentifier(r.value.user)
  {
    var parts := Split(Strip(line));
    if |parts| != 3 || ActionOf(parts[2]).None? || !ValidateUsername(parts[1]) then None
    else
      ValidateToken(parts[1]);
      match ParseTime(parts[0])
      case None => None
      case Some(t) => Some(Event(t, parts[1], ActionOf(parts[2]).value))
  }

  /** A line is accepted exactly when its whitespace-separated tokens are a time, an
      identifier and an action name, and the event holds those three. */
  lemma ParseLogAccepts(line: string)
    ensures ParseLog(line).Some? <==>
      var ts := Split(line);
      && |ts| == 3
      && (ts[2] == "Start" || ts[2] == "End")
      && IsIdentifier(ts[1])
      && ParseTime(ts[0]).Some?
    ensures ParseLog(line).Some? ==>
      var e, ts := ParseLog(line).value, Split(line);
      Some(e.time) == ParseTime(ts[0]) && e.user == ts[1] && ActionName(e.action) == ts[2]
  {
    SplitStrip(line);
    var ts := Split(line);
    if |ts| == 3 {
      ValidateToken(ts[1]);
    }
  }

  /** The canonical text of an event, `"HH:MM:SS user action"`. */
  function FormatEvent(e: Event): string
    requires 0 <= e.time < SecondsPerDay
  {
    FormatTime(e.time) + " " + e.user + " " + ActionName(e.action)
  }

  /** Parsing the canonical text of an event with a valid username gives the event. */
  lemma ParseFormatEvent(e: Event)
    requires 0 <= e.time < SecondsPerDay && IsIdentifier(e.user)
    ensures ParseLog(FormatEvent(e)) == Some(e)
  {
    var t, a := FormatTime(e.time), ActionName(e.action);
    var r := e.time % 3600;
    ClockTokenPlain(t, Pad2(e.time / 3600), Pad2(r / 60), Pad2(r % 60));
    IdentifierPlain(e.user);
    ActionNamePlain(e.action);
    JoinSpaceThree(t, e.user, a);
    SplitJoinSpace([t, e.user, a]);
    ParseFormatTime(e.time);
    ParseLogAccepts(FormatEvent(e));
  }

  // ---------------------------------------------------------------------------
  // parse_all_logs

  /** The values of the present entries, in order. */
  function FilterSome<T>(xs: seq<Option<T>>): seq<T> {
    if xs == [] then []
    else FilterSome(xs[..|xs| - 1]) + (if xs[|xs| - 1].Some? then [xs[|xs| - 1].value] else [])
  }

  /** The positions of the present entries, in increasing order. */
  ghost function SomeIndices<T>(xs: seq<Option<T>>): (idx: seq<nat>)
    ensures |idx| == |FilterSome(xs)|
    ensures forall a, b :: 0 <= a < b < |idx| ==> idx[a] < idx[b]
    ensures forall k :: 0 <= k < |idx| ==> idx[k] < |xs| && xs[idx[k]] == Some(FilterSome(xs)[k])
    ensures forall i :: 0 <= i < |xs| && xs[i].Some? ==> i in idx
  {
    if xs == [] then []
    else
      var n := |xs| - 1;
      var init := SomeIndices(xs[..n]);
      assert forall k :: 0 <= k < |init| ==> xs[init[k]] == xs[..n][init[k]];
      if xs[n].Some? then init + [n] else init
  }

  /** Nothing survives the filter exactly when every entry is absent. */
  lemma FilterSomeEmpty<T>(xs: seq<Option<T>>)
    ensures FilterSome(xs) == [] <==> forall i :: 0 <= i < |xs| ==> xs[i].None?
  {
    var idx := SomeIndices(xs);
    if FilterSome(xs) != [] {
      assert xs[idx[0]].Some?;
    }
  }

  lemma FilterSomeStep<T>(xs: seq<Option<T>>, i: nat)
    requires i < |xs|
    ensures FilterSome(xs[..i + 1]) ==
      FilterSome(xs[..i]) + (if xs[i].Some? then [xs[i].value] else [])
  {
    assert xs[..i + 1][..i] == xs[..i];
  }

  /** `parse_log` applied to every line. */
  function Parses(lines: seq<string>): (ps: seq<Option<Event>>)
    ensures |ps| == |lines|
  {
    seq(|lines|, i requires 0 <= i < |lines| => ParseLog(lines[i]))
  }

  /** The events of the accepted lines, in input order. */
  function Accepted(lines: seq<string>): seq<Event> {
    FilterSome(Parses(lines))
  }

  /** No event is accepted exactly when every line is rejected. */
  lemma AcceptedEmpty(lines: seq<string>)
    ensures Accepted(lines) == [] <==> forall i :: 0 <= i < |lines| ==> ParseLog(lines[i]).None?
  {
    FilterSomeEmpty(Parses(lines));
    assert forall j :: 0 <= j < |lines| ==> Parses(lines)[j] == ParseLog(lines[j]);
  }

  /** `parse_all_logs`: the accepted events in input order, or None when no line is
      accepted. */
  method ParseAllLogs(logs: seq<string>) returns (r: Option<seq<Event>>)
    ensures r.None? <==> forall i :: 0 <= i < |logs| ==> ParseLog(logs[i]).None?
    ensures r.None? <==> Accepted(logs) == []
    ensures r.Some? ==> r.value == Accepted(logs)
  {
    var parsedLogs: seq<Event> := [];
    var i := 0;
    while i < |logs|
      invariant 0 <= i <= |logs|
      invariant parsedLogs == FilterSome(Parses(logs)[..i])
    {
      var parsedLog := ParseLog(logs[i]);
      FilterSomeStep(Parses(logs), i);
      if parsedLog.Some? {
        parsedLogs := parsedLogs + [parsedLog.value];
      }
      i := i + 1;
    }
    assert Parses(logs)[..i] == Parses(logs);
    AcceptedEmpty(logs);
    if |parsedLogs| == 0 {
      return None;
    }
    return Some(parsedLogs);
  }

  // ---------------------------------------------------------------------------
  // Cases from the repository's tests

  lemma UsernameExamples()
    ensures ValidateUsername("Alice99") && ValidateUsername("xyz123")
    ensures !ValidateUsername("9Alice") && !ValidateUsername("Alice#99")
    ensures !ValidateUsername("Alice 99") && !ValidateUsername("")
    ensures !ValidateUsername("@xyz") && !ValidateUsername(" abc")
  {
    ValidateUsernameMeaning("Alice#99");
    ValidateUsernameMeaning("Alice 99");
  }

  lemma ParseLogAcceptsExample(line: string)
    requires line == "14:02:03 ALICE99 Start"
    ensures ParseLog(line) == Some(Event(50523, "ALICE99", Start))
  {
    var tt, u, an := "14:02:03", "ALICE99", "Start";
    assert line == tt + " " + u + " " + an;
    ClockExample(tt);
    AliceName(u);
    AcceptedLine(line, tt, u, an, 50523, Start);
  }

  /** `14:02:03` is 50523 seconds after midnight. */
  lemma ClockExample(tt: string)
    requires tt == "14:02:03"
    ensures ParseTime(tt) == Some(50523)
    ensures tt != [] && NoSpace(tt)
  {
    var hh, mm, ss := "14", "02", "03";
    assert tt == hh + [':'] + mm + [':'] + ss;
    TwoDigitFields(tt, hh, mm, ss);
    ClockTokenPlain(tt, hh, mm, ss);
    ShortDecimalValue(hh);
    ShortDecimalValue(mm);
    ShortDecimalValue(ss);
  }

  /** `ALICE99` is a valid username. */
  lemma AliceName(u: string)
    requires u == "ALICE99"
    ensures IsIdentifier(u) && u != [] && NoSpace(u)
  {
    assert ValidateUsername("ALICE99");
    MatchedIdentifier(u);
    IdentifierPlain(u);
  }

  lemma ParseLogRejectsAction(line: string)
    requires line == "14:02:03 ALICE99 InvalidAction"
    ensures ParseLog(line).None?
  {
    var tt, u, an := "14:02:03", "ALICE99", "InvalidAction";
    assert line == "14:02:03" + " " + "ALICE99" + " " + "InvalidAction";
    ClockExample(tt);
    AliceName(u);
    InvalidActionWord(an);
    ThreeTokens(tt, u, an);
    ParseLogAccepts(line);
  }

  /** `InvalidAction` is one token and no action name. */
  lemma InvalidActionWord(w: string)
    requires w == "InvalidAction"
    ensures w != [] && NoSpace(w) && w != "Start" && w != "End"
  {
    var a, b := "Invalid", "Action";
    assert w == a + b;
    MatchedIdentifier(a);
    IdentifierPlain(a);
    MatchedIdentifier(b);
    IdentifierPlain(b);
    NoSpaceAppend(a, b);
  }

  lemma ParseLogRejectsUsername(line: string)
    requires line == "14:02:03 9Alice Start"
    ensures ParseLog(line).None?
  {
    var tt, u, an := "14:02:03", "9Alice", "Start";
    assert line == tt + " " + u + " " + an;
    ClockExample(tt);
    DigitLedName(u);
    ActionNamePlain(Start);
    ThreeTokens(tt, u, an);
    ParseLogAccepts(line);
  }

  /** `9Alice` holds no whitespace and is not an identifier. */
  lemma DigitLedName(u: string)
    requires u == "9Alice"
    ensures u != [] && NoSpace(u) && !IsIdentifier(u)
  {
    var d, n := "9", "Alice";
    assert u == d + n;
    DigitsNoSpace(d);
    MatchedIdentifier(n);
    IdentifierPlain(n);
    NoSpaceAppend(d, n);
  }

  lemma ParseLogRejectsTime(line: string)
    requires line == "99:99:99 ALICE99 Start"
    ensures ParseLog(line).None?
  {
    var tt, u, an := "99:99:99", "ALICE99", "Start";
    assert line == tt + " " + u + " " + an;
    OutOfRangeClock(tt);
    AliceName(u);
    ActionNamePlain(Start);
    ThreeTokens(tt, u, an);
    ParseLogAccepts(line);
  }

  /** `99:99:99` has the shape of a time but no hour 99. */
  lemma OutOfRangeClock(tt: string)
    requires tt == "99:99:99"
    ensures ParseTime(tt).None? && tt != [] && NoSpace(tt)
  {
    var nn := "99";
    assert tt == nn + [':'] + nn + [':'] + nn;
    TwoDigitFields(tt, nn, nn, nn);
    ClockTokenPlain(tt, nn, nn, nn);
    ShortDecimalValue(nn);
  }

  lemma ParseLogRejectsTwoTokens(line: string)
    requires line == "14:02:03 ALICE99"
    ensures ParseLog(line).None?
  {
    assert line == JoinSpace(["14:02:03", "ALICE99"]);
    SplitJoinSpace(["14:02:03", "ALICE99"]);
    ParseLogAccepts(line);
  }

  /** Helper for the examples: the tokens of a three-token line. */
  lemma ThreeTokens(a: string, b: string, c: string)
    requires a != [] && b != [] && c != [] && NoSpace(a) && NoSpace(b) && NoSpace(c)
    ensures Split(a + " " + b + " " + c) == [a, b, c]
  {
    JoinSpaceThree(a, b, c);
    SplitJoinSpace([a, b, c]);
  }

  /** Helper for the examples: a time token of three two-digit fields. */
  lemma TwoDigitFields(tok: string, hh: string, mm: string, ss: string)
    requires |hh| == 2 && |mm| == 2 && |ss| == 2 && AllDigits(hh) && AllDigits(mm) && AllDigits(ss)
    requires tok == hh + [':'] + mm + [':'] + ss
    ensures var h, m, s := DecimalValue(hh), DecimalValue(mm), DecimalValue(ss);
      ParseTime(tok) == if h <= 23 && m <= 59 && s <= 59 then Some(h * 3600 + m * 60 + s) else None
  {
    assert ':' !in hh && ':' !in mm && ':' !in ss;
    SplitOnThree(hh, mm, ss, ':');
    ParseTimeOfFields(tok, hh, mm, ss, DecimalValue(hh), DecimalValue(mm), DecimalValue(ss));
  }

  lemma ParseTimeOfFields(tok: string, hh: string, mm: string, ss: string, h: nat, m: nat, s: nat)
    requires SplitOn(tok, ':') == [hh, mm, ss]
    requires Field(hh) == Some(h) && Field(mm) == Some(m) && Field(ss) == Some(s)
    ensures ParseTime(tok) == if h <= 23 && m <= 59 && s <= 59 then Some(h * 3600 + m * 60 + s) else None
  {
  }

  /** Helper for the examples: such a token holds no whitespace. */
  lemma ClockTokenPlain(tok: string, hh: string, mm: string, ss: string)
    requires AllDigits(hh) && AllDigits(mm) && AllDigits(ss)
    requires tok == hh + [':'] + mm + [':'] + ss
    ensures tok != [] && NoSpace(tok)
  {
    DigitsNoSpace(hh);
    DigitsNoSpace(mm);
    DigitsNoSpace(ss);
    NoSpaceJoin(hh, mm, ss, ':');
  }

  lemma DigitsNoSpace(ds: string)
    requires AllDigits(ds)
    ensures NoSpace(ds)
  {
    forall k | 0 <= k < |ds|
      ensures !IsSpace(ds[k])
    {
      assert IsDigit(ds[k]);
    }
  }

  lemma NoSpaceJoin(a: string, b: string, c: string, sep: char)
    requires NoSpace(a) && NoSpace(b) && NoSpace(c) && !IsSpace(sep)
    ensures NoSpace(a + [sep] + b + [sep] + c)
  {
    var t := a + [sep] + b + [sep] + c;
    forall k | 0 <= k < |t|
      ensures !IsSpace(t[k])
    {
      if k < |a| {
        assert t[k] == a[k];
      } else if k == |a| || k == |a| + 1 + |b| {
        assert t[k] == sep;
      } else if k <= |a| + |b| {
        assert t[k] == b[k - |a| - 1];
      } else {
        assert t[k] == c[k - |a| - |b| - 2];
      }
    }
  }

  /** Helper for the examples: a name the pattern accepts and that does not end in a
      newline is an identifier. */
  lemma MatchedIdentifier(u: string)
    requires ValidateUsername(u) && u != [] && u[|u| - 1] != '\n'
    ensures IsIdentifier(u)
  {
    ValidateUsernameMeaning(u);
  }

  /** Helper for the examples: a line of a time token, an identifier and an action name
      parses to that event. */
  lemma AcceptedLine(line: string, tt: string, u: string, an: string, t: Time, a: Action)
    requires tt != [] && NoSpace(tt) && IsIdentifier(u) && an == ActionName(a)
    requires ParseTime(tt) == Some(t)
    requires line == tt + " " + u + " " + an
    ensures ParseLog(line) == Some(Event(t, u, a))
  {
    ActionNamePlain(a);
    IdentifierPlain(u);
    ThreeTokens(tt, u, an);
    ParseLogAccepts(line);
  }

  lemma IdentifierPlain(u: string)
    requires IsIdentifier(u)
    ensures u != [] && NoSpace(u)
  {
    forall k | 0 <= k < |u|
      ensures !IsSpace(u[k])
    {
      assert k == 0 || IsAsciiAlnum(u[k]);
    }
  }

  lemma NoSpaceAppend(a: string, b: string)
    requires NoSpace(a) && NoSpace(b)
    ensures NoSpace(a + b)
  {
    forall k | 0 <= k < |a + b|
      ensures !IsSpace((a + b)[k])
    {
      if k >= |a| {
        assert (a + b)[k] == b[k - |a|];
      }
    }
  }

  lemma ActionNamePlain(a: Action)
    ensures ActionName(a) != [] && NoSpace(ActionName(a))
  {
    var n := ActionName(a);
    forall k | 0 <= k < |n|
      ensures !IsSpace(n[k])
    {
      assert IsAsciiLetter(n[k]);
    }
  }
}
