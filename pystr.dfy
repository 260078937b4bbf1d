/** The Python string built-ins the pipeline relies on: `str.isspace`, `str.split()`,
    `str.strip()` and `str(int)`; plus a split at one separator character, which the
    model uses for the literal ':' of the time format and to read a report back. */
module PyStr {

  /** `c.isspace()`: the code points Python treats as whitespace in `split()` and
      `strip()`. */
  predicate IsSpace(c: char) {
    var n := c as int;
    || 9 <= n <= 13 || 28 <= n <= 32 || n == 0x85 || n == 0xA0 || n == 0x1680
    || 0x2000 <= n <= 0x200A || n == 0x2028 || n == 0x2029 || n == 0x202F
    || n == 0x205F || n == 0x3000
  }

  predicate NoSpace(s: string) {
    forall k :: 0 <= k < |s| ==> !IsSpace(s[k])
  }

  predicate AllSpace(s: string) {
    forall k :: 0 <= k < |s| ==> IsSpace(s[k])
  }

  // ---------------------------------------------------------------------------
  // str.split() with no separator

  /** Scans `s` while `cur` holds the characters of the token being read. */
  function SplitFrom(s: string, cur: string): (r: seq<string>)
    requires NoSpace(cur)
    ensures forall k :: 0 <= k < |r| ==> r[k] != [] && NoSpace(r[k])
    decreases |s|
  {
    if s == [] then
      (if cur == [] then [] else [cur])
    else if IsSpace(s[0]) then
      (if cur == [] then [] else [cur]) + SplitFrom(s[1..], [])
    else
      SplitFrom(s[1..], cur + [s[0]])
  }

  /** `s.split()`: the maximal runs of non-whitespace characters, in order. */
  function Split(s: string): (r: seq<string>)
    ensures forall k :: 0 <= k < |r| ==> r[k] != [] && NoSpace(r[k])
  {
    SplitFrom(s, [])
  }

  /** `" ".join(ts)` */
  function JoinSpace(ts: seq<string>): string {
    if |ts| == 0 then []
    else if |ts| == 1 then ts[0]
    else ts[0] + " " + JoinSpace(ts[1..])
  }

  lemma JoinSpaceThree(a: string, b: string, c: string)
    ensures JoinSpace([a, b, c]) == a + " " + b + " " + c
  {
    assert [a, b, c][1..] == [b, c];
    assert [b, c][1..] == [c];
    assert JoinSpace([c]) == c;
    assert JoinSpace([b, c]) == b + " " + c;
    assert JoinSpace([a, b, c]) == a + " " + (b + " " + c);
  }

  lemma {:induction false} SplitWord(w: string, rest: string, cur: string)
    requires NoSpace(w) && NoSpace(cur)
    ensures SplitFrom(w + rest, cur) == SplitFrom(rest, cur + w)
    decreases |w|
  {
    if w == [] {
      assert w + rest == rest;
      assert cur + w == cur;
    } else {
      assert (w + rest)[0] == w[0];
      assert (w + rest)[1..] == w[1..] + rest;
      SplitWord(w[1..], rest, cur + [w[0]]);
      assert cur + [w[0]] + w[1..] == cur + w;
    }
  }

  /** Splitting tokens joined by single spaces gives the tokens back. */
  lemma {:induction false} SplitJoinSpace(ts: seq<string>)
    requires forall k :: 0 <= k < |ts| ==> ts[k] != [] && NoSpace(ts[k])
    ensures Split(JoinSpace(ts)) == ts
    decreases |ts|
  {
    if |ts| == 1 {
      SplitWord(ts[0], [], []);
      assert ts[0] + [] == ts[0];
      assert [] + ts[0] == ts[0];
    } else if |ts| > 1 {
      var rest := JoinSpace(ts[1..]);
      assert JoinSpace(ts) == ts[0] + (" " + rest);
      SplitWord(ts[0], " " + rest, []);
      assert [] + ts[0] == ts[0];
      assert (" " + rest)[1..] == rest;
      SplitJoinSpace(ts[1..]);
      assert [ts[0]] + ts[1..] == ts;
    }
  }

  lemma {:induction false} SplitLeadingSpace(ws: string, s: string)
    requires AllSpace(ws)
    ensures Split(ws + s) == Split(s)
    decreases |ws|
  {
    if ws == [] {
      assert ws + s == s;
    } else {
      assert (ws + s)[0] == ws[0];
      assert (ws + s)[1..] == ws[1..] + s;
      SplitLeadingSpace(ws[1..], s);
    }
  }

  lemma {:induction false} SplitOnlySpace(ws: string, cur: string)
    requires AllSpace(ws) && NoSpace(cur)
    ensures SplitFrom(ws, cur) == if cur == [] then [] else [cur]
    decreases |ws|
  {
    if ws != [] {
      SplitOnlySpace(ws[1..], []);
    }
  }

  lemma {:induction false} SplitTrailingSpace(s: string, ws: string, cur: string)
    requires AllSpace(ws) && NoSpace(cur)
    ensures SplitFrom(s + ws, cur) == SplitFrom(s, cur)
    decreases |s|
  {
    if s == [] {
      assert s + ws == ws;
      SplitOnlySpace(ws, cur);
    } else {
      assert (s + ws)[0] == s[0];
      assert (s + ws)[1..] == s[1..] + ws;
      if IsSpace(s[0]) {
        SplitTrailingSpace(s[1..], ws, []);
      } else {
        SplitTrailingSpace(s[1..], ws, cur + [s[0]]);
      }
    }
  }

  // ---------------------------------------------------------------------------
  // str.strip()

  /** `s.lstrip()` */
  function StripStart(s: string): (r: string)
    ensures |r| <= |s| && r == s[|s| - |r|..]
    ensures AllSpace(s[..|s| - |r|])
    ensures r == [] || !IsSpace(r[0])
    decreases |s|
  {
    if s != [] && IsSpace(s[0]) then
      var r := StripStart(s[1..]);
      assert s[..|s| - |r|] == [s[0]] + s[1..][..|s| - 1 - |r|];
      r
    else s
  }

  /** `s.rstrip()` */
  function StripEnd(s: string): (r: string)
    ensures |r| <= |s| && r == s[..|r|]
    ensures AllSpace(s[|r|..])
    ensures r == [] || !IsSpace(r[|r| - 1])
    decreases |s|
  {
    if s != [] && IsSpace(s[|s| - 1]) then
      var r := StripEnd(s[..|s| - 1]);
      assert s[|r|..] == s[..|s| - 1][|r|..] + [s[|s| - 1]];
      r
    else s
  }

  /** `s.strip()` */
  function Strip(s: string): (r: string)
    ensures |r| <= |s|
    ensures r == [] || (!IsSpace(r[0]) && !IsSpace(r[|r| - 1]))
  {
    StripEnd(StripStart(s))
  }

  /** `split()` already ignores leading and trailing whitespace, so stripping first does
      not change the tokens. */
  lemma SplitStrip(s: string)
    ensures Split(Strip(s)) == Split(s)
  {
    SplitStripStart(s);
    SplitStripEnd(StripStart(s));
  }

  lemma SplitStripStart(s: string)
    ensures Split(StripStart(s)) == Split(s)
  {
    var t := StripStart(s);
    var lead := s[..|s| - |t|];
    assert s == lead + t;
    SplitLeadingSpace(lead, t);
  }

  lemma SplitStripEnd(t: string)
    ensures Split(StripEnd(t)) == Split(t)
  {
    var u := StripEnd(t);
    var trail := t[|u|..];
    assert t == u + trail;
    SplitTrailingSpace(u, trail, []);
  }

  /** Stripping a text that starts and ends with a non-blank character, followed by a
      newline, removes exactly that newline. */
  lemma StripTrailingNewline(s: string)
    requires s != [] && !IsSpace(s[0]) && !IsSpace(s[|s| - 1])
    ensures Strip(s + "\n") == s
  {
    var t := s + "\n";
    assert StripStart(t) == t;
    assert t[..|t| - 1] == s;
    assert StripEnd(t) == StripEnd(s);
  }

  // ---------------------------------------------------------------------------
  // Splitting at one separator character (the model's own reading tool)

  function SplitOnFrom(s: string, sep: char, cur: string): (r: seq<string>)
    ensures |r| >= 1
    decreases |s|
  {
    if s == [] then [cur]
    else if s[0] == sep then [cur] + SplitOnFrom(s[1..], sep, [])
    else SplitOnFrom(s[1..], sep, cur + [s[0]])
  }

  /** The pieces between separators, empty pieces included; it stands in for the
      literal ':' of the `%H:%M:%S` format and reads a report back at its newlines. */
  function SplitOn(s: string, sep: char): seq<string> {
    SplitOnFrom(s, sep, [])
  }

  lemma {:induction false} SplitOnWord(w: string, rest: string, sep: char, cur: string)
    requires sep !in w
    ensures SplitOnFrom(w + rest, sep, cur) == SplitOnFrom(rest, sep, cur + w)
    decreases |w|
  {
    if w == [] {
      assert w + rest == rest;
      assert cur + w == cur;
    } else {
      assert (w + rest)[0] == w[0];
      assert (w + rest)[1..] == w[1..] + rest;
      SplitOnWord(w[1..], rest, sep, cur + [w[0]]);
      assert cur + [w[0]] + w[1..] == cur + w;
    }
  }

  /** Three separator-free pieces joined by the separator split back into themselves. */
  lemma SplitOnThree(a: string, b: string, c: string, sep: char)
    requires sep !in a && sep !in b && sep !in c
    ensures SplitOn(a + [sep] + b + [sep] + c, sep) == [a, b, c]
  {
    var s := a + [sep] + b + [sep] + c;
    assert s == a + ([sep] + b + [sep] + c);
    SplitOnWord(a, [sep] + b + [sep] + c, sep, []);
    assert ([sep] + b + [sep] + c)[1..] == b + ([sep] + c);
    SplitOnWord(b, [sep] + c, sep, []);
    assert ([sep] + c)[1..] == c + [];
    SplitOnWord(c, [], sep, []);
    assert [] + a == a && [] + b == b && [] + c == c;
  }

  // ---------------------------------------------------------------------------
  // str(n) for integers

  predicate IsDigit(c: char) {
    '0' <= c <= '9'
  }

  predicate AllDigits(s: string) {
    forall k :: 0 <= k < |s| ==> IsDigit(s[k])
  }

  function DigitChar(d: nat): (c: char)
    requires d < 10
    ensures IsDigit(c)
  {
    ('0' as int + d) as char
  }

  function DigitValue(c: char): nat
    requires IsDigit(c)
  {
    c as int - '0' as int
  }

  /** The value of a string of decimal digits, as `int(s)` reads it. */
  function DecimalValue(s: string): nat
    requires AllDigits(s)
  {
    if s == [] then 0 else DecimalValue(s[..|s| - 1]) * 10 + DigitValue(s[|s| - 1])
  }

  lemma ShortDecimalValue(f: string)
    requires 1 <= |f| <= 2 && AllDigits(f)
    ensures |f| == 1 ==> DecimalValue(f) == DigitValue(f[0])
    ensures |f| == 2 ==> DecimalValue(f) == DigitValue(f[0]) * 10 + DigitValue(f[1])
  {
    assert f[..|f| - 1][..0] == [];
    if |f| == 2 {
      assert f[..1] == [f[0]];
    }
  }

  /** `str(n)` for a non-negative integer: its decimal digits, most significant first. */
  function NatToString(n: nat): (r: string)
    ensures r != [] && AllDigits(r)
    ensures |r| > 1 ==> r[0] != '0'
  {
    if n < 10 then [DigitChar(n)] else NatToString(n / 10) + [DigitChar(n % 10)]
  }

  /** Reading back the digits that `str(n)` writes gives `n`. */
  lemma {:induction false} NatToStringValue(n: nat)
    ensures DecimalValue(NatToString(n)) == n
  {
    if n >= 10 {
      NatToStringValue(n / 10);
      var r := NatToString(n);
      assert r[..|r| - 1] == NatToString(n / 10);
    }
  }

  /** `str(i)` for any integer: a minus sign before the digits of a negative value. */
  function IntToString(i: int): (r: string)
    ensures r != [] && NoSpace(r) && !IsSpace(r[|r| - 1])
    ensures i >= 0 ==> r == NatToString(i)
    ensures i < 0 ==> r == "-" + NatToString(-i)
  {
    var r := if i < 0 then "-" + NatToString(-i) else NatToString(i);
    assert forall k :: 0 <= k < |r| ==> r[k] == '-' || IsDigit(r[k]);
    r
  }
}
