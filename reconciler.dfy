/** `make_equal_bin_size`: gives every user Start and End lists of equal length by
    inserting the log's first timestamp at the front of the Start list and appending the
    log's last timestamp to the End list. */
module Reconciler {
  import opened Types

  /** The number of times the first pass inserts the first timestamp in front of the
      Start list `s`, paired against the End list `e`.

      The pass runs `zip` over the Start list while inserting at its front. Python's list
      iterator reads the current list at an increasing index, so after an insertion the
      same Start value is read again at the next index: each End either finds the
      current Start no later than itself (both move on), or finds it later (an insertion;
      only the End moves on). */
  function Misaligned(s: seq<Time>, e: seq<Time>): (n: nat)
    ensures n <= |e|
    decreases |e|
  {
    if s == [] || e == [] then 0
    else if s[0] > e[0] then 1 + Misaligned(s, e[1..])
    else Misaligned(s[1..], e[1..])
  }

  /** The Start list after both passes: the first pass's insertions, then as many more
      as the End list still outnumbers it by, all in front of the original list. */
  function ReconciledStarts(s: seq<Time>, e: seq<Time>, first: Time): seq<Time> {
    var n := Misaligned(s, e) + |s|;
    Repeat(first, Misaligned(s, e) + (if |e| > n then |e| - n else 0)) + s
  }

  /** The End list after both passes: the last timestamp appended as often as the Start
      list outnumbers it after the first pass. */
  function ReconciledEnds(s: seq<Time>, e: seq<Time>, last: Time): seq<Time> {
    var n := Misaligned(s, e) + |s|;
    e + Repeat(last, if n > |e| then n - |e| else 0)
  }

  /** A user's inner dictionary after reconciliation; both keys are present. */
  function ReconciledBucket(b: Bucket, first: Time, last: Time): Bucket {
    var s, e := Get(b, Start), Get(b, End);
    map[Start := ReconciledStarts(s, e, first), End := ReconciledEnds(s, e, last)]
  }

  /** Every user's inner dictionary reconciled; users and their order unchanged. */
  function ReconcileAll(bins: Bins, first: Time, last: Time): (r: Bins)
    ensures r.keys == bins.keys && r.vals.Keys == bins.vals.Keys
    ensures bins.Valid() ==> r.Valid()
  {
    Dict(bins.keys, map u | u in bins.vals :: ReconciledBucket(bins.vals[u], first, last))
  }

  // ---------------------------------------------------------------------------
  // The methods

  /** The first pass (main.py:161-163): walking the lists in step, insert the first
      timestamp in front of the Start list whenever the current Start is later than the
      current End. */
  method InsertLeadingStarts(startItems: seq<Time>, endItems: seq<Time>, firstLog: Time)
    returns (starts: seq<Time>)
    ensures starts == Repeat(firstLog, Misaligned(startItems, endItems)) + startItems
  {
    starts := startItems;
    var k := 0;
    ghost var inserted, j: nat := 0, 0;
    assert Repeat(firstLog, 0) + startItems == startItems;
    MisalignedFromSuffix(startItems, endItems, 0, 0);
    assert startItems[0..] == startItems && endItems[0..] == endItems;
    while k < |starts| && k < |endItems|
      invariant k == inserted + j && j <= |startItems| && k <= |endItems|
      invariant starts == Repeat(firstLog, inserted) + startItems
      invariant inserted + MisalignedFrom(startItems, endItems, j, k) == Misaligned(startItems, endItems)
      decreases |endItems| - k
    {
      assert starts[k] == startItems[j];
      if starts[k] > endItems[k] {
        RepeatCons(firstLog, inserted, startItems);
        starts := [firstLog] + starts;
        inserted := inserted + 1;
      } else {
        j := j + 1;
      }
      k := k + 1;
    }
  }

  /** `Misaligned` on the suffixes of the lists from `j` and `k`, by index. */
  function MisalignedFrom(s: seq<Time>, e: seq<Time>, j: nat, k: nat): nat
    requires j <= |s| && k <= |e|
    decreases |e| - k
  {
    if j == |s| || k == |e| then 0
    else if s[j] > e[k] then 1 + MisalignedFrom(s, e, j, k + 1)
    else MisalignedFrom(s, e, j + 1, k + 1)
  }

  lemma {:induction false} MisalignedFromSuffix(s: seq<Time>, e: seq<Time>, j: nat, k: nat)
    requires j <= |s| && k <= |e|
    ensures MisalignedFrom(s, e, j, k) == Misaligned(s[j..], e[k..])
    decreases |e| - k
  {
    if j < |s| && k < |e| {
      assert s[j..][0] == s[j] && e[k..][0] == e[k];
      assert s[j..][1..] == s[j + 1..];
      assert e[k..][1..] == e[k + 1..];
      MisalignedFromSuffix(s, e, j, k + 1);
      MisalignedFromSuffix(s, e, j + 1, k + 1);
    }
  }

  lemma RepeatCons(x: Time, n: nat, s: seq<Time>)
    ensures [x] + (Repeat(x, n) + s) == Repeat(x, n + 1) + s
  {
    assert [x] + Repeat(x, n) == Repeat(x, n + 1);
  }

  /** The second pass (main.py:165-174): pad the shorter list, Starts at the front with
      the first timestamp, Ends at the back with the last, until the lengths match. */
  method PadToEqualLength(startItems: seq<Time>, endItems: seq<Time>, firstLog: Time, lastLog: Time)
    returns (starts: seq<Time>, ends: seq<Time>)
    ensures |starts| == |ends|
    ensures starts == Repeat(firstLog, if |endItems| > |startItems| then |endItems| - |startItems| else 0) + startItems
    ensures ends == endItems + Repeat(lastLog, if |startItems| > |endItems| then |startItems| - |endItems| else 0)
  {
    starts, ends := startItems, endItems;
    var startLen, endLen := |starts|, |ends|;
    while startLen != endLen
      invariant startLen == |starts| && endLen == |ends|
      invariant |starts| >= |startItems| && |ends| >= |endItems|
      invariant starts == Repeat(firstLog, |starts| - |startItems|) + startItems
      invariant ends == endItems + Repeat(lastLog, |ends| - |endItems|)
      invariant |startItems| >= |endItems| ==> |starts| == |startItems| && |ends| <= |startItems|
      invariant |startItems| < |endItems| ==> |ends| == |endItems| && |starts| <= |endItems|
      decreases if startLen > endLen then startLen - endLen else endLen - startLen
    {
      if startLen > endLen {
        assert ends + [lastLog] == endItems + Repeat(lastLog, |ends| + 1 - |endItems|);
        ends := ends + [lastLog];
        endLen := endLen + 1;
      } else {
        assert [firstLog] + starts == Repeat(firstLog, |starts| + 1 - |startItems|) + startItems;
        starts := [firstLog] + starts;
        startLen := startLen + 1;
      }
    }
  }

  /** Both passes over one user's lists. */
  method EqualizeBucket(startItems: seq<Time>, endItems: seq<Time>, firstLog: Time, lastLog: Time)
    returns (starts: seq<Time>, ends: seq<Time>)
    ensures |starts| == |ends|
    ensures starts == ReconciledStarts(startItems, endItems, firstLog)
    ensures ends == ReconciledEnds(startItems, endItems, lastLog)
  {
    var shifted := InsertLeadingStarts(startItems, endItems, firstLog);
    starts, ends := PadToEqualLength(shifted, endItems, firstLog, lastLog);
    var c := Misaligned(startItems, endItems);
    var pad := if |endItems| > |shifted| then |endItems| - |shifted| else 0;
    RepeatAdd(firstLog, pad, c);
    assert starts == Repeat(firstLog, pad + c) + startItems;
  }

  /** Storing both reconciled lists in an inner dictionary gives the reconciled bucket,
      whatever keys it had. */
  lemma SetBoth(items: Bucket, starts: seq<Time>, ends: seq<Time>, first: Time, last: Time)
    requires starts == ReconciledStarts(Get(items, Start), Get(items, End), first)
    requires ends == ReconciledEnds(Get(items, Start), Get(items, End), last)
    ensures items[Start := starts][End := ends] == ReconciledBucket(items, first, last)
  {
    var m, want := items[Start := starts][End := ends], ReconciledBucket(items, first, last);
    forall a ensures a in m && a in want && m[a] == want[a] {
      if a != Start { assert a == End; }
    }
  }

  /** One user's turn of the loop (main.py:157-174): `setdefault` both keys, then both
      passes, storing the new lists back in the inner dictionary. */
  method ReconcileItems(items: Bucket, firstLog: Time, lastLog: Time) returns (items': Bucket)
    ensures items' == ReconciledBucket(items, firstLog, lastLog)
  {
    var startItems := if Start in items then items[Start] else [];
    var endItems := if End in items then items[End] else [];
    var starts, ends := EqualizeBucket(startItems, endItems, firstLog, lastLog);
    items' := items[Start := starts][End := ends];
    SetBoth(items, starts, ends, firstLog, lastLog);
  }

  /** A dictionary whose every user has been reconciled is `ReconcileAll`'s. */
  lemma AllReconciled(bins: Bins, vals: map<string, Bucket>, first: Time, last: Time)
    requires bins.Valid() && vals.Keys == bins.vals.Keys
    requires forall j :: 0 <= j < |bins.keys| ==>
      vals[bins.keys[j]] == ReconciledBucket(bins.vals[bins.keys[j]], first, last)
    ensures Dict(bins.keys, vals) == ReconcileAll(bins, first, last)
  {
    forall u | u in vals
      ensures vals[u] == ReconciledBucket(bins.vals[u], first, last)
    {
      var j :| 0 <= j < |bins.keys| && bins.keys[j] == u;
    }
  }

  /** One user's turn keeps the loop's invariants: the users before it and the user
      itself are reconciled, the users after it untouched. */
  lemma ReconcileStep(bins: Bins, vals: map<string, Bucket>, i: nat, items': Bucket, first: Time, last: Time)
    requires bins.Valid() && i < |bins.keys| && vals.Keys == bins.vals.Keys
    requires forall j :: 0 <= j < i ==>
      vals[bins.keys[j]] == ReconciledBucket(bins.vals[bins.keys[j]], first, last)
    requires forall j :: i <= j < |bins.keys| ==> vals[bins.keys[j]] == bins.vals[bins.keys[j]]
    requires items' == ReconciledBucket(vals[bins.keys[i]], first, last)
    ensures var vals' := vals[bins.keys[i] := items'];
      && vals'.Keys == bins.vals.Keys
      && (forall j :: 0 <= j < i + 1 ==>
        vals'[bins.keys[j]] == ReconciledBucket(bins.vals[bins.keys[j]], first, last))
      && (forall j :: i + 1 <= j < |bins.keys| ==> vals'[bins.keys[j]] == bins.vals[bins.keys[j]])
  {
    var vals' := vals[bins.keys[i] := items'];
    forall j | 0 <= j < |bins.keys| && j != i
      ensures vals'[bins.keys[j]] == vals[bins.keys[j]]
    {
      assert bins.keys[j] != bins.keys[i];
    }
  }

  /** `make_equal_bin_size`: None for an empty dictionary, otherwise every user's lists
      reconciled. */
  method MakeEqualBinSize(logsByUser: Bins, firstLog: Time, lastLog: Time) returns (r: Option<Bins>)
    requires logsByUser.Valid()
    ensures r.None? <==> logsByUser.Size() == 0
    ensures r.Some? ==> r.value == ReconcileAll(logsByUser, firstLog, lastLog)
  {
    var keys := logsByUser.keys;
    var vals := logsByUser.vals;
    var i := 0;
    while i < |keys|
      invariant 0 <= i <= |keys|
      invariant vals.Keys == logsByUser.vals.Keys
      invariant forall j :: 0 <= j < i ==>
        vals[keys[j]] == ReconciledBucket(logsByUser.vals[keys[j]], firstLog, lastLog)
      invariant forall j :: i <= j < |keys| ==> vals[keys[j]] == logsByUser.vals[keys[j]]
    {
      var u := keys[i];
      var items' := ReconcileItems(vals[u], firstLog, lastLog);
      ReconcileStep(logsByUser, vals, i, items', firstLog, lastLog);
      vals := vals[u := items'];
      i := i + 1;
    }
    if |keys| == 0 {
      return None;
    }
    AllReconciled(logsByUser, vals, firstLog, lastLog);
    r := Some(Dict(keys, vals));
  }

  // ---------------------------------------------------------------------------
  // Facts about the specification

  /** After reconciliation a user's Start and End lists have the same length, the larger
      of the End count and the Start count plus the first pass's insertions. */
  lemma ReconciledLengths(s: seq<Time>, e: seq<Time>, first: Time, last: Time)
    ensures var n := Misaligned(s, e) + |s|;
      |ReconciledStarts(s, e, first)| == |ReconciledEnds(s, e, last)|
        == if n > |e| then n else |e|
  {
  }

  /** Reconciliation only adds: copies of the first timestamp in front of the original
      Start list, copies of the last timestamp after the original End list. */
  lemma ReconciledOnlyPads(s: seq<Time>, e: seq<Time>, first: Time, last: Time)
    ensures var rs := ReconciledStarts(s, e, first);
      |rs| >= |s| && rs[|rs| - |s|..] == s && forall k :: 0 <= k < |rs| - |s| ==> rs[k] == first
    ensures var re := ReconciledEnds(s, e, last);
      |re| >= |e| && re[..|e|] == e && forall k :: |e| <= k < |re| ==> re[k] == last
  {
    var rs, re := ReconciledStarts(s, e, first), ReconciledEnds(s, e, last);
    assert rs[|rs| - |s|..] == s;
    assert re[..|e|] == e;
  }

  /** The first pass inserts nothing exactly when each Start is no later than the End at
      the same position. */
  lemma {:induction false} MisalignedZero(s: seq<Time>, e: seq<Time>)
    ensures Misaligned(s, e) == 0 <==>
      forall k :: 0 <= k < |s| && k < |e| ==> s[k] <= e[k]
    decreases |e|
  {
    if s != [] && e != [] && s[0] <= e[0] {
      MisalignedZero(s[1..], e[1..]);
      assert forall k :: 1 <= k < |s| && k < |e| ==> s[k] == s[1..][k - 1] && e[k] == e[1..][k - 1];
    }
  }

  /** A user whose lists both exist, have equal length and are pairwise in order is left
      unchanged, and only such a user with equal-length lists is. */
  lemma ReconcileIdempotent(b: Bucket, first: Time, last: Time)
    requires Start in b && End in b && |b[Start]| == |b[End]|
    ensures ReconciledBucket(b, first, last) == b <==>
      forall k :: 0 <= k < |b[Start]| ==> b[Start][k] <= b[End][k]
  {
    var s, e := b[Start], b[End];
    MisalignedZero(s, e);
    if forall k :: 0 <= k < |s| ==> s[k] <= e[k] {
      var r := ReconciledBucket(b, first, last);
      assert r[Start] == s && r[End] == e;
      forall a ensures a in r && a in b && r[a] == b[a] {
        if a != Start { assert a == End; }
      }
    } else {
      assert |ReconciledStarts(s, e, first)| > |s|;
    }
  }

  /** A reconciled inner dictionary holds both lists, of equal length, each extending
      the old one only by padding. */
  lemma ReconciledBucketMeaning(b: Bucket, first: Time, last: Time)
    ensures var rb := ReconciledBucket(b, first, last);
      && Start in rb && End in rb
      && |rb[Start]| == |rb[End]|
      && |rb[Start]| >= |Get(b, Start)| && rb[Start][|rb[Start]| - |Get(b, Start)|..] == Get(b, Start)
      && (forall k :: 0 <= k < |rb[Start]| - |Get(b, Start)| ==> rb[Start][k] == first)
      && |rb[End]| >= |Get(b, End)| && rb[End][..|Get(b, End)|] == Get(b, End)
      && (forall k :: |Get(b, End)| <= k < |rb[End]| ==> rb[End][k] == last)
  {
    ReconciledLengths(Get(b, Start), Get(b, End), first, last);
    ReconciledOnlyPads(Get(b, Start), Get(b, End), first, last);
  }

  // ---------------------------------------------------------------------------
  // When durations are non-negative

  ghost predicate Sorted(xs: seq<Time>) {
    forall i, j :: 0 <= i <= j < |xs| ==> xs[i] <= xs[j]
  }

  /** Each Start the first pass keeps is no later than the End it ends up paired with,
      provided the End list is in order. */
  lemma {:induction false} MisalignedPairsInOrder(s: seq<Time>, e: seq<Time>)
    requires Sorted(e)
    ensures forall i :: 0 <= i < |s| && i + Misaligned(s, e) < |e| ==> s[i] <= e[i + Misaligned(s, e)]
    decreases |e|
  {
    if s != [] && e != [] {
      var e' := e[1..];
      assert Sorted(e');
      if s[0] > e[0] {
        MisalignedPairsInOrder(s, e');
        forall i | 0 <= i < |s| && i + Misaligned(s, e) < |e|
          ensures s[i] <= e[i + Misaligned(s, e)]
        {
          assert e'[i + Misaligned(s, e')] == e[i + Misaligned(s, e)];
        }
      } else {
        var s' := s[1..];
        MisalignedPairsInOrder(s', e');
        var c := Misaligned(s, e);
        forall i | 0 <= i < |s| && i + c < |e|
          ensures s[i] <= e[i + c]
        {
          if i > 0 {
            assert s'[i - 1] <= e'[i - 1 + c];
          }
        }
      }
    }
  }

  /** If the End list is in order, the first timestamp is no later than every End and
      the last no earlier than every Start, every reconciled pair is in order. The code
      does not check these conditions; a log written in time order meets them. */
  lemma ReconciledPairsInOrder(s: seq<Time>, e: seq<Time>, first: Time, last: Time)
    requires Sorted(e)
    requires forall k :: 0 <= k < |e| ==> first <= e[k]
    requires forall k :: 0 <= k < |s| ==> s[k] <= last
    ensures var rs, re := ReconciledStarts(s, e, first), ReconciledEnds(s, e, last);
      forall k :: 0 <= k < |rs| && k < |re| ==> rs[k] <= re[k]
  {
    var rs, re := ReconciledStarts(s, e, first), ReconciledEnds(s, e, last);
    var c := Misaligned(s, e);
    var n := c + |s|;
    MisalignedPairsInOrder(s, e);
    var pad := if |e| > n then |e| - n else 0;
    forall k | 0 <= k < |rs| && k < |re|
      ensures rs[k] <= re[k]
    {
      if k < c + pad {
        assert rs[k] == first;
        assert k < |e|;
        assert re[k] == e[k];
      } else {
        var i := k - c - pad;
        assert rs[k] == s[i];
        if k < |e| {
          assert re[k] == e[k];
          assert s[i] <= e[i + c];
          assert e[i + c] <= e[k];
        } else {
          assert re[k] == last;
        }
      }
    }
  }

  /** Without those conditions a duration can be negative: a user whose only lines are
      a Start at second 10 followed by an End at second 5 gets two sessions of -5. */
  lemma OutOfOrderGivesNegative()
    ensures ReconciledStarts([10], [5], 10) == [10, 10]
    ensures ReconciledEnds([10], [5], 5) == [5, 5]
  {
    assert Misaligned([10], [5]) == 1 + Misaligned([10], []);
  }

  // ---------------------------------------------------------------------------
  // The repository's fixture (tests/data_test.txt), times in seconds after midnight

  /** CHARLIE: an End before the first Start, and a Start after the last End. */
  lemma CharlieFixture()
    ensures ReconciledStarts([50582, 50681], [50525, 50617], 50523) == [50523, 50582, 50681]
    ensures ReconciledEnds([50582, 50681], [50525, 50617], 50681) == [50525, 50617, 50681]
  {
    var s, e := [50582, 50681], [50525, 50617];
    assert e[1..] == [50617] && s[1..] == [50681] && [50617][1..] == [];
    assert Misaligned(s, e) == 1;
  }

  /** ALICE99: one End more than Starts, closed by a Start inserted at the front. */
  lemma AliceFixture()
    ensures ReconciledStarts([50523, 50578, 50613], [50554, 50615, 50645, 50663], 50523)
            == [50523, 50523, 50578, 50613]
    ensures ReconciledEnds([50523, 50578, 50613], [50554, 50615, 50645, 50663], 50681)
            == [50554, 50615, 50645, 50663]
  {
    var s, e := [50523, 50578, 50613], [50554, 50615, 50645, 50663];
    MisalignedZero(s, e);
    assert Misaligned(s, e) == 0;
  }

  /** The repository's `make_equal_bin_size` example: ALICE99's unanswered second Start
      is closed at the last timestamp, 14:04:41; CHARLIE's single pair stays as it is. */
  lemma BinSizeExample()
    ensures ReconciledStarts([50523, 50681], [50554], 50523) == [50523, 50681]
    ensures ReconciledEnds([50523, 50681], [50554], 50681) == [50554, 50681]
    ensures ReconciledStarts([50582], [50617], 50523) == [50582]
    ensures ReconciledEnds([50582], [50617], 50681) == [50617]
  {
    assert Misaligned([50523, 50681], [50554]) == Misaligned([50681], []);
    assert Misaligned([50582], [50617]) == Misaligned([], []);
  }
}
