/** `calculate_log_time`: each user's session durations, pairing the k-th Start with the
    k-th End. */
module Aggregator {
  import opened Types
  import opened Reconciler

  /** A user's durations in whole seconds: `(end - start).total_seconds()` for the pairs
      of `zip(starts, ends)`. */
  function Pairwise(starts: seq<Time>, ends: seq<Time>): (d: seq<int>)
    ensures |d| == if |starts| < |ends| then |starts| else |ends|
    ensures forall k :: 0 <= k < |d| ==> d[k] == ends[k] - starts[k]
    decreases |starts|
  {
    if starts == [] || ends == [] then []
    else [ends[0] - starts[0]] + Pairwise(starts[1..], ends[1..])
  }

  /** The dictionary `calculate_log_time` returns: every user, in the same order, with
      the durations of their paired lists. */
  function LogTimes(bins: Bins): (d: Dict<seq<int>>)
    ensures d.keys == bins.keys
    ensures forall u :: u in d.vals <==> u in bins.vals
    ensures bins.Valid() ==> d.Valid()
  {
    Dict(bins.keys, map u | u in bins.vals :: Pairwise(Get(bins.vals[u], Start), Get(bins.vals[u], End)))
  }

  // ---------------------------------------------------------------------------
  // The methods

  /** The inner loop (main.py:202-204): one duration per pair, appended in order. */
  method SessionDurations(startItems: seq<Time>, endItems: seq<Time>) returns (userBucket: seq<int>)
    ensures userBucket == Pairwise(startItems, endItems)
  {
    userBucket := [];
    var k := 0;
    while k < |startItems| && k < |endItems|
      invariant 0 <= k <= |startItems| && k <= |endItems|
      invariant |userBucket| == k
      invariant forall q :: 0 <= q < k ==> userBucket[q] == endItems[q] - startItems[q]
    {
      userBucket := userBucket + [endItems[k] - startItems[k]];
      k := k + 1;
    }
  }

  /** `calculate_log_time`: None for no users, otherwise every user's durations. */
  method CalculateLogTime(logsByUser: Bins) returns (r: Option<Dict<seq<int>>>)
    requires logsByUser.Valid()
    ensures r.None? <==> logsByUser.Size() == 0
    ensures r.Some? ==> r.value == LogTimes(logsByUser)
  {
    var keys: seq<string> := [];
    var vals: map<string, seq<int>> := map[];
    var i := 0;
    while i < |logsByUser.keys|
      invariant 0 <= i <= |logsByUser.keys|
      invariant keys == logsByUser.keys[..i]
      invariant forall u :: u in vals <==> u in keys
      invariant forall u :: u in vals ==>
        vals[u] == Pairwise(Get(logsByUser.vals[u], Start), Get(logsByUser.vals[u], End))
    {
      var user := logsByUser.keys[i];
      var items := logsByUser.vals[user];
      var userBucket := SessionDurations(Get(items, Start), Get(items, End));
      DurationsStep(logsByUser, keys, vals, i, userBucket);
      keys := keys + [user];
      vals := vals[user := userBucket];
      i := i + 1;
    }
    assert keys == logsByUser.keys;
    if |keys| == 0 {
      return None;
    }
    AllDurations(logsByUser, vals);
    r := Some(Dict(keys, vals));
  }

  /** One user's turn keeps the loop's invariants: the keys so far are a prefix of the
      users, and each holds its durations. */
  lemma DurationsStep(bins: Bins, keys: seq<string>, vals: map<string, seq<int>>, i: nat, ds: seq<int>)
    requires bins.Valid() && i < |bins.keys| && keys == bins.keys[..i]
    requires forall u :: u in vals <==> u in keys
    requires forall u :: u in vals ==>
      vals[u] == Pairwise(Get(bins.vals[u], Start), Get(bins.vals[u], End))
    requires var u := bins.keys[i]; ds == Pairwise(Get(bins.vals[u], Start), Get(bins.vals[u], End))
    ensures var u := bins.keys[i];
      var keys', vals' := keys + [u], vals[u := ds];
      && keys' == bins.keys[..i + 1]
      && (forall v :: v in vals' <==> v in keys')
      && (forall v :: v in vals' ==> vals'[v] == Pairwise(Get(bins.vals[v], Start), Get(bins.vals[v], End)))
  {
    PrefixSnoc(bins.keys, i);
  }

  /** A dictionary holding every user's durations is `LogTimes`'s. */
  lemma AllDurations(bins: Bins, vals: map<string, seq<int>>)
    requires bins.Valid() && forall u :: u in vals <==> u in bins.keys
    requires forall u :: u in vals ==>
      vals[u] == Pairwise(Get(bins.vals[u], Start), Get(bins.vals[u], End))
    ensures Dict(bins.keys, vals) == LogTimes(bins)
  {
    var d := LogTimes(bins);
    assert vals.Keys == d.vals.Keys;
    forall u | u in vals
      ensures vals[u] == d.vals[u]
    {
    }
  }

  // ---------------------------------------------------------------------------
  // Facts about the specification

  /** For lists of equal length the total of the durations is the sum of the Ends minus
      the sum of the Starts, however the Starts and Ends are paired. */
  lemma {:induction false} PairwiseTotal(starts: seq<Time>, ends: seq<Time>)
    requires |starts| == |ends|
    ensures Sum(Pairwise(starts, ends)) == Sum(ends) - Sum(starts)
    decreases |starts|
  {
    if starts != [] {
      PairwiseTotal(starts[1..], ends[1..]);
      assert Pairwise(starts, ends)[1..] == Pairwise(starts[1..], ends[1..]);
    }
  }

  /** A reconciled user's total: their own Ends minus their own Starts, plus the last
      timestamp once per appended End, minus the first timestamp once per inserted Start.
      The pairing chosen by the first pass does not change it. */
  lemma ReconciledTotal(s: seq<Time>, e: seq<Time>, first: Time, last: Time)
    ensures var rs, re := ReconciledStarts(s, e, first), ReconciledEnds(s, e, last);
      Sum(Pairwise(rs, re))
        == Sum(e) - Sum(s) + (|re| - |e|) * last - (|rs| - |s|) * first
  {
    var n := Misaligned(s, e) + |s|;
    var ps: nat := Misaligned(s, e) + (if |e| > n then |e| - n else 0);
    var pe: nat := if n > |e| then n - |e| else 0;
    var rs, re := ReconciledStarts(s, e, first), ReconciledEnds(s, e, last);
    assert rs == Repeat(first, ps) + s && re == e + Repeat(last, pe);
    PaddedTotal(s, e, ps, pe, first, last);
    assert |rs| - |s| == ps && |re| - |e| == pe;
  }

  lemma PaddedTotal(s: seq<Time>, e: seq<Time>, ps: nat, pe: nat, first: Time, last: Time)
    requires ps + |s| == |e| + pe
    ensures Sum(Pairwise(Repeat(first, ps) + s, e + Repeat(last, pe)))
            == Sum(e) - Sum(s) + pe * last - ps * first
  {
    var fs, ls := Repeat(first, ps), Repeat(last, pe);
    PairwiseTotal(fs + s, e + ls);
    SumAppend(fs, s);
    SumAppend(e, ls);
    SumRepeat(first, ps);
    SumRepeat(last, pe);
    var a, b := ps * first, pe * last;
    assert Sum(fs + s) == a + Sum(s);
    assert Sum(e + ls) == Sum(e) + b;
  }

  /** `calculate_log_time` on the repository's dictionary with two ALICE99 sessions and
      one CHARLIE session gives 31 and 4 seconds, and 35 seconds. */
  lemma TwoUsersExample(bins: Bins, alice: string, charlie: string)
    requires alice == "ALICE99" && charlie == "CHARLIE"
    requires bins == Dict([alice, charlie], map[
      alice := map[Start := [50523, 50698], End := [50554, 50702]],
      charlie := map[Start := [50582], End := [50617]]])
    ensures alice in LogTimes(bins).vals && LogTimes(bins).vals[alice] == [31, 4]
    ensures charlie in LogTimes(bins).vals && LogTimes(bins).vals[charlie] == [35]
  {
    assert alice != charlie by {
      assert alice[0] != charlie[0];
    }
    var a, c := bins.vals[alice], bins.vals[charlie];
    assert Get(a, Start) == [50523, 50698] && Get(a, End) == [50554, 50702];
    assert Get(c, Start) == [50582] && Get(c, End) == [50617];
    PairwiseTwo(50523, 50698, 50554, 50702);
    assert Pairwise([50582], [50617]) == [35];
  }

  lemma PairwiseTwo(s1: Time, s2: Time, e1: Time, e2: Time)
    ensures Pairwise([s1, s2], [e1, e2]) == [e1 - s1, e2 - s2]
  {
    assert [s1, s2][1..] == [s2] && [e1, e2][1..] == [e2];
  }

  /** The repository's report fixture, from the reconciled lists to the durations:
      ALICE99's four sessions last 31, 92, 67 and 50 seconds, CHARLIE's three 2, 35
      and 0. */
  lemma FixtureDurations()
    ensures Pairwise(ReconciledStarts([50523, 50578, 50613], [50554, 50615, 50645, 50663], 50523),
                     ReconciledEnds([50523, 50578, 50613], [50554, 50615, 50645, 50663], 50681))
            == [31, 92, 67, 50]
    ensures Pairwise(ReconciledStarts([50582, 50681], [50525, 50617], 50523),
                     ReconciledEnds([50582, 50681], [50525, 50617], 50681))
            == [2, 35, 0]
  {
    AliceFixture();
    CharlieFixture();
    PairwiseFour(50523, 50523, 50578, 50613, 50554, 50615, 50645, 50663);
    PairwiseThree(50523, 50582, 50681, 50525, 50617, 50681);
  }

  lemma PairwiseThree(s1: Time, s2: Time, s3: Time, e1: Time, e2: Time, e3: Time)
    ensures Pairwise([s1, s2, s3], [e1, e2, e3]) == [e1 - s1, e2 - s2, e3 - s3]
  {
    assert [s1, s2, s3][1..] == [s2, s3] && [e1, e2, e3][1..] == [e2, e3];
    PairwiseTwo(s2, s3, e2, e3);
  }

  lemma PairwiseFour(s1: Time, s2: Time, s3: Time, s4: Time, e1: Time, e2: Time, e3: Time, e4: Time)
    ensures Pairwise([s1, s2, s3, s4], [e1, e2, e3, e4]) == [e1 - s1, e2 - s2, e3 - s3, e4 - s4]
  {
    assert [s1, s2, s3, s4][1..] == [s2, s3, s4] && [e1, e2, e3, e4][1..] == [e2, e3, e4];
    PairwiseThree(s2, s3, s4, e2, e3, e4);
  }
}
