/** `create_bin`: the accepted events grouped by user, in order of first appearance,
    and for each user by action, each list keeping the order of the input. */
module Grouper {
  import opened Types

  /** The timestamps of `u`'s events with action `a`, in input order. */
  function TimesOf(es: seq<Event>, u: string, a: Action): seq<Time> {
    if es == [] then []
    else
      var e := es[|es| - 1];
      TimesOf(es[..|es| - 1], u, a) + (if e.user == u && e.action == a then [e.time] else [])
  }

  /** The distinct users of `es`, in order of first appearance. */
  function UsersOf(es: seq<Event>): seq<string> {
    if es == [] then []
    else
      var us, u := UsersOf(es[..|es| - 1]), es[|es| - 1].user;
      if u in us then us else us + [u]
  }

  /** The inner dictionary `create_bin` builds for `u`: a key for each action `u` has
      events with, holding their timestamps. */
  function BucketOf(es: seq<Event>, u: string): (b: Bucket)
    ensures forall a :: a in b <==> TimesOf(es, u, a) != []
    ensures forall a :: a in b ==> b[a] == TimesOf(es, u, a)
  {
    var starts, ends := TimesOf(es, u, Start), TimesOf(es, u, End);
    var withStarts: Bucket := if starts == [] then map[] else map[Start := starts];
    var b := if ends == [] then withStarts else withStarts[End := ends];
    assert forall a :: (a in b <==> TimesOf(es, u, a) != []) && (a in b ==> b[a] == TimesOf(es, u, a)) by {
      forall a
        ensures (a in b <==> TimesOf(es, u, a) != []) && (a in b ==> b[a] == TimesOf(es, u, a))
      {
        if a != Start {
          assert a == End;
        }
      }
    }
    b
  }

  /** The grouping of `es` by user and action. */
  function Group(es: seq<Event>): (d: Bins)
    ensures d.Valid()
  {
    UsersOfMembership(es);
    var us := UsersOf(es);
    Dict(us, map u | u in us :: BucketOf(es, u))
  }

  /** `u` comes before `v` in `es`: every event of `v` has an earlier event of `u`. */
  ghost predicate Precedes(es: seq<Event>, u: string, v: string) {
    forall q :: 0 <= q < |es| && es[q].user == v ==>
      exists p :: 0 <= p < q && es[p].user == u
  }

  // ---------------------------------------------------------------------------
  // The method

  /** `create_bin`: None for no events, otherwise the grouping of the events. */
  method CreateBin(parsedLogs: seq<Event>) returns (r: Option<Bins>)
    ensures r.None? <==> parsedLogs == []
    ensures r.Some? ==> r.value == Group(parsedLogs) && r.value.Valid()
  {
    var keys: seq<string> := [];
    var vals: map<string, Bucket> := map[];
    var i := 0;
    while i < |parsedLogs|
      invariant 0 <= i <= |parsedLogs|
      invariant keys == UsersOf(parsedLogs[..i])
      invariant forall u :: u in vals <==> u in keys
      invariant forall u :: u in vals ==> vals[u] == BucketOf(parsedLogs[..i], u)
    {
      var e := parsedLogs[i];
      PrefixSnoc(parsedLogs, i);
      CreateBinStep(parsedLogs[..i], e, keys, vals);
      var userBin: Bucket := if e.user in vals then vals[e.user] else map[];
      if e.user !in vals {
        keys := keys + [e.user];
      }
      var actionBin := if e.action in userBin then userBin[e.action] else [];
      vals := vals[e.user := userBin[e.action := actionBin + [e.time]]];
      i := i + 1;
    }
    assert parsedLogs[..i] == parsedLogs;
    GroupEmpty(parsedLogs);
    if |keys| == 0 {
      return None;
    }
    r := Some(Dict(keys, vals));
  }

  /** One iteration of `create_bin`'s loop keeps the dictionary equal to the grouping
      of the events seen so far. */
  lemma CreateBinStep(seen: seq<Event>, e: Event, keys: seq<string>, vals: map<string, Bucket>)
    requires keys == UsersOf(seen)
    requires forall u :: u in vals <==> u in keys
    requires forall u :: u in vals ==> vals[u] == BucketOf(seen, u)
    ensures var userBin: Bucket := if e.user in vals then vals[e.user] else map[];
      var actionBin := if e.action in userBin then userBin[e.action] else [];
      var keys' := if e.user in vals then keys else keys + [e.user];
      var vals' := vals[e.user := userBin[e.action := actionBin + [e.time]]];
      && keys' == UsersOf(seen + [e])
      && (forall u :: u in vals' <==> u in keys')
      && (forall u :: u in vals' ==> vals'[u] == BucketOf(seen + [e], u))
  {
    UsersSnoc(seen, e);
    BucketStep(seen, e);
    if e.user !in vals {
      NotUserHasNoTimes(seen, e.user);
    }
    var userBin: Bucket := if e.user in vals then vals[e.user] else map[];
    var actionBin := if e.action in userBin then userBin[e.action] else [];
    assert actionBin == TimesOf(seen, e.user, e.action);
    var vals' := vals[e.user := userBin[e.action := actionBin + [e.time]]];
    forall u | u in vals'
      ensures vals'[u] == BucketOf(seen + [e], u)
    {
      if u != e.user {
        assert vals'[u] == vals[u];
      }
    }
  }

  // ---------------------------------------------------------------------------
  // Facts about the specification

  /** What one more event does to the per-user buckets. */
  lemma BucketStep(es: seq<Event>, e: Event)
    ensures forall a :: Get(BucketOf(es, e.user), a) == TimesOf(es, e.user, a)
    ensures BucketOf(es + [e], e.user) ==
      BucketOf(es, e.user)[e.action := TimesOf(es, e.user, e.action) + [e.time]]
    ensures forall u :: u != e.user ==> BucketOf(es + [e], u) == BucketOf(es, u)
  {
    BucketStepOwn(es, e);
    forall u | u != e.user
      ensures BucketOf(es + [e], u) == BucketOf(es, u)
    {
      BucketStepOther(es, e, u);
    }
  }

  lemma BucketStepOwn(es: seq<Event>, e: Event)
    ensures BucketOf(es + [e], e.user) ==
      BucketOf(es, e.user)[e.action := TimesOf(es, e.user, e.action) + [e.time]]
  {
    var b' := BucketOf(es + [e], e.user);
    var m := BucketOf(es, e.user)[e.action := TimesOf(es, e.user, e.action) + [e.time]];
    forall a
      ensures (a in b' <==> a in m) && (a in b' ==> b'[a] == m[a])
    {
      TimesSnoc(es, e, e.user, a);
    }
    SameBucket(b', m);
  }

  lemma BucketStepOther(es: seq<Event>, e: Event, u: string)
    requires u != e.user
    ensures BucketOf(es + [e], u) == BucketOf(es, u)
  {
    var c, c' := BucketOf(es, u), BucketOf(es + [e], u);
    forall a
      ensures (a in c' <==> a in c) && (a in c' ==> c'[a] == c[a])
    {
      TimesSnoc(es, e, u, a);
    }
    SameBucket(c', c);
  }

  /** Buckets with the same keys and the same lists are equal. */
  lemma SameBucket(b: Bucket, c: Bucket)
    requires forall a :: (a in b <==> a in c) && (a in b ==> b[a] == c[a])
    ensures b == c
  {
  }

  /** The users listed are exactly those with an event, each listed once. */
  lemma {:induction false} UsersOfMembership(es: seq<Event>)
    ensures forall u :: u in UsersOf(es) <==> exists p :: 0 <= p < |es| && es[p].user == u
    ensures forall i, j :: 0 <= i < j < |UsersOf(es)| ==> UsersOf(es)[i] != UsersOf(es)[j]
  {
    if es != [] {
      var n := |es| - 1;
      UsersOfMembership(es[..n]);
      var ps, us := UsersOf(es[..n]), UsersOf(es);
      if es[n].user !in ps {
        assert us == ps + [es[n].user];
        forall i, j | 0 <= i < j < |us|
          ensures us[i] != us[j]
        {
          assert us[i] == ps[i] && ps[i] in ps;
          if j < |ps| {
            assert us[j] == ps[j];
          }
        }
      }
      forall u | u in UsersOf(es)
        ensures exists p :: 0 <= p < |es| && es[p].user == u
      {
        if u != es[n].user {
          var p :| 0 <= p < n && es[..n][p].user == u;
          assert es[p].user == u;
        }
      }
      forall u | exists p :: 0 <= p < |es| && es[p].user == u
        ensures u in UsersOf(es)
      {
        var p :| 0 <= p < |es| && es[p].user == u;
        if p < n {
          assert es[..n][p].user == u;
        }
      }
    }
  }

  /** A user without events has empty timestamp lists. */
  lemma {:induction false} NotUserHasNoTimes(es: seq<Event>, u: string)
    requires u !in UsersOf(es)
    ensures forall a :: TimesOf(es, u, a) == []
    ensures BucketOf(es, u) == map[]
  {
    if es != [] {
      var n := |es| - 1;
      assert es[n].user != u;
      NotUserHasNoTimes(es[..n], u);
    }
  }

  /** `create_bin` gives None exactly for no events: every event puts its user in the
      dictionary. */
  lemma GroupEmpty(es: seq<Event>)
    ensures Group(es).Size() == 0 <==> es == []
  {
    UsersOfMembership(es);
    if es != [] {
      assert es[0].user in UsersOf(es);
    }
  }

  /** Users appear in the order of their first event. */
  lemma {:induction false} UsersOfOrder(es: seq<Event>)
    ensures forall i, j :: 0 <= i < j < |UsersOf(es)| ==> Precedes(es, UsersOf(es)[i], UsersOf(es)[j])
  {
    if es != [] {
      var n := |es| - 1;
      var init, e := es[..n], es[n];
      UsersOfOrder(init);
      UsersOfMembership(init);
      UsersOfMembership(es);
      var us, ps := UsersOf(es), UsersOf(init);
      forall i, j | 0 <= i < j < |us|
        ensures Precedes(es, us[i], us[j])
      {
        assert us[i] in ps;
        forall q | 0 <= q < |es| && es[q].user == us[j]
          ensures exists p :: 0 <= p < q && es[p].user == us[i]
        {
          if q < n {
            assert init[q].user == us[j];
            assert j < |ps|;
            assert us[i] == ps[i] && us[j] == ps[j];
            assert Precedes(init, ps[i], ps[j]);
            var p :| 0 <= p < q && init[p].user == ps[i];
            assert es[p].user == us[i];
          } else {
            var p :| 0 <= p < n && init[p].user == us[i];
            assert es[p].user == us[i];
          }
        }
      }
    }
  }

  /** The number of timestamps stored under the users `us`. */
  function StoredIn(d: Bins, us: seq<string>): nat {
    if us == [] then 0
    else
      var u := us[|us| - 1];
      StoredIn(d, us[..|us| - 1])
        + (if u in d.vals then |Get(d.vals[u], Start)| + |Get(d.vals[u], End)| else 0)
  }

  /** The number of events of the users `us`. */
  function EventsIn(es: seq<Event>, us: seq<string>): nat {
    if us == [] then 0
    else
      var u := us[|us| - 1];
      EventsIn(es, us[..|us| - 1]) + |TimesOf(es, u, Start)| + |TimesOf(es, u, End)|
  }

  lemma {:induction false} EventsInStep(es: seq<Event>, e: Event, us: seq<string>)
    requires forall i, j :: 0 <= i < j < |us| ==> us[i] != us[j]
    ensures EventsIn(es + [e], us) == EventsIn(es, us) + (if e.user in us then 1 else 0)
  {
    if us != [] {
      var n := |us| - 1;
      assert (es + [e])[..|es|] == es;
      assert e.user in us <==> e.user in us[..n] || e.user == us[n];
      EventsInStep(es, e, us[..n]);
    }
  }

  lemma {:induction false} EventsInAll(es: seq<Event>)
    ensures EventsIn(es, UsersOf(es)) == |es|
  {
    if es != [] {
      var n := |es| - 1;
      var init, e := es[..n], es[n];
      assert es == init + [e];
      EventsInAll(init);
      UsersOfMembership(init);
      var ps := UsersOf(init);
      EventsInStep(init, e, ps);
      if e.user !in ps {
        NotUserHasNoTimes(init, e.user);
        assert (ps + [e.user])[..|ps|] == ps;
        assert es[..n] == init;
        assert |TimesOf(es, e.user, Start)| + |TimesOf(es, e.user, End)| == 1;
        assert UsersOf(es) == ps + [e.user];
      }
    }
  }

  lemma {:induction false} StoredInGroup(es: seq<Event>, us: seq<string>)
    requires forall u :: u in us ==> u in UsersOf(es)
    ensures StoredIn(Group(es), us) == EventsIn(es, us)
  {
    if us != [] {
      var u := us[|us| - 1];
      StoredInGroup(es, us[..|us| - 1]);
      assert forall a :: Get(BucketOf(es, u), a) == TimesOf(es, u, a);
    }
  }

  /** Every event is stored exactly once: the lists of all users together hold as many
      timestamps as there are events. */
  lemma GroupStoresEveryEvent(es: seq<Event>)
    ensures StoredIn(Group(es), Group(es).keys) == |es|
  {
    StoredInGroup(es, UsersOf(es));
    EventsInAll(es);
  }

  /** A listed user's Start and End lists are the times of their own events with that
      action, in input order (a missing key reads as the empty list). */
  lemma GroupLists(es: seq<Event>, u: string)
    requires u in Group(es).vals
    ensures Get(Group(es).vals[u], Start) == TimesOf(es, u, Start)
    ensures Get(Group(es).vals[u], End) == TimesOf(es, u, End)
  {
    var b := Group(es).vals[u];
    assert b == BucketOf(es, u);
  }

  /** One more event: its user is listed if new. */
  lemma UsersSnoc(es: seq<Event>, e: Event)
    ensures UsersOf(es + [e]) == if e.user in UsersOf(es) then UsersOf(es) else UsersOf(es) + [e.user]
  {
    assert (es + [e])[..|es|] == es;
  }

  /** One more event: its time joins its user's list for its action. */
  lemma TimesSnoc(es: seq<Event>, e: Event, u: string, a: Action)
    ensures TimesOf(es + [e], u, a) == TimesOf(es, u, a) + TimesOf([e], u, a)
    ensures TimesOf([e], u, a) == if e.user == u && e.action == a then [e.time] else []
  {
    assert (es + [e])[..|es|] == es;
    assert [e][..0] == [];
  }

  /** `TimesOf` over five events, one event at a time. */
  lemma TimesOfFive(es: seq<Event>, u: string, a: Action)
    requires |es| == 5
    ensures TimesOf(es, u, a) == TimesOf([es[0]], u, a) + TimesOf([es[1]], u, a)
      + TimesOf([es[2]], u, a) + TimesOf([es[3]], u, a) + TimesOf([es[4]], u, a)
  {
    var s1 := [es[0]];
    var s2 := s1 + [es[1]];
    var s3 := s2 + [es[2]];
    var s4 := s3 + [es[3]];
    assert es == s4 + [es[4]];
    TimesSnoc(s1, es[1], u, a);
    TimesSnoc(s2, es[2], u, a);
    TimesSnoc(s3, es[3], u, a);
    TimesSnoc(s4, es[4], u, a);
  }

  /** The repository's `create_bin` example: two ALICE99 Starts and one End, and one
      CHARLIE pair, with ALICE99 listed first. */
  lemma CreateBinExample(es: seq<Event>, alice: string, charlie: string)
    requires alice == "ALICE99" && charlie == "CHARLIE"
    requires es == [Event(50523, alice, Start), Event(50554, alice, End),
      Event(50582, charlie, Start), Event(50617, charlie, End), Event(50681, alice, Start)]
    ensures Group(es).keys == [alice, charlie]
    ensures Group(es).vals[alice] == map[Start := [50523, 50681], End := [50554]]
    ensures Group(es).vals[charlie] == map[Start := [50582], End := [50617]]
  {
    assert alice != charlie by { assert alice[0] != charlie[0]; }
    FiveEvents(es, alice, charlie, 50523, 50554, 50582, 50617, 50681);
  }

  lemma FiveEvents(es: seq<Event>, x: string, y: string, t1: Time, t2: Time, t3: Time, t4: Time, t5: Time)
    requires x != y
    requires es == [Event(t1, x, Start), Event(t2, x, End), Event(t3, y, Start), Event(t4, y, End), Event(t5, x, Start)]
    ensures Group(es).keys == [x, y]
    ensures Group(es).vals[x] == map[Start := [t1, t5], End := [t2]]
    ensures Group(es).vals[y] == map[Start := [t3], End := [t4]]
  {
    FiveUsers(es, x, y, t1, t2, t3, t4, t5);
    FiveBucket(es, x, Start, End, [t1, t5], [t2]);
    FiveBucket(es, y, Start, End, [t3], [t4]);
    assert x in UsersOf(es) && y in UsersOf(es);
  }

  /** A user's bucket, once the user's two lists are known. */
  lemma FiveBucket(es: seq<Event>, u: string, s: Action, e: Action, ss: seq<Time>, ee: seq<Time>)
    requires s == Start && e == End
    requires |es| == 5
    requires TimesOf([es[0]], u, s) + TimesOf([es[1]], u, s) + TimesOf([es[2]], u, s)
      + TimesOf([es[3]], u, s) + TimesOf([es[4]], u, s) == ss != []
    requires TimesOf([es[0]], u, e) + TimesOf([es[1]], u, e) + TimesOf([es[2]], u, e)
      + TimesOf([es[3]], u, e) + TimesOf([es[4]], u, e) == ee != []
    ensures BucketOf(es, u) == map[Start := ss, End := ee]
  {
    TimesOfFive(es, u, s);
    TimesOfFive(es, u, e);
    var b, m := BucketOf(es, u), map[Start := ss, End := ee];
    forall a
      ensures (a in b <==> a in m) && (a in b ==> b[a] == m[a])
    {
      if a != Start {
        assert a == End;
      }
    }
    SameBucket(b, m);
  }

  lemma FiveUsers(es: seq<Event>, x: string, y: string, t1: Time, t2: Time, t3: Time, t4: Time, t5: Time)
    requires x != y
    requires es == [Event(t1, x, Start), Event(t2, x, End), Event(t3, y, Start), Event(t4, y, End), Event(t5, x, Start)]
    ensures UsersOf(es) == [x, y]
  {
    var s1 := [es[0]];
    var s2 := s1 + [es[1]];
    var s3 := s2 + [es[2]];
    var s4 := s3 + [es[3]];
    assert es == s4 + [es[4]];
    assert UsersOf(s1) == [x] by { UsersSnoc([], es[0]); assert [] + [es[0]] == s1; }
    UsersSnoc(s1, es[1]);
    UsersSnoc(s2, es[2]);
    UsersSnoc(s3, es[3]);
    UsersSnoc(s4, es[4]);
  }
}
