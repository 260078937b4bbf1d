/** Values shared by every stage of the session pipeline. */
module Types {

  datatype Option<T> = None | Some(value: T)

  /** A time of day in whole seconds after midnight. Every parsed datetime carries the
      same date (1900-01-01), so comparing and subtracting two of them is integer
      arithmetic on this value. */
  type Time = int

  const SecondsPerDay: int := 86400

  /** The closed action vocabulary of a log line: the literal tokens "Start" and "End". */
  datatype Action = Start | End

  /** One accepted log line: the `(time, user, action)` tuple. */
  datatype Event = Event(time: Time, user: string, action: Action)

  /** An insertion-ordered dictionary keyed by user name: `keys` lists the users in the
      order they were inserted and `vals` holds the value stored under each. */
  datatype Dict<V> = Dict(keys: seq<string>, vals: map<string, V>) {

    ghost predicate Valid() {
      && (forall i, j :: 0 <= i < j < |keys| ==> keys[i] != keys[j])
      && (forall u :: u in vals <==> u in keys)
    }

    /** `len(d)` */
    function Size(): nat {
      |keys|
    }
  }

  /** The per-user inner dictionary: action name to the list of its timestamps. A key is
      present only once something has stored a list under it. */
  type Bucket = map<Action, seq<Time>>

  type Bins = Dict<Bucket>

  /** `d.get(a, [])` */
  function Get(b: Bucket, a: Action): seq<Time> {
    if a in b then b[a] else []
  }

  /** `[x] * n` */
  function Repeat(x: Time, n: nat): (r: seq<Time>)
    ensures |r| == n
    ensures forall k :: 0 <= k < n ==> r[k] == x
  {
    if n == 0 then [] else [x] + Repeat(x, n - 1)
  }

  lemma {:induction false} RepeatAdd(x: Time, m: nat, n: nat)
    ensures Repeat(x, m) + Repeat(x, n) == Repeat(x, m + n)
  {
    if m > 0 {
      RepeatAdd(x, m - 1, n);
      assert Repeat(x, m) + Repeat(x, n) == [x] + (Repeat(x, m - 1) + Repeat(x, n));
    }
  }

  /** `sum(xs)` over a list of integers. */
  function Sum(xs: seq<int>): int {
    if xs == [] then 0 else xs[0] + Sum(xs[1..])
  }

  lemma {:induction false} SumAppend(xs: seq<int>, ys: seq<int>)
    ensures Sum(xs + ys) == Sum(xs) + Sum(ys)
  {
    if xs != [] {
      assert (xs + ys)[1..] == xs[1..] + ys;
      SumAppend(xs[1..], ys);
    } else {
      assert xs + ys == ys;
    }
  }

  lemma {:induction false} SumRepeat(x: Time, n: nat)
    ensures Sum(Repeat(x, n)) == n * x
  {
    if n > 0 {
      SumRepeat(x, n - 1);
      assert Repeat(x, n)[1..] == Repeat(x, n - 1);
    }
  }

  /** One more element of a prefix. */
  lemma PrefixSnoc<T>(xs: seq<T>, i: nat)
    requires i < |xs|
    ensures xs[..i + 1] == xs[..i] + [xs[i]]
  {
  }
}
