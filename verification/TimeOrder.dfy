/** Events with a time and a size, and the stable sort by time that the event
    buffers rely on. */
module TimeOrder {

  /** A buffered event: its timestamp, the bytes it accounts for, and the rest. */
  datatype Timed<+T> = Timed(time: nat, size: nat, body: T)

  ghost predicate Sorted<T>(s: seq<Timed<T>>) {
    forall i, j :: 0 <= i < j < |s| ==> s[i].time <= s[j].time
  }

  ghost predicate AllAtMost<T>(s: seq<Timed<T>>, t: nat) {
    forall i :: 0 <= i < |s| ==> s[i].time <= t
  }

  ghost predicate AllAtLeast<T>(s: seq<Timed<T>>, t: nat) {
    forall i :: 0 <= i < |s| ==> t <= s[i].time
  }

  ghost predicate AllAfter<T>(s: seq<Timed<T>>, t: nat) {
    forall i :: 0 <= i < |s| ==> t < s[i].time
  }

  /** The events of `s` with time exactly `t`, in their order in `s`. */
  ghost function AtTime<T>(s: seq<Timed<T>>, t: nat): seq<Timed<T>> {
    if s == [] then [] else (if s[0].time == t then [s[0]] else []) + AtTime(s[1..], t)
  }

  /** The events of `s` with time at most `t`, in their order in `s`. */
  ghost function UpTo<T>(s: seq<Timed<T>>, t: nat): seq<Timed<T>> {
    if s == [] then [] else (if s[0].time <= t then [s[0]] else []) + UpTo(s[1..], t)
  }

  /** The same events, where events of equal time also come in the same order. */
  ghost predicate SameOrder<T>(x: seq<Timed<T>>, y: seq<Timed<T>>) {
    forall t: nat :: AtTime(x, t) == AtTime(y, t)
  }

  ghost function TotalSize<T>(s: seq<Timed<T>>): nat {
    if s == [] then 0 else s[0].size + TotalSize(s[1..])
  }

  ghost predicate AllSizesPositive<T>(s: seq<Timed<T>>) {
    forall i :: 0 <= i < |s| ==> 0 < s[i].size
  }

  /** Inserts `e` behind every event that is not later than `e`. */
  function Insert<T>(s: seq<Timed<T>>, e: Timed<T>): (r: seq<Timed<T>>)
    ensures |r| == |s| + 1
  {
    if s == [] || e.time < s[0].time then [e] + s else [s[0]] + Insert(s[1..], e)
  }

  /** The stable sort by time: later arrivals never overtake equal times. */
  function StableSort<T>(s: seq<Timed<T>>): (r: seq<Timed<T>>)
    ensures |r| == |s|
  {
    if s == [] then [] else Insert(StableSort(s[..|s| - 1]), s[|s| - 1])
  }

  /** The first event, if it has time `t`. */
  ghost function FirstIfAt<T>(e: Timed<T>, t: nat): seq<Timed<T>> {
    if e.time == t then [e] else []
  }

  lemma AtTimeStep<T>(e: Timed<T>, s: seq<Timed<T>>, t: nat)
    ensures AtTime([e] + s, t) == FirstIfAt(e, t) + AtTime(s, t)
  {
    assert ([e] + s)[1..] == s;
  }

  lemma {:induction false} AtTimeConcat<T>(x: seq<Timed<T>>, y: seq<Timed<T>>, t: nat)
    ensures AtTime(x + y, t) == AtTime(x, t) + AtTime(y, t)
  {
    if x == [] {
      assert x + y == y;
    } else {
      hide AtTime, FirstIfAt;
      var e, rest := x[0], x[1..];
      assert x == [e] + rest && x + y == [e] + (rest + y);
      AtTimeConcat(rest, y, t);
      AtTimeStep(e, rest, t);
      AtTimeStep(e, rest + y, t);
      assert FirstIfAt(e, t) + (AtTime(rest, t) + AtTime(y, t)) == FirstIfAt(e, t) + AtTime(rest, t) + AtTime(y, t);
    }
  }

  lemma {:induction false} InsertSorted<T>(s: seq<Timed<T>>, e: Timed<T>)
    requires Sorted(s)
    ensures Sorted(Insert(s, e))
  {
    if s != [] && s[0].time <= e.time {
      InsertSorted(s[1..], e);
      InsertAtLeast(s[1..], e, s[0].time);
    }
  }

  /** Inserting keeps each time's events in order, the new one last. */
  lemma {:induction false} InsertAtTime<T>(s: seq<Timed<T>>, e: Timed<T>, t: nat)
    requires Sorted(s)
    ensures AtTime(Insert(s, e), t) == AtTime(s, t) + FirstIfAt(e, t)
  {
    hide AtTime;
    if s == [] || e.time < s[0].time {
      AtTimeStep(e, s, t);
      if e.time == t {
        AtTimeAbsent(s, t);
      }
    } else {
      hide FirstIfAt;
      InsertAtTime(s[1..], e, t);
      assert s == [s[0]] + s[1..];
      AtTimeStep(s[0], s[1..], t);
      AtTimeStep(s[0], Insert(s[1..], e), t);
      var x, y, z := FirstIfAt(s[0], t), AtTime(s[1..], t), FirstIfAt(e, t);
      assert x + (y + z) == x + y + z;
    }
  }

  lemma {:induction false} InsertSize<T>(s: seq<Timed<T>>, e: Timed<T>)
    ensures TotalSize(Insert(s, e)) == TotalSize(s) + e.size
  {
    if s == [] || e.time < s[0].time {
      assert ([e] + s)[1..] == s;
    } else {
      InsertSize(s[1..], e);
      assert ([s[0]] + Insert(s[1..], e))[1..] == Insert(s[1..], e);
    }
  }

  lemma {:induction false} InsertAtLeast<T>(s: seq<Timed<T>>, e: Timed<T>, lo: nat)
    requires AllAtLeast(s, lo) && lo <= e.time
    ensures AllAtLeast(Insert(s, e), lo)
  {
    if s != [] && s[0].time <= e.time {
      InsertAtLeast(s[1..], e, lo);
    }
  }

  lemma {:induction false} AtTimeAbsent<T>(s: seq<Timed<T>>, t: nat)
    requires AllAfter(s, t) || (forall i :: 0 <= i < |s| ==> s[i].time < t)
    ensures AtTime(s, t) == []
  {
    if s != [] {
      AtTimeAbsent(s[1..], t);
    }
  }

  /** The sort is sorted, keeps every event, and never reorders equal times. */
  lemma {:induction false} StableSortFacts<T>(s: seq<Timed<T>>)
    ensures Sorted(StableSort(s))
    ensures SameOrder(StableSort(s), s)
    ensures TotalSize(StableSort(s)) == TotalSize(s)
    decreases |s|
  {
    if s != [] {
      var front, e := s[..|s| - 1], s[|s| - 1];
      StableSortFacts(front);
      var r := StableSort(front);
      assert s == front + [e];
      InsertSorted(r, e);
      InsertSize(r, e);
      TotalSizeConcat(front, [e]);
      assert TotalSize([e]) == e.size;
      forall t: nat
        ensures AtTime(Insert(r, e), t) == AtTime(s, t)
      {
        InsertAtTime(r, e, t);
        AtTimeConcat(front, [e], t);
        AtTimeStep(e, [], t);
        assert [e] + [] == [e];
        assert AtTime(r, t) == AtTime(front, t);
      }
    }
  }

  lemma {:induction false} TotalSizeConcat<T>(x: seq<Timed<T>>, y: seq<Timed<T>>)
    ensures TotalSize(x + y) == TotalSize(x) + TotalSize(y)
  {
    if x == [] {
      assert x + y == y;
    } else {
      assert (x + y)[1..] == x[1..] + y;
      TotalSizeConcat(x[1..], y);
    }
  }

  /** A sorted sequence is determined by its per-time subsequences, so the
      stable sort is the only sorted sequence with the arrival order kept. */
  lemma {:induction false} SortedUnique<T>(x: seq<Timed<T>>, y: seq<Timed<T>>)
    requires Sorted(x) && Sorted(y) && SameOrder(x, y)
    ensures x == y
    decreases |x|
  {
    var u := if y == [] then 0 else y[0].time;
    assert AtTime(x, u) == AtTime(y, u);
    if x != [] {
      var t := x[0].time;
      assert AtTime(x, t)[0] == x[0];
      assert AtTime(y, t) == AtTime(x, t);
      if y == [] || t < u {
        assert AllAfter(y, t);
        AtTimeAbsent(y, t);
        assert false;
      }
      if u < t {
        assert AllAfter(x, u);
        AtTimeAbsent(x, u);
        assert false;
      }
      assert AtTime(y, t)[0] == y[0];
      forall v: nat
        ensures AtTime(x[1..], v) == AtTime(y[1..], v)
      {
        assert AtTime(x, v) == AtTime(y, v);
        if v == t {
          assert AtTime(x, v) == [x[0]] + AtTime(x[1..], v);
          assert AtTime(y, v) == [y[0]] + AtTime(y[1..], v);
          assert AtTime(x[1..], v) == AtTime(x, v)[1..];
          assert AtTime(y[1..], v) == AtTime(y, v)[1..];
        } else {
          assert AtTime(x, v) == AtTime(x[1..], v);
          assert AtTime(y, v) == AtTime(y[1..], v);
        }
      }
      SortedUnique(x[1..], y[1..]);
      assert x == [x[0]] + x[1..] && y == [y[0]] + y[1..];
    }
  }

  lemma SameOrderConcat<T>(x: seq<Timed<T>>, x': seq<Timed<T>>, y: seq<Timed<T>>, y': seq<Timed<T>>)
    requires SameOrder(x, x') && SameOrder(y, y')
    ensures SameOrder(x + y, x' + y')
  {
    forall t: nat
      ensures AtTime(x + y, t) == AtTime(x' + y', t)
    {
      AtTimeConcat(x, y, t);
      AtTimeConcat(x', y', t);
      assert AtTime(x, t) == AtTime(x', t) && AtTime(y, t) == AtTime(y', t);
    }
  }

  lemma SameOrderTransitive<T>(x: seq<Timed<T>>, y: seq<Timed<T>>, z: seq<Timed<T>>)
    requires SameOrder(x, y) && SameOrder(y, z)
    ensures SameOrder(x, z)
  {
    forall t: nat
      ensures AtTime(x, t) == AtTime(z, t)
    {
      assert AtTime(x, t) == AtTime(y, t) && AtTime(y, t) == AtTime(z, t);
    }
  }

  /** Two sequences in the same order hold the same events, each equally often. */
  lemma {:induction false} SameOrderKeepsEvents<T>(x: seq<Timed<T>>, y: seq<Timed<T>>)
    requires SameOrder(x, y)
    ensures multiset(x) == multiset(y)
  {
    forall e: Timed<T>
      ensures multiset(x)[e] == multiset(y)[e]
    {
      CountAtTime(x, e);
      CountAtTime(y, e);
      assert AtTime(x, e.time) == AtTime(y, e.time);
    }
  }

  lemma {:induction false} CountAtTime<T>(s: seq<Timed<T>>, e: Timed<T>)
    ensures multiset(s)[e] == multiset(AtTime(s, e.time))[e]
  {
    if s != [] {
      CountAtTime(s[1..], e);
      assert s == [s[0]] + s[1..];
      var rest := AtTime(s[1..], e.time);
      assert multiset(s) == multiset{s[0]} + multiset(s[1..]);
      if s[0].time == e.time {
        assert multiset([s[0]] + rest) == multiset{s[0]} + multiset(rest);
      } else {
        assert [] + rest == rest;
      }
    }
  }

  lemma {:induction false} UpToSplit<T>(x: seq<Timed<T>>, y: seq<Timed<T>>, t: nat)
    requires AllAtMost(x, t) && AllAfter(y, t)
    ensures UpTo(x + y, t) == x
    decreases |x| + |y|
  {
    if x != [] {
      assert (x + y)[1..] == x[1..] + y;
      UpToSplit(x[1..], y, t);
    } else {
      assert x + y == y;
      if y != [] {
        assert y[1..] == [] + y[1..];
        UpToSplit([], y[1..], t);
      }
    }
  }
}
