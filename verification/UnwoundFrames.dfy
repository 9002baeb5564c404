/** Exactly which frames a sample gets, how many of them were guessed, and when the stack is
    unwound twice. */
module UnwoundFrames {
  import opened WordArithmetic
  import opened Callchains
  import opened GuessedFrames

  // ------------------------------------------------------------ one run of the unwinder

  /** The lookups that the unwinder asks for, if nothing ends it. */
  ghost function Counters(calls: seq<Call>): seq<Lookup> {
    if calls == [] then []
    else Counters(calls[..|calls| - 1])
         + (if calls[|calls| - 1].Counter? then [calls[|calls| - 1].lookup] else [])
  }

  ghost function FramesOf(lookups: seq<Lookup>): (r: seq<int>)
    ensures |r| == |lookups|
    ensures forall i :: 0 <= i < |r| ==> r[i] == lookups[i].frame
  {
    seq(|lookups|, i requires 0 <= i < |lookups| => lookups[i].frame)
  }

  /** There are more frames than the limit, when `added` lookups have been appended. */
  ghost predicate Full(u: Unwind, added: nat) {
    u.maxFrames != -1 && |u.frames| + added > u.maxFrames
  }

  ghost predicate EndsAt(u: Unwind, calls: seq<Call>, k: nat)
    requires k < |calls|
  {
    || calls[k] == NoCounter
    || (calls[k].Counter? && (calls[k].lookup.cacheIsDirty || Full(u, |Counters(calls[..k])|)))
  }

  /** The run ends at call `n`, or there is none to end it. */
  ghost predicate Ends(u: Unwind, calls: seq<Call>, n: nat) {
    && n <= |calls|
    && (forall k: nat :: k < n ==> !EndsAt(u, calls, k))
    && (n < |calls| ==> EndsAt(u, calls, n))
  }

  /** From call `k` on frames are guessed: it reads memory that is not there, or it ends a run up
      to call `n` for another reason than a dirty cache. */
  ghost predicate GuessesAt(u: Unwind, calls: seq<Call>, k: nat, n: nat) {
    && k < |calls| && k <= n
    && (k < n ==> calls[k] == ReadFails)
    && (k == n ==> calls[n].Counter? ==> Full(u, |Counters(calls[..n])|))
  }

  ghost predicate LastGuess(u: Unwind, calls: seq<Call>, k: nat, n: nat) {
    GuessesAt(u, calls, k, n) && forall j: nat :: k < j ==> !GuessesAt(u, calls, j, n)
  }

  ghost predicate GuessedFrom(u: Unwind, calls: seq<Call>, k: nat, r: Unwind) {
    k <= |calls| && r.firstGuessedFrame == |u.frames| + |Counters(calls[..k])|
  }

  ghost predicate NoGuess(u: Unwind, calls: seq<Call>, n: nat) {
    forall k: nat :: !GuessesAt(u, calls, k, n)
  }

  /** A run of the unwinder that ends at call `n` turned `u` into `r`. */
  ghost predicate Runs(u: Unwind, calls: seq<Call>, n: nat, r: Unwind)
    requires n <= |calls|
  {
    var added := Counters(calls[..n]);
    && r.frames == u.frames + FramesOf(added) && r.maxFrames == u.maxFrames
    && (r.isInterworking <==> u.isInterworking || (u.frames == [] && added != [] && added[0].isInterworking))
    && (forall k: nat :: LastGuess(u, calls, k, n) ==> GuessedFrom(u, calls, k, r))
    && (NoGuess(u, calls, n) ==> r.firstGuessedFrame == u.firstGuessedFrame)
  }

  lemma {:induction false} CountersFront(c: Call, calls: seq<Call>)
    ensures Counters([c] + calls) == (if c.Counter? then [c.lookup] else []) + Counters(calls)
    decreases |calls|
  {
    if calls == [] {
      assert [c] + calls == [c] && [c][..0] == [];
      assert Counters([c]) == Counters([]) + (if c.Counter? then [c.lookup] else []);
    } else {
      var front := calls[..|calls| - 1];
      CountersFront(c, front);
      assert ([c] + calls)[..|calls|] == [c] + front;
    }
  }

  /** The first call of a run that goes on, and the run behind it. */
  ghost predicate GoesOn(u: Unwind, calls: seq<Call>, v: Unwind) {
    && calls != [] && !EndsAt(u, calls, 0)
    && v == if calls[0].Counter? then AddFrame(u, calls[0].lookup) else Guessing(u)
  }

  lemma CountersBehind(calls: seq<Call>, k: nat)
    requires calls != [] && 0 < k <= |calls|
    ensures Counters(calls[..k]) == (if calls[0].Counter? then [calls[0].lookup] else [])
                                    + Counters(calls[1..][..k - 1])
  {
    CountersFront(calls[0], calls[1..][..k - 1]);
    assert [calls[0]] + calls[1..][..k - 1] == calls[..k];
  }

  lemma EndsBehind(u: Unwind, calls: seq<Call>, v: Unwind, k: nat)
    requires GoesOn(u, calls, v) && 0 < k < |calls|
    ensures EndsAt(u, calls, k) <==> EndsAt(v, calls[1..], k - 1)
  {
    CountersBehind(calls, k);
  }

  lemma GuessesBehind(u: Unwind, calls: seq<Call>, v: Unwind, k: nat, n: nat)
    requires GoesOn(u, calls, v) && 0 < k && 0 < n <= |calls|
    ensures GuessesAt(u, calls, k, n) <==> GuessesAt(v, calls[1..], k - 1, n - 1)
  {
    CountersBehind(calls, n);
  }

  lemma EndsLater(u: Unwind, calls: seq<Call>, v: Unwind, n: nat)
    requires GoesOn(u, calls, v) && Ends(v, calls[1..], n)
    ensures Ends(u, calls, n + 1)
  {
    hide EndsAt, GoesOn;
    assert !EndsAt(u, calls, 0) && calls != [] by {
      GoesOnFacts(u, calls, v);
    }
    forall k: nat | 0 < k < |calls|
      ensures EndsAt(u, calls, k) <==> EndsAt(v, calls[1..], k - 1)
    {
      EndsBehind(u, calls, v, k);
    }
    forall k: nat | k < n + 1
      ensures !EndsAt(u, calls, k)
    {
      if k > 0 {
        assert !EndsAt(v, calls[1..], k - 1);
      }
    }
  }

  lemma GoesOnFacts(u: Unwind, calls: seq<Call>, v: Unwind)
    requires GoesOn(u, calls, v)
    ensures calls != [] && !EndsAt(u, calls, 0) && calls[0] != NoCounter
    ensures calls[0].Counter? ==>
      && v.frames == u.frames + [calls[0].lookup.frame] && v.firstGuessedFrame == u.firstGuessedFrame
      && (v.isInterworking <==> u.isInterworking || (u.frames == [] && calls[0].lookup.isInterworking))
    ensures calls[0] == ReadFails ==> v == u.(firstGuessedFrame := |u.frames|)
    ensures v.maxFrames == u.maxFrames
  {
  }

  lemma GuessLater(u: Unwind, calls: seq<Call>, v: Unwind, n: nat, r: Unwind)
    requires GoesOn(u, calls, v) && 0 < n <= |calls| && Runs(v, calls[1..], n - 1, r)
    ensures forall k: nat :: LastGuess(u, calls, k, n) ==> GuessedFrom(u, calls, k, r)
    ensures NoGuess(u, calls, n) ==> r.firstGuessedFrame == u.firstGuessedFrame
  {
    hide Counters, EndsAt, GuessesAt, LastGuess, NoGuess;
    GoesOnFacts(u, calls, v);
    FirstGuess(u, calls, n);
    forall k: nat | LastGuess(u, calls, k, n)
      ensures GuessedFrom(u, calls, k, r)
    {
      GuessInRange(u, calls, k, n);
      if k == 0 {
        NoLaterGuess(u, calls, v, n);
        NoCounters(calls);
      } else {
        LastBehind(u, calls, v, k, n);
        CountersBehind(calls, k);
      }
    }
    if NoGuess(u, calls, n) {
      NoneAtFirst(u, calls, n);
      NoLaterGuess(u, calls, v, n);
    }
  }

  lemma NoneAtFirst(u: Unwind, calls: seq<Call>, n: nat)
    requires NoGuess(u, calls, n)
    ensures !GuessesAt(u, calls, 0, n) && forall k: nat :: 0 < k ==> !GuessesAt(u, calls, k, n)
  {
  }

  lemma NoCounters(calls: seq<Call>)
    ensures Counters(calls[..0]) == []
  {
  }

  lemma GuessInRange(u: Unwind, calls: seq<Call>, k: nat, n: nat)
    requires LastGuess(u, calls, k, n)
    ensures k < |calls| && GuessesAt(u, calls, k, n)
    ensures forall j: nat :: k < j ==> !GuessesAt(u, calls, j, n)
  {
  }

  lemma LastBehind(u: Unwind, calls: seq<Call>, v: Unwind, k: nat, n: nat)
    requires GoesOn(u, calls, v) && LastGuess(u, calls, k, n) && 0 < k && 0 < n <= |calls|
    ensures LastGuess(v, calls[1..], k - 1, n - 1)
  {
    hide GuessesAt, GoesOn;
    GuessesBehind(u, calls, v, k, n);
    var m := n - 1;
    forall j: nat | k - 1 < j
      ensures !GuessesAt(v, calls[1..], j, m)
    {
      GuessesBehind(u, calls, v, j + 1, n);
    }
  }

  lemma FirstGuess(u: Unwind, calls: seq<Call>, n: nat)
    requires calls != [] && 0 < n
    ensures GuessesAt(u, calls, 0, n) <==> calls[0] == ReadFails
  {
  }

  lemma NoLaterGuess(u: Unwind, calls: seq<Call>, v: Unwind, n: nat)
    requires GoesOn(u, calls, v) && 0 < n <= |calls|
    requires forall k: nat :: 0 < k ==> !GuessesAt(u, calls, k, n)
    ensures NoGuess(v, calls[1..], n - 1)
  {
    hide GuessesAt, GoesOn;
    var m := n - 1;
    forall k: nat
      ensures !GuessesAt(v, calls[1..], k, m)
    {
      GuessesBehind(u, calls, v, k + 1, n);
    }
  }

  lemma RunsLater(u: Unwind, calls: seq<Call>, v: Unwind, n: nat, r: Unwind)
    requires GoesOn(u, calls, v) && 0 < n <= |calls| && Runs(v, calls[1..], n - 1, r)
    ensures Runs(u, calls, n, r)
  {
    hide Counters, EndsAt, GuessesAt, LastGuess, NoGuess;
    GoesOnFacts(u, calls, v);
    GuessLater(u, calls, v, n, r);
    CountersBehind(calls, n);
    assert r.frames == u.frames + FramesOf(Counters(calls[..n]));
  }

  /** What a run of the unwinder does: it appends the frames of the calls before the one that
      ends it, which is the first without a program counter, behind more frames than the limit or
      with a dirty cache. Frames are guessed from the last failed read on, or from the end if it
      is not for a dirty cache; and a veneer is the first frame of all, or nothing. */
  lemma {:induction false} UnwoundExactly(u: Unwind, calls: seq<Call>) returns (n: nat)
    ensures Ends(u, calls, n) && Runs(u, calls, n, Unwound(u, calls))
    decreases |calls|
  {
    hide Runs, GuessesAt, Counters;
    if calls == [] {
      n := 0;
      RunsNothing(u, calls);
    } else if EndsAt(u, calls, 0) {
      n := 0;
      NoCounters(calls);
      RunsNothing(u, calls);
    } else {
      NoCounters(calls);
      var v := if calls[0].Counter? then AddFrame(u, calls[0].lookup) else Guessing(u);
      var later := UnwoundExactly(v, calls[1..]);
      n := later + 1;
      EndsLater(u, calls, v, later);
      RunsLater(u, calls, v, n, Unwound(u, calls));
    }
  }

  lemma RunsNothing(u: Unwind, calls: seq<Call>)
    requires calls != [] ==> EndsAt(u, calls, 0)
    ensures Runs(u, calls, 0, Unwound(u, calls))
  {
    assert calls[..0] == [];
    assert forall k: nat :: GuessesAt(u, calls, k, 0) ==> k == 0;
    if calls != [] && !GuessesAt(u, calls, 0, 0) {
      assert calls[0].Counter? && !TooMany(u);
    }
  }

  // ------------------------------------------------------------ the retry behind a veneer

  /** A stack whose first run ends with a veneer is unwound again from its first frame alone; the
      frames of the second run stay unless they are fewer, and where guessing starts is what the
      second run says. */
  lemma UnwoundStackExactly(u: Unwind, first: seq<Call>, second: seq<Call>)
    returns (n: nat, once: Unwind, m: nat, again: Unwind)
    requires Bounded(u)
    ensures Ends(u, first, n) && Runs(u, first, n, once)
    ensures !once.isInterworking ==> UnwoundStack(u, first, second) == once
    ensures once.isInterworking ==>
      && once.frames != []
      && var veneer := once.(frames := [once.frames[0]]);
        Ends(veneer, second, m) && Runs(veneer, second, m, again)
    ensures once.isInterworking ==>
      UnwoundStack(u, first, second) ==
        again.(frames := if |again.frames| < |once.frames| then once.frames else again.frames)
  {
    hide Runs, Ends, Unwound;
    n := UnwoundExactly(u, first);
    once := Unwound(u, first);
    UnwoundFacts(u, first);
    if once.isInterworking {
      var veneer := once.(frames := [once.frames[0]]);
      assert Resize(once.frames, 1) == veneer.frames;
      m := UnwoundExactly(veneer, second);
      again := Unwound(veneer, second);
    } else {
      m, again := 0, once;
    }
  }

  // ------------------------------------------------------------ the callchain

  /** The first `n` of the reported addresses were looked up, all of them unless a cache was dirty
      after the last one. */
  ghost predicate LooksUp(n: nat, u: Unwind, reports: seq<Report>, look: nat -> Lookup, i: nat, r: Unwind) {
    && n <= |reports| && |r.frames| == |u.frames| + n
    && u.frames <= r.frames && (forall j: nat :: i <= j < i + n ==> r.frames[|u.frames| + j - i] == look(j).frame)
    && (forall j: nat :: i <= j < i + n - 1 ==> !look(j).cacheIsDirty)
    && (n < |reports| ==> n > 0 && look(i + n - 1).cacheIsDirty)
    && r.isInterworking == (if n == 0 then u.isInterworking else look(i + n - 1).isInterworking)
    && r == u.(frames := r.frames, isInterworking := r.isInterworking)
  }

  lemma OneMore(n: nat, u: Unwind, reports: seq<Report>, look: nat -> Lookup, i: nat, r: Unwind)
    requires reports != [] && !look(i).cacheIsDirty && 0 < n
    requires LooksUp(n - 1, u.(frames := u.frames + [look(i).frame], isInterworking := look(i).isInterworking),
                     reports[1..], look, i + 1, r)
    ensures LooksUp(n, u, reports, look, i, r)
  {
    assert r.frames[|u.frames|] == look(i).frame;
  }

  lemma {:induction false} ReportedExactly(u: Unwind, reports: seq<Report>, look: nat -> Lookup, i: nat)
    returns (n: nat)
    ensures LooksUp(n, u, reports, look, i, Reported(u, reports, look, i))
    decreases |reports|
  {
    if reports == [] {
      n := 0;
    } else if look(i).cacheIsDirty {
      n := 1;
    } else {
      hide LooksUp;
      var v := u.(frames := u.frames + [look(i).frame], isInterworking := look(i).isInterworking);
      n := ReportedExactly(v, reports[1..], look, i + 1);
      n := n + 1;
      OneMore(n, u, reports, look, i, Reported(u, reports, look, i));
    }
  }

  // ------------------------------------------------------------ a whole sample

  /** The attempt that counts: the second one if a cache was dirty after the callchain of the
      first, or the user's after its stack. */
  ghost function Counting(hasStack: bool, a: Attempt, b: Attempt): Attempt {
    if a.userDirty || a.kernelDirty || (hasStack && a.dirtyAfter) then b else a
  }

  /** The frames of a sample are those of the attempt that counts: of its callchain, and behind
      them those of its stack if there is one that can be unwound and no cache was dirty. Without
      any there is the sample's own address. At most 255 of them are reported as guessed. */
  lemma AnalyzedExactly(c: Chain, maxFrames: int, hasStack: bool, a: Attempt, b: Attempt, own: Lookup)
    returns (n: nat, chain: Unwind)
    ensures LooksUp(n, Unwind([], maxFrames, -1, false), Reports(c), Counting(hasStack, a, b).look, 0, chain)
    ensures var r, t := Analyzed(c, maxFrames, hasStack, a, b, own), Counting(hasStack, a, b);
      var unwound := if hasStack && t.attached && !t.userDirty && !t.kernelDirty
                     then UnwoundStack(chain, t.first, t.second) else chain;
      && (unwound.frames != [] ==> r == unwound)
      && (unwound.frames == [] ==>
            r == unwound.(frames := [own.frame], isInterworking := own.isInterworking))
      && -1 <= r.firstGuessedFrame <= |r.frames|
      && (r.firstGuessedFrame == -1 ==> GuessedCount(r) == 0)
      && (r.firstGuessedFrame != -1 ==> GuessedCount(r) == Min(255, |r.frames[r.firstGuessedFrame..]|))
  {
    hide UnwoundStack, Reported, Walk, LooksUp;
    var t := Counting(hasStack, a, b);
    n := ReportedExactly(Unwind([], maxFrames, -1, false), Reports(c), t.look, 0);
    chain := Reported(Unwind([], maxFrames, -1, false), Reports(c), t.look, 0);
    NothingReported(c, maxFrames, t.look);
    AnalyzedFacts(c, maxFrames, hasStack, a, b, own);
  }

  lemma NothingReported(c: Chain, maxFrames: int, look: nat -> Lookup)
    ensures Resolved(c, maxFrames, look) == Reported(Unwind([], maxFrames, -1, false), Reports(c), look, 0)
  {
  }
}
