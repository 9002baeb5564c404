/** The frames of a sample: from its callchain, from unwinding its stack, or from guessing. */
module GuessedFrames {
  import opened WordArithmetic
  import opened Callchains

  /** What a frame lookup answers. */
  datatype Lookup = Lookup(frame: int, isInterworking: bool, cacheIsDirty: bool)

  /** What the unwinder does: it reads memory that is not there, it reports a frame whose
      program counter is unknown, or one that is looked up. */
  datatype Call = ReadFails | NoCounter | Counter(lookup: Lookup)

  /** The limit -1 stands for none. */
  const NO_LIMIT := -1

  datatype Unwind = Unwind(frames: seq<int>, maxFrames: int, firstGuessedFrame: int, isInterworking: bool)

  function NewUnwind(maxFrames: int): Unwind {
    Unwind([], maxFrames, -1, false)
  }

  /** The unwinder stops behind the limit, not at it. */
  predicate TooMany(u: Unwind) {
    u.maxFrames != NO_LIMIT && |u.frames| > u.maxFrames
  }

  function Guessing(u: Unwind): Unwind {
    u.(firstGuessedFrame := |u.frames|)
  }

  function AddFrame(u: Unwind, l: Lookup): Unwind {
    var frames := u.frames + [l.frame];
    u.(frames := frames, isInterworking := u.isInterworking || (l.isInterworking && |frames| == 1))
  }

  /** One run of the unwinder. */
  function Unwound(u: Unwind, calls: seq<Call>): Unwind
    decreases |calls|
  {
    if calls == [] then u
    else match calls[0]
      case ReadFails => Unwound(Guessing(u), calls[1..])
      case NoCounter => Guessing(u)
      case Counter(l) =>
        if TooMany(u) then Guessing(u)
        else if l.cacheIsDirty then u
        else Unwound(AddFrame(u, l), calls[1..])
  }

  function Resize(frames: seq<int>, n: nat): seq<int> {
    if n <= |frames| then frames[..n] else frames + seq(n - |frames|, _ => 0)
  }

  /** A stack is unwound once, and once more behind an interworking veneer; the longer result
      stays. */
  function UnwoundStack(u: Unwind, first: seq<Call>, second: seq<Call>): Unwind {
    var once := Unwound(u, first);
    if !once.isInterworking then once
    else
      var again := Unwound(once.(frames := Resize(once.frames, 1)), second);
      if |once.frames| > |again.frames| then again.(frames := once.frames) else again
  }

  /** Looks up the reported addresses in order; a dirty cache ends that. */
  function Reported(u: Unwind, reports: seq<Report>, look: nat -> Lookup, i: nat): Unwind
    decreases |reports|
  {
    if reports == [] then u
    else
      var l := look(i);
      var u' := u.(frames := u.frames + [l.frame], isInterworking := l.isInterworking);
      if l.cacheIsDirty then u' else Reported(u', reports[1..], look, i + 1)
  }

  /** What the libraries do in one attempt: the answers to the lookups of the callchain,
      which caches are dirty after them, whether unwinding is possible, what the unwinder
      does then, and whether the user's cache is dirty after that. */
  datatype Attempt = Attempt(look: nat -> Lookup, userDirty: bool, kernelDirty: bool, attached: bool,
                             first: seq<Call>, second: seq<Call>, dirtyAfter: bool)

  /** The frames of the callchain and the branch stack. */
  function Resolved(c: Chain, maxFrames: int, look: nat -> Lookup): Unwind {
    if c.callchain != [] || c.branches != [] then Reported(NewUnwind(maxFrames), Reports(c), look, 0)
    else NewUnwind(maxFrames)
  }

  /** One attempt, and whether another one is needed. */
  function Tried(c: Chain, maxFrames: int, hasStack: bool, a: Attempt): (Unwind, bool) {
    var u := Resolved(c, maxFrames, a.look);
    if a.userDirty || a.kernelDirty then (u, true)
    else if !hasStack then (u, false)
    else (if a.attached then UnwoundStack(u, a.first, a.second) else u, a.dirtyAfter)
  }

  /** The frames of a sample: at most two attempts, and at least the sample's own address. */
  function Analyzed(c: Chain, maxFrames: int, hasStack: bool, a: Attempt, b: Attempt, own: Lookup): Unwind {
    var (u, again) := Tried(c, maxFrames, hasStack, a);
    var v := if again then Tried(c, maxFrames, hasStack, b).0 else u;
    if v.frames == [] then v.(frames := [own.frame], isInterworking := own.isInterworking) else v
  }

  /** How many frames were guessed, squeezed into eight bits. */
  function GuessedCount(u: Unwind): int {
    if u.firstGuessedFrame == -1 then 0
    else
      var guessed := |u.frames| - u.firstGuessedFrame;
      if guessed < 255 then guessed else 255
  }

  // ------------------------------------------------------------ what every run keeps

  /** The first guessed frame is none or lies within the frames, and a veneer has a frame. */
  ghost predicate Bounded(u: Unwind) {
    && -1 <= u.firstGuessedFrame <= |u.frames|
    && (u.isInterworking ==> u.frames != [])
  }

  /** With a limit, the unwinder adds frames up to one more than it; `n` frames may have been
      there before. */
  ghost predicate Limited(u: Unwind, n: nat) {
    u.maxFrames != NO_LIMIT ==> |u.frames| <= n || |u.frames| <= u.maxFrames + 1
  }

  lemma {:induction false} UnwoundFacts(u: Unwind, calls: seq<Call>)
    requires Bounded(u)
    ensures Bounded(Unwound(u, calls))
    ensures u.frames <= Unwound(u, calls).frames
    ensures Unwound(u, calls).maxFrames == u.maxFrames
    ensures Limited(Unwound(u, calls), |u.frames|)
    ensures u.isInterworking ==> Unwound(u, calls).isInterworking
    ensures Unwound(u, calls).firstGuessedFrame != u.firstGuessedFrame ==>
      |u.frames| <= Unwound(u, calls).firstGuessedFrame
    decreases |calls|
  {
    if calls != [] {
      match calls[0]
      case ReadFails => UnwoundFacts(Guessing(u), calls[1..]);
      case NoCounter =>
      case Counter(l) =>
        if !TooMany(u) && !l.cacheIsDirty {
          UnwoundFacts(AddFrame(u, l), calls[1..]);
          assert u.frames <= AddFrame(u, l).frames;
        }
    }
  }

  /** The retry never leaves fewer frames than the first run, keeps the veneer's frame, and
      keeps the first guessed frame in bounds, although it cuts the frames in between. */
  lemma UnwoundStackFacts(u: Unwind, first: seq<Call>, second: seq<Call>)
    requires Bounded(u)
    ensures var once, r := Unwound(u, first), UnwoundStack(u, first, second);
      && Bounded(r)
      && |once.frames| <= |r.frames|
      && (once.frames != [] ==> r.frames[0] == once.frames[0])
      && (!once.isInterworking ==> u.frames <= r.frames)
      && Limited(r, |u.frames|) && r.maxFrames == u.maxFrames
  {
    UnwoundFacts(u, first);
    var once := Unwound(u, first);
    if once.isInterworking {
      var cut := once.(frames := Resize(once.frames, 1), firstGuessedFrame := -1);
      UnwoundFacts(cut, second);
      UnwoundIgnoresGuess(once.(frames := Resize(once.frames, 1)), second);
    }
  }

  /** Where guessing starts depends on an earlier start only if no guess is made. */
  lemma {:induction false} UnwoundIgnoresGuess(u: Unwind, calls: seq<Call>)
    ensures var r, bare := Unwound(u, calls), Unwound(u.(firstGuessedFrame := -1), calls);
      && r.frames == bare.frames && r.isInterworking == bare.isInterworking && r.maxFrames == bare.maxFrames
      && r.firstGuessedFrame == if bare.firstGuessedFrame == -1 then u.firstGuessedFrame else bare.firstGuessedFrame
    decreases |calls|
  {
    if calls != [] {
      match calls[0]
      case ReadFails => UnwoundIgnoresGuess(Guessing(u), calls[1..]);
      case NoCounter =>
      case Counter(l) => UnwoundIgnoresGuess(AddFrame(u, l), calls[1..]);
    }
  }

  lemma {:induction false} ReportedFacts(u: Unwind, reports: seq<Report>, look: nat -> Lookup, i: nat)
    requires Bounded(u)
    ensures var r := Reported(u, reports, look, i);
      && Bounded(r) && r.firstGuessedFrame == u.firstGuessedFrame && r.maxFrames == u.maxFrames
      && u.frames <= r.frames && |r.frames| <= |u.frames| + |reports|
      && (reports != [] ==> r.frames != [])
    decreases |reports|
  {
    if reports != [] {
      var l := look(i);
      var u' := u.(frames := u.frames + [l.frame], isInterworking := l.isInterworking);
      if !l.cacheIsDirty {
        ReportedFacts(u', reports[1..], look, i + 1);
      }
      assert u.frames <= u'.frames;
    }
  }

  lemma TriedFacts(c: Chain, maxFrames: int, hasStack: bool, a: Attempt)
    ensures var u := Tried(c, maxFrames, hasStack, a).0;
      && Bounded(u) && u.maxFrames == maxFrames
      && Limited(u, |Reports(c)|)
  {
    hide Reported, UnwoundStack;
    ReportedFacts(NewUnwind(maxFrames), Reports(c), a.look, 0);
    UnwoundStackFacts(Resolved(c, maxFrames, a.look), a.first, a.second);
  }

  /** Whatever the limit is and the libraries do, a sample has a frame, the first guessed one
      is among its frames or right behind, and the number of guessed frames fits into a byte.
      With a limit, the unwinder exceeds it by at most one. */
  lemma AnalyzedFacts(c: Chain, maxFrames: int, hasStack: bool, a: Attempt, b: Attempt, own: Lookup)
    ensures var u := Analyzed(c, maxFrames, hasStack, a, b, own);
      && u.frames != []
      && -1 <= u.firstGuessedFrame <= |u.frames|
      && 0 <= GuessedCount(u) <= 255
      && Limited(u, Max(1, |Reports(c)|))
  {
    hide Tried;
    TriedFacts(c, maxFrames, hasStack, a);
    TriedFacts(c, maxFrames, hasStack, b);
  }
}
