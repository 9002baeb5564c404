/** The object that collects a sample's frames. */
module UnwindInfos {
  import opened WordArithmetic
  import opened Callchains
  import opened GuessedFrames

  class UnwindInfo {
    var frames: seq<int>
    /** The most frames to unwind; -1 for as many as possible. */
    var maxFrames: int
    var firstGuessedFrame: int
    var isInterworking: bool

    ghost function Abs(): Unwind
      reads this
    {
      Unwind(frames, maxFrames, firstGuessedFrame, isInterworking)
    }

    constructor ()
      ensures Abs() == NewUnwind(64)
    {
      frames, maxFrames, firstGuessedFrame, isInterworking := [], 64, -1, false;
    }

    method SetMaxUnwindFrames(maxUnwindFrames: int)
      modifies `maxFrames
      ensures Abs() == old(Abs()).(maxFrames := maxUnwindFrames)
    {
      maxFrames := maxUnwindFrames;
    }

    method Clear()
      modifies this
      ensures Abs() == NewUnwind(old(maxFrames))
    {
      isInterworking := false;
      firstGuessedFrame := -1;
      frames := [];
    }

    method MemoryReadFails()
      modifies this
      ensures Abs() == Guessing(old(Abs()))
    {
      firstGuessedFrame := |frames|;
    }

    /** Takes one frame from the unwinder, or makes it stop. */
    method FrameCallback(call: Call, ghost rest: seq<Call>) returns (goOn: bool)
      requires !call.ReadFails?
      modifies this
      ensures Unwound(old(Abs()), [call] + rest) == if goOn then Unwound(Abs(), rest) else Abs()
    {
      hide Unwound;
      ghost var u := Abs();
      UnwoundStep(u, call, rest);
      if call.NoCounter? || (maxFrames != NO_LIMIT && |frames| > maxFrames) {
        firstGuessedFrame := |frames|;
        return false;
      }
      if call.lookup.cacheIsDirty { return false; }
      frames := frames + [call.lookup.frame];
      if call.lookup.isInterworking && |frames| == 1 {
        isInterworking := true;
      }
      assert Abs() == AddFrame(u, call.lookup);
      goOn := true;
    }

    method GetThreadFrames(calls: seq<Call>)
      modifies this
      ensures Abs() == Unwound(old(Abs()), calls)
    {
      hide Unwound;
      var i := 0;
      while i < |calls|
        invariant 0 <= i <= |calls|
        invariant Unwound(old(Abs()), calls) == Unwound(Abs(), calls[i..])
      {
        assert calls[i..] == [calls[i]] + calls[i + 1..];
        UnwoundStep(Abs(), calls[i], calls[i + 1..]);
        if calls[i].ReadFails? {
          MemoryReadFails();
        } else {
          var goOn := FrameCallback(calls[i], calls[i + 1..]);
          if !goOn { return; }
        }
        i := i + 1;
      }
      assert calls[i..] == [];
      UnwoundNothing(Abs());
    }

    method UnwindStack(first: seq<Call>, second: seq<Call>)
      modifies this
      ensures Abs() == UnwoundStack(old(Abs()), first, second)
    {
      hide Unwound;
      GetThreadFrames(first);
      if isInterworking {
        var savedFrames := frames;
        frames := Resize(frames, 1);
        GetThreadFrames(second);
        if |savedFrames| > |frames| {
          frames := savedFrames;
        }
      }
    }

    /** Looks up one address of the callchain. */
    method ReportIp(l: Lookup) returns (goOn: bool)
      modifies this
      ensures Abs() == old(Abs()).(frames := old(frames) + [l.frame], isInterworking := l.isInterworking)
      ensures goOn <==> !l.cacheIsDirty
    {
      frames := frames + [l.frame];
      isInterworking := l.isInterworking;
      goOn := !l.cacheIsDirty;
    }

    /** Reports addresses in order until a cache is dirty. */
    method ReportAll(reports: seq<Report>, ghost rest: seq<Report>, look: nat -> Lookup, n: nat) returns (goOn: bool)
      modifies this
      ensures Reported(old(Abs()), reports + rest, look, n) ==
        if goOn then Reported(Abs(), rest, look, n + |reports|) else Abs()
    {
      hide Reported;
      var i := 0;
      goOn := true;
      assert reports[0..] + rest == reports + rest;
      while i < |reports|
        invariant 0 <= i <= |reports| && goOn
        invariant Reported(old(Abs()), reports + rest, look, n) == Reported(Abs(), reports[i..] + rest, look, n + i)
      {
        ReportedStep(Abs(), reports[i], reports[i + 1..] + rest, look, n + i);
        assert reports[i..] + rest == [reports[i]] + (reports[i + 1..] + rest);
        goOn := ReportIp(look(n + i));
        if !goOn { return; }
        i := i + 1;
      }
      assert reports[i..] + rest == rest;
    }

    /** Looks up what the callchain and the branch stack ask for. */
    method ResolveCallchain(c: Chain, look: nat -> Lookup)
      modifies this
      ensures Abs() == Reported(old(Abs()), Reports(c), look, 0)
    {
      hide Reported, Walk, Remaining;
      ghost var goal := Reported(Abs(), Reports(c), look, 0);
      ReportsAreRemaining(c);
      var isKernel, addedUserFrames := false, false;
      var i: nat, n: nat := 0, 0;
      assert c.callchain[0..] == c.callchain;
      while i < |c.callchain|
        invariant i <= |c.callchain|
        invariant goal ==
          Reported(Abs(), Remaining(c, c.callchain[i..], Place(isKernel, addedUserFrames, false)), look, n)
      {
        var ip := c.callchain[i];
        ghost var rest, p := c.callchain[i + 1..], Place(isKernel, addedUserFrames, false);
        assert c.callchain[i..] == [ip] + rest;
        RemainingStep(c, ip, rest, p);
        if ip > CONTEXT_MAX {
          if ip == CONTEXT_HV || ip == CONTEXT_KERNEL {
            isKernel := true;
          } else if ip == CONTEXT_USER {
            isKernel := false;
          } else {
            ReportedNothing(Abs(), look, n);
            return;
          }
        } else {
          var own := if !addedUserFrames && !isKernel && ip != c.ip then [Report(c.ip, false)] else [];
          if c.branches != [] && !isKernel {
            var goOn := ReportAll(own, BranchReports(c.branches), look, n);
            if goOn {
              goOn := ReportAll(BranchReports(c.branches), [], look, n + |own|);
              assert BranchReports(c.branches) + [] == BranchReports(c.branches);
              ReportedNothing(Abs(), look, n + |own| + |BranchReports(c.branches)|);
            }
            return;
          }
          var reports := own + [Report(ip, isKernel)];
          ghost var p' := Place(isKernel, addedUserFrames || !isKernel, false);
          var goOn := ReportAll(reports, Remaining(c, rest, p'), look, n);
          if !goOn { return; }
          addedUserFrames := addedUserFrames || !isKernel;
          n := n + |reports|;
        }
        i := i + 1;
      }
      assert c.callchain[i..] == [];
      RemainingEnd(c, Place(isKernel, addedUserFrames, false));
      if isKernel {
        ReportedNothing(Abs(), look, n);
        return;
      }
      var branches := BranchReports(c.branches);
      assert branches + [] == branches;
      var goOn := ReportAll(branches, [], look, n);
      ReportedNothing(Abs(), look, n + |branches|);
    }

    /** The frames of a sample: the callchain's first, then the unwinder's if no cache got
        dirty; a dirty cache asks for a second attempt. */
    method Analyze(c: Chain, hasStack: bool, a: Attempt, b: Attempt, own: Lookup) returns (numGuessedFrames: int)
      modifies this
      ensures Abs() == Analyzed(c, old(maxFrames), hasStack, a, b, own)
      ensures numGuessedFrames == GuessedCount(Abs()) && 0 <= numGuessedFrames <= 255 && frames != []
    {
      hide Tried;
      TriedFacts(c, maxFrames, hasStack, a);
      AnalyzedFacts(c, maxFrames, hasStack, a, b, own);
      var again := Attempts(c, hasStack, a);
      if again {
        again := Attempts(c, hasStack, b);
      }
      if frames == [] {
        frames, isInterworking := frames + [own.frame], own.isInterworking;
      }
      numGuessedFrames := 0;
      if firstGuessedFrame != -1 {
        var numGuessed := |frames| - firstGuessedFrame;
        assert numGuessed >= 0;
        numGuessedFrames := if 255 < numGuessed then 255 else numGuessed;
      }
    }

    method Attempts(c: Chain, hasStack: bool, a: Attempt) returns (again: bool)
      modifies this
      ensures (Abs(), again) == Tried(c, old(maxFrames), hasStack, a)
    {
      Clear();
      if c.callchain != [] || c.branches != [] {
        ResolveCallchain(c, a.look);
      }
      var userDirty := a.userDirty;
      if !userDirty && !a.kernelDirty {
        if !hasStack { return false; }
        if a.attached {
          UnwindStack(a.first, a.second);
        }
        userDirty := a.dirtyAfter;
      }
      again := userDirty || a.kernelDirty;
    }
  }

  lemma UnwoundStep(u: Unwind, call: Call, rest: seq<Call>)
    ensures Unwound(u, [call] + rest) ==
      match call
      case ReadFails => Unwound(Guessing(u), rest)
      case NoCounter => Guessing(u)
      case Counter(l) =>
        if TooMany(u) then Guessing(u)
        else if l.cacheIsDirty then u
        else Unwound(AddFrame(u, l), rest)
  {
    assert ([call] + rest)[1..] == rest;
  }

  lemma UnwoundNothing(u: Unwind)
    ensures Unwound(u, []) == u
  {
  }

  lemma ReportedStep(u: Unwind, r: Report, rest: seq<Report>, look: nat -> Lookup, n: nat)
    ensures var l := look(n);
      var u' := u.(frames := u.frames + [l.frame], isInterworking := l.isInterworking);
      Reported(u, [r] + rest, look, n) == if l.cacheIsDirty then u' else Reported(u', rest, look, n + 1)
  {
    assert ([r] + rest)[1..] == rest;
  }

  lemma ReportedNothing(u: Unwind, look: nat -> Lookup, n: nat)
    ensures Reported(u, [], look, n) == u
  {
  }

  lemma ReportsAreRemaining(c: Chain)
    ensures Reports(c) == Remaining(c, c.callchain, START)
  {
  }

  lemma RemainingEnd(c: Chain, p: Place)
    requires !p.invalid
    ensures Remaining(c, [], p) == if p.isKernel then [] else BranchReports(c.branches)
  {
    assert [] + BranchReports(c.branches) == BranchReports(c.branches);
  }

  lemma RemainingStep(c: Chain, ip: u64, rest: seq<u64>, p: Place)
    requires !p.invalid
    ensures ip == CONTEXT_HV || ip == CONTEXT_KERNEL ==>
      Remaining(c, [ip] + rest, p) == Remaining(c, rest, p.(isKernel := true))
    ensures ip == CONTEXT_USER ==> Remaining(c, [ip] + rest, p) == Remaining(c, rest, p.(isKernel := false))
    ensures ip > CONTEXT_MAX && ip !in {CONTEXT_HV, CONTEXT_KERNEL, CONTEXT_USER} ==> Remaining(c, [ip] + rest, p) == []
    ensures ip <= CONTEXT_MAX ==>
      var own := if !p.addedUserFrames && !p.isKernel && ip != c.ip then [Report(c.ip, false)] else [];
      Remaining(c, [ip] + rest, p) ==
        if c.branches != [] && !p.isKernel then own + BranchReports(c.branches)
        else
          own + [Report(ip, p.isKernel)] +
          Remaining(c, rest, p.(addedUserFrames := p.addedUserFrames || !p.isKernel))
  {
    assert ([ip] + rest)[1..] == rest;
  }
}
