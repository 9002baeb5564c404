/** The controller that adapts the size of the event buffer. */
module BufferSizes {
  import opened WordArithmetic
  import opened EventBuffer
  import opened BufferRuns

  /** A flush never changes the maximum, and keeps the target below it. */
  lemma FlushKeepsMaximum(s: Unwind, desired: u32)
    requires s.target <= s.maxTarget
    ensures var r := Flush(s, desired);
      r.maxTarget == s.maxTarget && r.target <= r.maxTarget
  {
    hide Drained;
  }

  /** Whatever happens, the target never exceeds the maximum. */
  lemma {:induction false} TargetBelowMaximum(init: Unwind, ops: seq<Op>)
    requires Fresh(init)
    ensures Run(init, ops).target <= Run(init, ops).maxTarget
    decreases |ops|
  {
    hide Flush;
    if ops != [] {
      var s, op := Run(init, ops[..|ops| - 1]), ops[|ops| - 1];
      TargetBelowMaximum(init, ops[..|ops| - 1]);
      if Buffers(op) {
        FlushKeepsMaximum(Append(s, op), Append(s, op).target / 2);
      } else {
        FlushKeepsMaximum(s, s.size / 2);
        FlushKeepsMaximum(FinishedRound(s), 0);
      }
    }
  }

  /** A violation in a flush that a full buffer started makes the target the maximum or more
      than doubles it. */
  lemma ViolationGrowsTarget(s: Unwind)
    requires FlushIfFull(s).violations != s.violations
    ensures var r := FlushIfFull(s);
      r.target == s.maxTarget || r.target > 2 * s.target
  {
    hide Drained;
  }

  lemma {:induction false} LoopViolates(d: Drain, desired: u32)
    requires SampleLoop(d, desired, false).1
    ensures d.size > desired && d.samples != []
  {
  }

  /** A flush can only see a violation if something is buffered. */
  lemma ViolationNeedsEvents(s: Unwind, desired: u32)
    requires ExactSize(s) && Flush(s, desired).violations != s.violations
    ensures s.size > 0
  {
    FlushFields(s, desired);
    if MmapsViolate(s) {
      PositiveSize(s.mmaps);
    } else {
      LoopViolates(StartDrain(s), desired);
    }
  }

  lemma FlushKeepsTargetPositive(s: Unwind, desired: u32)
    requires ExactSize(s) && s.maxTarget > 0 && (s.violations > 0 ==> s.target > 0)
    ensures var r := Flush(s, desired);
      r.maxTarget > 0 && (r.violations > 0 ==> r.target > 0)
  {
    hide Drained, ExactSize;
    FlushFields(s, desired);
    if Flush(s, desired).violations != s.violations {
      ViolationNeedsEvents(s, desired);
    }
  }

  /** With a positive maximum, from the first violation on the buffer never goes back to
      flushing only on finished rounds. */
  lemma {:induction false} DynamicBufferingStays(init: Unwind, ops: seq<Op>)
    requires Fresh(init) && FittingRun(init, ops) && init.maxTarget > 0
    ensures var s := Run(init, ops);
      s.maxTarget > 0 && (s.violations > 0 ==> s.target > 0)
    decreases |ops|
  {
    hide Flush, ExactSize;
    if ops != [] {
      var front, op := ops[..|ops| - 1], ops[|ops| - 1];
      var s := Run(init, front);
      DynamicBufferingStays(init, front);
      RunExact(init, front);
      if Buffers(op) {
        AppendExact(s, op);
        FlushKeepsTargetPositive(Append(s, op), Append(s, op).target / 2);
      } else {
        FlushKeepsTargetPositive(s, s.size / 2);
        FlushExact(s, s.size / 2);
        SettersExact(s);
        FlushKeepsTargetPositive(FinishedRound(s), 0);
      }
    }
  }
}
