/** What the address maps are after mappings, forks and exits, as a function of the events
    alone. */
module Lifetimes {
  import opened TimeOrder
  import opened ElfMaps
  import opened EventBuffer
  import opened AddressSpaces

  /** Forks and exits are the task events that change address maps. */
  predicate IsLifeEvent(t: Task) {
    IsFork(t) || IsExit(t)
  }

  function LifeEvents(tasks: seq<Task>): seq<Task> {
    if tasks == [] then []
    else
      var t := tasks[|tasks| - 1];
      LifeEvents(tasks[..|tasks| - 1]) + (if IsLifeEvent(t) then [t] else [])
  }

  /** The forks and exits that took effect. */
  function LifeOf(log: seq<Entry>): seq<Task> {
    if log == [] then []
    else
      LifeOf(log[..|log| - 1]) +
      match log[|log| - 1] {
        case Forked(f) => [f]
        case Exited(x) => [x]
        case _ => []
      }
  }

  /** No fork and no exit was sent without taking effect. */
  ghost predicate AllTookEffect(log: seq<Entry>) {
    LifeEvents(TasksOf(log)) == LifeOf(log)
  }

  /** The forks and exits up to a time that were sent are those that took effect, equal times
      in the same order. */
  ghost predicate TookEffect(log: seq<Entry>, t: nat) {
    SameOrder(UpTo(LifeEvents(TasksOf(log)), t), LifeOf(log))
  }

  ghost predicate AllUntil<T>(s: seq<Timed<T>>, t: int) {
    forall i :: 0 <= i < |s| ==> s[i].time <= t
  }

  /** The events of `s` later than `t`, in their order in `s`. */
  ghost function Behind<T>(s: seq<Timed<T>>, t: int): seq<Timed<T>> {
    if s == [] then []
    else Behind(s[..|s| - 1], t) + (if s[|s| - 1].time > t then [s[|s| - 1]] else [])
  }

  function Later(x: int, y: int): int {
    if x < y then y else x
  }

  /** The latest time before `t`, -1 if there is none. */
  ghost function LatestBefore<T>(s: seq<Timed<T>>, t: nat): int {
    if s == [] then -1
    else
      var before, e := LatestBefore(s[..|s| - 1], t), s[|s| - 1];
      if e.time < t then Later(before, e.time) else before
  }

  ghost function LatestTime<T>(s: seq<Timed<T>>): int {
    if s == [] then -1 else Later(LatestTime(s[..|s| - 1]), s[|s| - 1].time)
  }

  ghost function LatestFork(tasks: seq<Task>): int {
    if tasks == [] then -1
    else
      var before, t := LatestFork(tasks[..|tasks| - 1]), tasks[|tasks| - 1];
      if IsFork(t) then Later(before, t.time) else before
  }

  /** Mappings are registered when a sample or a fork needs them: the last time that happened
      before an exit. */
  ghost function Barrier(samples: seq<Sample>, earlier: seq<Task>, exit: nat): int {
    Later(LatestBefore(samples, exit), LatestFork(earlier))
  }

  /** What an address of a process means, given the samples, mappings, forks and exits so far,
      each in order of time: a fork gives the child the parent's map of that time, and below
      an exit nothing is left of what was registered by then. */
  ghost function Seen(samples: seq<Sample>, mmaps: seq<Mmap>, life: seq<Task>, pid: int, a: int): Target
    decreases |life|
  {
    if life == [] then Overlay(mmaps, pid, a)
    else
      var earlier, e := life[..|life| - 1], life[|life| - 1];
      if e.body.pid != pid then Seen(samples, mmaps, earlier, pid, a)
      else if e.body.kind.ThreadStart? then
        var inherited := Seen(samples, UpTo(mmaps, e.time), earlier, e.body.kind.parentPid, a);
        LaidOver(Behind(mmaps, e.time), pid, a, inherited)
      else Overlay(Behind(mmaps, Barrier(samples, earlier, e.time)), pid, a)
  }

  /** Which task events these are: starts of threads in another process, and ends of main
      threads. */
  lemma {:induction false} LifeEventsAre(tasks: seq<Task>, t: Task)
    ensures t in LifeEvents(tasks) <==>
      && t in tasks
      && ((t.body.kind.ThreadStart? && t.body.pid != t.body.kind.parentPid)
          || (t.body.kind.ThreadEnd? && t.body.pid == t.body.tid))
    decreases |tasks|
  {
    if tasks != [] {
      LifeEventsAre(tasks[..|tasks| - 1], t);
    }
  }

  // ------------------------------------------------------------ one more event

  ghost function FirstIfUpTo<T>(e: Timed<T>, t: nat): seq<Timed<T>> {
    if e.time <= t then [e] else []
  }

  lemma UpToStep<T>(e: Timed<T>, s: seq<Timed<T>>, t: nat)
    ensures UpTo([e] + s, t) == FirstIfUpTo(e, t) + UpTo(s, t)
  {
    assert ([e] + s)[1..] == s;
  }

  lemma {:induction false} UpToSnoc<T>(s: seq<Timed<T>>, e: Timed<T>, t: nat)
    ensures UpTo(s + [e], t) == UpTo(s, t) + FirstIfUpTo(e, t)
  {
    if s == [] {
      UpToStep(e, [], t);
      assert s + [e] == [e] + [];
    } else {
      hide UpTo, FirstIfUpTo;
      UpToSnoc(s[1..], e, t);
      assert s == [s[0]] + s[1..] && s + [e] == [s[0]] + (s[1..] + [e]);
      UpToStep(s[0], s[1..], t);
      UpToStep(s[0], s[1..] + [e], t);
      var x, y, z := FirstIfUpTo(s[0], t), UpTo(s[1..], t), FirstIfUpTo(e, t);
      assert x + (y + z) == x + y + z;
    }
  }

  lemma BehindSnoc<T>(s: seq<Timed<T>>, e: Timed<T>, t: int)
    ensures Behind(s + [e], t) == Behind(s, t) + (if e.time > t then [e] else [])
  {
    assert (s + [e])[..|s|] == s;
  }

  lemma {:induction false} NoneBehind<T>(s: seq<Timed<T>>, t: int)
    requires AllUntil(s, t)
    ensures Behind(s, t) == [] && (t >= 0 ==> UpTo(s, t) == s)
    decreases |s|
  {
    if s != [] {
      var front, e := s[..|s| - 1], s[|s| - 1];
      assert s == front + [e];
      NoneBehind(front, t);
      if t >= 0 {
        UpToSnoc(front, e, t);
      }
    }
  }

  lemma LaidOverSnoc(mmaps: seq<Mmap>, m: Mmap, pid: int, a: int, below: Target)
    ensures LaidOver(mmaps + [m], pid, a, below) ==
      if m.body.pid == pid then Overwritten(m.body.mapping, LaidOver(mmaps, pid, a, below), a)
      else LaidOver(mmaps, pid, a, below)
  {
    assert (mmaps + [m])[..|mmaps|] == mmaps;
  }

  lemma {:induction false} LatestBounds<T>(s: seq<Timed<T>>, t: nat)
    ensures LatestBefore(s, t) <= LatestTime(s)
    ensures LatestTime(s) < t ==> LatestBefore(s, t) == LatestTime(s)
    decreases |s|
  {
    if s != [] {
      LatestBounds(s[..|s| - 1], t);
    }
  }

  /** A mapping later than every barrier and every fork is laid over everything. */
  lemma {:induction false} SeenMmap(samples: seq<Sample>, mmaps: seq<Mmap>, m: Mmap, life: seq<Task>, pid: int, a: int)
    requires LatestTime(samples) < m.time && LatestFork(life) < m.time
    requires forall i :: 0 <= i < |life| ==> IsLifeEvent(life[i])
    ensures Seen(samples, mmaps + [m], life, pid, a) ==
      if m.body.pid == pid then Overwritten(m.body.mapping, Seen(samples, mmaps, life, pid, a), a)
      else Seen(samples, mmaps, life, pid, a)
    decreases |life|
  {
    hide LaidOver, Behind, LatestTime, LatestBefore, UpTo, Overwritten;
    if life == [] {
      LaidOverSnoc(mmaps, m, pid, a, Unmapped);
    } else {
      var earlier, e := life[..|life| - 1], life[|life| - 1];
      SeenMmap(samples, mmaps, m, earlier, pid, a);
      if e.body.pid == pid {
        if IsFork(e) {
          UpToSnoc(mmaps, m, e.time);
          BehindSnoc(mmaps, m, e.time);
          var inherited := Seen(samples, UpTo(mmaps, e.time), earlier, e.body.kind.parentPid, a);
          assert UpTo(mmaps + [m], e.time) == UpTo(mmaps, e.time);
          LaidOverSnoc(Behind(mmaps, e.time), m, pid, a, inherited);
        } else {
          LatestBounds(samples, e.time);
          BehindSnoc(mmaps, m, Barrier(samples, earlier, e.time));
          LaidOverSnoc(Behind(mmaps, Barrier(samples, earlier, e.time)), m, pid, a, Unmapped);
        }
      }
    }
  }

  lemma {:induction false} LatestBeforeLater<T>(s: seq<Timed<T>>, later: seq<Timed<T>>, t: nat)
    requires AllAtLeast(later, t)
    ensures LatestBefore(s + later, t) == LatestBefore(s, t)
    decreases |later|
  {
    if later == [] {
      assert s + later == s;
    } else {
      assert (s + later)[..|s + later| - 1] == s + later[..|later| - 1];
      LatestBeforeLater(s, later[..|later| - 1], t);
    }
  }

  /** Samples that are not earlier than any exit change nothing. */
  lemma {:induction false} SeenSamples(samples: seq<Sample>, later: seq<Sample>, mmaps: seq<Mmap>, life: seq<Task>,
                                       t: nat, pid: int, a: int)
    requires AllAtMost(life, t) && AllAtLeast(later, t)
    ensures Seen(samples + later, mmaps, life, pid, a) == Seen(samples, mmaps, life, pid, a)
    decreases |life|
  {
    hide LaidOver, Behind, UpTo;
    if life != [] {
      var earlier, e := life[..|life| - 1], life[|life| - 1];
      SeenSamples(samples, later, mmaps, earlier, t, pid, a);
      if e.body.kind.ThreadStart? {
        SeenSamples(samples, later, UpTo(mmaps, e.time), earlier, t, e.body.kind.parentPid, a);
      }
      LatestBeforeLater(samples, later, e.time);
    }
  }

  lemma SeenFork(samples: seq<Sample>, mmaps: seq<Mmap>, life: seq<Task>, f: Task, pid: int, a: int)
    requires IsFork(f) && AllAtMost(mmaps, f.time)
    ensures Seen(samples, mmaps, life + [f], pid, a) ==
      Seen(samples, mmaps, life, if f.body.pid == pid then f.body.kind.parentPid else pid, a)
  {
    hide Behind, UpTo;
    assert (life + [f])[..|life|] == life;
    NoneBehind(mmaps, f.time);
  }

  lemma SeenExit(samples: seq<Sample>, mmaps: seq<Mmap>, life: seq<Task>, x: Task, pid: int, a: int)
    requires IsExit(x) && LatestTime(samples) < x.time
    requires AllUntil(mmaps, Later(LatestTime(samples), LatestFork(life)))
    ensures Seen(samples, mmaps, life + [x], pid, a) ==
      if x.body.pid == pid then Unmapped else Seen(samples, mmaps, life, pid, a)
  {
    hide Behind, UpTo;
    assert (life + [x])[..|life|] == life;
    LatestBounds(samples, x.time);
    NoneBehind(mmaps, Barrier(samples, life, x.time));
  }

  // ------------------------------------------------------------ logs in order

  /** An entry that comes in time: mappings behind the last sample and the last fork, forks and
      exits behind the last sample, samples behind everything that took effect. */
  ghost predicate InTime(log: seq<Entry>, e: Entry) {
    var samples, mmaps, life := SamplesOf(log), MmapsOf(log), LifeOf(log);
    match e
    case Registered(m) => LatestTime(samples) < m.time && LatestFork(life) < m.time && AllAtMost(mmaps, m.time)
    case Forked(f) =>
      IsFork(f) && LatestTime(samples) < f.time && AllAtMost(mmaps, f.time) && AllAtMost(life, f.time)
    case Exited(x) =>
      && IsExit(x) && LatestTime(samples) < x.time && AllAtMost(life, x.time)
      && AllUntil(mmaps, Later(LatestTime(samples), LatestFork(life)))
    case Analyzed(s) => AllAtMost(samples, s.time) && AllAtMost(mmaps, s.time) && AllAtMost(life, s.time)
    case Sent(t) => IsLifeEvent(t) ==> LatestTime(samples) < t.time
  }

  ghost predicate Orderly(log: seq<Entry>) {
    log == [] || (Orderly(log[..|log| - 1]) && InTime(log[..|log| - 1], log[|log| - 1]))
  }

  lemma {:induction false} LifeIsLife(log: seq<Entry>)
    requires Orderly(log)
    ensures forall i :: 0 <= i < |LifeOf(log)| ==> IsLifeEvent(LifeOf(log)[i])
    decreases |log|
  {
    if log != [] {
      LifeIsLife(log[..|log| - 1]);
    }
  }

  lemma Views(log: seq<Entry>)
    requires log != []
    ensures var front, e := log[..|log| - 1], log[|log| - 1];
      && SamplesOf(log) == (if e.Analyzed? then SamplesOf(front) + [e.sample] else SamplesOf(front))
      && MmapsOf(log) == (if e.Registered? then MmapsOf(front) + [e.mmap] else MmapsOf(front))
      && LifeOf(log) == (if e.Forked? then LifeOf(front) + [e.child]
                         else if e.Exited? then LifeOf(front) + [e.leaver] else LifeOf(front))
  {
  }

  lemma EffectAppend(log: seq<Entry>, e: Entry)
    ensures TasksOf(log + [e]) == if e.Sent? then TasksOf(log) + [e.task] else TasksOf(log)
    ensures LifeOf(log + [e]) == if e.Forked? then LifeOf(log) + [e.child]
                                 else if e.Exited? then LifeOf(log) + [e.leaver] else LifeOf(log)
  {
    assert (log + [e])[..|log|] == log;
    Views(log + [e]);
  }

  /** The meaning of an orderly log is given by its samples, mappings, forks and exits, whatever
      their interleaving. */
  lemma {:induction false} OrderlyMeaning(log: seq<Entry>, pid: int, a: int)
    requires Orderly(log)
    ensures Meaning(log, pid, a) == Seen(SamplesOf(log), MmapsOf(log), LifeOf(log), pid, a)
    decreases |log|
  {
    if log != [] {
      hide Seen, LatestTime, LatestFork, Overwritten, SamplesOf, MmapsOf, LifeOf;
      var front, e := log[..|log| - 1], log[|log| - 1];
      var samples, mmaps, life := SamplesOf(front), MmapsOf(front), LifeOf(front);
      OrderlyMeaning(front, pid, a);
      LifeIsLife(front);
      Views(log);
      match e
      case Registered(m) => SeenMmap(samples, mmaps, m, life, pid, a);
      case Forked(f) =>
        OrderlyMeaning(front, f.body.kind.parentPid, a);
        SeenFork(samples, mmaps, life, f, pid, a);
      case Exited(x) => SeenExit(samples, mmaps, life, x, pid, a);
      case Analyzed(s) => SeenSamples(samples, [s], mmaps, life, s.time, pid, a);
      case Sent(_) =>
    } else {
      NothingSeen(pid, a);
    }
  }

  lemma NothingSeen(pid: int, a: int)
    ensures Seen([], [], [], pid, a) == Unmapped
  {
  }

  // ------------------------------------------------------------ exits that overtake mappings

  /** The same if an exit ended everything that its process had mapped up to its time. */
  ghost function Expected(mmaps: seq<Mmap>, life: seq<Task>, pid: int, a: int): Target
    decreases |life|
  {
    if life == [] then Overlay(mmaps, pid, a)
    else
      var earlier, e := life[..|life| - 1], life[|life| - 1];
      if e.body.pid != pid then Expected(mmaps, earlier, pid, a)
      else if e.body.kind.ThreadStart? then
        var inherited := Expected(UpTo(mmaps, e.time), earlier, e.body.kind.parentPid, a);
        LaidOver(Behind(mmaps, e.time), pid, a, inherited)
      else Overlay(Behind(mmaps, e.time), pid, a)
  }

  /** A mapping of an exiting process that no sample and no fork needed before the exit: it is
      registered afterwards. */
  ghost predicate Overtaken(samples: seq<Sample>, m: Mmap, earlier: seq<Task>, exit: Task) {
    m.body.pid == exit.body.pid && Barrier(samples, earlier, exit.time) < m.time <= exit.time
  }

  ghost predicate NothingOvertaken(samples: seq<Sample>, mmaps: seq<Mmap>, life: seq<Task>) {
    forall i, j :: 0 <= i < |mmaps| && 0 <= j < |life| && IsExit(life[j]) ==>
      !Overtaken(samples, mmaps[i], life[..j], life[j])
  }

  lemma {:induction false} OthersBehind(mmaps: seq<Mmap>, b: int, t: int, pid: int, a: int)
    requires b <= t && forall i :: 0 <= i < |mmaps| && b < mmaps[i].time <= t ==> mmaps[i].body.pid != pid
    ensures Overlay(Behind(mmaps, b), pid, a) == Overlay(Behind(mmaps, t), pid, a)
    decreases |mmaps|
  {
    if mmaps != [] {
      hide LaidOver, Behind;
      var front, m := mmaps[..|mmaps| - 1], mmaps[|mmaps| - 1];
      assert mmaps == front + [m];
      OthersBehind(front, b, t, pid, a);
      BehindSnoc(front, m, b);
      BehindSnoc(front, m, t);
      assert m.time <= t && b < m.time ==> m.body.pid != pid;
      LaidOverSnoc(Behind(front, b), m, pid, a, Unmapped);
      LaidOverSnoc(Behind(front, t), m, pid, a, Unmapped);
      if m.time <= b {
        assert Behind(mmaps, b) == Behind(front, b) && Behind(mmaps, t) == Behind(front, t);
      } else if m.time <= t {
        assert Behind(mmaps, b) == Behind(front, b) + [m] && Behind(mmaps, t) == Behind(front, t);
      } else {
        assert Behind(mmaps, b) == Behind(front, b) + [m] && Behind(mmaps, t) == Behind(front, t) + [m];
      }
    }
  }

  lemma {:induction false} UpToMembers<T>(s: seq<Timed<T>>, t: nat)
    ensures forall i :: 0 <= i < |UpTo(s, t)| ==> UpTo(s, t)[i] in s
  {
    if s != [] {
      UpToMembers(s[1..], t);
    }
  }

  lemma {:induction false} ForksUntil(life: seq<Task>, t: int)
    requires AllUntil(life, t) && -1 <= t
    ensures LatestFork(life) <= t
    decreases |life|
  {
    if life != [] {
      ForksUntil(life[..|life| - 1], t);
    }
  }

  lemma {:induction false} BeforeIsBefore<T>(s: seq<Timed<T>>, t: nat)
    ensures LatestBefore(s, t) < t
    decreases |s|
  {
    if s != [] {
      BeforeIsBefore(s[..|s| - 1], t);
    }
  }

  lemma FewerOvertaken(samples: seq<Sample>, mmaps: seq<Mmap>, fewer: seq<Mmap>, life: seq<Task>)
    requires NothingOvertaken(samples, mmaps, life) && life != []
    requires forall i :: 0 <= i < |fewer| ==> fewer[i] in mmaps
    ensures NothingOvertaken(samples, fewer, life[..|life| - 1])
  {
    var earlier := life[..|life| - 1];
    forall i, j | 0 <= i < |fewer| && 0 <= j < |earlier| && IsExit(earlier[j])
      ensures !Overtaken(samples, fewer[i], earlier[..j], earlier[j])
    {
      assert earlier[..j] == life[..j];
      var k :| 0 <= k < |mmaps| && mmaps[k] == fewer[i];
      assert !Overtaken(samples, mmaps[k], life[..j], life[j]);
    }
  }

  /** If no exit overtakes a mapping of its process, everything is as expected. */
  lemma {:induction false} SeenAsExpected(samples: seq<Sample>, mmaps: seq<Mmap>, life: seq<Task>, pid: int, a: int)
    requires Sorted(life) && NothingOvertaken(samples, mmaps, life)
    requires forall i :: 0 <= i < |life| ==> IsLifeEvent(life[i])
    ensures Seen(samples, mmaps, life, pid, a) == Expected(mmaps, life, pid, a)
    decreases |life|
  {
    hide Overlay, LaidOver, Behind, UpTo, Overtaken;
    if life != [] {
      var earlier, e := life[..|life| - 1], life[|life| - 1];
      FewerOvertaken(samples, mmaps, mmaps, life);
      SeenAsExpected(samples, mmaps, earlier, pid, a);
      if IsFork(e) {
        UpToMembers(mmaps, e.time);
        FewerOvertaken(samples, mmaps, UpTo(mmaps, e.time), life);
        SeenAsExpected(samples, UpTo(mmaps, e.time), earlier, e.body.kind.parentPid, a);
      } else {
        ExitAsExpected(samples, mmaps, life, a);
      }
    }
  }

  lemma ExitAsExpected(samples: seq<Sample>, mmaps: seq<Mmap>, life: seq<Task>, a: int)
    requires life != [] && Sorted(life) && NothingOvertaken(samples, mmaps, life) && IsExit(life[|life| - 1])
    ensures var earlier, e := life[..|life| - 1], life[|life| - 1];
      Overlay(Behind(mmaps, Barrier(samples, earlier, e.time)), e.body.pid, a) ==
      Overlay(Behind(mmaps, e.time), e.body.pid, a)
  {
    hide Overlay, Behind;
    var earlier, e := life[..|life| - 1], life[|life| - 1];
    ForksUntil(earlier, e.time);
    BeforeIsBefore(samples, e.time);
    OthersBehind(mmaps, Barrier(samples, earlier, e.time), e.time, e.body.pid, a);
  }

  lemma {:induction false} OverlaySplit(mmaps: seq<Mmap>, b: int, t: int, pid: int, a: int)
    requires Sorted(mmaps) && b <= t
    ensures Overlay(Behind(mmaps, t), pid, a) != Unmapped ==>
      Overlay(Behind(mmaps, b), pid, a) == Overlay(Behind(mmaps, t), pid, a)
    decreases |mmaps|
  {
    if mmaps != [] {
      var front, m := mmaps[..|mmaps| - 1], mmaps[|mmaps| - 1];
      OverlaySplit(front, b, t, pid, a);
      LaidOverSnoc(Behind(front, b), m, pid, a, Unmapped);
      LaidOverSnoc(Behind(front, t), m, pid, a, Unmapped);
      if m.time <= t {
        NoneBehind(mmaps, t);
      }
    }
  }

  ghost predicate Covers(m: Mmap, pid: int, a: int) {
    m.body.pid == pid && InMapping(m.body.mapping, a)
  }

  lemma {:induction false} OverlayCovers(mmaps: seq<Mmap>, pid: int, a: int)
    ensures Overlay(mmaps, pid, a) != Unmapped <==> exists m :: m in mmaps && Covers(m, pid, a)
    decreases |mmaps|
  {
    if mmaps != [] {
      var front, m := mmaps[..|mmaps| - 1], mmaps[|mmaps| - 1];
      assert mmaps == front + [m];
      OverlayCovers(front, pid, a);
      LaidOverSnoc(front, m, pid, a, Unmapped);
      if Covers(m, pid, a) {
        assert m in mmaps;
      } else if Overlay(front, pid, a) != Unmapped {
        var n :| n in front && Covers(n, pid, a);
        assert n in mmaps;
      }
    }
  }

  lemma {:induction false} BehindMembers<T>(s: seq<Timed<T>>, t: int)
    ensures forall e :: e in Behind(s, t) <==> e in s && t < e.time
    decreases |s|
  {
    if s != [] {
      var front := s[..|s| - 1];
      BehindMembers(front, t);
      assert s == front + [s[|s| - 1]];
    }
  }

  /** Exactly which addresses of an exited process are not as expected: those that an overtaken
      mapping covers and no mapping of the process behind the exit. */
  lemma ExitOvertakesExactly(samples: seq<Sample>, mmaps: seq<Mmap>, earlier: seq<Task>, x: Task, a: int)
    requires Sorted(mmaps) && Sorted(earlier + [x]) && IsExit(x)
    ensures Seen(samples, mmaps, earlier + [x], x.body.pid, a) != Expected(mmaps, earlier + [x], x.body.pid, a) <==>
      && (exists m :: m in mmaps && Overtaken(samples, m, earlier, x) && InMapping(m.body.mapping, a))
      && (forall m :: m in mmaps && x.time < m.time ==> !Covers(m, x.body.pid, a))
  {
    hide Overlay, Behind;
    assert (earlier + [x])[..|earlier|] == earlier;
    forall i | 0 <= i < |earlier|
      ensures earlier[i].time <= x.time
    {
      assert (earlier + [x])[i] == earlier[i] && (earlier + [x])[|earlier|] == x;
    }
    ForksUntil(earlier, x.time);
    BeforeIsBefore(samples, x.time);
    var b := Barrier(samples, earlier, x.time);
    OverlaySplit(mmaps, b, x.time, x.body.pid, a);
    OverlayCovers(Behind(mmaps, b), x.body.pid, a);
    OverlayCovers(Behind(mmaps, x.time), x.body.pid, a);
    BehindMembers(mmaps, b);
    BehindMembers(mmaps, x.time);
    OvertakenCovers(samples, mmaps, earlier, x, a);
  }

  /** The mappings behind the barrier are the overtaken ones and those behind the exit. */
  lemma OvertakenCovers(samples: seq<Sample>, mmaps: seq<Mmap>, earlier: seq<Task>, x: Task, a: int)
    ensures (exists m :: m in mmaps && Overtaken(samples, m, earlier, x) && InMapping(m.body.mapping, a)) <==>
      exists m :: m in mmaps && Barrier(samples, earlier, x.time) < m.time <= x.time && Covers(m, x.body.pid, a)
  {
    hide InMapping, Barrier;
    if m :| m in mmaps && Overtaken(samples, m, earlier, x) && InMapping(m.body.mapping, a) {
      assert Covers(m, x.body.pid, a);
    }
    if m :| m in mmaps && Barrier(samples, earlier, x.time) < m.time <= x.time && Covers(m, x.body.pid, a) {
      assert Overtaken(samples, m, earlier, x);
    }
  }
}
