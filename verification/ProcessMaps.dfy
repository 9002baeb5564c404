/** The whole address map of each process, with its base addresses: what registering its mappings
    one by one gives, through forks and exits. */
module ProcessMaps {
  import opened ElfMaps
  import opened EventBuffer
  import opened AddressSpaces
  import opened BaseAddresses

  /** The mappings that made the map of a process: its own and, before a fork, those of its
      parent; an exit ends them. */
  ghost function History(log: seq<Entry>, pid: int): seq<Mapping> {
    if log == [] then []
    else
      var front := log[..|log| - 1];
      match log[|log| - 1]
      case Registered(m) => History(front, pid) + (if m.body.pid == pid then [m.body.mapping] else [])
      case Forked(f) =>
        if f.body.pid == pid && f.body.kind.ThreadStart? then History(front, f.body.kind.parentPid)
        else History(front, pid)
      case Exited(x) => if x.body.pid == pid then [] else History(front, pid)
      case _ => History(front, pid)
  }

  /** The entry makes a table for the process. */
  ghost predicate Creates(e: Entry, pid: int) {
    match e
    case Registered(m) => m.body.pid == pid
    case Forked(f) => f.body.kind.ThreadStart? && (f.body.pid == pid || f.body.kind.parentPid == pid)
    case Analyzed(s) => pid == -1 || s.body.pid == pid
    case _ => false
  }

  /** What an entry makes of the map of a process, given all maps. */
  lemma MapStep(t: Tables, e: Entry, pid: int)
    ensures TableOf(Apply(t, e), pid) ==
      if e.Registered? && e.mmap.body.pid == pid then Register(TableOf(t, pid), e.mmap.body.mapping)
      else if e.Forked? && e.child.body.pid == pid && e.child.body.kind.ThreadStart?
      then TableOf(t, e.child.body.kind.parentPid)
      else if e.Exited? && e.leaver.body.pid == pid then EMPTY_STATE
      else TableOf(t, pid)
  {
    hide Register;
  }

  lemma HistoryStep(log: seq<Entry>, e: Entry, pid: int)
    ensures History(log + [e], pid) ==
      if e.Registered? && e.mmap.body.pid == pid then History(log, pid) + [e.mmap.body.mapping]
      else if e.Forked? && e.child.body.pid == pid && e.child.body.kind.ThreadStart?
      then History(log, e.child.body.kind.parentPid)
      else if e.Exited? && e.leaver.body.pid == pid then []
      else History(log, pid)
  {
    assert (log + [e])[..|log|] == log;
    assert History(log, pid) + [] == History(log, pid);
  }

  /** Every process's map is the one that its history gives when it is registered into an empty
      map; all that is known of such a map holds of it. */
  lemma {:induction false} MapIsHistory(log: seq<Entry>, pid: int)
    ensures TableOf(Replay(log), pid) == RegisterAll(History(log, pid))
    decreases |log|
  {
    if log != [] {
      hide Register, TableOf, Apply, History, RegisterAll;
      var front, e := log[..|log| - 1], log[|log| - 1];
      assert log == front + [e];
      MapIsHistory(front, pid);
      MapStep(Replay(front), e, pid);
      HistoryStep(front, e, pid);
      if e.Registered? {
        RegisterOneMore(History(front, pid), e.mmap.body.mapping);
      } else if e.Forked? && e.child.body.kind.ThreadStart? {
        MapIsHistory(front, e.child.body.kind.parentPid);
      } else if e.Exited? {
        NothingRegistered();
      }
    }
  }

  lemma NothingRegistered()
    ensures RegisterAll([]) == EMPTY_STATE
  {
  }

  lemma RegisterOneMore(ms: seq<Mapping>, m: Mapping)
    ensures RegisterAll(ms + [m]) == Register(RegisterAll(ms), m)
  {
    hide Register;
    assert (ms + [m])[..|ms|] == ms;
  }

  ghost predicate Exits(e: Entry, pid: int) {
    e.Exited? && e.leaver.body.pid == pid
  }

  /** Entry `i` makes a table for the process, and the process does not exit since. */
  ghost predicate LastsFrom(log: seq<Entry>, i: nat, pid: int) {
    i < |log| && Creates(log[i], pid) && forall j :: i < j < |log| ==> !Exits(log[j], pid)
  }

  lemma LastsStep(log: seq<Entry>, e: Entry, i: nat, pid: int)
    ensures LastsFrom(log + [e], i, pid) <==>
      (LastsFrom(log, i, pid) && !Exits(e, pid)) || (i == |log| && Creates(e, pid))
  {
    hide Creates, Exits;
    var longer := log + [e];
    assert longer[|log|] == e && forall j :: 0 <= j < |log| ==> longer[j] == log[j];
  }

  /** A process has a table from the first entry on that makes one, until it exits. */
  lemma {:induction false} TableExists(log: seq<Entry>, pid: int)
    ensures pid in Replay(log) <==> exists i: nat :: LastsFrom(log, i, pid)
    decreases |log|
  {
    if log != [] {
      hide Apply, Creates, Exits, LastsFrom;
      var front, e := log[..|log| - 1], log[|log| - 1];
      assert log == front + [e];
      TableExists(front, pid);
      TableStep(Replay(front), e, pid);
      forall i: nat
        ensures LastsFrom(log, i, pid) <==>
          (LastsFrom(front, i, pid) && !Exits(e, pid)) || (i == |front| && Creates(e, pid))
      {
        LastsStep(front, e, i, pid);
      }
      if Creates(e, pid) {
        assert LastsFrom(log, |front|, pid);
      }
    }
  }

  lemma TableStep(t: Tables, e: Entry, pid: int)
    ensures pid in Apply(t, e) <==>
      Creates(e, pid) || (pid in t && !Exits(e, pid))
  {
    hide Register;
  }
}
