/** What a client knows after reading an output: the names of threads, and what the samples
    mean. */
module ClientViews {
  import opened WordArithmetic
  import opened OutputMessages
  import opened OutputTables
  import opened OutputRuns

  // ------------------------------------------------------------ the names of threads

  /** The message names the thread: its own command, or its start, which takes over the name of
      the parent. */
  predicate Names(m: Message, id: int) {
    (m.Command? && m.origin.tid == id) || (m.ThreadStart? && m.origin.pid == id)
  }

  predicate NamesLast(sent: seq<Message>, i: nat, id: int) {
    i < |sent| && Names(sent[i], id) && forall j :: i < j < |sent| ==> !Names(sent[j], id)
  }

  /** The message is the command of one of the process's threads. */
  predicate NamesThreadOf(m: Message, pid: int) {
    m.Command? && m.origin.pid == pid
  }

  ghost predicate IsNamed(sent: seq<Message>, id: int) {
    exists i :: 0 <= i < |sent| && (Names(sent[i], id) || NamesThreadOf(sent[i], id))
  }

  /** The name the client has for a thread, or an empty one. */
  ghost function NameOf(c: Client, id: int): Message {
    if id in c.commands then c.commands[id] else Command(Origin(-1, -1, 0, 0), -1)
  }

  lemma NameStep(c: Client, m: Message, id: int)
    ensures var r := Receive(c, m);
      && (m.Command? && m.origin.tid == id ==> id in r.commands && r.commands[id] == m)
      && (m.ThreadStart? && m.origin.pid == id ==> id in r.commands && r.commands[id] == NameOf(c, m.ppid))
      && (!Names(m, id) && NamesThreadOf(m, id) ==> id in r.commands)
      && (!Names(m, id) && NamesThreadOf(m, id) && id !in c.commands ==> r.commands[id] == m)
      && (!Names(m, id) && id in c.commands ==> id in r.commands && r.commands[id] == c.commands[id])
      && (!Names(m, id) && !NamesThreadOf(m, id) && id !in c.commands ==> id !in r.commands)
  {
  }

  /** The client has a name for a process or thread exactly if it was named or started, or one of
      its threads was named. */
  lemma {:induction false} NamedExactly(sent: seq<Message>, id: int)
    ensures id in Replay(sent).commands <==> IsNamed(sent, id)
    decreases |sent|
  {
    hide Receive, Names;
    if sent != [] {
      var front, m := sent[..|sent| - 1], sent[|sent| - 1];
      NamedExactly(front, id);
      NameStep(Replay(front), m, id);
      if IsNamed(front, id) {
        var i :| 0 <= i < |front| && (Names(front[i], id) || NamesThreadOf(front[i], id));
        assert sent[i] == front[i];
      }
      if Names(m, id) {
        NamedInside(m, id);
      }
      if IsNamed(sent, id) {
        var i :| 0 <= i < |sent| && (Names(sent[i], id) || NamesThreadOf(sent[i], id));
        assert i < |front| ==> front[i] == sent[i];
      }
    }
  }

  lemma NamedInside(m: Message, id: int)
    requires Names(m, id)
    ensures (m.Command? && m.origin.tid == id) || (m.ThreadStart? && m.origin.pid == id)
  {
  }

  /** Its name is its last command, or what the name of its parent was when it started. */
  lemma {:induction false} LastNameCounts(sent: seq<Message>, i: nat, id: int)
    requires NamesLast(sent, i, id)
    ensures var commands := Replay(sent).commands;
      && id in commands
      && (sent[i].Command? ==> commands[id] == sent[i])
      && (sent[i].ThreadStart? ==> commands[id] == NameOf(Replay(sent[..i]), sent[i].ppid))
    decreases |sent|
  {
    hide Receive, Names;
    var front, m := sent[..|sent| - 1], sent[|sent| - 1];
    NameStep(Replay(front), m, id);
    if i < |front| {
      assert forall j :: i < j < |front| ==> front[j] == sent[j];
      LastNameCounts(front, i, id);
      assert front[..i] == sent[..i];
    } else {
      NamedInside(m, id);
      assert sent[..i] == front;
    }
  }

  /** A process that has none of its own has the command of the first of its threads that was
      named. */
  lemma {:induction false} FirstThreadCounts(sent: seq<Message>, i: nat, pid: int)
    requires i < |sent| && NamesThreadOf(sent[i], pid) && forall j :: 0 <= j < i ==> !NamesThreadOf(sent[j], pid)
    requires forall j :: 0 <= j < |sent| ==> !Names(sent[j], pid)
    ensures pid in Replay(sent).commands && Replay(sent).commands[pid] == sent[i]
    decreases |sent|
  {
    hide Receive, Names;
    var front, m := sent[..|sent| - 1], sent[|sent| - 1];
    NameStep(Replay(front), m, pid);
    assert forall j :: 0 <= j < |front| ==> front[j] == sent[j];
    if i < |front| {
      FirstThreadCounts(front, i, pid);
    } else {
      NamedExactly(front, pid);
    }
  }

  // ------------------------------------------------------------ requests

  /** What every request leaves the client with. */
  ghost predicate Answered(c: Client, r: Request, before: Client) {
    match r
    case AskString(text) => text != "" ==> text in c.strings
    case AskLocation(l) => exists i :: 0 <= i < |c.locations| && KeyOf(c.locations[i]) == KeyOf(l)
    case DefineSymbol(id, s) => c.symbols == before.symbols[id := s]
    case Announce(a, name, _) =>
      |before.attributes| < |c.attributes| ==>
        var (attributes, nameId) := c.attributes[|before.attributes|];
        && |c.attributes| == |before.attributes| + 1 && attributes == a
        && (name == "" ==> nameId == -1)
        && (name != "" ==> 0 <= nameId < |c.strings| && c.strings[nameId] == name)
    case SendThreadStart(origin, ppid) => c.threadStarts == before.threadStarts + [ThreadStart(origin, ppid)]
    case SendThreadEnd(origin) => c.threadEnds == before.threadEnds + [ThreadEnd(origin)]
    case SendCommand(origin, nameId) =>
      origin.tid in c.commands && c.commands[origin.tid] == Command(origin, nameId)
    case SendSample(_, _, _, _, _) => |c.samples| == |before.samples| + 1
  }

  /** After a request the client has what was asked for or sent: the text, the place, the symbol,
      the attributes with their name, the event of the thread. */
  lemma RequestAnswered(t: Tables, r: Request)
    requires Mirrored(t) && Proper(t, r)
    ensures Answered(Replay(Perform(t, r).sent), r, Replay(t.sent))
  {
    match r
    case AskString(text) =>
      if text != "" {
        TextAnswered(t, text);
      }
    case AskLocation(l) => PlaceAnswered(t, l);
    case Announce(a, name, ids) => AttributesAnswered(t, a, name, ids);
    case SendSample(_, _, _, _, _) => SampleReceived(t, r);
    case _ => MessageAnswered(t, r);
  }

  lemma MessageAnswered(t: Tables, r: Request)
    requires r.DefineSymbol? || r.SendThreadStart? || r.SendThreadEnd? || r.SendCommand?
    ensures Answered(Replay(Perform(t, r).sent), r, Replay(t.sent))
  {
    hide Replay;
    match r
    case DefineSymbol(id, s) => ReplaySnoc(t.sent, SymbolDefinition(id, s));
    case SendThreadStart(origin, ppid) => ReplaySnoc(t.sent, ThreadStart(origin, ppid));
    case SendThreadEnd(origin) => ReplaySnoc(t.sent, ThreadEnd(origin));
    case SendCommand(origin, nameId) => ReplaySnoc(t.sent, Command(origin, nameId));
  }

  lemma TextAnswered(t: Tables, text: string)
    requires Mirrored(t) && text != ""
    ensures var (t', id) := ResolveString(t, text);
      0 <= id < |Replay(t'.sent).strings| && Replay(t'.sent).strings[id] == text
    ensures var t' := ResolveString(t, text).0;
      Mirrored(t') && Replay(t'.sent).attributes == Replay(t.sent).attributes
  {
    hide AllReferBack;
    ResolveStringFacts(t, text);
    ReplaySnoc(t.sent, StringDefinition(|t.strings|, text));
  }

  lemma PlaceAnswered(t: Tables, l: Location)
    requires Mirrored(t) && Proper(t, AskLocation(l))
    ensures var c := Replay(ResolveLocation(t, l).0.sent);
      exists i :: 0 <= i < |c.locations| && KeyOf(c.locations[i]) == KeyOf(l)
  {
    hide AllReferBack, KeyOf, Numbered;
    var t' := ResolveLocation(t, l).0;
    ResolveLocationFacts(t, l);
    NumberedAt(t'.locations, Keys(Replay(t'.sent).locations), KeyOf(l));
  }

  lemma AttributesAnswered(t: Tables, a: Attributes, name: string, ids: seq<u64>)
    requires Mirrored(t)
    ensures Answered(Replay(AddAttributes(t, a, name, ids).sent), Announce(a, name, ids), Replay(t.sent))
  {
    hide AllReferBack, Unknown, AssignAll;
    var (u, nameId) := ResolveString(t, name);
    if name != "" {
      TextAnswered(t, name);
    }
    ReplaySnoc(u.sent, AttributesDefinition(|u.attributes|, a, nameId));
  }

  // ------------------------------------------------------------ messages that are taken

  /** Every id in a message that the client looks up is one of its own, or -1 where that stands for
      none; the next id is taken by a definition. What it does not look at is the path of a
      symbol. */
  predicate InRange(c: Client, m: Message) {
    match m
    case StringDefinition(id, _) => id == |c.strings|
    case LocationDefinition(id, l) =>
      id == |c.locations| && -1 <= l.file < |c.strings| && -1 <= l.parent < |c.locations|
    case SymbolDefinition(id, s) => id < |c.locations| && -1 <= s.name < |c.strings| && -1 <= s.binary < |c.strings|
    case AttributesDefinition(id, _, name) => id == |c.attributes| && 0 <= name < |c.strings|
    case ThreadStart(_, _) => true
    case ThreadEnd(_) => true
    case Command(_, name) => 0 <= name < |c.strings|
    case Sample(_, frames, _, values, traceKeys) =>
      && (forall i :: 0 <= i < |frames| ==> 0 <= frames[i] < |c.locations|)
      && (forall i :: 0 <= i < |values| ==> 0 <= values[i].0 < |c.attributes|)
      && (forall key :: key in traceKeys ==> 0 <= key < |c.strings|)
  }

  /** A client in good order has texts, processes and names everywhere. */
  predicate InGoodOrder(c: Client) {
    && (forall i :: 0 <= i < |c.strings| ==> c.strings[i] != "")
    && PidsSet(c)
    && (forall i :: 0 <= i < |c.attributes| ==> 0 <= c.attributes[i].1 < |c.strings|)
  }

  /** Such a client takes exactly the messages with all ids in range. */
  lemma TakesInRange(c: Client, m: Message)
    requires InGoodOrder(c)
    ensures Accepts(c, m) <==> InRange(c, m)
  {
    assert forall id :: StringKnown(c, id) <==> 0 <= id < |c.strings|;
    assert forall id :: LocationKnown(c, id) <==> 0 <= id < |c.locations|;
    assert forall id :: AttributeKnown(c, id) <==> 0 <= id < |c.attributes|;
  }

  // ------------------------------------------------------------ messages that are kept

  function Only(sent: seq<Message>, kept: Message -> bool): seq<Message> {
    if sent == [] then []
    else Only(sent[..|sent| - 1], kept) + (if kept(sent[|sent| - 1]) then [sent[|sent| - 1]] else [])
  }

  predicate IsSample(m: Message) {
    m.Sample?
  }

  predicate IsStart(m: Message) {
    m.ThreadStart?
  }

  predicate IsEnd(m: Message) {
    m.ThreadEnd?
  }

  /** Samples and the starts and ends of threads are kept as they were sent, in order. */
  lemma {:induction false} KeepsInOrder(sent: seq<Message>)
    ensures var c := Replay(sent);
      && c.samples == Only(sent, IsSample)
      && c.threadStarts == Only(sent, IsStart)
      && c.threadEnds == Only(sent, IsEnd)
  {
    if sent != [] {
      KeepsInOrder(sent[..|sent| - 1]);
    }
  }

  // ------------------------------------------------------------ the meaning of a sample

  /** The cost of an event belongs to the attributes that were announced for its id, or to none. */
  ghost predicate CostIs(t: Tables, c: Client, value: (int, u64), cost: (u64, u64)) {
    && value.1 == cost.1
    && (cost.0 !in t.attributeIds ==> value.0 == -1)
    && (cost.0 in t.attributeIds ==>
          && 0 <= t.attributeIds[cost.0] < |t.attributes| == |c.attributes|
          && 0 <= value.0 < |c.attributes| && c.attributes[value.0].0 == t.attributes[t.attributeIds[cost.0]])
  }

  /** A sample at the client: the frames as they were looked up, each cost with the attributes of
      its event, and the names of the trace point's fields. */
  ghost predicate SampleIs(t: Tables, c: Client, m: Message, r: Request)
    requires r.SendSample?
  {
    && m.Sample? && m.origin == r.origin && m.frames == r.frames && m.guessed == r.guessed
    && |m.values| == |r.costs|
    && (forall i :: 0 <= i < |r.costs| ==> CostIs(t, c, m.values[i], r.costs[i]))
    && (forall field :: field in r.fields && field in t.strings ==>
          exists key :: key in m.traceKeys && 0 <= key < |c.strings| && c.strings[key] == field)
    && (forall key :: key in m.traceKeys && key != -1 ==> 0 <= key < |c.strings| && c.strings[key] in r.fields)
    && (-1 in m.traceKeys <==> exists field :: field in r.fields && field !in t.strings)
  }

  lemma SampleReceived(t: Tables, r: Request)
    requires Mirrored(t) && r.SendSample?
    ensures var before, c := Replay(t.sent), Replay(Perform(t, r).sent);
      && |c.samples| == |before.samples| + 1
      && c == before.(samples := c.samples) && before.samples <= c.samples
      && SampleIs(t, c, c.samples[|before.samples|], r)
  {
    hide Mirrored, Replay, SampleIs, SampleMessage, Sent;
    var m := SampleMessage(t, r.origin, r.frames, r.guessed, r.costs, r.fields);
    SampleIsSent(t, r);
    ReplaySnoc(t.sent, m);
    SampleMeans(t, Replay(Perform(t, r).sent), r);
  }

  lemma SampleIsSent(t: Tables, r: Request)
    requires r.SendSample?
    ensures var m := SampleMessage(t, r.origin, r.frames, r.guessed, r.costs, r.fields);
      m.Sample? && Perform(t, r).sent == t.sent + [m]
  {
  }

  lemma SampleMeans(t: Tables, c: Client, r: Request)
    requires Mirrored(t) && r.SendSample?
    requires c.strings == Replay(t.sent).strings && c.attributes == Replay(t.sent).attributes
    ensures SampleIs(t, c, SampleMessage(t, r.origin, r.frames, r.guessed, r.costs, r.fields), r)
  {
    hide AllReferBack, Replay, CostIs;
    var m := SampleMessage(t, r.origin, r.frames, r.guessed, r.costs, r.fields);
    forall i | 0 <= i < |r.costs|
      ensures CostIs(t, c, m.values[i], r.costs[i])
    {
      CostMeans(t, c, r.costs[i]);
    }
    forall field | field in r.fields
      ensures LookupString(t, field) in m.traceKeys
      ensures field in t.strings ==>
        0 <= t.strings[field] < |c.strings| && c.strings[t.strings[field]] == field && t.strings[field] in m.traceKeys
      ensures field !in t.strings ==> -1 in m.traceKeys
    {
    }
  }

  lemma CostMeans(t: Tables, c: Client, cost: (u64, u64))
    requires Mirrored(t) && c.attributes == Replay(t.sent).attributes
    ensures CostIs(t, c, (AttributesOf(t, cost.0), cost.1), cost)
  {
    hide AllReferBack, Replay;
  }

  /** The attributes of an id are those of the first announcement for it; an id of zero belongs to
      the first announcement of all. */
  ghost predicate Announces(r: Request, id: u64) {
    r.Announce? && (id == 0 || id in r.ids)
  }

  lemma {:induction false} FirstAnnouncementCounts(requests: seq<Request>, i: nat, id: u64)
    requires i < |requests| && Announces(requests[i], id)
    requires forall j :: 0 <= j < i ==> !Announces(requests[j], id)
    ensures var t := PerformAll(requests);
      id in t.attributeIds && 0 <= t.attributeIds[id] < |t.attributes|
      && t.attributes[t.attributeIds[id]] == requests[i].attributes
    decreases |requests|
  {
    hide Perform, Announces;
    var front, r := requests[..|requests| - 1], requests[|requests| - 1];
    assert forall j :: 0 <= j < |front| ==> front[j] == requests[j];
    if i < |front| {
      FirstAnnouncementCounts(front, i, id);
      AttributesStay(PerformAll(front), r, id);
    } else {
      NotAnnounced(front, id);
      NewAttributes(PerformAll(front), r, id);
    }
  }

  lemma {:induction false} NotAnnounced(requests: seq<Request>, id: u64)
    requires forall j :: 0 <= j < |requests| ==> !Announces(requests[j], id)
    ensures id !in PerformAll(requests).attributeIds
    decreases |requests|
  {
    hide Perform, Announces;
    if requests != [] {
      var front, r := requests[..|requests| - 1], requests[|requests| - 1];
      assert forall j :: 0 <= j < |front| ==> front[j] == requests[j];
      NotAnnounced(front, id);
      NoNewAttributes(PerformAll(front), r, id);
    }
  }

  lemma AttributesStay(t: Tables, r: Request, id: u64)
    requires id in t.attributeIds && 0 <= t.attributeIds[id] < |t.attributes|
    ensures var t' := Perform(t, r);
      && id in t'.attributeIds && t'.attributeIds[id] == t.attributeIds[id]
      && |t.attributes| <= |t'.attributes| && t'.attributes[t.attributeIds[id]] == t.attributes[t.attributeIds[id]]
  {
    hide SampleMessage, AddAttributes;
    if r.Announce? {
      KnownStay(t, r.attributes, r.name, r.ids, id);
    }
  }

  lemma KnownStay(t: Tables, a: Attributes, name: string, ids: seq<u64>, id: u64)
    requires id in t.attributeIds && 0 <= t.attributeIds[id] < |t.attributes|
    ensures var t' := AddAttributes(t, a, name, ids);
      && id in t'.attributeIds && t'.attributeIds[id] == t.attributeIds[id]
      && |t.attributes| <= |t'.attributes| && t'.attributes[t.attributeIds[id]] == t.attributes[t.attributeIds[id]]
  {
    hide Unknown;
    var u := ResolveString(t, name).0;
    assert u.attributes == t.attributes && u.attributeIds == t.attributeIds;
  }

  lemma NewAttributes(t: Tables, r: Request, id: u64)
    requires id !in t.attributeIds && Announces(r, id)
    ensures var t' := Perform(t, r);
      && id in t'.attributeIds && 0 <= t'.attributeIds[id] < |t'.attributes|
      && t'.attributes[t'.attributeIds[id]] == r.attributes
  {
  }

  lemma NoNewAttributes(t: Tables, r: Request, id: u64)
    requires id !in t.attributeIds && !Announces(r, id)
    ensures id !in Perform(t, r).attributeIds
  {
  }
}
