/** Runs of the producer, as the client sees them. */
module OutputRuns {
  import opened WordArithmetic
  import opened OutputMessages
  import opened OutputTables

  datatype Request =
    | AskString(text: string)
    | AskLocation(location: Location)
    | DefineSymbol(id: int, symbol: Symbol)
    | Announce(attributes: Attributes, name: string, ids: seq<u64>)
    | SendThreadStart(origin: Origin, ppid: int)
    | SendThreadEnd(origin: Origin)
    | SendCommand(origin: Origin, nameId: int)
    | SendSample(origin: Origin, frames: seq<int>, guessed: nat, costs: seq<(u64, u64)>, fields: set<string>)

  /** The ids in a request were given out before, or are -1 where that is allowed. */
  predicate Proper(t: Tables, r: Request) {
    match r
    case AskString(_) => true
    case AskLocation(l) => StringId(t, l.file) && Refers(l.parent, |t.locations|)
    case DefineSymbol(id, s) => 0 <= id < |t.locations| && SymbolIds(t, s)
    case Announce(_, _, _) => true
    case SendThreadStart(_, _) => true
    case SendThreadEnd(_) => true
    case SendCommand(_, name) => StringId(t, name)
    case SendSample(_, frames, _, _, _) => forall i :: 0 <= i < |frames| ==> 0 <= frames[i] < |t.locations|
  }

  function AttributesOf(t: Tables, id: u64): int {
    if id in t.attributeIds then t.attributeIds[id] else -1
  }

  /** The sample as it is sent: costs belong to the attributes of their event ids, and trace
      point fields to the ids of their names. */
  function SampleMessage(t: Tables, origin: Origin, frames: seq<int>, guessed: nat, costs: seq<(u64, u64)>,
                         fields: set<string>): Message {
    Sample(origin, frames, guessed,
           seq(|costs|, i requires 0 <= i < |costs| => (AttributesOf(t, costs[i].0), costs[i].1)),
           set field | field in fields :: LookupString(t, field))
  }

  function Perform(t: Tables, r: Request): Tables {
    match r
    case AskString(text) => ResolveString(t, text).0
    case AskLocation(l) => ResolveLocation(t, l).0
    case DefineSymbol(id, s) => ResolveSymbol(t, id, s)
    case Announce(a, name, ids) => AddAttributes(t, a, name, ids)
    case SendThreadStart(origin, ppid) => Sent(t, ThreadStart(origin, ppid))
    case SendThreadEnd(origin) => Sent(t, ThreadEnd(origin))
    case SendCommand(origin, name) => Sent(t, Command(origin, name))
    case SendSample(origin, frames, guessed, costs, fields) =>
      Sent(t, SampleMessage(t, origin, frames, guessed, costs, fields))
  }

  function PerformAll(requests: seq<Request>): Tables {
    if requests == [] then NEW_TABLES else Perform(PerformAll(requests[..|requests| - 1]), requests[|requests| - 1])
  }

  ghost predicate ProperRun(requests: seq<Request>) {
    forall i :: 0 <= i < |requests| ==> Proper(PerformAll(requests[..i]), requests[i])
  }

  lemma ProperFront(requests: seq<Request>)
    requires ProperRun(requests) && requests != []
    ensures ProperRun(requests[..|requests| - 1])
  {
    var front := requests[..|requests| - 1];
    forall i | 0 <= i < |front|
      ensures Proper(PerformAll(front[..i]), front[i])
    {
      assert front[..i] == requests[..i];
    }
  }

  lemma SampleRefersBack(t: Tables, origin: Origin, frames: seq<int>, guessed: nat, costs: seq<(u64, u64)>,
                         fields: set<string>)
    requires Mirrored(t) && Proper(t, SendSample(origin, frames, guessed, costs, fields))
    ensures var m := SampleMessage(t, origin, frames, guessed, costs, fields);
      m.Sample? && RefersBack(Replay(t.sent), m)
  {
    hide AllReferBack, Keys;
    StringCount(t);
  }

  lemma PerformFacts(t: Tables, r: Request)
    requires Mirrored(t) && Proper(t, r)
    ensures Mirrored(Perform(t, r)) && Continues(t, Perform(t, r))
  {
    hide Mirrored, Continues, SampleMessage;
    match r
    case AskString(text) => ResolveStringFacts(t, text);
    case AskLocation(l) => ResolveLocationFacts(t, l);
    case DefineSymbol(id, s) => ResolveSymbolFacts(t, id, s);
    case Announce(a, name, ids) => AddAttributesFacts(t, a, name, ids);
    case SendThreadStart(origin, ppid) => SentMirrored(t, ThreadStart(origin, ppid));
    case SendThreadEnd(origin) => SentMirrored(t, ThreadEnd(origin));
    case SendCommand(origin, name) =>
      StringCount(t);
      SentMirrored(t, Command(origin, name));
    case SendSample(origin, frames, guessed, costs, fields) =>
      SampleRefersBack(t, origin, frames, guessed, costs, fields);
      SentMirrored(t, SampleMessage(t, origin, frames, guessed, costs, fields));
  }

  /** In every run, replaying the output rebuilds the producer's tables, and every id in a
      message was defined by an earlier one. */
  lemma {:induction false} RunIsMirrored(requests: seq<Request>)
    requires ProperRun(requests)
    ensures Mirrored(PerformAll(requests))
  {
    hide Mirrored, Perform, Proper;
    if requests == [] {
      NewIsMirrored();
    } else {
      ProperFront(requests);
      RunIsMirrored(requests[..|requests| - 1]);
      PerformFacts(PerformAll(requests[..|requests| - 1]), requests[|requests| - 1]);
    }
  }

  /** What the producer numbers, the client finds under that number. */
  lemma ClientFinds(t: Tables, text: string, l: Location)
    requires Mirrored(t) && text in t.strings && KeyOf(l) in t.locations
    ensures var c := Replay(t.sent);
      && 0 <= LookupString(t, text) < |c.strings| && c.strings[LookupString(t, text)] == text
      && 0 <= LookupLocation(t, l) < |c.locations| && KeyOf(c.locations[LookupLocation(t, l)]) == KeyOf(l)
  {
    hide AllReferBack, Numbered, KeyOf;
    NumberedAt(t.strings, Replay(t.sent).strings, text);
    NumberedAt(t.locations, Keys(Replay(t.sent).locations), KeyOf(l));
  }

  /** Numbers are given out once: later requests for the same text or location get the same
      answer and send nothing. */
  lemma AnswersStay(t: Tables, r: Request, text: string, l: Location)
    requires Mirrored(t) && Proper(t, r) && text in t.strings && KeyOf(l) in t.locations
    ensures var t' := Perform(t, r);
      && ResolveString(t', text) == (t', LookupString(t, text))
      && ResolveLocation(t', l) == (t', LookupLocation(t, l))
  {
    hide Perform, Proper, Mirrored;
    PerformFacts(t, r);
    TextsAreNotEmpty(t);
  }

  lemma TextsAreNotEmpty(t: Tables)
    requires Mirrored(t)
    ensures "" !in t.strings
  {
    ReplayIsGrounded(t.sent);
  }

  // ------------------------------------------------------------ the strict client

  /** The client's checks on a whole stream. */
  ghost predicate AcceptsAll(sent: seq<Message>) {
    forall i :: 0 <= i < |sent| ==> Accepts(Replay(sent[..i]), sent[i])
  }

  lemma AcceptsAllSnoc(sent: seq<Message>, m: Message)
    ensures AcceptsAll(sent + [m]) <==> AcceptsAll(sent) && Accepts(Replay(sent), m)
  {
    var longer := sent + [m];
    assert longer[..|sent|] == sent && longer[|sent|] == m;
    assert forall i :: 0 <= i < |sent| ==> longer[..i] == sent[..i] && longer[i] == sent[i];
  }

  /** A request that leaves out a name the client insists on: attributes that are new and
      have no name, a command without one, a sample of an event that has no attributes, or
      of a field whose name was never sent. */
  predicate Unnamed(t: Tables, r: Request) {
    match r
    case Announce(_, name, ids) => name == "" && Unknown(t.attributeIds, ids + [0]) != []
    case SendCommand(_, nameId) => nameId == -1
    case SendSample(_, _, _, costs, fields) =>
      || (exists i :: 0 <= i < |costs| && costs[i].0 !in t.attributeIds)
      || (exists field :: field in fields && field !in t.strings)
    case _ => false
  }

  /** A location that was given out belongs to no process. */
  ghost predicate NoProcess(t: Tables, id: int) {
    exists key :: key in t.locations && t.locations[key] == id && key.pid == 0
  }

  /** A request that makes the client look at such a location. */
  ghost predicate Unowned(t: Tables, r: Request) {
    match r
    case AskLocation(l) => KeyOf(l) !in t.locations && NoProcess(t, l.parent)
    case SendSample(_, frames, _, _, _) => exists i :: 0 <= i < |frames| && NoProcess(t, frames[i])
    case _ => false
  }

  lemma NoProcessAtClient(t: Tables, id: int)
    requires Mirrored(t)
    ensures NoProcess(t, id) <==> WithoutPid(Replay(t.sent), id)
  {
    hide AllReferBack;
    var c := Replay(t.sent);
    if WithoutPid(c, id) {
      assert Keys(c.locations)[id] in t.locations;
    }
  }

  /** What the client has accepted is named. */
  ghost predicate AttributesNamed(c: Client) {
    forall i :: 0 <= i < |c.attributes| ==> c.attributes[i].1 != -1
  }

  lemma ReceivedIsNamed(c: Client, m: Message)
    requires AttributesNamed(c) && Accepts(c, m)
    ensures AttributesNamed(Receive(c, m))
  {
  }

  lemma {:induction false} AcceptedIsNamed(sent: seq<Message>)
    requires AcceptsAll(sent)
    ensures AttributesNamed(Replay(sent))
  {
    hide Accepts, Receive, AttributesNamed;
    if sent == [] {
      NothingIsNamed();
    } else {
      var front, m := sent[..|sent| - 1], sent[|sent| - 1];
      assert sent == front + [m];
      AcceptsAllSnoc(front, m);
      AcceptedIsNamed(front);
      ReceivedIsNamed(Replay(front), m);
    }
  }

  lemma NothingIsNamed()
    ensures AttributesNamed(NEW_CLIENT)
  {
  }

  /** Sending one more message to a client that has accepted everything so far. */
  lemma SendAccepted(t: Tables, m: Message)
    requires Mirrored(t) && AcceptsAll(t.sent) && RefersBack(Replay(t.sent), m)
    ensures AcceptsAll(t.sent + [m]) <==> !LacksName(Replay(t.sent), m) && !LacksPid(Replay(t.sent), m)
  {
    hide Accepts, LacksName, LacksPid, RefersBack, Numbered, Keys;
    AcceptsAllSnoc(t.sent, m);
    ReplayIsGrounded(t.sent);
    AcceptsExactly(Replay(t.sent), m);
  }

  lemma LocationAccepted(t: Tables, l: Location)
    requires Mirrored(t) && AcceptsAll(t.sent) && Proper(t, AskLocation(l))
    ensures AcceptsAll(ResolveLocation(t, l).0.sent) <==> !Unowned(t, AskLocation(l))
  {
    hide AllReferBack, AcceptsAll, NoProcess, Numbered, Keys;
    if KeyOf(l) !in t.locations {
      StringCount(t);
      SendAccepted(t, LocationDefinition(|t.locations|, l));
      NoProcessAtClient(t, l.parent);
    }
  }

  lemma StringAccepted(t: Tables, text: string)
    requires Mirrored(t) && AcceptsAll(t.sent)
    ensures AcceptsAll(ResolveString(t, text).0.sent)
  {
    hide AllReferBack, AcceptsAll, Numbered, Keys;
    if text != "" && text !in t.strings {
      StringCount(t);
      SendAccepted(t, StringDefinition(|t.strings|, text));
    }
  }

  lemma AnnounceAccepted(t: Tables, a: Attributes, name: string, ids: seq<u64>)
    requires Mirrored(t) && AcceptsAll(t.sent)
    ensures AcceptsAll(AddAttributes(t, a, name, ids).sent) <==> !Unnamed(t, Announce(a, name, ids))
  {
    hide AllReferBack, AcceptsAll, Numbered, Keys, Unknown, AssignAll, ResolveString;
    if Unknown(t.attributeIds, ids + [0]) != [] {
      var (named, nameId) := ResolveString(t, name);
      StringAccepted(t, name);
      ResolveStringFacts(t, name);
      var m := AttributesDefinition(|named.attributes|, a, nameId);
      AnnounceRefersBack(named, m);
      SendAccepted(named, m);
    }
  }

  lemma SampleAccepted(t: Tables, r: Request)
    requires r.SendSample? && Mirrored(t) && AcceptsAll(t.sent) && Proper(t, r)
    ensures AcceptsAll(Perform(t, r).sent) <==> !Unnamed(t, r) && !Unowned(t, r)
  {
    hide AcceptsAll, RefersBack, LacksName, LacksPid;
    var m := SampleMessage(t, r.origin, r.frames, r.guessed, r.costs, r.fields);
    SampleRefersBack(t, r.origin, r.frames, r.guessed, r.costs, r.fields);
    SendAccepted(t, m);
    AcceptedIsNamed(t.sent);
    SampleLacksName(t, r, m);
    SampleLacksPid(t, r, m);
  }

  lemma SampleLacksName(t: Tables, r: Request, m: Message)
    requires r.SendSample? && m == SampleMessage(t, r.origin, r.frames, r.guessed, r.costs, r.fields)
    requires Mirrored(t) && AttributesNamed(Replay(t.sent))
    ensures LacksName(Replay(t.sent), m) <==> Unnamed(t, r)
  {
    hide AllReferBack, Keys;
    var c := Replay(t.sent);
    forall i | 0 <= i < |r.costs|
      ensures m.values[i].0 == -1 <==> r.costs[i].0 !in t.attributeIds
      ensures m.values[i].0 != -1 ==> c.attributes[m.values[i].0].1 != -1
    {
      assert m.values[i].0 == AttributesOf(t, r.costs[i].0);
    }
    forall field | field in r.fields
      ensures LookupString(t, field) in m.traceKeys && (LookupString(t, field) == -1 <==> field !in t.strings)
    {
    }
    assert |m.values| == |r.costs|;
  }

  lemma SampleLacksPid(t: Tables, r: Request, m: Message)
    requires r.SendSample? && m == SampleMessage(t, r.origin, r.frames, r.guessed, r.costs, r.fields)
    requires Mirrored(t)
    ensures LacksPid(Replay(t.sent), m) <==> Unowned(t, r)
  {
    hide Mirrored, NoProcess, WithoutPid;
    forall i | 0 <= i < |r.frames|
      ensures NoProcess(t, r.frames[i]) <==> WithoutPid(Replay(t.sent), r.frames[i])
    {
      NoProcessAtClient(t, r.frames[i]);
    }
  }

  /** One request after an accepted output. */
  lemma RequestAccepted(t: Tables, r: Request)
    requires Mirrored(t) && AcceptsAll(t.sent) && Proper(t, r)
    ensures AcceptsAll(Perform(t, r).sent) <==> !Unnamed(t, r) && !Unowned(t, r)
  {
    hide AllReferBack, AcceptsAll, NoProcess, Numbered, Keys, SampleMessage, Unknown, AssignAll;
    match r
    case AskString(text) => StringAccepted(t, text);
    case AskLocation(l) => LocationAccepted(t, l);
    case DefineSymbol(id, s) =>
      StringCount(t);
      SendAccepted(t, SymbolDefinition(id, s));
    case Announce(a, name, ids) => AnnounceAccepted(t, a, name, ids);
    case SendThreadStart(origin, ppid) => SendAccepted(t, ThreadStart(origin, ppid));
    case SendThreadEnd(origin) => SendAccepted(t, ThreadEnd(origin));
    case SendCommand(origin, name) =>
      StringCount(t);
      SendAccepted(t, Command(origin, name));
    case SendSample(_, _, _, _, _) => SampleAccepted(t, r);
  }

  lemma AcceptsFront(before: seq<Message>, after: seq<Message>)
    requires before <= after && AcceptsAll(after)
    ensures AcceptsAll(before)
  {
    forall i | 0 <= i < |before|
      ensures Accepts(Replay(before[..i]), before[i])
    {
      assert before[..i] == after[..i];
    }
  }

  /** No request of the run leaves out a name or asks for something without a process. */
  ghost predicate NothingMissing(requests: seq<Request>) {
    forall i :: 0 <= i < |requests| ==>
      !Unnamed(PerformAll(requests[..i]), requests[i]) && !Unowned(PerformAll(requests[..i]), requests[i])
  }

  lemma NothingMissingSnoc(requests: seq<Request>)
    requires requests != []
    ensures var front, r := requests[..|requests| - 1], requests[|requests| - 1];
      NothingMissing(requests) <==>
        NothingMissing(front) && !Unnamed(PerformAll(front), r) && !Unowned(PerformAll(front), r)
  {
    hide Unnamed, Unowned, PerformAll;
    var front := requests[..|requests| - 1];
    assert forall i :: 0 <= i < |front| ==> front[..i] == requests[..i] && front[i] == requests[i];
  }

  /** In every run the strict client takes the whole output exactly if no request leaves out
      a name that the client insists on, or makes it look at a location without a process. */
  lemma {:induction false} ClientAcceptsRun(requests: seq<Request>)
    requires ProperRun(requests)
    ensures AcceptsAll(PerformAll(requests).sent) <==> NothingMissing(requests)
  {
    hide Mirrored, Perform, Proper, Unnamed, Unowned, NothingMissing, AcceptsAll, Continues;
    if requests == [] {
      NothingAccepted();
    } else {
      var front, r := requests[..|requests| - 1], requests[|requests| - 1];
      var t := PerformAll(front);
      ProperFront(requests);
      ClientAcceptsRun(front);
      RunIsMirrored(front);
      NothingMissingSnoc(requests);
      PerformFacts(t, r);
      if AcceptsAll(t.sent) {
        RequestAccepted(t, r);
      } else if AcceptsAll(Perform(t, r).sent) {
        ContinuesAppends(t, Perform(t, r));
        AcceptsFront(t.sent, Perform(t, r).sent);
      }
    }
  }

  lemma ContinuesAppends(before: Tables, after: Tables)
    requires Continues(before, after)
    ensures before.sent <= after.sent
  {
  }

  lemma NothingAccepted()
    ensures AcceptsAll([]) && NothingMissing([])
  {
  }

  /** Attributes without a name are announced; the client then looks for a text under -1. */
  lemma NamelessIsNotAccepted(a: Attributes)
    ensures var run := [Announce(a, "", [])];
      ProperRun(run) && !AcceptsAll(PerformAll(run).sent)
  {
    var run := [Announce(a, "", [])];
    assert run[..0] == [];
    var ids: seq<u64> := [0];
    var filtered := Unknown(NEW_TABLES.attributeIds, ids);
    assert 0 in filtered && [] + ids == ids;
    assert PerformAll(run) == Announced(NEW_TABLES, a, -1, filtered);
    var sent := PerformAll(run).sent;
    assert sent == [AttributesDefinition(0, a, -1)];
    assert sent[..0] == [];
    assert !Accepts(Replay(sent[..0]), sent[0]);
  }
}
