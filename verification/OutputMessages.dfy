/** The messages of the output stream, and the client that collects their definitions. */
module OutputMessages {
  import opened WordArithmetic

  datatype Location = Location(address: u64, relAddr: u64, file: int, pid: nat, line: int, column: int, parent: int)

  datatype Symbol = Symbol(name: int, relAddr: u64, size: u64, binary: int, path: int, actualPath: int,
                           isKernel: bool, isInline: bool)

  datatype Attributes = Attributes(kind: nat, config: u64, usesFrequency: bool, frequencyOrPeriod: u64)

  /** What a message about a process or thread starts with. */
  datatype Origin = Origin(pid: int, tid: int, time: u64, cpu: nat)

  datatype Message =
    | StringDefinition(id: int, text: string)
    | LocationDefinition(id: int, location: Location)
    | SymbolDefinition(id: int, symbol: Symbol)
    | AttributesDefinition(id: int, attributes: Attributes, name: int)
    | ThreadStart(origin: Origin, ppid: int)
    | ThreadEnd(origin: Origin)
    | Command(origin: Origin, name: int)
    | Sample(origin: Origin, frames: seq<int>, guessed: nat, values: seq<(int, u64)>, traceKeys: set<int>)

  datatype Client = Client(strings: seq<string>, locations: seq<Location>, symbols: map<int, Symbol>,
                           attributes: seq<(Attributes, int)>, commands: map<int, Message>,
                           threadStarts: seq<Message>, threadEnds: seq<Message>, samples: seq<Message>)

  const NEW_CLIENT := Client([], [], map[], [], map[], [], [], [])

  /** What the client answers for a process that has no command. */
  const NO_COMMAND := Command(Origin(-1, -1, 0, 0), -1)

  predicate StringKnown(c: Client, id: int) {
    0 <= id < |c.strings| && c.strings[id] != ""
  }

  predicate LocationKnown(c: Client, id: int) {
    0 <= id < |c.locations| && c.locations[id].pid != 0
  }

  predicate AttributeKnown(c: Client, id: int) {
    0 <= id < |c.attributes| && StringKnown(c, c.attributes[id].1)
  }

  /** All checks that the client makes on a message hold, and every index they use is in
      range. The checks have no lower bound of their own: for the id -1 they look outside of
      the tables. */
  predicate Accepts(c: Client, m: Message) {
    match m
    case StringDefinition(id, _) => id == |c.strings|
    case LocationDefinition(id, location) =>
      && (location.file == -1 || StringKnown(c, location.file))
      && (location.parent == -1 || LocationKnown(c, location.parent))
      && id == |c.locations|
    case SymbolDefinition(id, symbol) =>
      && (symbol.name == -1 || StringKnown(c, symbol.name))
      && (symbol.binary == -1 || StringKnown(c, symbol.binary))
      && id < |c.locations|
    case AttributesDefinition(id, _, name) => StringKnown(c, name) && id == |c.attributes|
    case ThreadStart(_, _) => true
    case ThreadEnd(_) => true
    case Command(_, name) => StringKnown(c, name)
    case Sample(_, frames, _, values, traceKeys) =>
      && (forall i :: 0 <= i < |frames| ==> LocationKnown(c, frames[i]))
      && (forall i :: 0 <= i < |values| ==> AttributeKnown(c, values[i].0))
      && (forall key :: key in traceKeys ==> StringKnown(c, key))
  }

  /** A command names its thread, and its process if that has no name yet. */
  function NameThreads(commands: map<int, Message>, m: Message): map<int, Message>
    requires m.Command?
  {
    var named := commands[m.origin.tid := m];
    if m.origin.pid != m.origin.tid && m.origin.pid !in named then named[m.origin.pid := m] else named
  }

  /** What the client appends or inserts. */
  function Receive(c: Client, m: Message): Client {
    match m
    case StringDefinition(_, text) => c.(strings := c.strings + [text])
    case LocationDefinition(_, location) => c.(locations := c.locations + [location])
    case SymbolDefinition(id, symbol) => c.(symbols := c.symbols[id := symbol])
    case AttributesDefinition(_, attributes, name) => c.(attributes := c.attributes + [(attributes, name)])
    case ThreadStart(origin, ppid) =>
      c.(threadStarts := c.threadStarts + [m],
         commands := c.commands[origin.pid := if ppid in c.commands then c.commands[ppid] else NO_COMMAND])
    case ThreadEnd(_) => c.(threadEnds := c.threadEnds + [m])
    case Command(_, _) => c.(commands := NameThreads(c.commands, m))
    case Sample(_, _, _, _, _) => c.(samples := c.samples + [m])
  }

  /** The client after a stream of messages. */
  function Replay(sent: seq<Message>): Client {
    if sent == [] then NEW_CLIENT else Receive(Replay(sent[..|sent| - 1]), sent[|sent| - 1])
  }

  lemma ReplaySnoc(sent: seq<Message>, m: Message)
    ensures Replay(sent + [m]) == Receive(Replay(sent), m)
  {
    assert (sent + [m])[..|sent|] == sent;
  }

  /** The client keeps the texts and the locations it has. */
  lemma {:induction false} ReplayGrows(sent: seq<Message>, later: seq<Message>)
    requires sent <= later
    ensures Replay(sent).strings <= Replay(later).strings && Replay(sent).locations <= Replay(later).locations
    decreases |later|
  {
    if sent != later {
      var front := later[..|later| - 1];
      assert sent == later[..|sent|] && front[..|sent|] == later[..|sent|];
      ReplayGrows(sent, front);
    }
  }

  /** An id that a message may carry: none, or one of the first `n`. */
  predicate Refers(id: int, n: nat) {
    -1 <= id < n
  }

  /** Every id in the message is none or was defined before it, and a definition takes the
      next free id. */
  predicate RefersBack(c: Client, m: Message) {
    var strings, locations := |c.strings|, |c.locations|;
    match m
    case StringDefinition(id, text) => id == strings && text != ""
    case LocationDefinition(id, l) => id == locations && Refers(l.file, strings) && Refers(l.parent, locations)
    case SymbolDefinition(id, s) =>
      && 0 <= id < locations
      && Refers(s.name, strings) && Refers(s.binary, strings)
      && Refers(s.path, strings) && Refers(s.actualPath, strings)
    case AttributesDefinition(id, _, name) => id == |c.attributes| && Refers(name, strings)
    case ThreadStart(_, _) => true
    case ThreadEnd(_) => true
    case Command(_, name) => Refers(name, strings)
    case Sample(_, frames, _, values, traceKeys) =>
      && (forall i :: 0 <= i < |frames| ==> 0 <= frames[i] < locations)
      && (forall i :: 0 <= i < |values| ==> Refers(values[i].0, |c.attributes|))
      && (forall key :: key in traceKeys ==> Refers(key, strings))
  }

  ghost predicate AllReferBack(sent: seq<Message>) {
    forall i :: 0 <= i < |sent| ==> RefersBack(Replay(sent[..i]), sent[i])
  }

  lemma AllReferBackSnoc(sent: seq<Message>, m: Message)
    requires AllReferBack(sent) && RefersBack(Replay(sent), m)
    ensures AllReferBack(sent + [m])
  {
    var longer := sent + [m];
    forall i | 0 <= i < |longer|
      ensures RefersBack(Replay(longer[..i]), longer[i])
    {
      assert i < |sent| ==> longer[..i] == sent[..i];
      assert longer[..|sent|] == sent;
    }
  }

  // ------------------------------------------------------------ what the client relies on

  /** No text is empty, every parent was defined before its location, and files and names
      are texts. */
  ghost predicate Grounded(c: Client) {
    && (forall i :: 0 <= i < |c.strings| ==> c.strings[i] != "")
    && (forall i :: 0 <= i < |c.locations| ==>
          Refers(c.locations[i].parent, i) && Refers(c.locations[i].file, |c.strings|))
    && (forall id :: id in c.symbols ==> 0 <= id < |c.locations| && Refers(c.symbols[id].name, |c.strings|))
    && (forall i :: 0 <= i < |c.attributes| ==> Refers(c.attributes[i].1, |c.strings|))
  }

  lemma NewIsGrounded()
    ensures Grounded(NEW_CLIENT)
  {
  }

  lemma ReceiveGrounded(c: Client, m: Message)
    requires Grounded(c) && RefersBack(c, m)
    ensures Grounded(Receive(c, m))
  {
  }

  lemma {:induction false} ReplayIsGrounded(sent: seq<Message>)
    requires AllReferBack(sent)
    ensures Grounded(Replay(sent))
  {
    hide Receive, RefersBack, Grounded;
    NewIsGrounded();
    if sent != [] {
      var front := sent[..|sent| - 1];
      forall i | 0 <= i < |front|
        ensures RefersBack(Replay(front[..i]), front[i])
      {
        assert front[..i] == sent[..i];
      }
      ReplayIsGrounded(front);
      ReceiveGrounded(Replay(front), sent[|sent| - 1]);
    }
  }

  /** A name that the client insists on is missing. */
  predicate LacksName(c: Client, m: Message) {
    match m
    case AttributesDefinition(_, _, name) => name == -1
    case Command(_, name) => name == -1
    case Sample(_, _, _, values, traceKeys) =>
      || -1 in traceKeys
      || exists i :: 0 <= i < |values| &&
           (values[i].0 == -1 || (0 <= values[i].0 < |c.attributes| && c.attributes[values[i].0].1 == -1))
    case _ => false
  }

  predicate PidsSet(c: Client) {
    forall i :: 0 <= i < |c.locations| ==> c.locations[i].pid != 0
  }

  predicate WithoutPid(c: Client, id: int) {
    0 <= id < |c.locations| && c.locations[id].pid == 0
  }

  /** A location that the client looks at has no process. */
  predicate LacksPid(c: Client, m: Message) {
    match m
    case LocationDefinition(_, l) => WithoutPid(c, l.parent)
    case Sample(_, frames, _, _, _) => exists i :: 0 <= i < |frames| && WithoutPid(c, frames[i])
    case _ => false
  }

  /** The client takes a message that refers back exactly if no name and no process is
      missing. */
  lemma AcceptsExactly(c: Client, m: Message)
    requires Grounded(c) && RefersBack(c, m)
    ensures Accepts(c, m) <==> !LacksName(c, m) && !LacksPid(c, m)
  {
    if m.Sample? {
      if Accepts(c, m) {
        forall i | 0 <= i < |m.values|
          ensures m.values[i].0 != -1 && c.attributes[m.values[i].0].1 != -1
        {
          assert AttributeKnown(c, m.values[i].0);
        }
        forall i | 0 <= i < |m.frames|
          ensures !WithoutPid(c, m.frames[i])
        {
          assert LocationKnown(c, m.frames[i]);
        }
      } else {
        if i :| 0 <= i < |m.values| && !AttributeKnown(c, m.values[i].0) {
          assert Refers(m.values[i].0, |c.attributes|);
        } else if i :| 0 <= i < |m.frames| && !LocationKnown(c, m.frames[i]) {
          assert WithoutPid(c, m.frames[i]);
        }
      }
    }
  }
}
