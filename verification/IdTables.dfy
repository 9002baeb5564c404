/** The producer's tables as an object, and the client that reads its messages. */
module IdTables {
  import opened WordArithmetic
  import opened OutputMessages
  import opened OutputTables
  import opened OutputRuns

  class Definitions {
    var strings: map<string, int>
    var locations: map<LocationKey, int>
    var symbols: map<int, Symbol>
    var attributes: seq<Attributes>
    var attributeIds: map<u64, int>
    /** What was written to the output. */
    var output: seq<Message>

    ghost function Abs(): Tables
      reads this
    {
      Tables(strings, locations, symbols, attributes, attributeIds, output)
    }

    /** A client that replays the output has exactly these tables. */
    ghost predicate Valid()
      reads this
    {
      Mirrored(Abs())
    }

    constructor ()
      ensures Valid() && Abs() == NEW_TABLES
    {
      strings, locations, symbols, attributes, attributeIds, output := map[], map[], map[], [], map[], [];
      new;
      NewIsMirrored();
    }

    method Send(m: Message)
      modifies `output
      ensures Abs() == Sent(old(Abs()), m)
    {
      output := output + [m];
    }

    method ResolveString(text: string) returns (id: int)
      modifies this
      ensures (Abs(), id) == OutputTables.ResolveString(old(Abs()), text)
      ensures old(Valid()) ==>
        && Valid() && Continues(old(Abs()), Abs())
        && StringId(Abs(), id) && (id == -1 <==> text == "")
        && symbols == old(symbols) && locations == old(locations)
    {
      hide Mirrored, Continues;
      ghost var t := Abs();
      if Mirrored(t) {
        ResolveStringFacts(t, text);
      }
      if text == "" { return -1; }
      if text !in strings {
        strings := strings[text := |strings|];
        Send(StringDefinition(strings[text], text));
      }
      id := strings[text];
    }

    function LookupString(text: string): int
      reads this
    {
      if text in strings then strings[text] else -1
    }

    function LookupLocation(l: Location): int
      reads this
    {
      if KeyOf(l) in locations then locations[KeyOf(l)] else -1
    }

    method ResolveLocation(l: Location) returns (id: int)
      requires Valid() && StringId(Abs(), l.file) && Refers(l.parent, |locations|)
      modifies this
      ensures (Abs(), id) == OutputTables.ResolveLocation(old(Abs()), l)
      ensures Valid() && Continues(old(Abs()), Abs()) && 0 <= id < |locations|
      ensures symbols == old(symbols) && strings == old(strings)
    {
      hide Mirrored, Continues, KeyOf;
      ResolveLocationFacts(Abs(), l);
      if KeyOf(l) !in locations {
        locations := locations[KeyOf(l) := |locations|];
        Send(LocationDefinition(locations[KeyOf(l)], l));
      }
      id := locations[KeyOf(l)];
    }

    predicate HasSymbol(id: int)
      reads this
    {
      id in symbols
    }

    method ResolveSymbol(id: int, s: Symbol)
      requires Valid() && 0 <= id < |locations| && SymbolIds(Abs(), s)
      modifies this
      ensures Abs() == OutputTables.ResolveSymbol(old(Abs()), id, s)
      ensures Valid() && Continues(old(Abs()), Abs()) && HasSymbol(id)
      ensures strings == old(strings) && locations == old(locations)
    {
      hide Mirrored, Continues;
      ResolveSymbolFacts(Abs(), id, s);
      symbols := symbols[id := s];
      Send(SymbolDefinition(id, s));
    }

    /** The ids that have no attributes yet. */
    method RemoveKnown(ids: seq<u64>) returns (filtered: seq<u64>)
      ensures filtered == Unknown(attributeIds, ids)
    {
      filtered := [];
      var i := |ids|;
      while i > 0
        invariant 0 <= i <= |ids| && filtered == Unknown(attributeIds, ids[i..])
      {
        i := i - 1;
        assert ids[i..][1..] == ids[i + 1..];
        if ids[i] !in attributeIds {
          filtered := [ids[i]] + filtered;
        }
      }
      assert ids[0..] == ids;
    }

    method AddAttributes(a: Attributes, name: string, ids: seq<u64>)
      requires Valid()
      modifies this
      ensures Abs() == OutputTables.AddAttributes(old(Abs()), a, name, ids)
      ensures Valid() && Continues(old(Abs()), Abs())
    {
      hide Mirrored, Continues, Unknown, AssignAll, OutputTables.ResolveString;
      AddAttributesFacts(Abs(), a, name, ids);
      var filteredIds := RemoveKnown(ids + [0]);
      if filteredIds == [] { return; }
      ghost var t := Abs();
      var internalId := |attributes|;
      NamingIsApart(t, attributes + [a], name);
      attributes := attributes + [a];
      var nameId := ResolveString(name);
      Send(AttributesDefinition(internalId, a, nameId));
      Assign(filteredIds, internalId);
    }

    method Assign(ids: seq<u64>, internalId: int)
      modifies `attributeIds
      ensures attributeIds == AssignAll(old(attributeIds), ids, internalId)
    {
      hide AssignAll;
      AssignNothing(attributeIds, internalId);
      assert ids[..0] == [];
      for i := 0 to |ids|
        invariant attributeIds == AssignAll(old(attributeIds), ids[..i], internalId)
      {
        AssignNext(old(attributeIds), ids, i, internalId);
        attributeIds := attributeIds[ids[i] := internalId];
      }
      assert ids[..|ids|] == ids;
    }
  }

  /** Naming attributes does not depend on whether they are stored before. */
  lemma NamingIsApart(t: Tables, later: seq<Attributes>, name: string)
    ensures var (t', id) := OutputTables.ResolveString(t, name);
      && OutputTables.ResolveString(t.(attributes := later), name) == (t'.(attributes := later), id)
      && t'.attributes == t.attributes && t'.attributeIds == t.attributeIds
  {
  }

  /** Some element of a set. */
  method AnyOf<T(==)>(s: set<T>) returns (x: T)
    requires s != {}
    ensures x in s
  {
    x :| x in s;
  }

  lemma AssignNothing(known: map<u64, int>, internal: int)
    ensures AssignAll(known, [], internal) == known
  {
  }

  lemma AssignNext(known: map<u64, int>, ids: seq<u64>, i: nat, internal: int)
    requires i < |ids|
    ensures AssignAll(known, ids[..i], internal)[ids[i] := internal] == AssignAll(known, ids[..i + 1], internal)
  {
    assert ids[..i + 1] == ids[..i] + [ids[i]];
  }

  class PerfParserTestClient {
    var strings: seq<string>
    var locations: seq<Location>
    var symbols: map<int, Symbol>
    var attributes: seq<(Attributes, int)>
    var commands: map<int, Message>
    var threadStarts: seq<Message>
    var threadEnds: seq<Message>
    var samples: seq<Message>

    ghost function Abs(): Client
      reads this
    {
      Client(strings, locations, symbols, attributes, commands, threadStarts, threadEnds, samples)
    }

    constructor ()
      ensures Abs() == NEW_CLIENT
    {
      strings, locations, symbols, attributes := [], [], map[], [];
      commands, threadStarts, threadEnds, samples := map[], [], [], [];
    }

    /** Whether an index is in range and the check on what it points to holds. */
    method CheckString(id: int) returns (ok: bool)
      ensures ok <==> StringKnown(Abs(), id)
    {
      ok := 0 <= id < |strings| && strings[id] != "";
    }

    method CheckLocation(id: int) returns (ok: bool)
      ensures ok <==> LocationKnown(Abs(), id)
    {
      ok := 0 <= id < |locations| && locations[id].pid != 0;
    }

    method CheckAttribute(id: int) returns (ok: bool)
      ensures ok <==> AttributeKnown(Abs(), id)
    {
      ok := 0 <= id < |attributes|;
      if ok {
        ok := CheckString(attributes[id].1);
      }
    }

    method CheckSample(m: Message) returns (ok: bool)
      requires m.Sample?
      ensures ok <==> Accepts(Abs(), m)
    {
      for i := 0 to |m.frames|
        invariant forall j :: 0 <= j < i ==> LocationKnown(Abs(), m.frames[j])
      {
        ok := CheckLocation(m.frames[i]);
        if !ok { return; }
      }
      for i := 0 to |m.values|
        invariant forall j :: 0 <= j < i ==> AttributeKnown(Abs(), m.values[j].0)
      {
        ok := CheckAttribute(m.values[i].0);
        if !ok { return; }
      }
      ok := CheckStrings(m.traceKeys);
    }

    method CheckStrings(ids: set<int>) returns (ok: bool)
      ensures ok <==> forall id :: id in ids ==> StringKnown(Abs(), id)
    {
      var rest := ids;
      while rest != {}
        invariant rest <= ids
        invariant forall id :: id in ids - rest ==> StringKnown(Abs(), id)
      {
        var id := AnyOf(rest);
        ok := CheckString(id);
        if !ok { return; }
        rest := rest - {id};
      }
      ok := true;
    }

    method Insert(command: Message)
      requires command.Command?
      modifies `commands
      ensures commands == NameThreads(old(commands), command)
    {
      commands := commands[command.origin.tid := command];
      if command.origin.pid != command.origin.tid && command.origin.pid !in commands {
        commands := commands[command.origin.pid := command];
      }
    }

    /** Takes one message in, if all its indices are in range and all its checks hold. */
    method Take(m: Message) returns (ok: bool)
      modifies this
      ensures ok <==> Accepts(old(Abs()), m)
      ensures ok ==> Abs() == Receive(old(Abs()), m)
    {
      match m
      case StringDefinition(id, text) =>
        ok := id == |strings|;
        strings := strings + [text];
      case LocationDefinition(id, location) =>
        if location.file != -1 {
          ok := CheckString(location.file);
          if !ok { return; }
        }
        if location.parent != -1 {
          ok := CheckLocation(location.parent);
          if !ok { return; }
        }
        ok := id == |locations|;
        locations := locations + [location];
      case SymbolDefinition(id, symbol) =>
        if symbol.name != -1 {
          ok := CheckString(symbol.name);
          if !ok { return; }
        }
        if symbol.binary != -1 {
          ok := CheckString(symbol.binary);
          if !ok { return; }
        }
        ok := id < |locations|;
        symbols := symbols[id := symbol];
      case AttributesDefinition(id, a, name) =>
        ok := CheckString(name);
        if !ok { return; }
        ok := id == |attributes|;
        attributes := attributes + [(a, name)];
      case ThreadStart(origin, ppid) =>
        threadStarts := threadStarts + [m];
        commands := commands[origin.pid := if ppid in commands then commands[ppid] else NO_COMMAND];
        ok := true;
      case ThreadEnd(_) =>
        threadEnds := threadEnds + [m];
        ok := true;
      case Command(_, name) =>
        ok := CheckString(name);
        if !ok { return; }
        Insert(m);
      case Sample(_, _, _, _, _) =>
        ok := CheckSample(m);
        if !ok { return; }
        samples := samples + [m];
    }

    /** Reads a stream up to the first message with an index out of range or a failed check. */
    method ExtractTrace(stream: seq<Message>) returns (ok: bool)
      requires Abs() == NEW_CLIENT
      modifies this
      ensures ok <==> AcceptsAll(stream)
      ensures ok ==> Abs() == Replay(stream)
    {
      hide Accepts, Receive;
      assert stream[..0] == [];
      for i := 0 to |stream|
        invariant Abs() == Replay(stream[..i])
        invariant forall j :: 0 <= j < i ==> Accepts(Replay(stream[..j]), stream[j])
      {
        assert stream[..i + 1] == stream[..i] + [stream[i]];
        ReplaySnoc(stream[..i], stream[i]);
        ok := Take(stream[i]);
        if !ok { return; }
      }
      assert stream[..|stream|] == stream;
      ok := true;
    }

    /** Prints a frame and all the frames it is inlined into: each is defined before the one
        it belongs to, so the walk ends at a frame without a parent. */
    method PrintFrames(frame: int) returns (printed: seq<int>)
      requires Grounded(Abs()) && 0 <= frame < |locations|
      ensures |printed| > 0 && printed[0] == frame
      ensures forall i :: 0 <= i < |printed| ==> 0 <= printed[i] < |locations|
      ensures forall i :: 0 < i < |printed| ==>
        printed[i] == locations[printed[i - 1]].parent && printed[i] < printed[i - 1]
      ensures locations[printed[|printed| - 1]].parent == -1
    {
      printed := [frame];
      var locationId := locations[frame].parent;
      while locationId != -1
        invariant |printed| > 0 && printed[0] == frame
        invariant forall i :: 0 <= i < |printed| ==> 0 <= printed[i] < |locations|
        invariant forall i :: 0 < i < |printed| ==>
          printed[i] == locations[printed[i - 1]].parent && printed[i] < printed[i - 1]
        invariant locationId == locations[printed[|printed| - 1]].parent && -1 <= locationId
        decreases locationId + 1
      {
        printed := printed + [locationId];
        locationId := locations[locationId].parent;
      }
    }
  }
}
