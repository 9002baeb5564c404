/** The inline chain that a frame lookup sends, as the client walks it. */
module InlineChains {
  import opened WordArithmetic
  import opened OutputMessages
  import opened OutputTables
  import opened FrameAnswers

  /** A location as the client shows it, without its parent. */
  datatype Spot = Spot(address: u64, relAddr: u64, file: string, pid: nat, line: int, column: int)

  function TextAt(c: Client, id: int): string {
    if 0 <= id < |c.strings| then c.strings[id] else ""
  }

  function SpotOf(c: Client, l: Location): Spot {
    Spot(l.address, l.relAddr, TextAt(c, l.file), l.pid, l.line, l.column)
  }

  function Spots(c: Client): (r: seq<Spot>)
    ensures |r| == |c.locations|
    ensures forall i :: 0 <= i < |r| ==> r[i] == SpotOf(c, c.locations[i])
  {
    seq(|c.locations|, i requires 0 <= i < |c.locations| => SpotOf(c, c.locations[i]))
  }

  /** What all entries of a chain have in common. */
  datatype Frame = Frame(bias: u64, binary: Binary, extent: Extent, pid: nat)

  function CallSpot(d: Die, f: Frame): Spot {
    Spot((f.bias + d.entry) % TWO_64, 0, d.callFile, f.pid, d.callLine, d.callColumn)
  }

  function FunctionSpot(d: Die, f: Frame): Spot {
    Spot((f.bias + d.entry) % TWO_64, f.extent.relAddr, d.declFile, f.pid, d.declLine, d.declColumn)
  }

  /** The locations that an entry asks for, in order. */
  function DieSpots(d: Die, f: Frame): seq<Spot> {
    match d.tag
    case InlinedSubroutine => [CallSpot(d, f), FunctionSpot(d, f)]
    case Subprogram => [FunctionSpot(d, f)]
    case OtherTag => []
  }

  function ChainSpots(dies: seq<Die>, f: Frame): seq<Spot> {
    if dies == [] then [] else ChainSpots(dies[..|dies| - 1], f) + DieSpots(dies[|dies| - 1], f)
  }

  /** None of the new ones is known, and no two are the same. */
  ghost predicate FreshIn(known: seq<Spot>, spots: seq<Spot>) {
    forall i :: 0 <= i < |spots| ==> spots[i] !in known && spots[i] !in spots[..i]
  }

  lemma FreshParts(known: seq<Spot>, x: seq<Spot>, y: seq<Spot>)
    requires FreshIn(known, x + y)
    ensures FreshIn(known, x) && FreshIn(known + x, y)
  {
    var all := x + y;
    forall i | 0 <= i < |x|
      ensures x[i] !in known && x[i] !in x[..i]
    {
      assert all[i] == x[i] && all[..i] == x[..i];
    }
    forall i | 0 <= i < |y|
      ensures y[i] !in known + x && y[i] !in y[..i]
    {
      assert all[|x| + i] == y[i] && all[..|x| + i] == x + y[..i];
    }
  }

  // ------------------------------------------------------------ the chain at the client

  ghost predicate FunctionIs(c: Client, id: int, d: Die, f: Frame, isInline: bool, parent: int) {
    && 0 <= id < |c.locations|
    && SpotOf(c, c.locations[id]) == FunctionSpot(d, f) && c.locations[id].parent == parent
    && id in c.symbols && TextAt(c, c.symbols[id].name) == d.name
    && c.symbols[id] == Symbol(c.symbols[id].name, f.extent.start, f.extent.size, f.binary.name, f.binary.path,
                               f.binary.actualPath, f.binary.isKernel, isInline)
  }

  ghost predicate CallIs(c: Client, id: int, d: Die, f: Frame, parent: int) {
    && 0 <= id < |c.locations|
    && SpotOf(c, c.locations[id]) == CallSpot(d, f) && c.locations[id].parent == parent
  }

  /** An entry and the location that stands for it: an inlined function lies below the place
      of its call, and that below the parent. */
  ghost predicate DieIs(c: Client, id: int, d: Die, f: Frame, parent: int) {
    match d.tag
    case InlinedSubroutine =>
      && 0 <= id < |c.locations|
      && FunctionIs(c, id, d, f, true, c.locations[id].parent)
      && CallIs(c, c.locations[id].parent, d, f, parent)
    case Subprogram => FunctionIs(c, id, d, f, false, -1)
    case OtherTag => id == -1
  }

  /** Walking up from `id` the client passes the entries from the innermost to the outermost
      function. */
  ghost predicate Follows(c: Client, id: int, dies: seq<Die>, f: Frame)
    decreases |dies|
  {
    if dies == [] then id == -1
    else
      var front, d := dies[..|dies| - 1], dies[|dies| - 1];
      match d.tag
      case InlinedSubroutine => exists parent :: DieIs(c, id, d, f, parent) && Follows(c, parent, front, f)
      case Subprogram => DieIs(c, id, d, f, -1)
      case OtherTag => Follows(c, id, front, f)
  }

  /** Definitions are only added, and locations keep their symbols. */
  ghost predicate Enlarges(c: Client, d: Client) {
    && c.strings <= d.strings && c.locations <= d.locations
    && forall id :: 0 <= id < |c.locations| && id in c.symbols ==> id in d.symbols && d.symbols[id] == c.symbols[id]
  }

  lemma DieStays(c: Client, c': Client, id: int, d: Die, f: Frame, parent: int)
    requires Grounded(c) && Enlarges(c, c') && DieIs(c, id, d, f, parent)
    ensures DieIs(c', id, d, f, parent)
  {
    assert forall i :: 0 <= i < |c.locations| ==> c'.locations[i] == c.locations[i];
    assert forall i :: 0 <= i < |c.strings| ==> c'.strings[i] == c.strings[i];
  }

  lemma {:induction false} ChainStays(c: Client, c': Client, id: int, dies: seq<Die>, f: Frame)
    requires Grounded(c) && Enlarges(c, c') && Follows(c, id, dies, f)
    ensures Follows(c', id, dies, f)
    decreases |dies|
  {
    hide DieIs, Enlarges, Grounded;
    if dies != [] {
      var front, d := dies[..|dies| - 1], dies[|dies| - 1];
      match d.tag
      case InlinedSubroutine =>
        var parent :| DieIs(c, id, d, f, parent) && Follows(c, parent, front, f);
        DieStays(c, c', id, d, f, parent);
        ChainStays(c, c', parent, front, f);
      case Subprogram => DieStays(c, c', id, d, f, -1);
      case OtherTag => ChainStays(c, c', id, front, f);
    }
  }

  // ------------------------------------------------------------ one request

  function ClientOf(t: Tables): Client {
    Replay(t.sent)
  }

  lemma StringStep(t: Tables, text: string)
    requires Mirrored(t)
    ensures var (t', id) := ResolveString(t, text);
      && Mirrored(t') && StringId(t', id) && Continues(t, t')
      && Enlarges(ClientOf(t), ClientOf(t')) && Spots(ClientOf(t')) == Spots(ClientOf(t))
      && ClientOf(t').locations == ClientOf(t).locations && ClientOf(t').symbols == ClientOf(t).symbols
      && TextAt(ClientOf(t'), id) == text && Refers(id, |ClientOf(t').strings|) && t'.locations == t.locations
  {
    hide Mirrored, Replay, Continues;
    ResolveStringFacts(t, text);
    ReplaySnoc(t.sent, StringDefinition(|t.strings|, text));
    MirroredIsGrounded(t);
    var t' := ResolveString(t, text).0;
    assert ClientOf(t').locations == ClientOf(t).locations;
    forall i | 0 <= i < |ClientOf(t).locations|
      ensures Spots(ClientOf(t'))[i] == Spots(ClientOf(t))[i]
    {
    }
    StringCountAt(t', text);
  }

  lemma MirroredIsGrounded(t: Tables)
    requires Mirrored(t)
    ensures Grounded(ClientOf(t))
  {
    ReplayIsGrounded(t.sent);
  }

  lemma StringCountAt(t: Tables, text: string)
    requires Mirrored(t) && (text == "" || text in t.strings)
    ensures TextAt(ClientOf(t), ResolveString(t, text).1) == text
    ensures |t.strings| == |ClientOf(t).strings|
  {
    hide AllReferBack;
  }

  lemma LocationStep(t: Tables, l: Location)
    requires Mirrored(t) && StringId(t, l.file) && Refers(l.parent, |t.locations|)
    requires SpotOf(ClientOf(t), l) !in Spots(ClientOf(t))
    ensures var (t', id) := ResolveLocation(t, l);
      && Mirrored(t') && Continues(t, t') && t'.strings == t.strings
      && 0 <= id < |t'.locations| && id == |ClientOf(t).locations|
      && ClientOf(t') == ClientOf(t).(locations := ClientOf(t).locations + [l])
      && Spots(ClientOf(t')) == Spots(ClientOf(t)) + [SpotOf(ClientOf(t), l)]
  {
    hide Mirrored, Replay, Continues;
    ResolveLocationFacts(t, l);
    if KeyOf(l) in t.locations {
      KnownKeyIsKnownSpot(t, l);
    }
    StringCount(t);
    ReplaySnoc(t.sent, LocationDefinition(|t.locations|, l));
    var c, c' := ClientOf(t), ClientOf(ResolveLocation(t, l).0);
    forall i | 0 <= i < |c'.locations|
      ensures Spots(c')[i] == (Spots(c) + [SpotOf(c, l)])[i]
    {
    }
  }

  lemma KnownKeyIsKnownSpot(t: Tables, l: Location)
    requires Mirrored(t) && KeyOf(l) in t.locations
    ensures SpotOf(ClientOf(t), l) in Spots(ClientOf(t))
  {
    hide AllReferBack, Numbered;
    var c, i := ClientOf(t), t.locations[KeyOf(l)];
    NumberedAt(t.locations, Keys(c.locations), KeyOf(l));
    assert Spots(c)[i] == SpotOf(c, l);
  }

  lemma SymbolStep(t: Tables, id: int, s: Symbol)
    requires Mirrored(t) && 0 <= id < |t.locations| && SymbolIds(t, s)
    ensures var t' := ResolveSymbol(t, id, s);
      && Mirrored(t') && Continues(t, t') && t'.strings == t.strings && t'.locations == t.locations
      && ClientOf(t') == ClientOf(t).(symbols := ClientOf(t).symbols[id := s])
      && Spots(ClientOf(t')) == Spots(ClientOf(t))
  {
    hide Mirrored, Replay, Continues;
    ResolveSymbolFacts(t, id, s);
    ReplaySnoc(t.sent, SymbolDefinition(id, s));
    var c, c' := ClientOf(t), ClientOf(ResolveSymbol(t, id, s));
    forall i | 0 <= i < |c'.locations|
      ensures Spots(c')[i] == Spots(c)[i]
    {
    }
  }

  // ------------------------------------------------------------ one entry, and the whole chain

  lemma EnlargesTransitive(x: Client, y: Client, z: Client)
    requires Enlarges(x, y) && Enlarges(y, z)
    ensures Enlarges(x, z)
  {
    assert |x.locations| <= |y.locations|;
  }

  lemma Grown(t: Tables, t': Tables, b: Binary, n: int)
    requires Continues(t, t')
    ensures BinaryIds(t, b) ==> BinaryIds(t', b)
    ensures Refers(n, |t.locations|) ==> Refers(n, |t'.locations|)
  {
  }

  lemma InsertedStep(t: Tables, d: Die, f: Frame, call: int, isInline: bool)
    requires Mirrored(t) && BinaryIds(t, f.binary) && Refers(call, |t.locations|)
    requires FunctionSpot(d, f) !in Spots(ClientOf(t))
    ensures var (t', id) := Inserted(t, d, ScopeAddress(d, f.bias), f.binary, f.extent, f.pid, call, isInline);
      && Mirrored(t') && Continues(t, t') && 0 <= id < |t'.locations|
      && Enlarges(ClientOf(t), ClientOf(t'))
      && Spots(ClientOf(t')) == Spots(ClientOf(t)) + [FunctionSpot(d, f)]
      && FunctionIs(ClientOf(t'), id, d, f, isInline, call)
  {
    hide Mirrored, Continues, ResolveString, ResolveLocation, ResolveSymbol, Spots, ClientOf;
    var (u, file) := ResolveString(t, d.declFile);
    StringStep(t, d.declFile);
    Grown(t, u, f.binary, call);
    var l := Location(ScopeAddress(d, f.bias), f.extent.relAddr, file, f.pid, d.declLine, d.declColumn, call);
    var (v, id) := ResolveLocation(u, l);
    LocationStep(u, l);
    ContinuesTransitive(t, u, v);
    var (w, name) := ResolveString(v, d.name);
    StringStep(v, d.name);
    ContinuesTransitive(t, v, w);
    Grown(t, w, f.binary, call);
    var s := SymbolOf(name, f.binary, f.extent, isInline);
    SymbolStep(w, id, s);
    ContinuesTransitive(t, w, ResolveSymbol(w, id, s));
    InsertedAtClient(ClientOf(t), ClientOf(u), ClientOf(w), l, s, d, f, isInline, call);
  }

  /** The client before the requests for an inserted function, after the one for its file,
      and after the one for its name. */
  lemma InsertedAtClient(c: Client, u: Client, w: Client, l: Location, s: Symbol, d: Die, f: Frame, isInline: bool,
                         call: int)
    requires c.strings <= u.strings <= w.strings
    requires u.locations == c.locations && w.locations == c.locations + [l]
    requires u.symbols == c.symbols == w.symbols
    requires SpotOf(u, l) == FunctionSpot(d, f) && l.parent == call && Refers(l.file, |u.strings|)
    requires s == SymbolOf(s.name, f.binary, f.extent, isInline) && TextAt(w, s.name) == d.name
    ensures var z := w.(symbols := w.symbols[|c.locations| := s]);
      Enlarges(c, z) && FunctionIs(z, |c.locations|, d, f, isInline, call)
  {
    assert forall i :: 0 <= i < |u.strings| ==> w.strings[i] == u.strings[i];
  }

  /** One entry of a chain, if all that it asks for is new. */
  lemma ParsedStep(t: Tables, d: Die, f: Frame, parent: int)
    requires Mirrored(t) && BinaryIds(t, f.binary) && Refers(parent, |t.locations|)
    requires FreshIn(Spots(ClientOf(t)), DieSpots(d, f))
    ensures var (t', id) := Parsed(t, d, ScopeAddress(d, f.bias), f.binary, f.extent, f.pid, parent);
      && Mirrored(t') && Continues(t, t') && (d.tag != OtherTag ==> 0 <= id < |t'.locations|)
      && Enlarges(ClientOf(t), ClientOf(t'))
      && Spots(ClientOf(t')) == Spots(ClientOf(t)) + DieSpots(d, f)
      && DieIs(ClientOf(t'), id, d, f, parent)
  {
    hide Mirrored, Continues, ResolveString, ResolveLocation, Inserted, Spots, ClientOf, FunctionIs, Enlarges;
    match d.tag
    case Subprogram =>
      assert DieSpots(d, f)[0] !in Spots(ClientOf(t));
      InsertedStep(t, d, f, -1, false);
    case OtherTag =>
      ContinuesItself(t);
      EnlargesItself(ClientOf(t));
    case InlinedSubroutine =>
      CallStep(t, d, f, parent);
  }

  lemma EnlargesItself(c: Client)
    ensures Enlarges(c, c)
  {
  }

  lemma CallStep(t: Tables, d: Die, f: Frame, parent: int)
    requires Mirrored(t) && BinaryIds(t, f.binary) && Refers(parent, |t.locations|)
    requires d.tag == InlinedSubroutine && FreshIn(Spots(ClientOf(t)), DieSpots(d, f))
    ensures var (t', id) := Parsed(t, d, ScopeAddress(d, f.bias), f.binary, f.extent, f.pid, parent);
      && Mirrored(t') && Continues(t, t') && 0 <= id < |t'.locations|
      && Enlarges(ClientOf(t), ClientOf(t'))
      && Spots(ClientOf(t')) == Spots(ClientOf(t)) + DieSpots(d, f)
      && DieIs(ClientOf(t'), id, d, f, parent)
  {
    hide Mirrored, Continues, ResolveString, ResolveLocation, Inserted, Spots, ClientOf;
    var both := DieSpots(d, f);
    assert both[0] !in Spots(ClientOf(t)) && both[1] !in Spots(ClientOf(t)) && both[1] !in both[..1];
    assert both[0] in both[..1];
    var (u, file) := ResolveString(t, d.callFile);
    StringStep(t, d.callFile);
    Grown(t, u, f.binary, parent);
    var l := Location(ScopeAddress(d, f.bias), 0, file, f.pid, d.callLine, d.callColumn, parent);
    var (v, call) := ResolveLocation(u, l);
    LocationStep(u, l);
    ContinuesTransitive(t, u, v);
    Grown(t, v, f.binary, parent);
    InsertedStep(v, d, f, call, true);
    var t' := Inserted(v, d, ScopeAddress(d, f.bias), f.binary, f.extent, f.pid, call, true).0;
    ContinuesTransitive(t, v, t');
    CalledAtClient(ClientOf(t), ClientOf(u), ClientOf(v), ClientOf(t'), l, d, f);
  }

  lemma CalledAtClient(c: Client, u: Client, v: Client, z: Client, l: Location, d: Die, f: Frame)
    requires Enlarges(c, u) && v == u.(locations := u.locations + [l]) && Enlarges(v, z)
    requires u.locations == c.locations && u.symbols == c.symbols
    requires SpotOf(u, l) == CallSpot(d, f) && Refers(l.file, |u.strings|)
    ensures Enlarges(c, z) && CallIs(z, |c.locations|, d, f, l.parent)
  {
    assert v.locations[|c.locations|] == l;
    assert forall i :: 0 <= i < |u.strings| ==> z.strings[i] == u.strings[i];
  }

  /** A chain all of whose locations are new: exactly they are sent, in order, and the client
      walks the chain from the innermost function to the outermost one. */
  lemma {:induction false} FreshChainIsSent(t: Tables, dies: seq<Die>, f: Frame)
    requires Mirrored(t) && BinaryIds(t, f.binary)
    requires FreshIn(Spots(ClientOf(t)), ChainSpots(dies, f))
    ensures var (t', id) := ParsedChain(t, dies, f.bias, f.binary, f.extent, f.pid);
      && Mirrored(t') && Continues(t, t') && Refers(id, |t'.locations|)
      && Enlarges(ClientOf(t), ClientOf(t'))
      && Spots(ClientOf(t')) == Spots(ClientOf(t)) + ChainSpots(dies, f)
      && Follows(ClientOf(t'), id, dies, f)
  {
    hide Mirrored, Continues, Parsed, Spots, ClientOf, FreshIn, DieSpots, Enlarges, DieIs;
    if dies == [] {
      ContinuesItself(t);
      EnlargesItself(ClientOf(t));
      assert Spots(ClientOf(t)) + [] == Spots(ClientOf(t));
    } else {
      var front, d := dies[..|dies| - 1], dies[|dies| - 1];
      var c := ClientOf(t);
      FreshParts(Spots(c), ChainSpots(front, f), DieSpots(d, f));
      FreshChainIsSent(t, front, f);
      var (u, parent) := ParsedChain(t, front, f.bias, f.binary, f.extent, f.pid);
      Grown(t, u, f.binary, parent);
      ParsedStep(u, d, f, parent);
      var (v, id) := Parsed(u, d, ScopeAddress(d, f.bias), f.binary, f.extent, f.pid, parent);
      ContinuesTransitive(t, u, v);
      Grown(u, v, f.binary, parent);
      EnlargesTransitive(c, ClientOf(u), ClientOf(v));
      MirroredIsGrounded(u);
      ChainStays(ClientOf(u), ClientOf(v), parent, front, f);
      assert Spots(c) + (ChainSpots(front, f) + DieSpots(d, f)) == Spots(c) + ChainSpots(front, f) + DieSpots(d, f);
      ChosenId(ClientOf(v), d, f, parent, id);
    }
  }

  lemma ChosenId(c: Client, d: Die, f: Frame, parent: int, id: int)
    requires DieIs(c, id, d, f, parent)
    ensures id == -1 <==> d.tag == OtherTag
    ensures d.tag == Subprogram ==> DieIs(c, id, d, f, -1)
  {
  }
}
