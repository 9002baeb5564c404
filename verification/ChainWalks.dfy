/** What the client walks for any inline chain, new or known: exactly when it is the chain
    that was asked for, and what it is instead. */
module ChainWalks {
  import opened OutputMessages
  import opened OutputTables
  import opened FrameAnswers
  import opened InlineChains

  // ------------------------------------------------------------ when a chain fits

  function CallLocation(d: Die, f: Frame, file: int, parent: int): Location {
    Location(ScopeAddress(d, f.bias), 0, file, f.pid, d.callLine, d.callColumn, parent)
  }

  function FunctionLocation(d: Die, f: Frame, file: int, parent: int): Location {
    Location(ScopeAddress(d, f.bias), f.extent.relAddr, file, f.pid, d.declLine, d.declColumn, parent)
  }

  /** The parent that the client records for a location, or the given one for a new one. */
  ghost function KeptParent(t: Tables, l: Location): int {
    var c := ClientOf(t);
    if KeyOf(l) in t.locations && 0 <= t.locations[KeyOf(l)] < |c.locations|
    then c.locations[t.locations[KeyOf(l)]].parent
    else l.parent
  }

  /** The parents that the client records for a function and for the place of a call, once
      their files are known. */
  ghost function FunctionParent(t: Tables, d: Die, f: Frame, parent: int): int {
    var (u, file) := ResolveString(t, d.declFile);
    KeptParent(u, FunctionLocation(d, f, file, parent))
  }

  ghost function CallParent(t: Tables, d: Die, f: Frame, parent: int): int {
    var (u, file) := ResolveString(t, d.callFile);
    KeptParent(u, CallLocation(d, f, file, parent))
  }

  ghost predicate FunctionFits(t: Tables, d: Die, f: Frame, parent: int) {
    FunctionParent(t, d, f, parent) == parent
  }

  ghost predicate CallFits(t: Tables, d: Die, f: Frame, parent: int) {
    CallParent(t, d, f, parent) == parent
  }

  /** The tables once the call of an inlined function has its location, and that location. */
  function Called(t: Tables, d: Die, f: Frame, parent: int): (Tables, int) {
    var (u, file) := ResolveString(t, d.callFile);
    ResolveLocation(u, CallLocation(d, f, file, parent))
  }

  ghost predicate DieFits(t: Tables, d: Die, f: Frame, parent: int) {
    match d.tag
    case InlinedSubroutine =>
      CallFits(t, d, f, parent) && FunctionFits(Called(t, d, f, parent).0, d, f, Called(t, d, f, parent).1)
    case Subprogram => FunctionFits(t, d, f, -1)
    case OtherTag => true
  }

  /** Each location that the chain asks for is new when it is asked for, or known with the
      parent it comes with. What lies in front of a function does not matter. */
  ghost predicate ChainFits(t: Tables, dies: seq<Die>, f: Frame)
    decreases |dies|
  {
    if dies == [] then true
    else
      var front, d := dies[..|dies| - 1], dies[|dies| - 1];
      var (u, parent) := ParsedChain(t, front, f.bias, f.binary, f.extent, f.pid);
      DieFits(u, d, f, parent) && (d.tag == Subprogram || ChainFits(t, front, f))
  }

  // ------------------------------------------------------------ one request

  /** Definitions are only added; at most the symbol of `id` is another one. */
  ghost predicate Touches(c: Client, d: Client, id: int) {
    && c.strings <= d.strings && c.locations <= d.locations
    && forall i :: i != id ==> (i in c.symbols <==> i in d.symbols) && (i in c.symbols ==> d.symbols[i] == c.symbols[i])
  }

  lemma LocationWalk(t: Tables, l: Location)
    requires Mirrored(t) && StringId(t, l.file) && Refers(l.parent, |t.locations|)
    ensures var (t', id) := ResolveLocation(t, l);
      && Mirrored(t') && Continues(t, t') && 0 <= id < |t'.locations| == |ClientOf(t').locations|
      && ClientOf(t').strings == ClientOf(t).strings && ClientOf(t').symbols == ClientOf(t).symbols
      && ClientOf(t).locations <= ClientOf(t').locations
      && KeyOf(ClientOf(t').locations[id]) == KeyOf(l)
      && ClientOf(t').locations[id].parent == KeptParent(t, l)
      && (id < |ClientOf(t).locations| || ClientOf(t').locations[id].parent == l.parent)
      && |ClientOf(t').locations| == (if id < |ClientOf(t).locations| then |ClientOf(t).locations| else id + 1)
      && id <= |ClientOf(t).locations|
  {
    hide AllReferBack, Numbered, Keys, Continues, Replay, KeyOf;
    ResolveLocationFacts(t, l);
    StringCount(t);
    StringCount(ResolveLocation(t, l).0);
    if KeyOf(l) in t.locations {
      NumberedAt(t.locations, Keys(ClientOf(t).locations), KeyOf(l));
    } else {
      ReplaySnoc(t.sent, LocationDefinition(|t.locations|, l));
    }
  }

  lemma ClientGrows(t: Tables, t': Tables)
    requires Continues(t, t')
    ensures ClientOf(t).strings <= ClientOf(t').strings && ClientOf(t).locations <= ClientOf(t').locations
  {
    ReplayGrows(t.sent, t'.sent);
  }

  lemma SameKeySameSpot(c: Client, x: Location, y: Location)
    requires KeyOf(x) == KeyOf(y)
    ensures SpotOf(c, x) == SpotOf(c, y)
  {
  }

  /** The client tells locations apart by what it shows of them. */
  lemma SpotsDiffer(t: Tables, i: int, j: int)
    requires Mirrored(t) && 0 <= i < |ClientOf(t).locations| && 0 <= j < |ClientOf(t).locations|
    requires SpotOf(ClientOf(t), ClientOf(t).locations[i]) == SpotOf(ClientOf(t), ClientOf(t).locations[j])
    ensures i == j
  {
    hide AllReferBack;
    var c := ClientOf(t);
    MirroredIsGrounded(t);
    var x, y := c.locations[i].file, c.locations[j].file;
    assert TextAt(c, x) == TextAt(c, y);
    if x != -1 && y != -1 {
      assert t.strings[c.strings[x]] == x && t.strings[c.strings[y]] == y;
    }
    assert Keys(c.locations)[i] == Keys(c.locations)[j];
  }

  // ------------------------------------------------------------ one entry

  lemma InsertedWalk(t: Tables, d: Die, f: Frame, call: int, isInline: bool)
    requires Mirrored(t) && BinaryIds(t, f.binary) && Refers(call, |t.locations|)
    ensures var (t', id) := Inserted(t, d, ScopeAddress(d, f.bias), f.binary, f.extent, f.pid, call, isInline);
      && Mirrored(t') && Continues(t, t') && 0 <= id < |t'.locations| == |ClientOf(t').locations|
      && Touches(ClientOf(t), ClientOf(t'), id)
      && FunctionIs(ClientOf(t'), id, d, f, isInline, ClientOf(t').locations[id].parent)
      && ClientOf(t').locations[id].parent == FunctionParent(t, d, f, call)
      && (id < |ClientOf(t).locations| || ClientOf(t').locations[id].parent == call)
  {
    hide Mirrored, Continues, ResolveString, ResolveLocation, ResolveSymbol, Spots, ClientOf, KeptParent, KeyOf;
    var (u, file) := ResolveString(t, d.declFile);
    StringStep(t, d.declFile);
    Grown(t, u, f.binary, call);
    var l := FunctionLocation(d, f, file, call);
    var (v, id) := ResolveLocation(u, l);
    LocationWalk(u, l);
    ContinuesTransitive(t, u, v);
    var (w, name) := ResolveString(v, d.name);
    StringStep(v, d.name);
    ContinuesTransitive(t, v, w);
    Grown(t, w, f.binary, call);
    var s := SymbolOf(name, f.binary, f.extent, isInline);
    SymbolStep(w, id, s);
    ContinuesTransitive(t, w, ResolveSymbol(w, id, s));
    StringCount(ResolveSymbol(w, id, s));
    InsertedWalkAtClient(ClientOf(t), ClientOf(u), ClientOf(v), ClientOf(w), l, id, s, d, f, isInline);
  }

  lemma InsertedWalkAtClient(c: Client, u: Client, v: Client, w: Client, l: Location, id: int, s: Symbol,
                             d: Die, f: Frame, isInline: bool)
    requires c.strings <= u.strings == v.strings <= w.strings
    requires c.locations == u.locations <= v.locations == w.locations
    requires c.symbols == u.symbols == v.symbols == w.symbols
    requires 0 <= id < |v.locations| && KeyOf(v.locations[id]) == KeyOf(l)
    requires SpotOf(u, l) == FunctionSpot(d, f) && Refers(l.file, |u.strings|)
    requires s == SymbolOf(s.name, f.binary, f.extent, isInline) && TextAt(w, s.name) == d.name
    ensures var z := w.(symbols := w.symbols[id := s]);
      Touches(c, z, id) && FunctionIs(z, id, d, f, isInline, z.locations[id].parent)
  {
    assert forall i :: 0 <= i < |u.strings| ==> w.strings[i] == u.strings[i];
  }

  lemma CalledWalk(t: Tables, d: Die, f: Frame, parent: int)
    requires Mirrored(t) && BinaryIds(t, f.binary) && Refers(parent, |t.locations|)
    ensures var (v, call) := Called(t, d, f, parent);
      && Mirrored(v) && Continues(t, v) && BinaryIds(v, f.binary)
      && 0 <= call < |v.locations| == |ClientOf(v).locations|
      && ClientOf(t).strings <= ClientOf(v).strings && ClientOf(t).locations <= ClientOf(v).locations
      && ClientOf(v).symbols == ClientOf(t).symbols
      && CallIs(ClientOf(v), call, d, f, ClientOf(v).locations[call].parent)
      && ClientOf(v).locations[call].parent == CallParent(t, d, f, parent)
      && (call < |ClientOf(t).locations| || ClientOf(v).locations[call].parent == parent)
      && |ClientOf(v).locations| == (if call < |ClientOf(t).locations| then |ClientOf(t).locations| else call + 1)
      && call <= |ClientOf(t).locations|
  {
    hide Mirrored, Continues, ResolveString, ResolveLocation, Spots, ClientOf, KeptParent, KeyOf;
    var (u, file) := ResolveString(t, d.callFile);
    StringStep(t, d.callFile);
    Grown(t, u, f.binary, parent);
    var l := CallLocation(d, f, file, parent);
    var (v, call) := ResolveLocation(u, l);
    LocationWalk(u, l);
    ContinuesTransitive(t, u, v);
    Grown(t, v, f.binary, parent);
    SameKeySameSpot(ClientOf(v), ClientOf(v).locations[call], l);
  }

  /** Where an inlined call and its function end up, and for which parent that is right. */
  lemma InlinedWalk(t: Tables, d: Die, f: Frame, parent: int, p: int)
    requires Mirrored(t) && BinaryIds(t, f.binary) && Refers(parent, |t.locations|) && d.tag == InlinedSubroutine
    ensures var (t', id) := Parsed(t, d, ScopeAddress(d, f.bias), f.binary, f.extent, f.pid, parent);
      var (v, call) := Called(t, d, f, parent);
      && Mirrored(t') && Continues(t, t') && 0 <= id < |t'.locations| == |ClientOf(t').locations|
      && Touches(ClientOf(t), ClientOf(t'), id)
      && FunctionIs(ClientOf(t'), id, d, f, true, FunctionParent(v, d, f, call))
      && 0 <= call < |ClientOf(t').locations|
      && CallIs(ClientOf(t'), call, d, f, CallParent(t, d, f, parent))
      && (DieIs(ClientOf(t'), id, d, f, p) <==>
            FunctionFits(v, d, f, call) && ClientOf(t').locations[call].parent == p)
  {
    hide Mirrored, Continues, Called, Inserted, Spots, ClientOf, FunctionParent, CallParent;
    var (v, call) := Called(t, d, f, parent);
    CalledWalk(t, d, f, parent);
    InsertedWalk(v, d, f, call, true);
    ParsedIsInserted(t, d, f, parent);
    var (t', id) := Parsed(t, d, ScopeAddress(d, f.bias), f.binary, f.extent, f.pid, parent);
    ContinuesTransitive(t, v, t');
    MirroredIsGrounded(v);
    CallStays(ClientOf(v), ClientOf(t'), call, d, f);
    if DieIs(ClientOf(t'), id, d, f, p) {
      SpotsDiffer(t', call, ClientOf(t').locations[id].parent);
    }
  }

  lemma ParsedIsInserted(t: Tables, d: Die, f: Frame, parent: int)
    requires d.tag == InlinedSubroutine
    ensures var (v, call) := Called(t, d, f, parent);
      Parsed(t, d, ScopeAddress(d, f.bias), f.binary, f.extent, f.pid, parent) ==
      Inserted(v, d, ScopeAddress(d, f.bias), f.binary, f.extent, f.pid, call, true)
  {
  }

  lemma CallStays(c: Client, c': Client, call: int, d: Die, f: Frame)
    requires 0 <= call < |c.locations| && Grounded(c)
    requires c.strings <= c'.strings && c.locations <= c'.locations
    requires CallIs(c, call, d, f, c.locations[call].parent)
    ensures c'.locations[call] == c.locations[call] && CallIs(c', call, d, f, c.locations[call].parent)
  {
    assert forall i :: 0 <= i < |c.strings| ==> c'.strings[i] == c.strings[i];
  }

  // ------------------------------------------------------------ walking up

  /** Two clients that agree on everything up to a location. */
  ghost predicate AgreeUpTo(c: Client, d: Client, id: int) {
    && Grounded(c) && Grounded(d)
    && c.strings <= d.strings && c.locations <= d.locations
    && forall i :: 0 <= i <= id ==>
         (i in c.symbols <==> i in d.symbols) && (i in c.symbols ==> d.symbols[i] == c.symbols[i])
  }

  lemma DieSeen(c: Client, c': Client, id: int, d: Die, f: Frame, parent: int)
    requires AgreeUpTo(c, c', id) && id < |c.locations|
    ensures DieIs(c, id, d, f, parent) <==> DieIs(c', id, d, f, parent)
  {
    assert forall i :: 0 <= i < |c.locations| ==> c'.locations[i] == c.locations[i];
    assert forall i :: 0 <= i < |c.strings| ==> c'.strings[i] == c.strings[i];
  }

  lemma ParentBelow(c: Client, id: int, d: Die, f: Frame, parent: int)
    requires Grounded(c) && DieIs(c, id, d, f, parent) && d.tag == InlinedSubroutine
    ensures -1 <= parent < c.locations[id].parent < id
  {
  }

  /** A walk up from a location depends on what lies below it only. */
  lemma {:induction false} WalkSeen(c: Client, c': Client, id: int, dies: seq<Die>, f: Frame)
    requires AgreeUpTo(c, c', id) && id < |c.locations|
    ensures Follows(c, id, dies, f) <==> Follows(c', id, dies, f)
    decreases |dies|
  {
    hide DieIs, Grounded;
    if dies != [] {
      var front, d := dies[..|dies| - 1], dies[|dies| - 1];
      match d.tag
      case OtherTag => WalkSeen(c, c', id, front, f);
      case Subprogram => DieSeen(c, c', id, d, f, -1);
      case InlinedSubroutine =>
        if Follows(c, id, dies, f) {
          var p :| DieIs(c, id, d, f, p) && Follows(c, p, front, f);
          DieSeen(c, c', id, d, f, p);
          ParentBelow(c, id, d, f, p);
          WalkSeen(c, c', p, front, f);
        }
        if Follows(c', id, dies, f) {
          var p :| DieIs(c', id, d, f, p) && Follows(c', p, front, f);
          DieSeen(c, c', id, d, f, p);
          ParentBelow(c', id, d, f, p);
          WalkSeen(c, c', p, front, f);
        }
    }
  }

  /** The location that a chain ends at shows its innermost function. */
  ghost predicate Tops(c: Client, id: int, dies: seq<Die>, f: Frame)
    decreases |dies|
  {
    if dies == [] then id == -1
    else if dies[|dies| - 1].tag == OtherTag then Tops(c, id, dies[..|dies| - 1], f)
    else 0 <= id < |c.locations| && SpotOf(c, c.locations[id]) == FunctionSpot(dies[|dies| - 1], f)
  }

  lemma {:induction false} WalkTops(c: Client, id: int, dies: seq<Die>, f: Frame)
    requires Follows(c, id, dies, f)
    ensures Tops(c, id, dies, f)
    decreases |dies|
  {
    if dies != [] && dies[|dies| - 1].tag == OtherTag {
      WalkTops(c, id, dies[..|dies| - 1], f);
    }
  }

  lemma {:induction false} TopsStays(c: Client, c': Client, id: int, dies: seq<Die>, f: Frame)
    requires Grounded(c) && c.strings <= c'.strings && c.locations <= c'.locations && Tops(c, id, dies, f)
    ensures Tops(c', id, dies, f)
    decreases |dies|
  {
    if dies != [] && dies[|dies| - 1].tag == OtherTag {
      TopsStays(c, c', id, dies[..|dies| - 1], f);
    } else if dies != [] {
      assert Refers(c.locations[id].file, |c.strings|) && c'.locations[id] == c.locations[id];
      assert forall i :: 0 <= i < |c.strings| ==> c'.strings[i] == c.strings[i];
    }
  }

  lemma {:induction false} TopsUnique(t: Tables, p: int, q: int, dies: seq<Die>, f: Frame)
    requires Mirrored(t) && Tops(ClientOf(t), p, dies, f) && Tops(ClientOf(t), q, dies, f)
    ensures p == q
    decreases |dies|
  {
    hide Mirrored, ClientOf;
    if dies != [] && dies[|dies| - 1].tag == OtherTag {
      TopsUnique(t, p, q, dies[..|dies| - 1], f);
    } else if dies != [] {
      SpotsDiffer(t, p, q);
    }
  }

  // ------------------------------------------------------------ the whole chain

  /** The last entry of a chain is an inlined call. */
  lemma InlinedEnd(u: Tables, front: seq<Die>, d: Die, f: Frame, parent: int)
    requires Mirrored(u) && BinaryIds(u, f.binary) && Refers(parent, |u.locations|) && d.tag == InlinedSubroutine
    requires Tops(ClientOf(u), parent, front, f)
    ensures var (v, id) := Parsed(u, d, ScopeAddress(d, f.bias), f.binary, f.extent, f.pid, parent);
      && Mirrored(v) && Continues(u, v) && 0 <= id < |v.locations|
      && Tops(ClientOf(v), id, front + [d], f)
      && (Follows(ClientOf(v), id, front + [d], f) <==>
            DieFits(u, d, f, parent) && Follows(ClientOf(u), parent, front, f))
  {
    hide Mirrored, Continues, Parsed, Called, ClientOf, FunctionParent, CallParent, FunctionIs, DieIs, Touches, Tops;
    var (v, id) := Parsed(u, d, ScopeAddress(d, f.bias), f.binary, f.extent, f.pid, parent);
    var cu, cv, dies := ClientOf(u), ClientOf(v), front + [d];
    assert dies[..|dies| - 1] == front && dies[|dies| - 1] == d;
    InlinedWalk(u, d, f, parent, parent);
    ClientCount(u);
    MirroredIsGrounded(u);
    MirroredIsGrounded(v);
    FunctionTops(cv, id, d, f, FunctionParent(Called(u, d, f, parent).0, d, f, Called(u, d, f, parent).1), front);
    if Follows(cv, id, dies, f) {
      var p :| DieIs(cv, id, d, f, p) && Follows(cv, p, front, f);
      TouchedIsPrefix(cu, cv, id);
      WalkTops(cv, p, front, f);
      TopsStays(cu, cv, parent, front, f);
      TopsUnique(v, p, parent, front, f);
    }
    if DieIs(cv, id, d, f, parent) {
      ParentBelow(cv, id, d, f, parent);
      TouchedAgrees(cu, cv, id, parent);
      WalkSeen(cu, cv, parent, front, f);
    }
  }

  lemma ClientCount(t: Tables)
    requires Mirrored(t)
    ensures |t.locations| == |ClientOf(t).locations|
  {
    StringCount(t);
  }

  lemma TouchedIsPrefix(c: Client, c': Client, id: int)
    requires Touches(c, c', id)
    ensures c.strings <= c'.strings && c.locations <= c'.locations
  {
  }

  lemma TouchedAgrees(c: Client, c': Client, id: int, below: int)
    requires Touches(c, c', id) && Grounded(c) && Grounded(c') && below < id
    ensures AgreeUpTo(c, c', below)
  {
  }

  lemma FunctionTops(c: Client, id: int, d: Die, f: Frame, parent: int, front: seq<Die>)
    requires d.tag != OtherTag && FunctionIs(c, id, d, f, d.tag == InlinedSubroutine, parent)
    ensures Tops(c, id, front + [d], f)
  {
    assert (front + [d])[|front|] == d;
  }

  /** The last entry of a chain is a function of its own. */
  lemma FunctionEnd(u: Tables, front: seq<Die>, d: Die, f: Frame, parent: int)
    requires Mirrored(u) && BinaryIds(u, f.binary) && d.tag == Subprogram
    ensures var (v, id) := Parsed(u, d, ScopeAddress(d, f.bias), f.binary, f.extent, f.pid, parent);
      && Mirrored(v) && Continues(u, v) && 0 <= id < |v.locations|
      && Tops(ClientOf(v), id, front + [d], f)
      && (Follows(ClientOf(v), id, front + [d], f) <==> DieFits(u, d, f, parent))
  {
    hide Mirrored, Continues, Inserted, ClientOf, FunctionParent, Touches, Tops;
    var dies := front + [d];
    assert dies[..|dies| - 1] == front && dies[|dies| - 1] == d;
    InsertedWalk(u, d, f, -1, false);
    var (v, id) := Parsed(u, d, ScopeAddress(d, f.bias), f.binary, f.extent, f.pid, parent);
    FunctionTops(ClientOf(v), id, d, f, ClientOf(v).locations[id].parent, front);
  }

  /** For any tables and any chain: the client walks the chain from the innermost function
      over each call to the outermost function, each with its place, name and extent, if and
      only if the chain fits. */
  lemma {:induction false} ChainIsFollowed(t: Tables, dies: seq<Die>, f: Frame)
    requires Mirrored(t) && BinaryIds(t, f.binary)
    ensures var (t', id) := ParsedChain(t, dies, f.bias, f.binary, f.extent, f.pid);
      && Mirrored(t') && Continues(t, t') && Refers(id, |t'.locations|)
      && Tops(ClientOf(t'), id, dies, f)
      && (Follows(ClientOf(t'), id, dies, f) <==> ChainFits(t, dies, f))
    decreases |dies|
  {
    if dies == [] {
      ContinuesItself(t);
    } else {
      hide Mirrored, Continues, ClientOf, DieFits, ParsedChain, ChainFits, Tops, Follows;
      var front, d := dies[..|dies| - 1], dies[|dies| - 1];
      assert dies == front + [d];
      ChainIsFollowed(t, front, f);
      ChainSnoc(t, front, d, f.bias, f.binary, f.extent, f.pid);
      ChainFitsSnoc(t, front, d, f);
      var (u, parent) := ParsedChain(t, front, f.bias, f.binary, f.extent, f.pid);
      ChainEnd(t, u, front, d, f, parent);
    }
  }

  lemma ChainFitsSnoc(t: Tables, front: seq<Die>, d: Die, f: Frame)
    ensures var (u, parent) := ParsedChain(t, front, f.bias, f.binary, f.extent, f.pid);
      ChainFits(t, front + [d], f) <==> DieFits(u, d, f, parent) && (d.tag == Subprogram || ChainFits(t, front, f))
  {
    assert (front + [d])[..|front|] == front;
  }

  lemma ChainEnd(t: Tables, u: Tables, front: seq<Die>, d: Die, f: Frame, parent: int)
    requires Mirrored(u) && BinaryIds(t, f.binary) && Continues(t, u) && Refers(parent, |u.locations|)
    requires Tops(ClientOf(u), parent, front, f)
    ensures var (v, end) := Parsed(u, d, ScopeAddress(d, f.bias), f.binary, f.extent, f.pid, parent);
      var id := if end == -1 then parent else end;
      && Mirrored(v) && Continues(t, v) && Refers(id, |v.locations|)
      && Tops(ClientOf(v), id, front + [d], f)
      && (Follows(ClientOf(v), id, front + [d], f) <==>
            DieFits(u, d, f, parent) && (d.tag == Subprogram || Follows(ClientOf(u), parent, front, f)))
  {
    hide Mirrored, Continues, Parsed, ClientOf, DieFits, Tops, Follows;
    var v := Parsed(u, d, ScopeAddress(d, f.bias), f.binary, f.extent, f.pid, parent).0;
    Grown(t, u, f.binary, parent);
    match d.tag {
      case OtherTag => OtherEnd(u, front, d, f, parent);
      case Subprogram => FunctionEnd(u, front, d, f, parent);
      case InlinedSubroutine => InlinedEnd(u, front, d, f, parent);
    }
    ContinuesTransitive(t, u, v);
  }

  lemma OtherEnd(u: Tables, front: seq<Die>, d: Die, f: Frame, parent: int)
    requires d.tag == OtherTag && Tops(ClientOf(u), parent, front, f)
    ensures Parsed(u, d, ScopeAddress(d, f.bias), f.binary, f.extent, f.pid, parent) == (u, -1) && Continues(u, u)
    ensures Tops(ClientOf(u), parent, front + [d], f) && DieFits(u, d, f, parent)
    ensures Follows(ClientOf(u), parent, front + [d], f) <==> Follows(ClientOf(u), parent, front, f)
  {
    var dies := front + [d];
    assert dies[..|dies| - 1] == front && dies[|dies| - 1] == d;
  }

  // ------------------------------------------------------------ new, known, and known from elsewhere

  /** A chain all of whose locations are new fits. */
  lemma FreshChainFits(t: Tables, dies: seq<Die>, f: Frame)
    requires Mirrored(t) && BinaryIds(t, f.binary)
    requires FreshIn(Spots(ClientOf(t)), ChainSpots(dies, f))
    ensures ChainFits(t, dies, f)
  {
    FreshChainIsSent(t, dies, f);
    ChainIsFollowed(t, dies, f);
  }

  /** What the client has at a place is what it had there before. */
  lemma KnownSpot(c: Client, t: Tables, id: int, s: Spot)
    requires Mirrored(t) && Grounded(c) && c.strings <= ClientOf(t).strings && c.locations <= ClientOf(t).locations
    requires 0 <= id < |ClientOf(t).locations| && SpotOf(ClientOf(t), ClientOf(t).locations[id]) == s
    ensures id < |c.locations| <==> s in Spots(c)
  {
    hide Mirrored, ClientOf;
    var c' := ClientOf(t);
    assert forall i :: 0 <= i < |c.strings| ==> c'.strings[i] == c.strings[i];
    forall i | 0 <= i < |c.locations|
      ensures SpotOf(c', c'.locations[i]) == SpotOf(c, c.locations[i])
    {
      assert Refers(c.locations[i].file, |c.strings|);
    }
    if id < |c.locations| {
      assert Spots(c)[id] == s;
    }
    if s in Spots(c) {
      var i :| 0 <= i < |c.locations| && Spots(c)[i] == s;
      SpotsDiffer(t, i, id);
    }
  }

  /** An inlined call and its function, for any tables: each of the two locations is a known
      one, with the parent it had, if the client has one at its place, and otherwise a new one,
      the call below the parent it comes with and the function below the call. */
  lemma KnownPlacesKeepParents(t: Tables, d: Die, f: Frame, parent: int)
    requires Mirrored(t) && BinaryIds(t, f.binary) && Refers(parent, |t.locations|) && d.tag == InlinedSubroutine
    ensures var (t', id) := Parsed(t, d, ScopeAddress(d, f.bias), f.binary, f.extent, f.pid, parent);
      var c, c', call := ClientOf(t), ClientOf(t'), Called(t, d, f, parent).1;
      && Mirrored(t') && c.locations <= c'.locations && 0 <= id < |c'.locations| && 0 <= call < |c'.locations|
      && CallIs(c', call, d, f, c'.locations[call].parent)
      && FunctionIs(c', id, d, f, true, c'.locations[id].parent)
      && (call < |c.locations| <==> CallSpot(d, f) in Spots(c))
      && (call < |c.locations| || c'.locations[call].parent == parent)
      && (id < |c.locations| <==> FunctionSpot(d, f) in Spots(c))
      && (id < |c.locations| || id == call || c'.locations[id].parent == call)
  {
    hide Mirrored, Continues, Called, Inserted, Spots, ClientOf, FunctionParent, CallParent;
    var (v, call) := Called(t, d, f, parent);
    CalledWalk(t, d, f, parent);
    InsertedWalk(v, d, f, call, true);
    ParsedIsInserted(t, d, f, parent);
    var (t', id) := Parsed(t, d, ScopeAddress(d, f.bias), f.binary, f.extent, f.pid, parent);
    MirroredIsGrounded(t);
    MirroredIsGrounded(v);
    CallStays(ClientOf(v), ClientOf(t'), call, d, f);
    KnownSpot(ClientOf(t), t', call, CallSpot(d, f));
    KnownSpot(ClientOf(t), t', id, FunctionSpot(d, f));
  }

  /** A chain that the client walks already fits, and ends where it did. */
  lemma {:induction false} SameAddressFits(t: Tables, dies: seq<Die>, f: Frame, first: int)
    requires Mirrored(t) && BinaryIds(t, f.binary) && Follows(ClientOf(t), first, dies, f)
    ensures ChainFits(t, dies, f) && ParsedChain(t, dies, f.bias, f.binary, f.extent, f.pid).1 == first
    decreases |dies|
  {
    if dies != [] {
      hide Mirrored, Continues, Parsed, ClientOf, DieFits, FunctionIs, CallIs, ParsedChain, ChainFits;
      var front, d := dies[..|dies| - 1], dies[|dies| - 1];
      assert dies == front + [d];
      ChainIsFollowed(t, front, f);
      ChainSnoc(t, front, d, f.bias, f.binary, f.extent, f.pid);
      ChainFitsSnoc(t, front, d, f);
      var (u, parent) := ParsedChain(t, front, f.bias, f.binary, f.extent, f.pid);
      Grown(t, u, f.binary, parent);
      match d.tag {
        case OtherTag =>
          SameAddressFits(t, front, f, first);
          OtherEnd(u, front, d, f, parent);
        case Subprogram => KnownFunctionFits(t, u, d, f, parent, first);
        case InlinedSubroutine =>
          var p :| DieIs(ClientOf(t), first, d, f, p) && Follows(ClientOf(t), p, front, f);
          SameAddressFits(t, front, f, p);
          KnownCallFits(t, u, d, f, p, first);
      }
    } else {
      NoChain(t, f.bias, f.binary, f.extent, f.pid);
    }
  }

  lemma KnownFunctionFits(t: Tables, u: Tables, d: Die, f: Frame, parent: int, first: int)
    requires Mirrored(t) && Mirrored(u) && Continues(t, u) && BinaryIds(u, f.binary) && d.tag == Subprogram
    requires DieIs(ClientOf(t), first, d, f, -1)
    ensures DieFits(u, d, f, parent)
    ensures Parsed(u, d, ScopeAddress(d, f.bias), f.binary, f.extent, f.pid, parent).1 == first
  {
    hide Mirrored, Continues, Inserted, ClientOf, FunctionParent;
    InsertedWalk(u, d, f, -1, false);
    var (v, id) := Parsed(u, d, ScopeAddress(d, f.bias), f.binary, f.extent, f.pid, parent);
    ContinuesTransitive(t, u, v);
    FunctionStays(t, v, first, d, f, -1);
    SpotsDiffer(v, first, id);
  }

  lemma KnownCallFits(t: Tables, u: Tables, d: Die, f: Frame, p: int, first: int)
    requires Mirrored(t) && Mirrored(u) && Continues(t, u) && BinaryIds(u, f.binary) && d.tag == InlinedSubroutine
    requires Refers(p, |u.locations|) && DieIs(ClientOf(t), first, d, f, p)
    ensures DieFits(u, d, f, p) && Parsed(u, d, ScopeAddress(d, f.bias), f.binary, f.extent, f.pid, p).1 == first
  {
    hide Mirrored, Continues, Parsed, Called, ClientOf, FunctionParent, CallParent;
    InlinedWalk(u, d, f, p, p);
    var (v, id) := Parsed(u, d, ScopeAddress(d, f.bias), f.binary, f.extent, f.pid, p);
    var call := Called(u, d, f, p).1;
    ContinuesTransitive(t, u, v);
    var known := ClientOf(t).locations[first].parent;
    FunctionStays(t, v, first, d, f, known);
    MirroredIsGrounded(t);
    ClientGrows(t, v);
    CallStays(ClientOf(t), ClientOf(v), known, d, f);
    SpotsDiffer(v, first, id);
    SpotsDiffer(v, known, call);
  }

  lemma FunctionStays(t: Tables, v: Tables, id: int, d: Die, f: Frame, parent: int)
    requires Mirrored(t) && Continues(t, v)
    requires var c := ClientOf(t);
      0 <= id < |c.locations| && SpotOf(c, c.locations[id]) == FunctionSpot(d, f) && c.locations[id].parent == parent
    ensures var c := ClientOf(v);
      0 <= id < |c.locations| && SpotOf(c, c.locations[id]) == FunctionSpot(d, f) && c.locations[id].parent == parent
  {
    hide Mirrored, Continues, ClientOf;
    MirroredIsGrounded(t);
    ClientGrows(t, v);
    assert Refers(ClientOf(t).locations[id].file, |ClientOf(t).strings|);
  }

  // ------------------------------------------------------------ another address in the same call

  /** What the client has for the call at the end of a chain, at any later time. */
  lemma FirstCall(t: Tables, t': Tables, front: seq<Die>, d: Die, f: Frame, first: int) returns (call: int, p: int)
    requires Mirrored(t) && Continues(t, t')
    requires d.tag == InlinedSubroutine && Follows(ClientOf(t), first, front + [d], f)
    ensures CallIs(ClientOf(t'), call, d, f, p) && Tops(ClientOf(t'), p, front, f)
    ensures call < |ClientOf(t).locations|
  {
    hide Mirrored, ClientOf, Tops;
    var c, dies := ClientOf(t), front + [d];
    assert dies[..|dies| - 1] == front && dies[|dies| - 1] == d;
    p :| DieIs(c, first, d, f, p) && Follows(c, p, front, f);
    call := c.locations[first].parent;
    WalkTops(c, p, front, f);
    MirroredIsGrounded(t);
    ClientGrows(t, t');
    TopsStays(c, ClientOf(t'), p, front, f);
    CallStays(c, ClientOf(t'), call, d, f);
  }

  lemma SpotOfTop(c: Client, id: int, dies: seq<Die>, f: Frame)
    requires Tops(c, id, dies, f) && dies != [] && dies[|dies| - 1].tag != OtherTag
    ensures 0 <= id < |c.locations| && SpotOf(c, c.locations[id]) == FunctionSpot(dies[|dies| - 1], f)
  {
  }

  lemma SpotOfCall(c: Client, call: int, d: Die, f: Frame, g: Frame, p: int)
    requires CallIs(c, call, d, f, p) && g.bias == f.bias && g.pid == f.pid
    ensures CallIs(c, call, d, g, p) && 0 <= call < |c.locations|
    ensures SpotOf(c, c.locations[call]) == CallSpot(d, g) && c.locations[call].parent == p
  {
  }

  /** A call whose parent is a function's location for one address is on no walk for another. */
  lemma OtherAddressAboveCall(t: Tables, id: int, front: seq<Die>, d: Die, f: Frame, g: Frame, call: int, p: int)
    requires Mirrored(t) && d.tag == InlinedSubroutine && front != [] && front[|front| - 1].tag != OtherTag
    requires g.bias == f.bias && g.pid == f.pid && g.extent.relAddr != f.extent.relAddr
    requires CallIs(ClientOf(t), call, d, f, p) && Tops(ClientOf(t), p, front, f)
    ensures !Follows(ClientOf(t), id, front + [d], g)
  {
    hide Mirrored, ClientOf, Tops, FunctionIs;
    var c, dies := ClientOf(t), front + [d];
    assert dies[..|dies| - 1] == front && dies[|dies| - 1] == d;
    SpotOfCall(c, call, d, f, g, p);
    if Follows(c, id, dies, g) {
      var q :| DieIs(c, id, d, g, q) && Follows(c, q, front, g);
      SpotsDiffer(t, call, c.locations[id].parent);
      WalkTops(c, p, front, g);
      SpotOfTop(c, p, front, f);
      SpotOfTop(c, p, front, g);
    }
  }

  /** The client walks a chain from an address. The same chain for another address in the same
      inlined call does not fit: its call is the known one, so the client passes the call and
      then the location that it has for the first address. */
  lemma SecondAddress(t: Tables, front: seq<Die>, d: Die, f: Frame, g: Frame, first: int)
    requires Mirrored(t) && BinaryIds(t, g.binary)
    requires d.tag == InlinedSubroutine && front != [] && front[|front| - 1].tag != OtherTag
    requires Follows(ClientOf(t), first, front + [d], f)
    requires g.bias == f.bias && g.pid == f.pid && g.extent.relAddr != f.extent.relAddr
    ensures var (t', id) := ParsedChain(t, front + [d], g.bias, g.binary, g.extent, g.pid);
      && !ChainFits(t, front + [d], g) && !Follows(ClientOf(t'), id, front + [d], g)
      && Tops(ClientOf(t'), id, front + [d], g)
    ensures var (t', id) := ParsedChain(t, front + [d], g.bias, g.binary, g.extent, g.pid);
      var u := ParsedChain(t, front, g.bias, g.binary, g.extent, g.pid).0;
      FunctionSpot(d, g) !in Spots(ClientOf(u)) ==>
        exists p :: DieIs(ClientOf(t'), id, d, g, p) && Tops(ClientOf(t'), p, front, f)
  {
    hide Mirrored, Continues, ParsedChain, Parsed, ClientOf, Spots, ChainFits, Tops, FunctionIs, CallIs, Follows;
    var (t', id) := ParsedChain(t, front + [d], g.bias, g.binary, g.extent, g.pid);
    ChainIsFollowed(t, front + [d], g);
    var call, p := FirstCall(t, t', front, d, f, first);
    OtherAddressAboveCall(t', id, front, d, f, g, call, p);
    var (u, parent) := ParsedChain(t, front, g.bias, g.binary, g.extent, g.pid);
    ChainIsFollowed(t, front, g);
    ChainSnoc(t, front, d, g.bias, g.binary, g.extent, g.pid);
    Grown(t, u, g.binary, parent);
    if FunctionSpot(d, g) !in Spots(ClientOf(u)) {
      ClientGrows(t, u);
      SpotOfCall(ClientOf(t'), call, d, f, g, p);
      NewFunctionBelowCall(u, d, g, parent, call, p);
    }
  }

  /** A new function location of a known call. */
  lemma NewFunctionBelowCall(t: Tables, d: Die, f: Frame, parent: int, call: int, p: int)
    requires Mirrored(t) && BinaryIds(t, f.binary) && Refers(parent, |t.locations|) && d.tag == InlinedSubroutine
    requires call < |ClientOf(t).locations| && FunctionSpot(d, f) !in Spots(ClientOf(t))
    requires var t' := Parsed(t, d, ScopeAddress(d, f.bias), f.binary, f.extent, f.pid, parent).0;
      CallIs(ClientOf(t'), call, d, f, p)
    ensures var (t', id) := Parsed(t, d, ScopeAddress(d, f.bias), f.binary, f.extent, f.pid, parent);
      DieIs(ClientOf(t'), id, d, f, p)
  {
    hide Mirrored, Parsed, Called, ClientOf, FunctionIs, Spots;
    var t' := Parsed(t, d, ScopeAddress(d, f.bias), f.binary, f.extent, f.pid, parent).0;
    KnownPlacesKeepParents(t, d, f, parent);
    SpotsDiffer(t', call, Called(t, d, f, parent).1);
  }

  const CALLER := Die(Subprogram, 0x1530, "main", "main.cpp", 10, 5, "", 0, 0)
  const CALLEE := Die(InlinedSubroutine, 0x1560, "rand", "random.h", 100, 2, "main.cpp", 12, 7)
  const FIRST := Frame(0, Binary(-1, -1, -1, false), Extent(0x1530, 0x80, 0x1572), 1)
  const SECOND := FIRST.(extent := Extent(0x1530, 0x80, 0x15A4))

  lemma ExampleSpots()
    ensures ChainSpots([CALLER, CALLEE], FIRST) ==
      [FunctionSpot(CALLER, FIRST), CallSpot(CALLEE, FIRST), FunctionSpot(CALLEE, FIRST)]
    ensures ChainSpots([CALLER], SECOND) == [FunctionSpot(CALLER, SECOND)]
  {
    assert [CALLER, CALLEE][..1] == [CALLER] && [CALLER][..0] == [];
    assert ChainSpots([], FIRST) == ChainSpots([], SECOND) == [];
    assert ChainSpots([CALLER], FIRST) == [FunctionSpot(CALLER, FIRST)];
  }

  /** Two addresses in one inlined call, looked up one after the other by a new producer: the
      second chain ends at the outer function's location for the first address. */
  lemma SecondAddressExample()
    ensures var (t, first) := ParsedChain(NEW_TABLES, [CALLER, CALLEE], 0, FIRST.binary, FIRST.extent, 1);
      var (t', second) := ParsedChain(t, [CALLER, CALLEE], 0, SECOND.binary, SECOND.extent, 1);
      && Follows(ClientOf(t), first, [CALLER, CALLEE], FIRST)
      && !Follows(ClientOf(t'), second, [CALLER, CALLEE], SECOND)
      && exists p :: DieIs(ClientOf(t'), second, CALLEE, SECOND, p) && Tops(ClientOf(t'), p, [CALLER], FIRST)
  {
    hide Mirrored, ParsedChain, ClientOf, Spots, ChainSpots, ChainFits, Tops, Follows, DieIs;
    assert [CALLER] + [CALLEE] == [CALLER, CALLEE];
    NewIsMirrored();
    NothingShown();
    ExampleSpots();
    FreshChainIsSent(NEW_TABLES, [CALLER, CALLEE], FIRST);
    var (t, first) := ParsedChain(NEW_TABLES, [CALLER, CALLEE], 0, FIRST.binary, FIRST.extent, 1);
    assert [] + ChainSpots([CALLER, CALLEE], FIRST) == ChainSpots([CALLER, CALLEE], FIRST);
    FreshChainIsSent(t, [CALLER], SECOND);
    SecondAddress(t, [CALLER], CALLEE, FIRST, SECOND, first);
  }

  lemma NothingShown()
    ensures Spots(ClientOf(NEW_TABLES)) == []
  {
    assert ClientOf(NEW_TABLES).locations == [];
  }
}
