/** What the client shows for a frame that was looked up: its own location, the function it lies
    in, and the function's symbol, in terms of what the libraries answered. */
module FramesShown {
  import opened WordArithmetic
  import opened Wrappers
  import opened ElfMaps
  import opened OutputMessages
  import opened OutputTables
  import opened FrameAnswers
  import opened InlineChains
  import opened ChainWalks
  import opened FunctionStarts

  /** The client shows a place under an id. */
  ghost predicate Shows(t: Tables, id: int, s: Spot) {
    0 <= id < |ClientOf(t).locations| && SpotOf(ClientOf(t), ClientOf(t).locations[id]) == s
  }

  /** A location that is about to be asked for, with the place it will show. */
  ghost predicate Asks(t: Tables, l: Location, s: Spot) {
    StringId(t, l.file) && Refers(l.parent, |t.locations|) && SpotOf(ClientOf(t), l) == s
  }

  lemma AsksLater(t: Tables, t': Tables, l: Location, s: Spot)
    requires Mirrored(t) && Continues(t, t') && Asks(t, l, s)
    ensures Asks(t', l, s)
  {
    hide Mirrored, ClientOf;
    StringCountAt(t, "");
    ClientGrows(t, t');
  }

  lemma PlaceShows(t: Tables, l: Location, s: Spot)
    requires Mirrored(t) && Asks(t, l, s)
    ensures var (t', id) := ResolveLocation(t, l);
      Mirrored(t') && Continues(t, t') && 0 <= id < |t'.locations| && Shows(t', id, s)
  {
    hide Mirrored, Continues, ResolveLocation, ClientOf, KeptParent, KeyOf;
    LocationWalk(t, l);
    var (t', id) := ResolveLocation(t, l);
    SameKeySameSpot(ClientOf(t'), ClientOf(t').locations[id], l);
  }

  lemma ShowsLater(t: Tables, t': Tables, id: int, s: Spot)
    requires Mirrored(t) && Continues(t, t') && Shows(t, id, s)
    ensures Shows(t', id, s)
  {
    hide Mirrored, ClientOf;
    MirroredIsGrounded(t);
    ClientGrows(t, t');
    assert Refers(ClientOf(t).locations[id].file, |ClientOf(t).strings|);
  }

  // ------------------------------------------------------------ the function

  /** Where a debugging entry says that its function starts. */
  ghost function EntrySpot(f: FoundFunction, bias: u64, pid: nat): Spot {
    var d := if f.scopes == [] then f.die else f.scopes[|f.scopes| - 1];
    Spot((d.entry + bias) % TWO_64, 0, d.declFile, pid, d.declLine, d.declColumn)
  }

  /** A client has a location with a symbol where the debugging entry says. */
  ghost predicate EntryKnown(c: Client, f: FoundFunction, bias: u64, pid: nat) {
    exists i :: 0 <= i < |c.locations| && i in c.symbols && SpotOf(c, c.locations[i]) == EntrySpot(f, bias, pid)
  }

  predicate Functionless(dies: seq<Die>) {
    forall i :: 0 <= i < |dies| ==> dies[i].tag == OtherTag
  }

  /** No chain is sent for the function: there are no inlined calls, or the client has a symbol
      there, or the debugging entries are no functions. */
  ghost predicate WithoutChain(f: FoundFunction, bias: u64, pid: nat, before: Client) {
    f.scopes == [] || EntryKnown(before, f, bias, pid) || Functionless([f.die] + f.scopes)
  }

  /** The location of a function with a debugging entry: where the entry says; or the end of the
      chain, if there are inlined calls and the client did not have a symbol there before. If the
      locations of that chain were all new, the client walks it. */
  ghost predicate ShowsFunction(t: Tables, p: int, f: FoundFunction, bias: u64, b: Binary, x: Extent, pid: nat,
                                before: Client)
  {
    var chain, frame := [f.die] + f.scopes, Frame(bias, b, x, pid);
    if WithoutChain(f, bias, pid, before) then
      Shows(t, p, EntrySpot(f, bias, pid))
    else
      && Tops(ClientOf(t), p, chain, frame)
      && (FreshIn(Spots(before), ChainSpots(chain, frame)) ==> Follows(ClientOf(t), p, chain, frame))
  }

  /** Nothing but texts was sent to the client. */
  ghost predicate OnlyTexts(before: Client, c: Client) {
    Grounded(before) && c.locations == before.locations && c.symbols == before.symbols && before.strings <= c.strings
  }

  lemma SameSpots(before: Client, c: Client)
    requires OnlyTexts(before, c)
    ensures Spots(c) == Spots(before)
  {
    forall i | 0 <= i < |c.locations|
      ensures Spots(c)[i] == Spots(before)[i]
    {
      assert Refers(before.locations[i].file, |before.strings|);
    }
  }

  lemma {:induction false} TopsNowhere(c: Client, dies: seq<Die>, f: Frame)
    requires Tops(c, -1, dies, f)
    ensures Functionless(dies)
    decreases |dies|
  {
    if dies != [] {
      TopsNowhere(c, dies[..|dies| - 1], f);
      assert forall i :: 0 <= i < |dies| - 1 ==> dies[i] == dies[..|dies| - 1][i];
    }
  }

  lemma {:induction false} FunctionlessNowhere(c: Client, p: int, dies: seq<Die>, f: Frame)
    requires Tops(c, p, dies, f) && Functionless(dies)
    ensures p == -1
    decreases |dies|
  {
    if dies != [] {
      FunctionlessNowhere(c, p, dies[..|dies| - 1], f);
    }
  }

  lemma EntryIsKnown(t: Tables, f: FoundFunction, entry: Location, bias: u64, pid: nat, before: Client)
    requires Mirrored(t) && Asks(t, entry, EntrySpot(f, bias, pid)) && OnlyTexts(before, ClientOf(t))
    ensures LookupLocation(t, entry) in t.symbols <==> EntryKnown(before, f, bias, pid)
  {
    hide Mirrored, ClientOf, LookupLocation, Asks;
    var c, id, s := ClientOf(t), LookupLocation(t, entry), EntrySpot(f, bias, pid);
    SameSpots(before, c);
    SymbolsMirrored(t);
    SymbolsInRange(t);
    assert forall i :: 0 <= i < |c.locations| ==> Spots(c)[i] == Spots(before)[i];
    if id in t.symbols {
      KnownShows(t, entry, s);
      assert SpotOf(before, before.locations[id]) == s;
    }
    if i :| 0 <= i < |before.locations| && i in before.symbols && SpotOf(before, before.locations[i]) == s {
      SpotIsAsked(t, entry, i, s);
    }
  }

  lemma SymbolsInRange(t: Tables)
    requires Mirrored(t)
    ensures forall id :: id in t.symbols ==> 0 <= id < |ClientOf(t).locations|
  {
    MirroredIsGrounded(t);
  }

  /** A place that the client has is one that the producer knows. */
  lemma SpotIsAsked(t: Tables, l: Location, i: nat, s: Spot)
    requires Mirrored(t) && Asks(t, l, s) && Shows(t, i, s)
    ensures LookupLocation(t, l) == i
  {
    hide Mirrored, ClientOf, Continues, ResolveLocation, KeyOf;
    var (t', id) := ResolveLocation(t, l);
    PlaceShows(t, l, s);
    ShowsLater(t, t', i, s);
    SpotsDiffer(t', id, i);
    ResolvedEarlier(t, l);
    ClientCount(t);
  }

  lemma ResolvedEarlier(t: Tables, l: Location)
    ensures LookupLocation(t, l) != -1 ==> ResolveLocation(t, l).1 == LookupLocation(t, l)
    ensures KeyOf(l) !in t.locations ==> ResolveLocation(t, l).1 == |t.locations|
    ensures KeyOf(l) in t.locations ==> ResolveLocation(t, l).1 == LookupLocation(t, l)
  {
  }

  lemma EntryAsks(t: Tables, f: FoundFunction, bias: u64, pid: nat)
    requires Mirrored(t)
    ensures var (u, entry) := EntryOf(t, f, bias, pid);
      && Mirrored(u) && Continues(t, u) && entry.parent == -1 && Asks(u, entry, EntrySpot(f, bias, pid))
      && ClientOf(u).locations == ClientOf(t).locations
  {
    hide Mirrored, Continues, ResolveString, ClientOf;
    StringStep(t, Innermost(f).declFile);
    Wrap64IsModulo(Innermost(f).entry + bias);
  }

  lemma KnownShows(t: Tables, l: Location, s: Spot)
    requires Mirrored(t) && Asks(t, l, s) && LookupLocation(t, l) != -1
    ensures Shows(t, LookupLocation(t, l), s) && LookupLocation(t, l) < |t.locations|
  {
    PlaceShows(t, l, s);
  }

  lemma InlineShows(t: Tables, f: FoundFunction, entry: Location, bias: u64, b: Binary, x: Extent, pid: nat,
                    before: Client)
    requires Mirrored(t) && BinaryIds(t, b) && Asks(t, entry, EntrySpot(f, bias, pid))
    requires OnlyTexts(before, ClientOf(t))
    ensures var (w, p) := InlineParent(t, f, entry, bias, b, x, pid);
      && Mirrored(w) && Continues(t, w) && Refers(p, |w.locations|)
      && (p != -1 ==> ShowsFunction(w, p, f, bias, b, x, pid, before))
      && (p == -1 ==> WithoutChain(f, bias, pid, before))
  {
    hide Mirrored, Continues, ClientOf, Asks, LookupLocation, ParsedChain, Tops, EntryKnown, FreshIn, Functionless;
    hide OnlyTexts;
    ContinuesItself(t);
    EntryIsKnown(t, f, entry, bias, pid, before);
    SymbolsInRange(t);
    if f.scopes != [] && LookupLocation(t, entry) !in t.symbols {
      var chain, frame := [f.die] + f.scopes, Frame(bias, b, x, pid);
      ChainIsFollowed(t, chain, frame);
      var (w, p) := ParsedChain(t, chain, bias, b, x, pid);
      SameSpots(before, ClientOf(t));
      if FreshIn(Spots(before), ChainSpots(chain, frame)) {
        FreshChainFits(t, chain, frame);
      }
      if p == -1 {
        TopsNowhere(ClientOf(w), chain, frame);
      } else if Functionless(chain) {
        FunctionlessNowhere(ClientOf(w), p, chain, frame);
      }
    } else if LookupLocation(t, entry) != -1 {
      KnownShows(t, entry, EntrySpot(f, bias, pid));
    }
  }

  /** The place of an address in its source. */
  ghost function LineSpot(unit: CompilationUnit, address: u64, pid: nat): Spot {
    match unit.source
    case Some(line) => Spot(address, 0, line.file, pid, line.line, line.column)
    case None => Spot(address, 0, "", pid, 0, 0)
  }

  lemma LineAsks(t: Tables, unit: CompilationUnit, address: Location)
    requires Mirrored(t) && address == Location(address.address, 0, -1, address.pid, 0, 0, -1)
    ensures var line := SourceOf(Some(unit));
      var (u, file) := ResolveString(t, line.file);
      var lined :=
        if unit.source.Some? then address.(file := file, line := line.line, column := line.column) else address;
      && Mirrored(u) && Continues(t, u) && Asks(u, lined, LineSpot(unit, address.address, address.pid))
  {
    hide Mirrored, Continues, ResolveString, ClientOf;
    StringStep(t, SourceOf(Some(unit)).file);
  }

  /** The offset into the symbol is added to where the symbol lies in its file; on ARM the lowest
      bit, which marks Thumb code, is cleared. */
  ghost function ShownRelAddr(a: Answers, address: u64, start: u64, isArm: bool): u64 {
    var x := (a.symbol.value + address - (start + a.symbol.offset)) % TWO_64;
    if isArm then x - x % 2 else x
  }

  lemma WrapInside(x: int, y: int)
    ensures Wrap64(x + Wrap64(y)) == (x + y) % TWO_64
  {
    Wrap64IsModulo(y);
    Wrap64IsModulo(x + Wrap64(y));
    var q := y / TWO_64;
    assert x + y == (x + y % TWO_64) + q * TWO_64;
    SameRest(x + y % TWO_64, q);
  }

  lemma SameRest(x: int, q: int)
    ensures (x + q * TWO_64) % TWO_64 == x % TWO_64
  {
    var r := x / TWO_64;
    assert x + q * TWO_64 == (r + q) * TWO_64 + x % TWO_64;
  }

  lemma ExtentExact(a: Answers, address: u64, start: u64, isArm: bool)
    ensures ExtentOf(a, address, start, isArm) ==
      if a.isModule && a.symbol.name != ""
      then Extent(a.symbol.value, a.symbol.size, ShownRelAddr(a, address, start, isArm))
      else Extent(0, 0, 0)
  {
    WrapInside(a.symbol.value, address - start - a.symbol.offset);
    var base := start + a.symbol.offset;
    assert a.symbol.value + (address - start - a.symbol.offset) == a.symbol.value + address - base;
  }

  /** Where the client shows the function of an address in a module. */
  ghost predicate ShowsParent(t: Tables, p: int, a: Answers, address: u64, start: u64, b: Binary, isArm: bool,
                              pid: nat, before: Client)
  {
    if a.symbol.name == "" then Shows(t, p, Spot(address, 0, "", pid, 0, 0))
    else if a.unit.None? || a.unit.value.found.None? then
      Shows(t, p, Spot((start + a.symbol.offset) % TWO_64, 0, "", pid, 0, 0))
    else
      var x := Extent(a.symbol.value, a.symbol.size, ShownRelAddr(a, address, start, isArm));
      ShowsFunction(t, p, a.unit.value.found.value, a.unit.value.bias, b, x, pid, before)
  }

  /** Where the client shows an address in a module, without its relative address. */
  ghost function AddressSpot(a: Answers, address: u64, pid: nat): Spot {
    if a.symbol.name != "" && a.unit.Some? then LineSpot(a.unit.value, address, pid)
    else Spot(address, 0, "", pid, 0, 0)
  }

  lemma DebuggedShows(t: Tables, unit: CompilationUnit, address: Location, entry: Location, b: Binary, x: Extent,
                      pid: nat, before: Client)
    requires OnlyTexts(before, ClientOf(t))
    requires Mirrored(t) && BinaryIds(t, b) && address == Location(address.address, 0, -1, pid, 0, 0, -1)
    requires entry == Location(entry.address, 0, -1, pid, 0, 0, -1)
    ensures var (w, lined, entry') := Debugged(t, unit, address, entry, b, x, pid);
      && Mirrored(w) && Continues(t, w) && Asks(w, lined, LineSpot(unit, address.address, pid))
      && entry'.parent == -1
      && if unit.found.None? then
           lined.parent == -1 && Asks(w, entry', Spot(entry.address, 0, "", pid, 0, 0))
         else
           && Asks(w, entry', EntrySpot(unit.found.value, unit.bias, pid))
           && (lined.parent != -1 ==>
                 ShowsFunction(w, lined.parent, unit.found.value, unit.bias, b, x, pid, before))
           && (lined.parent == -1 ==> WithoutChain(unit.found.value, unit.bias, pid, before))
  {
    hide Mirrored, Continues, ResolveString, ClientOf, EntryOf, InlineParent;
    hide ShowsFunction, EntrySpot, SourceOf, LineSpot, WithoutChain;
    var line := SourceOf(Some(unit));
    var (u, file) := ResolveString(t, line.file);
    LineAsks(t, unit, address);
    Grown(t, u, b, -1);
    if unit.found.Some? {
      var f := unit.found.value;
      var lined :=
        if unit.source.Some? then address.(file := file, line := line.line, column := line.column) else address;
      var (v, entry') := EntryOf(u, f, unit.bias, pid);
      EntryAsks(u, f, unit.bias, pid);
      Grown(u, v, b, -1);
      var (w, parent) := InlineParent(v, f, entry', unit.bias, b, x, pid);
      TextsOnly(t, line.file, before);
      TextsOnly(u, Innermost(f).declFile, before);
      EntryText(u, f, unit.bias, pid);
      InlineShows(v, f, entry', unit.bias, b, x, pid, before);
      ContinuesTransitive(t, u, v);
      ContinuesTransitive(u, v, w);
      ContinuesTransitive(t, v, w);
      AsksLater(v, w, entry', EntrySpot(f, unit.bias, pid));
      AsksLater(u, w, lined, LineSpot(unit, address.address, pid));
    }
  }

  lemma TextsOnly(t: Tables, text: string, before: Client)
    requires Mirrored(t) && OnlyTexts(before, ClientOf(t))
    ensures OnlyTexts(before, ClientOf(ResolveString(t, text).0))
  {
    hide Mirrored, ClientOf, ResolveString;
    StringStep(t, text);
  }

  lemma EntryText(t: Tables, f: FoundFunction, bias: u64, pid: nat)
    ensures EntryOf(t, f, bias, pid).0 == ResolveString(t, Innermost(f).declFile).0
  {
  }

  lemma FoundShows(t: Tables, a: Answers, ip: u64, start: u64, b: Binary, isArm: bool, pid: nat, before: Client)
    requires OnlyTexts(before, ClientOf(t))
    requires Mirrored(t) && BinaryIds(t, b) && a.isModule
    ensures var (w, lined, entry) := FunctionFound(t, a, AddressOnly(ip, isArm, pid), start, b, isArm, pid);
      && Mirrored(w) && Continues(t, w) && Asks(w, lined, AddressSpot(a, SymbolAddress(ip, isArm), pid))
      && entry.parent == -1
      && if lined.parent != -1
         then ShowsParent(w, lined.parent, a, SymbolAddress(ip, isArm), start, b, isArm, pid, before)
         else exists s :: Asks(w, entry, s) && forall t', p :: Shows(t', p, s) ==>
                ShowsParent(t', p, a, SymbolAddress(ip, isArm), start, b, isArm, pid, before)
  {
    hide Mirrored, Continues, ClientOf, Debugged, ExtentOf, ShowsFunction, EntrySpot, LineSpot, SymbolAddress, Shows;
    hide ShownRelAddr, OnlyTexts, WithoutChain;
    ContinuesItself(t);
    var address := AddressOnly(ip, isArm, pid);
    NoFile(t, address);
    ExtentExact(a, address.address, start, isArm);
    if a.symbol.name == "" {
      assert Asks(t, address, Spot(address.address, 0, "", pid, 0, 0));
    } else {
      StartsAt(address.address, start, a.symbol.offset);
      var off := Wrap64(address.address - start - a.symbol.offset);
      var entry := address.(address := Wrap64(address.address - off));
      NoFile(t, entry);
      if a.unit.None? {
        assert Asks(t, entry, Spot(entry.address, 0, "", pid, 0, 0));
      } else {
        var unit, x := a.unit.value, ExtentOf(a, address.address, start, isArm);
        DebuggedShows(t, unit, address, entry, b, x, pid, before);
        var (w, lined, entry') := Debugged(t, unit, address, entry, b, x, pid);
        if unit.found.Some? && lined.parent == -1 {
          var s := EntrySpot(unit.found.value, unit.bias, pid);
          forall t', p | Shows(t', p, s)
            ensures ShowsFunction(t', p, unit.found.value, unit.bias, b, x, pid, before)
          {
            EntryIsFunction(t', p, unit.found.value, unit.bias, b, x, pid, before);
          }
        }
      }
    }
  }

  lemma EntryIsFunction(t: Tables, p: int, f: FoundFunction, bias: u64, b: Binary, x: Extent, pid: nat, before: Client)
    requires Shows(t, p, EntrySpot(f, bias, pid)) && WithoutChain(f, bias, pid, before)
    ensures ShowsFunction(t, p, f, bias, b, x, pid, before)
  {
  }

  lemma NoFile(t: Tables, l: Location)
    requires l == Location(l.address, 0, -1, l.pid, 0, 0, -1)
    ensures Asks(t, l, Spot(l.address, 0, "", l.pid, 0, 0))
  {
  }

  lemma StartsAt(address: u64, start: u64, offset: u64)
    ensures Wrap64(address - Wrap64(address - start - offset)) == (start + offset) % TWO_64
  {
    Wrap64Twice(address, start + offset);
    Wrap64IsModulo(start + offset);
    assert address - (start + offset) == address - start - offset;
  }

  lemma ModularShows(t: Tables, a: Answers, ip: u64, start: u64, b: Binary, isArm: bool, pid: nat, before: Client)
    requires OnlyTexts(before, ClientOf(t))
    requires Mirrored(t) && BinaryIds(t, b) && a.isModule
    ensures var (v, address) := Modular(t, a, AddressOnly(ip, isArm, pid), start, b, isArm, pid);
      && Mirrored(v) && Continues(t, v) && Asks(v, address, AddressSpot(a, SymbolAddress(ip, isArm), pid))
      && 0 <= address.parent < |v.locations|
      && ShowsParent(v, address.parent, a, SymbolAddress(ip, isArm), start, b, isArm, pid, before)
  {
    hide Mirrored, Continues, ClientOf, FunctionFound, ShowsParent, AddressSpot, SymbolAddress, Shows, ResolveLocation;
    hide OnlyTexts;
    FoundShows(t, a, ip, start, b, isArm, pid, before);
    var (u, lined, entry) := FunctionFound(t, a, AddressOnly(ip, isArm, pid), start, b, isArm, pid);
    if lined.parent == -1 {
      var s :| Asks(u, entry, s) && forall t', p :: Shows(t', p, s) ==>
        ShowsParent(t', p, a, SymbolAddress(ip, isArm), start, b, isArm, pid, before);
      PlaceShows(u, entry, s);
      var v := ResolveLocation(u, entry).0;
      ContinuesTransitive(t, u, v);
      AsksLater(u, v, lined, AddressSpot(a, SymbolAddress(ip, isArm), pid));
    }
  }

  // ------------------------------------------------------------ the binary

  /** The names of the binary, as the client has them. */
  ghost predicate Names(t: Tables, b: Binary, name: string, path: string, actualPath: string) {
    var c := ClientOf(t);
    BinaryIds(t, b) && TextAt(c, b.name) == name && TextAt(c, b.path) == path && TextAt(c, b.actualPath) == actualPath
  }

  lemma TextStays(t: Tables, t': Tables, id: int, text: string)
    requires Mirrored(t) && Continues(t, t') && StringId(t, id) && TextAt(ClientOf(t), id) == text
    ensures StringId(t', id) && TextAt(ClientOf(t'), id) == text
  {
    hide Mirrored, ClientOf;
    StringCountAt(t, "");
    ClientGrows(t, t');
  }

  lemma NamesStay(t: Tables, t': Tables, b: Binary, name: string, path: string, actualPath: string)
    requires Mirrored(t) && Continues(t, t') && Names(t, b, name, path, actualPath)
    ensures Names(t', b, name, path, actualPath)
  {
    hide Mirrored, Continues, ClientOf, TextAt;
    TextStays(t, t', b.name, name);
    TextStays(t, t', b.path, path);
    TextStays(t, t', b.actualPath, actualPath);
  }

  lemma DescribedNames(t: Tables, elf: ElfInfo, isKernel: bool)
    requires Mirrored(t)
    ensures var (u, b) := Described(t, elf, isKernel);
      && Mirrored(u) && Continues(t, u) && b.isKernel == isKernel
      && if elf.length == 0 then Names(u, b, "", "", "")
         else Names(u, b, elf.originalFileName, elf.originalPath, elf.localFile.absolutePath)
  {
    hide Mirrored, Continues, ResolveString, ClientOf, TextAt;
    NoTextAt(ClientOf(t));
    if elf.length == 0 {
      ContinuesItself(t);
    } else {
      var (u, name) := ResolveString(t, elf.originalFileName);
      StringStep(t, elf.originalFileName);
      var (v, path) := ResolveString(u, elf.originalPath);
      StringStep(u, elf.originalPath);
      var w := ResolveString(v, elf.localFile.absolutePath).0;
      StringStep(v, elf.localFile.absolutePath);
      ContinuesTransitive(t, u, v);
      ContinuesTransitive(t, v, w);
      ContinuesTransitive(u, v, w);
      TextStays(u, w, name, elf.originalFileName);
      TextStays(v, w, path, elf.originalPath);
    }
  }

  lemma NoTextAt(c: Client)
    ensures TextAt(c, -1) == ""
  {
  }

  /** Without a module: the function's place, and the kernel module's name if there is one. */
  lemma OutsideShows(t: Tables, a: Answers, ip: u64, start: u64, b: Binary, isArm: bool, pid: nat,
                     name: string, path: string, actualPath: string)
    requires Mirrored(t) && Names(t, b, name, path, actualPath)
    ensures var (v, address, b') := Outside(t, a, AddressOnly(ip, isArm, pid), start, b);
      var at := SymbolAddress(ip, isArm);
      && Mirrored(v) && Continues(t, v) && Asks(v, address, Spot(at, 0, "", pid, 0, 0))
      && b'.isKernel == b.isKernel
      && Names(v, b', if b.isKernel && a.kallsymModule != "" then a.kallsymModule else name, path, actualPath)
      && 0 <= address.parent < |v.locations|
      && Shows(v, address.parent, Spot(StartOutside(a, at, start, b.isKernel), 0, "", pid, 0, 0))
  {
    hide Mirrored, Continues, ResolveString, ResolveLocation, ClientOf, StartOutside;
    hide SymbolAddress, TextAt, Asks, Shows;
    var address := AddressOnly(ip, isArm, pid);
    var (u, id) := if b.isKernel && a.kallsymModule != "" then ResolveString(t, a.kallsymModule) else (t, b.name);
    if b.isKernel && a.kallsymModule != "" {
      StringStep(t, a.kallsymModule);
    } else {
      ContinuesItself(t);
    }
    TextStays(t, u, b.path, path);
    TextStays(t, u, b.actualPath, actualPath);
    var entry := address.(address := StartOutside(a, address.address, start, b.isKernel));
    NoFile(u, entry);
    PlaceShows(u, entry, Spot(entry.address, 0, "", pid, 0, 0));
    var v := ResolveLocation(u, entry).0;
    ContinuesTransitive(t, u, v);
    NoFile(u, address);
    AsksLater(u, v, address, Spot(address.address, 0, "", pid, 0, 0));
    AsksParent(v, address, ResolveLocation(u, entry).1, Spot(address.address, 0, "", pid, 0, 0));
    var shown := if b.isKernel && a.kallsymModule != "" then a.kallsymModule else name;
    NamesStay(u, v, b.(name := id), shown, path, actualPath);
  }

  lemma AsksParent(t: Tables, l: Location, p: int, s: Spot)
    requires Asks(t, l, s) && 0 <= p < |t.locations|
    ensures Asks(t, l.(parent := p), s)
    ensures forall x: u64 :: Asks(t, l.(relAddr := x), s.(relAddr := x))
  {
  }

  // ------------------------------------------------------------ the whole lookup

  /** The tables when the function has its location, and the address below it. */
  function Located(t: Tables, a: Answers, elf: ElfInfo, ip: u64, isKernel: bool, isArm: bool, pid: nat)
    : (Tables, Location, Binary)
  {
    var (u, b) := Described(t, elf, isKernel);
    Parented(u, a, ip, ElfStart(elf), b, isArm, pid)
  }

  /** On ARM an address has its lowest bit set. */
  function ShownAddress(ip: u64, isArm: bool): u64 {
    if isArm && ip % 2 == 0 then ip + 1 else ip
  }

  /** Where the file of an entry starts. */
  function FileStart(elf: ElfInfo): u64 {
    if elf.length == 0 then 0 else if elf.baseAddr != 0xFFFF_FFFF_FFFF_FFFF then elf.baseAddr else elf.addr
  }

  /** Where the function of an address is, in a module or without one. */
  ghost predicate ShowsFunctionOf(t: Tables, p: int, a: Answers, elf: ElfInfo, ip: u64, isKernel: bool, isArm: bool,
                                  pid: nat, b: Binary, before: Client)
  {
    var at, start := ShownAddress(ip, isArm), FileStart(elf);
    if a.isModule then ShowsParent(t, p, a, at, start, b, isArm, pid, before)
    else
      var symbol := if isKernel then a.kallsymAddress else if a.perfMap.Some? then a.perfMap.value.start else at;
      Shows(t, p, Spot(if symbol == at then start else symbol, 0, "", pid, 0, 0))
  }

  ghost predicate NamesBinary(t: Tables, b: Binary, a: Answers, elf: ElfInfo, isKernel: bool) {
    var path, actualPath := if elf.length == 0 then "" else elf.originalPath,
                            if elf.length == 0 then "" else elf.localFile.absolutePath;
    Names(t, b,
          if !a.isModule && isKernel && a.kallsymModule != "" then a.kallsymModule
          else if elf.length == 0 then "" else elf.originalFileName,
          path, actualPath)
  }

  lemma DescribedTexts(t: Tables, elf: ElfInfo, isKernel: bool)
    requires Mirrored(t)
    ensures OnlyTexts(ClientOf(t), ClientOf(Described(t, elf, isKernel).0))
  {
    hide Mirrored, ClientOf, ResolveString, OnlyTexts;
    MirroredIsGrounded(t);
    NothingSent(ClientOf(t));
    if elf.IsValid() {
      var u := ResolveString(t, elf.originalFileName).0;
      TextsOnly(t, elf.originalFileName, ClientOf(t));
      StringStep(t, elf.originalFileName);
      TextsOnly(u, elf.originalPath, ClientOf(t));
      StringStep(u, elf.originalPath);
      TextsOnly(ResolveString(u, elf.originalPath).0, elf.localFile.absolutePath, ClientOf(t));
    }
  }

  lemma NothingSent(c: Client)
    requires Grounded(c)
    ensures OnlyTexts(c, c)
  {
  }

  lemma LocatedShows(t: Tables, a: Answers, elf: ElfInfo, ip: u64, isKernel: bool, isArm: bool, pid: nat)
    requires Mirrored(t)
    ensures var (v, address, b) := Located(t, a, elf, ip, isKernel, isArm, pid);
      && Mirrored(v) && Continues(t, v) && 0 <= address.parent < |v.locations| && b.isKernel == isKernel
      && Asks(v, address, if a.isModule then AddressSpot(a, ShownAddress(ip, isArm), pid)
                          else Spot(ShownAddress(ip, isArm), 0, "", pid, 0, 0))
      && ShowsFunctionOf(v, address.parent, a, elf, ip, isKernel, isArm, pid,
                         Described(t, elf, isKernel).1, ClientOf(t))
      && NamesBinary(v, b, a, elf, isKernel)
  {
    hide Mirrored, Continues, Described, Modular, Outside, ClientOf, AddressSpot;
    hide ShowsParent, StartOutside, Names, Asks;
    hide Shows, SymbolStart;
    var (u, b) := Described(t, elf, isKernel);
    DescribedNames(t, elf, isKernel);
    NamesAreIds(u, b, elf);
    var name, path, actualPath :=
      if elf.length == 0 then "" else elf.originalFileName,
      if elf.length == 0 then "" else elf.originalPath,
      if elf.length == 0 then "" else elf.localFile.absolutePath;
    var v := Located(t, a, elf, ip, isKernel, isArm, pid).0;
    if a.isModule {
      DescribedTexts(t, elf, isKernel);
      ModularShows(u, a, ip, ElfStart(elf), b, isArm, pid, ClientOf(t));
      NamesStay(u, v, b, name, path, actualPath);
    } else {
      OutsideShows(u, a, ip, ElfStart(elf), b, isArm, pid, name, path, actualPath);
      OutsideStart(a, SymbolAddress(ip, isArm), ElfStart(elf), isKernel);
    }
    ContinuesTransitive(t, u, v);
  }

  lemma NamesAreIds(t: Tables, b: Binary, elf: ElfInfo)
    ensures forall name, path, actualPath :: Names(t, b, name, path, actualPath) ==> BinaryIds(t, b)
  {
  }

  lemma OutsideStart(a: Answers, at: u64, start: u64, isKernel: bool)
    ensures StartOutside(a, at, start, isKernel) ==
      if isKernel then (if a.kallsymAddress == at then start else a.kallsymAddress)
      else if a.perfMap.Some? && a.perfMap.value.start != at then a.perfMap.value.start
      else start
  {
    StartExact(a, at, start, isKernel);
  }

  /** What the client shows for the frame itself: its address and process, the source line if
      there is one, and the relative address: as far behind the symbol's value as the address
      is behind the symbol in the mapped file, and zero without a symbol of a module. */
  lemma FrameShown(t: Tables, a: Answers, elf: ElfInfo, ip: u64, isKernel: bool, isArm: bool, pid: nat)
    requires Mirrored(t)
    ensures var (t', id) := LookedUp(t, a, elf, ip, isKernel, isArm, pid);
      var at, symbolized := ShownAddress(ip, isArm), a.isModule && a.symbol.name != "";
      var relAddr := if symbolized then ShownRelAddr(a, at, FileStart(elf), isArm) else 0;
      && Mirrored(t') && Continues(t, t')
      && if symbolized && a.unit.Some? && a.unit.value.source.Some? then
           var line := a.unit.value.source.value;
           Shows(t', id, Spot(at, relAddr, line.file, pid, line.line, line.column))
         else Shows(t', id, Spot(at, relAddr, "", pid, 0, 0))
  {
    hide Mirrored, Continues, Located, Ensured, ClientOf, ShowsFunctionOf, NamesBinary;
    hide Asks, Shows, ShownRelAddr, NameOf;
    hide Described, Parented, ExtentOf, ResolveLocation;
    LocatedShows(t, a, elf, ip, isKernel, isArm, pid);
    var (v, address, b) := Located(t, a, elf, ip, isKernel, isArm, pid);
    var x := ExtentOf(a, SymbolAddress(ip, isArm), ElfStart(elf), isArm);
    ExtentExact(a, SymbolAddress(ip, isArm), ElfStart(elf), isArm);
    var w := Ensured(v, address.parent, NameOf(a, isKernel), b, x);
    LookedUpIs(t, a, elf, ip, isKernel, isArm, pid);
    var s := if a.isModule then AddressSpot(a, ShownAddress(ip, isArm), pid)
             else Spot(ShownAddress(ip, isArm), 0, "", pid, 0, 0);
    NamesBinaryIds(v, b, a, elf, isKernel);
    EnsuredKeepsLocations(v, address.parent, NameOf(a, isKernel), b, x);
    ContinuesTransitive(t, v, w);
    AsksLater(v, w, address, s);
    AsksRelative(w, address, x.relAddr, s);
    PlaceShows(w, address.(relAddr := x.relAddr), s.(relAddr := x.relAddr));
    ContinuesTransitive(t, w, LookedUp(t, a, elf, ip, isKernel, isArm, pid).0);
  }

  lemma NamesBinaryIds(t: Tables, b: Binary, a: Answers, elf: ElfInfo, isKernel: bool)
    requires NamesBinary(t, b, a, elf, isKernel)
    ensures BinaryIds(t, b)
  {
  }

  lemma AsksRelative(t: Tables, l: Location, x: u64, s: Spot)
    requires Asks(t, l, s)
    ensures Asks(t, l.(relAddr := x), s.(relAddr := x))
  {
  }

  lemma LookedUpIs(t: Tables, a: Answers, elf: ElfInfo, ip: u64, isKernel: bool, isArm: bool, pid: nat)
    ensures var (v, address, b) := Located(t, a, elf, ip, isKernel, isArm, pid);
      var x := ExtentOf(a, SymbolAddress(ip, isArm), ElfStart(elf), isArm);
      var w := Ensured(v, address.parent, NameOf(a, isKernel), b, x);
      LookedUp(t, a, elf, ip, isKernel, isArm, pid) == ResolveLocation(w, address.(relAddr := x.relAddr))
  {
  }

  lemma SameRemainderIff(x: int, y: int, d: int)
    requires x - y == d
    ensures (x % TWO_64 - y % TWO_64) % TWO_64 == d % TWO_64
  {
    var p, q := x / TWO_64, y / TWO_64;
    assert x % TWO_64 - y % TWO_64 == d + (q - p) * TWO_64;
    SameRest(d, q - p);
  }

  /** Two addresses with the same symbol have relative addresses as far apart as themselves; on
      ARM up to the lowest bit. */
  lemma RelAddrsApart(a: Answers, at: u64, other: u64, start: u64)
    ensures (ShownRelAddr(a, at, start, false) - ShownRelAddr(a, other, start, false)) % TWO_64 == (at - other) % TWO_64
    ensures at == other ==> ShownRelAddr(a, at, start, true) == ShownRelAddr(a, other, start, true)
    ensures ShownRelAddr(a, at, start, true) % 2 == 0
    ensures ShownRelAddr(a, at, start, true) / 2 == ShownRelAddr(a, at, start, false) / 2
  {
    var base := a.symbol.value - (start + a.symbol.offset);
    assert a.symbol.value + at - (start + a.symbol.offset) == base + at;
    assert a.symbol.value + other - (start + a.symbol.offset) == base + other;
    SameRemainderIff(base + at, base + other, at - other);
  }

  // ------------------------------------------------------------ the function's symbol

  /** The name of a frame: of the innermost inlined call if the debugging entries tell, else of
      the symbol, else of the section; without a module of the kernel or generated symbol. */
  ghost function ShownName(a: Answers, isKernel: bool): string {
    if a.isModule then
      if a.symbol.name == "" then a.sectionName
      else if a.unit.None? || a.unit.value.found.None? then a.symbol.name
      else
        var f := a.unit.value.found.value;
        (if f.scopes == [] then f.die else f.scopes[|f.scopes| - 1]).name
    else if isKernel then a.kallsymName
    else match a.perfMap { case Some(s) => s.name case None => "" }
  }

  /** A symbol as the client shows it. */
  ghost predicate ShowsSymbol(t: Tables, s: Symbol, a: Answers, elf: ElfInfo, isKernel: bool) {
    var symbolized := a.isModule && a.symbol.name != "";
    && TextAt(ClientOf(t), s.name) == ShownName(a, isKernel)
    && s.relAddr == (if symbolized then a.symbol.value else 0) && s.size == (if symbolized then a.symbol.size else 0)
    && NamesBinary(t, Binary(s.binary, s.path, s.actualPath, s.isKernel), a, elf, isKernel)
    && s.isKernel == isKernel && !s.isInline
  }

  lemma EnsuredShows(t: Tables, p: int, a: Answers, elf: ElfInfo, isKernel: bool, b: Binary, x: Extent)
    requires Mirrored(t) && 0 <= p < |t.locations| && b.isKernel == isKernel && NamesBinary(t, b, a, elf, isKernel)
    requires x.start == (if a.isModule && a.symbol.name != "" then a.symbol.value else 0)
    requires x.size == (if a.isModule && a.symbol.name != "" then a.symbol.size else 0)
    ensures var w := Ensured(t, p, NameOf(a, isKernel), b, x);
      && Mirrored(w) && Continues(t, w) && p in ClientOf(w).symbols
      && (p in t.symbols ==> w == t)
      && (p !in t.symbols ==> ShowsSymbol(w, ClientOf(w).symbols[p], a, elf, isKernel))
  {
    hide Mirrored, Continues, ResolveString, ClientOf, Names;
    NamesBinaryIds(t, b, a, elf, isKernel);
    if p in t.symbols {
      ContinuesItself(t);
      SymbolsMirrored(t);
    } else {
      var (u, name) := ResolveString(t, NameOf(a, isKernel));
      StringStep(t, NameOf(a, isKernel));
      Grown(t, u, b, p);
      var s := SymbolOf(name, b, x, false);
      SymbolStep(u, p, s);
      var w := ResolveSymbol(u, p, s);
      ContinuesTransitive(t, u, w);
      BinaryStays(t, w, b, a, elf, isKernel);
      NameShown(a, isKernel);
    }
  }

  lemma NameShown(a: Answers, isKernel: bool)
    ensures NameOf(a, isKernel) == ShownName(a, isKernel)
  {
  }

  lemma SymbolsMirrored(t: Tables)
    requires Mirrored(t)
    ensures ClientOf(t).symbols == t.symbols
  {
  }

  lemma BinaryStays(t: Tables, t': Tables, b: Binary, a: Answers, elf: ElfInfo, isKernel: bool)
    requires Mirrored(t) && Continues(t, t') && NamesBinary(t, b, a, elf, isKernel)
    ensures NamesBinary(t', b, a, elf, isKernel)
    ensures forall c :: NamesBinary(t, b.(isKernel := c), a, elf, isKernel)
  {
    hide Mirrored, Continues, ClientOf;
    NamesStay(t, t', b,
      if !a.isModule && isKernel && a.kallsymModule != "" then a.kallsymModule
      else if elf.length == 0 then "" else elf.originalFileName,
      if elf.length == 0 then "" else elf.originalPath, if elf.length == 0 then "" else elf.localFile.absolutePath);
  }

  lemma LastRequestKeeps(w: Tables, l: Location, s: Spot)
    requires Mirrored(w) && Asks(w, l, s)
    ensures var t' := ResolveLocation(w, l).0;
      Mirrored(t') && Continues(w, t') && ClientOf(t').symbols == ClientOf(w).symbols
  {
    hide Mirrored, Continues, ResolveLocation, ClientOf, KeptParent, KeyOf;
    LocationWalk(w, l);
  }

  lemma FunctionLater(t: Tables, t': Tables, p: int, a: Answers, elf: ElfInfo, ip: u64, isKernel: bool, isArm: bool,
                      pid: nat, b: Binary, before: Client)
    requires Mirrored(t) && Continues(t, t') && Enlarges(ClientOf(t), ClientOf(t'))
    requires ShowsFunctionOf(t, p, a, elf, ip, isKernel, isArm, pid, b, before)
    ensures ShowsFunctionOf(t', p, a, elf, ip, isKernel, isArm, pid, b, before)
  {
    hide Mirrored, Continues, ClientOf, Shows, ShownRelAddr, EntrySpot, FileStart, Tops, Follows, Enlarges;
    hide WithoutChain, FreshIn;
    forall s | Shows(t, p, s)
      ensures Shows(t', p, s)
    {
      ShowsLater(t, t', p, s);
    }
    MirroredIsGrounded(t);
    ClientGrows(t, t');
    forall dies, f | Tops(ClientOf(t), p, dies, f)
      ensures Tops(ClientOf(t'), p, dies, f)
    {
      TopsStays(ClientOf(t), ClientOf(t'), p, dies, f);
    }
    forall dies, f | Follows(ClientOf(t), p, dies, f)
      ensures Follows(ClientOf(t'), p, dies, f)
    {
      ChainStays(ClientOf(t), ClientOf(t'), p, dies, f);
    }
  }

  lemma SymbolLater(t: Tables, t': Tables, p: int, a: Answers, elf: ElfInfo, isKernel: bool)
    requires Mirrored(t) && Continues(t, t') && ClientOf(t').symbols == ClientOf(t).symbols
    requires p in ClientOf(t).symbols && ShowsSymbol(t, ClientOf(t).symbols[p], a, elf, isKernel)
    ensures ShowsSymbol(t', ClientOf(t').symbols[p], a, elf, isKernel)
  {
    hide Mirrored, Continues, ClientOf, NamesBinary;
    var s := ClientOf(t).symbols[p];
    MirroredIsGrounded(t);
    SymbolName(t, p);
    TextStays(t, t', s.name, ShownName(a, isKernel));
    BinaryStays(t, t', Binary(s.binary, s.path, s.actualPath, s.isKernel), a, elf, isKernel);
  }

  lemma SymbolName(t: Tables, p: int)
    requires Mirrored(t) && p in ClientOf(t).symbols
    ensures StringId(t, ClientOf(t).symbols[p].name)
  {
    MirroredIsGrounded(t);
    StringCountAt(t, "");
  }

  /** A location that the client did not have has the parent it is asked for with. */
  lemma NewFrame(t: Tables, l: Location, s: Spot)
    requires Mirrored(t) && Asks(t, l, s)
    ensures var (t', id) := ResolveLocation(t, l);
      && 0 <= id < |ClientOf(t').locations|
      && (|ClientOf(t).locations| <= id ==> ClientOf(t').locations[id].parent == l.parent)
  {
    hide Mirrored, Continues, ResolveLocation, ClientOf, KeyOf;
    LocationWalk(t, l);
  }

  lemma LookupEnlarges(v: Tables, p: int, a: Answers, isKernel: bool, b: Binary, x: Extent, w: Tables, t': Tables,
                       l: Location, s: Spot)
    requires Mirrored(v) && Mirrored(w) && w == Ensured(v, p, NameOf(a, isKernel), b, x) && Continues(v, w)
    requires Asks(w, l, s) && t' == ResolveLocation(w, l).0 && 0 <= p < |v.locations| && BinaryIds(v, b)
    ensures Enlarges(ClientOf(v), ClientOf(t'))
  {
    hide Mirrored, Continues, ResolveLocation, ResolveString, ClientOf, KeptParent, KeyOf, NameOf;
    EnlargesItself(ClientOf(v));
    SymbolsMirrored(v);
    if p !in v.symbols {
      var name := NameOf(a, isKernel);
      var (u, id) := ResolveString(v, name);
      StringStep(v, name);
      Grown(v, u, b, p);
      SymbolStep(u, p, SymbolOf(id, b, x, false));
    }
    LocationWalk(w, l);
  }

  /** What the client shows for the function of a frame: its place, with the chain of inlined
      calls, and a symbol. If the place had no symbol it gets the one of the answers. A new frame
      lies below it. */
  lemma FunctionShown(t: Tables, a: Answers, elf: ElfInfo, ip: u64, isKernel: bool, isArm: bool, pid: nat)
    requires Mirrored(t)
    ensures var (t', id) := LookedUp(t, a, elf, ip, isKernel, isArm, pid);
      var (v, address, b) := Located(t, a, elf, ip, isKernel, isArm, pid);
      var p := address.parent;
      && ShowsFunctionOf(t', p, a, elf, ip, isKernel, isArm, pid, Described(t, elf, isKernel).1, ClientOf(t))
      && 0 <= id < |ClientOf(t').locations| && p in ClientOf(t').symbols
      && (|ClientOf(v).locations| <= id ==> ClientOf(t').locations[id].parent == p)
      && (if p in v.symbols then ClientOf(t').symbols[p] == v.symbols[p]
          else ShowsSymbol(t', ClientOf(t').symbols[p], a, elf, isKernel))
  {
    hide Mirrored, Continues, Located, Ensured, ClientOf, ShowsFunctionOf, NamesBinary;
    hide Asks, Shows, ShownRelAddr, NameOf;
    hide Described, Parented, ExtentOf, ResolveLocation, ShowsSymbol, LookedUp, AddressSpot;
    LocatedShows(t, a, elf, ip, isKernel, isArm, pid);
    var (v, address, b) := Located(t, a, elf, ip, isKernel, isArm, pid);
    var p, x := address.parent, ExtentOf(a, SymbolAddress(ip, isArm), ElfStart(elf), isArm);
    ExtentExact(a, SymbolAddress(ip, isArm), ElfStart(elf), isArm);
    EnsuredShows(v, p, a, elf, isKernel, b, x);
    var w := Ensured(v, p, NameOf(a, isKernel), b, x);
    LookedUpIs(t, a, elf, ip, isKernel, isArm, pid);
    var s := if a.isModule then AddressSpot(a, ShownAddress(ip, isArm), pid)
             else Spot(ShownAddress(ip, isArm), 0, "", pid, 0, 0);
    AsksLater(v, w, address, s);
    AsksRelative(w, address, x.relAddr, s);
    LastRequestKeeps(w, address.(relAddr := x.relAddr), s.(relAddr := x.relAddr));
    var t' := LookedUp(t, a, elf, ip, isKernel, isArm, pid).0;
    ContinuesTransitive(v, w, t');
    NamesBinaryIds(v, b, a, elf, isKernel);
    NewFrame(w, address.(relAddr := x.relAddr), s.(relAddr := x.relAddr));
    EnsuredKeepsLocations(v, p, NameOf(a, isKernel), b, x);
    ClientCount(v);
    LookupEnlarges(v, p, a, isKernel, b, x, w, t', address.(relAddr := x.relAddr), s.(relAddr := x.relAddr));
    FunctionLater(v, t', p, a, elf, ip, isKernel, isArm, pid, Described(t, elf, isKernel).1, ClientOf(t));
    if p in v.symbols {
      SymbolsMirrored(v);
    } else {
      SymbolLater(w, t', p, a, elf, isKernel);
    }
  }
}
