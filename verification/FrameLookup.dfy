/** Looking up the frame for an instruction pointer, whatever the debug information says. */
module FrameLookup {
  import opened WordArithmetic
  import opened Wrappers
  import opened ElfMaps
  import opened OutputMessages
  import opened OutputTables
  import opened NamedFrames
  import opened FrameAnswers
  import opened FrameCaches
  import opened IdTables
  import opened PerfElfMaps

  class PerfSymbolTable {
    const pid: nat
    const isArm: bool
    const unwind: Definitions
    const addressCache: AddressCache
    const elfs: PerfElfMap
    /** The frames of the addresses outside of all files. */
    var invalidAddressCache: map<u64, CacheEntry>
    /** The lookup that made each of these entries. */
    ghost var invalidFirsts: map<u64, Asked>
    var cacheIsDirty: bool

    ghost predicate Valid()
      reads this, unwind, addressCache, elfs
    {
      && pid != 0 && isArm == addressCache.isArm
      && elfs.Valid()
      && Sound(unwind.Abs())
      && addressCache.Valid(unwind.Abs())
      && InvalidCacheValid(unwind.Abs())
    }

    ghost predicate InvalidCacheValid(t: Tables)
      reads this
    {
      && invalidAddressCache.Keys == invalidFirsts.Keys
      && forall ip :: ip in invalidAddressCache ==>
           && !invalidFirsts[ip].elf.IsValid() && invalidFirsts[ip].ip == ip && invalidFirsts[ip].pid == pid
           && Remembers(t, isArm, invalidAddressCache[ip], invalidFirsts[ip])
    }

    constructor (pid: nat, isArm: bool, unwind: Definitions, addressCache: AddressCache, elfs: PerfElfMap)
      requires pid != 0 && elfs.Valid() && Sound(unwind.Abs())
      requires isArm == addressCache.isArm && addressCache.Valid(unwind.Abs())
      ensures Valid() && this.pid == pid && this.unwind == unwind && this.addressCache == addressCache
      ensures this.elfs == elfs && this.isArm == isArm
      ensures invalidAddressCache == map[] && !cacheIsDirty
    {
      this.pid, this.isArm, this.unwind, this.addressCache, this.elfs := pid, isArm, unwind, addressCache, elfs;
      invalidAddressCache, invalidFirsts, cacheIsDirty := map[], map[], false;
    }

    lemma InvalidCacheStays(t: Tables, t': Tables)
      requires InvalidCacheValid(t) && Goes(t, t')
      ensures InvalidCacheValid(t')
    {
      hide Goes, Remembers;
      forall ip | ip in invalidAddressCache
        ensures Remembers(t', isArm, invalidAddressCache[ip], invalidFirsts[ip])
      {
        RemembersStays(t, t', isArm, invalidAddressCache[ip], invalidFirsts[ip]);
      }
    }

    /** What other processes look up leaves this table valid. */
    twostate lemma StaysValid()
      requires old(Valid()) && unchanged(this) && unchanged(elfs)
      requires Sound(unwind.Abs()) && Goes(old(unwind.Abs()), unwind.Abs()) && addressCache.Valid(unwind.Abs())
      ensures Valid()
    {
      hide Sound, Goes, Remembers;
      InvalidCacheStays(old(unwind.Abs()), unwind.Abs());
    }

    method Text(text: string, ghost open: int) returns (id: int)
      requires SoundBut(unwind.Abs(), open)
      modifies unwind
      ensures SoundBut(unwind.Abs(), open) && Goes(old(unwind.Abs()), unwind.Abs())
      ensures (unwind.Abs(), id) == ResolveString(old(unwind.Abs()), text)
      ensures StringId(unwind.Abs(), id) && FileIs(unwind.Abs(), text, id)
      ensures unwind.symbols == old(unwind.symbols) && unwind.locations == old(unwind.locations)
    {
      hide SoundBut, Mirrored, Continues;
      ghost var t := unwind.Abs();
      StringStaysSound(unwind.Abs(), text, open);
      SoundIsMirrored(unwind.Abs(), open);
      FileResolved(t, text);
      id := unwind.ResolveString(text);
      GoesIfContinues(t, unwind.Abs());
    }

    /** A location, which may still wait for its symbol. */
    method Place(l: Location) returns (id: int)
      requires Sound(unwind.Abs()) && l.pid != 0
      requires StringId(unwind.Abs(), l.file) && Refers(l.parent, |unwind.locations|)
      modifies unwind
      ensures SoundBut(unwind.Abs(), id) && (l.parent in unwind.symbols ==> Sound(unwind.Abs()))
      ensures Goes(old(unwind.Abs()), unwind.Abs()) && 0 <= id < |unwind.locations|
      ensures unwind.symbols == old(unwind.symbols)
      ensures (unwind.Abs(), id) == ResolveLocation(old(unwind.Abs()), l)
      ensures LocationIs(unwind.Abs(), id, l)
    {
      hide SoundBut, Mirrored, Continues, LocationIs;
      ghost var t := unwind.Abs();
      SoundIsMirrored(t, -1);
      PlacedAt(t, l);
      LocationStaysSound(t, l);
      id := unwind.ResolveLocation(l);
      GoesIfContinues(t, unwind.Abs());
    }

    method Name(id: int, s: Symbol)
      requires SoundBut(unwind.Abs(), id) && 0 <= id < |unwind.locations| && SymbolIds(unwind.Abs(), s)
      modifies unwind
      ensures Sound(unwind.Abs()) && Goes(old(unwind.Abs()), unwind.Abs())
      ensures unwind.Abs() == ResolveSymbol(old(unwind.Abs()), id, s)
      ensures id in unwind.symbols && unwind.locations == old(unwind.locations)
    {
      hide SoundBut, Mirrored, Continues;
      ghost var t := unwind.Abs();
      SymbolMakesSound(unwind.Abs(), id, s);
      SoundIsMirrored(unwind.Abs(), id);
      unwind.ResolveSymbol(id, s);
      GoesIfContinues(t, unwind.Abs());
    }

    /** The location and the symbol of a function, or of an inlined call of one. */
    method InsertSubprogram(top: Die, entry: u64, b: Binary, x: Extent, inlineCallLocationId: int, isInline: bool)
      returns (locationId: int)
      requires Sound(unwind.Abs()) && pid != 0 && BinaryIds(unwind.Abs(), b)
      requires Refers(inlineCallLocationId, |unwind.locations|)
      modifies unwind
      ensures Sound(unwind.Abs()) && Goes(old(unwind.Abs()), unwind.Abs())
      ensures (unwind.Abs(), locationId) ==
        Inserted(old(unwind.Abs()), top, entry, b, x, pid, inlineCallLocationId, isInline)
      ensures locationId in unwind.symbols && 0 <= locationId < |unwind.locations|
    {
      hide SoundBut, Mirrored, Continues, ResolveString, ResolveLocation;
      ghost var t := unwind.Abs();
      var fileId := Text(top.declFile, -1);
      ghost var u := unwind.Abs();
      locationId := Place(Location(entry, x.relAddr, fileId, pid, top.declLine, top.declColumn, inlineCallLocationId));
      ghost var v := unwind.Abs();
      ContinuesTransitive(t, u, v);
      var symId := Text(top.name, locationId);
      ghost var w := unwind.Abs();
      ContinuesTransitive(t, v, w);
      Name(locationId, SymbolOf(symId, b, x, isInline));
      ContinuesTransitive(t, w, unwind.Abs());
    }

    /** One entry of an inline chain: an inlined call also gets a location for its call. */
    method ParseDie(top: Die, b: Binary, x: Extent, entry: u64, parentLocationId: int) returns (locationId: int)
      requires Sound(unwind.Abs()) && pid != 0 && BinaryIds(unwind.Abs(), b)
      requires top.tag == InlinedSubroutine ==> parentLocationId in unwind.symbols
      modifies unwind
      ensures Sound(unwind.Abs()) && Goes(old(unwind.Abs()), unwind.Abs())
      ensures (unwind.Abs(), locationId) == Parsed(old(unwind.Abs()), top, entry, b, x, pid, parentLocationId)
      ensures if top.tag == OtherTag then locationId == -1
              else 0 <= locationId < |unwind.locations| && locationId in unwind.symbols
    {
      hide SoundBut, Mirrored, Continues, ResolveString, ResolveLocation;
      ghost var t := unwind.Abs();
      match top.tag
      case InlinedSubroutine =>
        SoundSymbols(unwind.Abs());
        var fileId := Text(top.callFile, -1);
        ghost var u := unwind.Abs();
        var callLocationId := Place(Location(entry, 0, fileId, pid, top.callLine, top.callColumn, parentLocationId));
        ghost var v := unwind.Abs();
        ContinuesTransitive(t, u, v);
        locationId := InsertSubprogram(top, entry, b, x, callLocationId, true);
        ContinuesTransitive(t, v, unwind.Abs());
      case Subprogram =>
        locationId := InsertSubprogram(top, entry, b, x, -1, false);
      case OtherTag =>
        ContinuesItself(unwind.Abs());
        locationId := -1;
    }

    /** The inline chain of an address, outermost function first; each call is the parent of
        the next. */
    method ParseDwarf(f: FoundFunction, bias: u64, b: Binary, x: Extent) returns (parentLocationId: int)
      requires Sound(unwind.Abs()) && pid != 0 && BinaryIds(unwind.Abs(), b) && f.die.tag == Subprogram
      modifies unwind
      ensures Sound(unwind.Abs()) && Goes(old(unwind.Abs()), unwind.Abs())
      ensures (unwind.Abs(), parentLocationId) == ParsedChain(old(unwind.Abs()), [f.die] + f.scopes, bias, b, x, pid)
      ensures 0 <= parentLocationId < |unwind.locations| && parentLocationId in unwind.symbols
    {
      hide SoundBut, Mirrored, Continues, Parsed, ParsedChain;
      ghost var t := unwind.Abs();
      NoChain(t, bias, b, x, pid);
      ChainSnoc(t, [], f.die, bias, b, x, pid);
      assert [] + [f.die] == [f.die] && [f.die] + f.scopes[..0] == [f.die];
      parentLocationId := ParseDie(f.die, b, x, ScopeAddress(f.die, bias), -1);
      for i := 0 to |f.scopes|
        invariant Sound(unwind.Abs()) && Goes(t, unwind.Abs())
        invariant 0 <= parentLocationId < |unwind.locations| && parentLocationId in unwind.symbols
        invariant (unwind.Abs(), parentLocationId) == ParsedChain(t, [f.die] + f.scopes[..i], bias, b, x, pid)
      {
        ghost var u := unwind.Abs();
        ChainSnoc(t, [f.die] + f.scopes[..i], f.scopes[i], bias, b, x, pid);
        assert [f.die] + f.scopes[..i] + [f.scopes[i]] == [f.die] + f.scopes[..i + 1];
        var locationId := ParseDie(f.scopes[i], b, x, ScopeAddress(f.scopes[i], bias), parentLocationId);
        ContinuesTransitive(t, u, unwind.Abs());
        if locationId != -1 {
          parentLocationId := locationId;
        }
      }
      assert f.scopes[..|f.scopes|] == f.scopes;
    }

    /** Gives a location the symbol that is known, unless it has one. */
    method EnsureSymbol(id: int, symname: string, b: Binary, x: Extent)
      requires SoundBut(unwind.Abs(), id) && 0 <= id < |unwind.locations| && BinaryIds(unwind.Abs(), b)
      modifies unwind
      ensures Sound(unwind.Abs()) && Goes(old(unwind.Abs()), unwind.Abs())
      ensures unwind.Abs() == Ensured(old(unwind.Abs()), id, symname, b, x)
      ensures id in unwind.symbols && id < |unwind.locations|
    {
      hide SoundBut, Mirrored, Continues, ResolveString, ResolveLocation;
      ghost var t := unwind.Abs();
      ContinuesItself(t);
      if unwind.HasSymbol(id) {
        SoundAnyway(t, id);
      } else {
        var symId := Text(symname, id);
        ghost var u := unwind.Abs();
        Name(id, SymbolOf(symId, b, x, false));
        ContinuesTransitive(t, u, unwind.Abs());
      }
    }

    /** Where a known function starts according to its debugging entry. */
    method EntryLocation(f: FoundFunction, bias: u64) returns (l: Location, symname: string)
      requires Sound(unwind.Abs()) && pid != 0
      modifies unwind
      ensures Sound(unwind.Abs()) && Goes(old(unwind.Abs()), unwind.Abs())
      ensures (unwind.Abs(), l) == EntryOf(old(unwind.Abs()), f, bias, pid)
      ensures StringId(unwind.Abs(), l.file) && l.parent == -1 && l.pid == pid && symname == Innermost(f).name
    {
      hide ResolveString, SoundBut, Continues;
      var die := Innermost(f);
      symname := die.name;
      var fileId := Text(die.declFile, -1);
      l := Location(Wrap64(die.entry + bias), 0, fileId, pid, die.declLine, die.declColumn, -1);
    }

    /** The inline chain of a function, if it is cached or can be parsed; -1 otherwise. */
    method InlineChain(f: FoundFunction, functionLocation: Location, bias: u64, b: Binary, x: Extent)
      returns (parentLocationId: int)
      requires Sound(unwind.Abs()) && pid != 0 && BinaryIds(unwind.Abs(), b) && f.die.tag == Subprogram
      modifies unwind
      ensures Sound(unwind.Abs()) && Goes(old(unwind.Abs()), unwind.Abs())
      ensures (unwind.Abs(), parentLocationId) == InlineParent(old(unwind.Abs()), f, functionLocation, bias, b, x, pid)
      ensures Refers(parentLocationId, |unwind.locations|)
    {
      hide SoundBut, Mirrored, Continues, ParsedChain;
      ContinuesItself(unwind.Abs());
      LookupIsInRange(unwind.Abs(), functionLocation);
      parentLocationId := unwind.LookupLocation(functionLocation);
      if f.scopes != [] && !unwind.HasSymbol(parentLocationId) {
        parentLocationId := ParseDwarf(f, bias, b, x);
      }
    }

    /** What a compilation unit says: the source line of the address, and its function. */
    method DebugInfo(unit: CompilationUnit, address: Location, entry: Location, symname: string, b: Binary, x: Extent)
      returns (address': Location, entry': Location, symname': string)
      requires Sound(unwind.Abs()) && pid != 0 && BinaryIds(unwind.Abs(), b)
      requires unit.found.Some? ==> unit.found.value.die.tag == Subprogram
      requires address.file == -1 && address.parent == -1 && address.pid == pid && address.line == address.column == 0
      requires entry.file == -1 && entry.parent == -1 && entry.pid == pid
      modifies unwind
      ensures Sound(unwind.Abs()) && Goes(old(unwind.Abs()), unwind.Abs())
      ensures StringId(unwind.Abs(), address'.file) && Refers(address'.parent, |unwind.locations|)
      ensures address'.pid == pid
      ensures StringId(unwind.Abs(), entry'.file) && entry'.parent == -1 && entry'.pid == pid
      ensures symname' == FunctionName(Some(unit), symname)
      ensures var line := SourceOf(Some(unit));
        && FileIs(unwind.Abs(), line.file, address'.file)
        && address' ==
           address.(file := address'.file, parent := address'.parent, line := line.line, column := line.column)
      ensures (unwind.Abs(), address', entry') == Debugged(old(unwind.Abs()), unit, address, entry, b, x, pid)
    {
      hide SoundBut, Mirrored, Continues, EntryOf, InlineParent, ResolveString, ResolveLocation;
      ghost var t := unwind.Abs();
      ContinuesItself(t);
      NoText(t);
      address', entry', symname' := address, entry, symname;
      if unit.source.Some? {
        var line := unit.source.value;
        var fileId := Text(line.file, -1);
        address' := address'.(file := fileId, line := line.line, column := line.column);
      }
      if unit.found.Some? {
        ghost var u := unwind.Abs();
        entry', symname' := EntryLocation(unit.found.value, unit.bias);
        ghost var v := unwind.Abs();
        ContinuesTransitive(t, u, v);
        var parent := InlineChain(unit.found.value, entry', unit.bias, b, x);
        ContinuesTransitive(t, v, unwind.Abs());
        FileStays(u, v, SourceOf(Some(unit)).file, address'.file);
        FileStays(v, unwind.Abs(), SourceOf(Some(unit)).file, address'.file);
        address' := address'.(parent := parent);
      }
    }

    /** The ids that describe the binary an address lies in. */
    method DescribeBinary(elf: ElfInfo, isKernel: bool) returns (b: Binary)
      requires Sound(unwind.Abs())
      modifies unwind
      ensures Sound(unwind.Abs()) && Goes(old(unwind.Abs()), unwind.Abs())
      ensures (unwind.Abs(), b) == Described(old(unwind.Abs()), elf, isKernel)
      ensures BinaryIds(unwind.Abs(), b) && b.isKernel == isKernel
    {
      hide SoundBut, Mirrored, Continues;
      ghost var t := unwind.Abs();
      ContinuesItself(t);
      b := Binary(-1, -1, -1, isKernel);
      if elf.IsValid() {
        var name := Text(elf.originalFileName, -1);
        ghost var u := unwind.Abs();
        var path := Text(elf.originalPath, -1);
        ghost var v := unwind.Abs();
        ContinuesTransitive(t, u, v);
        var actualPath := Text(elf.localFile.absolutePath, -1);
        ContinuesTransitive(t, v, unwind.Abs());
        b := Binary(name, path, actualPath, isKernel);
      }
    }

    /** The address and the function it lies in, as far as the module tells. */
    method FindFunction(a: Answers, ip: u64, elfStart: u64, b: Binary)
      returns (address: Location, entry: Location, symname: string, x: Extent)
      requires Sound(unwind.Abs()) && pid != 0 && BinaryIds(unwind.Abs(), b) && Plausible(a) && a.isModule
      modifies unwind
      ensures Sound(unwind.Abs()) && Goes(old(unwind.Abs()), unwind.Abs())
      ensures Describes(unwind.Abs(), address, a, ip, isArm, pid)
      ensures x == ExtentOf(a, SymbolAddress(ip, isArm), elfStart, isArm)
      ensures StringId(unwind.Abs(), address.file) && Refers(address.parent, |unwind.locations|)
      ensures StringId(unwind.Abs(), entry.file) && entry.parent == -1 && entry.pid == pid
      ensures symname == NameOf(a, b.isKernel)
      ensures (unwind.Abs(), address, entry) ==
        FunctionFound(old(unwind.Abs()), a, AddressOnly(ip, isArm, pid), elfStart, b, isArm, pid)
    {
      hide SoundBut, Mirrored, Continues, Debugged;
      ContinuesItself(unwind.Abs());
      address := AddressOnly(ip, isArm, pid);
      entry := address;
      x := Extent(0, 0, 0);
      if a.symbol.name != "" {
        var off := Wrap64(address.address - elfStart - a.symbol.offset);
        symname := a.symbol.name;
        x := Extent(a.symbol.value, a.symbol.size, AlignedAddress(Wrap64(a.symbol.value + off), isArm));
        entry := entry.(address := Wrap64(entry.address - off));
        if a.unit.Some? {
          address, entry, symname := DebugInfo(a.unit.value, address, entry, symname, b, x);
        }
      } else {
        symname := a.sectionName;
      }
    }

    /** The frame's own location, its function's in place, given a module. */
    method InModule(a: Answers, ip: u64, elfStart: u64, b: Binary)
      returns (address: Location, symname: string, x: Extent)
      requires Sound(unwind.Abs()) && pid != 0 && BinaryIds(unwind.Abs(), b) && Plausible(a) && a.isModule
      modifies unwind
      ensures Describes(unwind.Abs(), address, a, ip, isArm, pid)
      ensures x == ExtentOf(a, SymbolAddress(ip, isArm), elfStart, isArm)
      ensures symname == NameOf(a, b.isKernel)
      ensures SoundBut(unwind.Abs(), address.parent) && Goes(old(unwind.Abs()), unwind.Abs())
      ensures StringId(unwind.Abs(), address.file)
      ensures 0 <= address.parent < |unwind.locations|
      ensures (unwind.Abs(), address) ==
        Modular(old(unwind.Abs()), a, AddressOnly(ip, isArm, pid), elfStart, b, isArm, pid)
    {
      hide SoundBut, Mirrored, Continues, Describes, ExtentOf, LocationIs, FunctionFound;
      ghost var t := unwind.Abs();
      var entry;
      address, entry, symname, x := FindFunction(a, ip, elfStart, b);
      if address.parent == -1 {
        ghost var u := unwind.Abs();
        var parent := Place(entry);
        ContinuesTransitive(t, u, unwind.Abs());
        DescribesStays(u, unwind.Abs(), address, a, ip, isArm, pid);
        DescribesAnyParent(unwind.Abs(), address, parent, a, ip, isArm, pid);
        address := address.(parent := parent);
      } else {
        SoundButAny(unwind.Abs(), address.parent);
      }
    }

    /** The same without a module: from the kernel's symbols or from a map of generated code. */
    method OutsideModule(a: Answers, ip: u64, elfStart: u64, b: Binary)
      returns (address: Location, symname: string, b': Binary)
      requires Sound(unwind.Abs()) && pid != 0 && BinaryIds(unwind.Abs(), b) && !a.isModule
      modifies unwind
      ensures Describes(unwind.Abs(), address, a, ip, isArm, pid)
      ensures symname == NameOf(a, b.isKernel)
      ensures SoundBut(unwind.Abs(), address.parent) && Goes(old(unwind.Abs()), unwind.Abs())
      ensures StringId(unwind.Abs(), address.file) && BinaryIds(unwind.Abs(), b')
      ensures 0 <= address.parent < |unwind.locations|
      ensures (unwind.Abs(), address, b') ==
        Outside(old(unwind.Abs()), a, AddressOnly(ip, isArm, pid), elfStart, b)
    {
      hide SoundBut, Mirrored, Continues, ResolveString, ResolveLocation, Wrap64, SymbolAddress;
      ghost var t := unwind.Abs();
      ContinuesItself(t);
      address := AddressOnly(ip, isArm, pid);
      b' := b;
      var off;
      if b.isKernel {
        off, symname := Wrap64(address.address - a.kallsymAddress), a.kallsymName;
        if a.kallsymModule != "" {
          var name := Text(a.kallsymModule, -1);
          b' := b.(name := name);
        }
      } else {
        off, symname := 0, "";
        if a.perfMap.Some? {
          off, symname := Wrap64(address.address - a.perfMap.value.start), a.perfMap.value.name;
        }
      }
      ghost var u := unwind.Abs();
      var entry := address.(address := if off != 0 then Wrap64(address.address - off) else elfStart);
      var parent := Place(entry);
      ContinuesTransitive(t, u, unwind.Abs());
      address := address.(parent := parent);
    }

    /** A location for an address that was not looked up before: whatever the answers, its
        parent exists and has a symbol. */
    method LookupUncached(a: Answers, elf: ElfInfo, ip: u64, isKernel: bool) returns (locationId: int, symname: string)
      requires Sound(unwind.Abs()) && pid != 0 && Plausible(a)
      modifies unwind
      ensures Sound(unwind.Abs()) && Goes(old(unwind.Abs()), unwind.Abs())
      ensures 0 <= locationId < |unwind.locations|
      ensures LocatedAs(unwind.Abs(), locationId, a, elf, ip, isArm, pid)
      ensures symname == NameOf(a, isKernel)
      ensures (unwind.Abs(), locationId) == LookedUp(old(unwind.Abs()), a, elf, ip, isKernel, isArm, pid)
    {
      hide SoundBut, Mirrored, Continues, Describes, ExtentOf, LocationIs, LocatedAs;
      hide Described, Modular, Outside, Ensured, NameOf, ResolveLocation;
      ghost var t := unwind.Abs();
      var b := DescribeBinary(elf, isKernel);
      ghost var u := unwind.Abs();
      var elfStart := ElfStart(elf);
      var address, x := Location(0, 0, -1, pid, 0, 0, -1), Extent(0, 0, 0);
      NoExtent(a, SymbolAddress(ip, isArm), elfStart, isArm);
      if a.isModule {
        address, symname, x := InModule(a, ip, elfStart, b);
      } else {
        address, symname, b := OutsideModule(a, ip, elfStart, b);
      }
      ghost var v := unwind.Abs();
      ContinuesTransitive(t, u, v);
      EnsureSymbol(address.parent, symname, b, x);
      ghost var w := unwind.Abs();
      ContinuesTransitive(t, v, w);
      assert address.parent != -1;
      assert unwind.HasSymbol(address.parent);
      DescribesStays(v, w, address, a, ip, isArm, pid);
      DescribesAnyParent(w, address, address.parent, a, ip, isArm, pid);
      address := address.(relAddr := x.relAddr);
      locationId := Place(address);
      ContinuesTransitive(t, w, unwind.Abs());
      DescribesStays(w, unwind.Abs(), address, a, ip, isArm, pid);
      LocatedByKey(unwind.Abs(), locationId, address, a, elf, ip, isArm, pid);
    }

    /** The caches as they were, and one more frame. */
    method Remember(ghost before: Tables, ghost asked: Asked, elf: ElfInfo, ip: u64, entry: CacheEntry)
      requires asked.elf == elf && asked.ip == ip && asked.pid == pid && isArm == addressCache.isArm
      requires addressCache.Valid(before) && InvalidCacheValid(before) && Goes(before, unwind.Abs())
      requires Remembers(unwind.Abs(), isArm, entry, asked) && 0 <= entry.locationId
      modifies `invalidAddressCache, `invalidFirsts, addressCache
      ensures addressCache.Valid(unwind.Abs()) && InvalidCacheValid(unwind.Abs())
      ensures CachedFrame(elf, ip) == Some(entry) && FirstLookup(elf, ip) == Some(asked)
      ensures addressCache.cache ==
        if elf.IsValid() then old(addressCache.cache)[CacheKey(elf, ip) := entry] else old(addressCache.cache)
      ensures invalidAddressCache ==
        if elf.IsValid() then old(invalidAddressCache) else old(invalidAddressCache)[ip := entry]
    {
      hide Sound, CacheKey, Remembers, Goes;
      addressCache.ValidStays(before, unwind.Abs());
      InvalidCacheStays(before, unwind.Abs());
      if elf.IsValid() {
        addressCache.cache := addressCache.cache[CacheKey(elf, ip) := entry];
        addressCache.firsts := addressCache.firsts[CacheKey(elf, ip) := asked];
      } else {
        invalidAddressCache := invalidAddressCache[ip := entry];
        invalidFirsts := invalidFirsts[ip := asked];
      }
    }

    /** Looks for the module of an entry, which may make it known: that gives the entry where
        its file starts a reported range, or the cache becomes dirty if it fails. No address
        changes its meaning. */
    method FindModule(elf: ElfInfo, a: Answers)
      requires elfs.Valid() && (elf == NO_ELF || elf in elfs.elfs)
      requires elf.HasBaseAddr() ==> elf.baseAddr < elf.addr
      modifies `cacheIsDirty, elfs
      ensures elfs.Valid() && forall x: int :: Lookup(elfs.elfs, x) == Lookup(old(elfs.elfs), x)
      ensures ModuleLookedFor(old(elfs.elfs), elf, a, elfs.elfs)
      ensures cacheIsDirty == (old(cacheIsDirty) || ReportIsMissing(old(elfs.elfs), elf, a))
    {
      hide ModuleElf, Lookup, WithReportedRange, FoundElf;
      var root := ModuleElf(elfs.elfs, elf);
      RootIsStored(elfs.elfs, elf);
      if root.IsValid() && root.localFile.isFile {
        match a.report
        case NoReport =>
        case Reported(start, end) => elfs.UpdateElf(root.addr, start, end);
        case ReportFails => cacheIsDirty := true;
      }
    }

    /** The frame for an instruction pointer. The same address in the same file is looked up
        once, for all processes; afterwards it has the frame of that first lookup, and nothing
        is sent. That is the frame asked for exactly if both are at the same place. */
    method LookupFrame(a: Answers, ip: u64, isKernel: bool) returns (locationId: int, isInterworking: bool)
      requires Valid() && Plausible(a)
      modifies this, unwind, addressCache, elfs
      ensures Valid() && Goes(old(unwind.Abs()), unwind.Abs())
      ensures 0 <= locationId < |unwind.locations|
      ensures forall x: int :: Lookup(elfs.elfs, x) == Lookup(old(elfs.elfs), x)
      ensures var elf, entry := FoundElf(old(elfs.elfs), ip), CacheEntry(locationId, isInterworking);
        var asked, first := Asked(a, elf, ip, isKernel, pid), FirstLookup(elf, ip);
        && CachedFrame(elf, ip) == Some(entry)
        && first.Some? && Remembers(unwind.Abs(), isArm, entry, first.value)
        && (LocatedAs(unwind.Abs(), locationId, a, elf, ip, isArm, pid) <==> SamePlace(first.value, asked, isArm))
      ensures var elf, entry := FoundElf(old(elfs.elfs), ip), CacheEntry(locationId, isInterworking);
        if old(CachedFrame(FoundElf(elfs.elfs, ip), ip)).Some? then
          && old(CachedFrame(FoundElf(elfs.elfs, ip), ip)) == Some(entry) && unwind.Abs() == old(unwind.Abs())
          && FirstLookup(elf, ip) == old(FirstLookup(FoundElf(elfs.elfs, ip), ip))
        else
          && (unwind.Abs(), locationId) == LookedUp(old(unwind.Abs()), a, elf, ip, isKernel, isArm, pid)
          && FirstLookup(elf, ip) == Some(Asked(a, elf, ip, isKernel, pid))
      ensures var elf, entry := FoundElf(old(elfs.elfs), ip), CacheEntry(locationId, isInterworking);
        if old(CachedFrame(FoundElf(elfs.elfs, ip), ip)).Some? then
          && addressCache.cache == old(addressCache.cache) && invalidAddressCache == old(invalidAddressCache)
          && elfs.elfs == old(elfs.elfs) && cacheIsDirty == old(cacheIsDirty)
        else
          && ModuleLookedFor(old(elfs.elfs), elf, a, elfs.elfs)
          && cacheIsDirty == (old(cacheIsDirty) || ReportIsMissing(old(elfs.elfs), elf, a))
          && addressCache.cache ==
               (if elf.IsValid() then old(addressCache.cache)[CacheKey(elf, ip) := entry] else old(addressCache.cache))
          && invalidAddressCache ==
               if elf.IsValid() then old(invalidAddressCache) else old(invalidAddressCache)[ip := entry]
    {
      hide SoundBut, Mirrored, Continues, LocatedAs, Remembers, CacheKey, LookedUp, FoundElf, Lookup, NameOf, SamePlace;
      hide ModuleElf, WithReportedRange, ModuleLookedFor, ReportIsMissing;
      ContinuesItself(unwind.Abs());
      FoundIsValid(elfs.elfs, ip);
      var elf := elfs.FindElf(ip);
      ghost var t, asked := unwind.Abs(), Asked(a, elf, ip, isKernel, pid);
      SoundIsMirrored(t, -1);
      var cached := CachedFrame(elf, ip);
      if cached.Some? {
        RemembersInRange(t, isArm, cached.value, FirstLookup(elf, ip).value);
        LocatedExactly(t, cached.value.locationId, isArm, FirstLookup(elf, ip).value, asked);
        return cached.value.locationId, cached.value.isInterworking;
      }
      ElfHasBaseBelow(elfs.elfs, elf);
      FindModule(elf, a);
      var symname;
      locationId, symname := LookupUncached(a, elf, ip, isKernel);
      isInterworking := symname == "$a" || symname == "$t";
      RemembersItself(unwind.Abs(), isArm, CacheEntry(locationId, isInterworking), asked);
      Remember(t, asked, elf, ip, CacheEntry(locationId, isInterworking));
      SoundIsMirrored(unwind.Abs(), -1);
      LocatedExactly(unwind.Abs(), locationId, isArm, asked, asked);
    }

    function CachedFrame(elf: ElfInfo, ip: u64): Option<CacheEntry>
      reads this, addressCache
    {
      if elf.IsValid() then Cached(addressCache.cache, CacheKey(elf, ip)) else Cached(invalidAddressCache, ip)
    }

    /** The lookup whose frame is cached for an address. */
    ghost function FirstLookup(elf: ElfInfo, ip: u64): Option<Asked>
      reads this, addressCache
    {
      var key := CacheKey(elf, ip);
      if elf.IsValid() then if key in addressCache.firsts then Some(addressCache.firsts[key]) else None
      else if ip in invalidFirsts then Some(invalidFirsts[ip]) else None
    }
  }

  /** Looking for the module of an entry gives the entry where its file starts the reported range,
      and leaves all others as they were. */
  ghost predicate ModuleLookedFor(before: seq<ElfInfo>, elf: ElfInfo, a: Answers, after: seq<ElfInfo>)
    requires ValidElfs(before) && (elf.HasBaseAddr() ==> elf.baseAddr < elf.addr)
  {
    var root := ModuleElf(before, elf);
    && |after| == |before|
    && forall k :: 0 <= k < |after| ==>
         after[k] == if root.IsValid() && root.localFile.isFile && a.report.Reported?
                     then WithReportedRange(before[k], root.addr, a.report.start, a.report.end)
                     else before[k]
  }

  /** The module cannot be reported, although there is a file to report. */
  ghost predicate ReportIsMissing(elfs: seq<ElfInfo>, elf: ElfInfo, a: Answers)
    requires ValidElfs(elfs) && (elf.HasBaseAddr() ==> elf.baseAddr < elf.addr)
  {
    var root := ModuleElf(elfs, elf);
    root.IsValid() && root.localFile.isFile && a.report.ReportFails?
  }

  lemma ElfHasBaseBelow(elfs: seq<ElfInfo>, elf: ElfInfo)
    requires ValidElfs(elfs) && (elf == NO_ELF || elf in elfs)
    ensures elf.HasBaseAddr() ==> elf.baseAddr < elf.addr
  {
    if elf in elfs {
      assert ValidEntry(elf);
    }
  }

  lemma RootIsStored(elfs: seq<ElfInfo>, elf: ElfInfo)
    requires ValidElfs(elfs) && (elf == NO_ELF || elf in elfs)
    requires elf.HasBaseAddr() ==> elf.baseAddr < elf.addr
    ensures var root := ModuleElf(elfs, elf);
      root.IsValid() ==> exists k :: 0 <= k < |elfs| && elfs[k].addr == root.addr
  {
    hide FoundElf, ModuleElf;
    ModuleElfIsRoot(elfs, elf);
    FoundIsValid(elfs, ModuleElf(elfs, elf).addr);
  }

  lemma NoText(t: Tables)
    ensures ResolveString(t, "") == (t, -1)
  {
  }

  lemma SoundIsMirrored(t: Tables, id: int)
    requires SoundBut(t, id)
    ensures Mirrored(t)
  {
  }

  lemma SoundSymbols(t: Tables)
    requires Sound(t)
    ensures forall id :: id in t.symbols ==> 0 <= id < |t.locations|
  {
    SymbolsAreLocations(t);
  }

  lemma LookupIsInRange(t: Tables, l: Location)
    requires Sound(t)
    ensures Refers(LookupLocation(t, l), |t.locations|)
  {
    hide KeyOf, Keys, AllReferBack;
    if KeyOf(l) in t.locations {
      NumberedAt(t.locations, Keys(Replay(t.sent).locations), KeyOf(l));
    }
  }

  lemma NoExtent(a: Answers, address: u64, elfStart: u64, isArm: bool)
    ensures !a.isModule ==> ExtentOf(a, address, elfStart, isArm) == Extent(0, 0, 0)
  {
  }

  lemma SoundButAny(t: Tables, id: int)
    requires Sound(t)
    ensures SoundBut(t, id)
  {
  }
}
