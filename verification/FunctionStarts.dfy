/** Where a frame lookup puts the function of an address that lies in no module. */
module FunctionStarts {
  import opened WordArithmetic
  import opened Wrappers
  import opened ElfMaps
  import opened OutputMessages
  import opened OutputTables
  import opened FrameAnswers
  import opened InlineChains
  import opened ChainWalks

  /** The location that a lookup finds or makes for the function of the address. */
  function FunctionId(t: Tables, a: Answers, elf: ElfInfo, ip: u64, isKernel: bool, isArm: bool, pid: nat): int {
    var (u, b) := Described(t, elf, isKernel);
    Parented(u, a, ip, ElfStart(elf), b, isArm, pid).1.parent
  }

  lemma StartExact(a: Answers, address: u64, elfStart: u64, isKernel: bool)
    ensures var start := SymbolStart(a, isKernel);
      StartOutside(a, address, elfStart, isKernel) ==
        if start.Some? && start.value != address then start.value else elfStart
  {
    if SymbolStart(a, isKernel).Some? {
      var start := SymbolStart(a, isKernel).value;
      Wrap64Twice(address, start);
      Wrap64IsModulo(address - start);
    }
  }

  /** Definitions of texts and symbols leave the locations alone. */
  ghost predicate SameLocations(t: Tables, t': Tables) {
    Mirrored(t') && Continues(t, t') && ClientOf(t').locations == ClientOf(t).locations
  }

  lemma TextKeepsLocations(t: Tables, text: string)
    requires Mirrored(t)
    ensures SameLocations(t, ResolveString(t, text).0) && StringId(ResolveString(t, text).0, ResolveString(t, text).1)
  {
    hide Mirrored, Continues, ResolveString, ClientOf;
    StringStep(t, text);
  }

  lemma DescribedKeepsLocations(t: Tables, elf: ElfInfo, isKernel: bool)
    requires Mirrored(t)
    ensures var (u, b) := Described(t, elf, isKernel); SameLocations(t, u) && BinaryIds(u, b)
  {
    hide Mirrored, Continues, ResolveString, ClientOf;
    if elf.IsValid() {
      var (u, name) := ResolveString(t, elf.originalFileName);
      TextKeepsLocations(t, elf.originalFileName);
      var (v, path) := ResolveString(u, elf.originalPath);
      TextKeepsLocations(u, elf.originalPath);
      var w := ResolveString(v, elf.localFile.absolutePath).0;
      TextKeepsLocations(v, elf.localFile.absolutePath);
      ContinuesTransitive(t, u, v);
      ContinuesTransitive(t, v, w);
      StringIdStays(u, v, name);
      StringIdStays(v, w, name);
      StringIdStays(v, w, path);
    } else {
      ContinuesItself(t);
    }
  }

  lemma StringIdStays(t: Tables, t': Tables, id: int)
    requires Continues(t, t') && StringId(t, id)
    ensures StringId(t', id)
  {
  }

  lemma EnsuredKeepsLocations(t: Tables, id: int, symname: string, b: Binary, x: Extent)
    requires Mirrored(t) && BinaryIds(t, b) && 0 <= id < |t.locations|
    ensures SameLocations(t, Ensured(t, id, symname, b, x))
  {
    hide Mirrored, Continues, ResolveString, ResolveSymbol, ClientOf;
    if id in t.symbols {
      ContinuesItself(t);
    } else {
      var (u, name) := ResolveString(t, symname);
      StringStep(t, symname);
      Grown(t, u, b, id);
      SymbolStep(u, id, SymbolOf(name, b, x, false));
      ContinuesTransitive(t, u, Ensured(t, id, symname, b, x));
    }
  }

  /** The function's location lies where it is put, and it is a known one or the next. */
  lemma OutsideParent(t: Tables, a: Answers, address: Location, elfStart: u64, b: Binary)
    requires Mirrored(t) && BinaryIds(t, b) && address.file == -1 && address.parent == -1
    ensures var (t', address', b') := Outside(t, a, address, elfStart, b);
      var p := address'.parent;
      && Mirrored(t') && Continues(t, t') && BinaryIds(t', b') && address' == address.(parent := p)
      && 0 <= p < |t'.locations| == |ClientOf(t').locations|
      && ClientOf(t').locations[p].address == StartOutside(a, address.address, elfStart, b.isKernel)
      && ClientOf(t).locations <= ClientOf(t').locations
      && p <= |ClientOf(t).locations|
      && |ClientOf(t').locations| == (if p < |ClientOf(t).locations| then |ClientOf(t).locations| else p + 1)
  {
    hide Mirrored, Continues, ResolveString, ResolveLocation, ClientOf, StartOutside, KeptParent;
    var (u, name) := if b.isKernel && a.kallsymModule != "" then ResolveString(t, a.kallsymModule) else (t, b.name);
    if b.isKernel && a.kallsymModule != "" {
      TextKeepsLocations(t, a.kallsymModule);
    } else {
      ContinuesItself(t);
    }
    var entry := address.(address := StartOutside(a, address.address, elfStart, b.isKernel));
    LocationWalk(u, entry);
    var v := ResolveLocation(u, entry).0;
    ContinuesTransitive(t, u, v);
    Grown(t, u, b, -1);
    Grown(u, v, b.(name := name), -1);
  }

  /** For an address in no module, in the kernel or in generated code: at the client the
      function lies at its symbol's start, unless the address is that very start or there is no
      symbol; then it lies where the mapped file starts. The address's own location, if it is a
      new one, has the function as its parent. */
  lemma FunctionOutsideModule(t: Tables, a: Answers, elf: ElfInfo, ip: u64, isKernel: bool, isArm: bool, pid: nat)
    requires Mirrored(t) && !a.isModule
    ensures var (t', id) := LookedUp(t, a, elf, ip, isKernel, isArm, pid);
      var p := FunctionId(t, a, elf, ip, isKernel, isArm, pid);
      var c, c', start := ClientOf(t), ClientOf(t'), SymbolStart(a, isKernel);
      && Mirrored(t') && 0 <= id < |c'.locations| && 0 <= p < |c'.locations|
      && c'.locations[p].address ==
           (if start.Some? && start.value != SymbolAddress(ip, isArm) then start.value else ElfStart(elf))
      && (start.Some? ==>
            (c'.locations[p].address == start.value <==>
              SymbolAddress(ip, isArm) != start.value || ElfStart(elf) == start.value))
      && (id < |c.locations| || id == p || c'.locations[id].parent == p)
  {
    hide Mirrored, Continues, Described, Outside, Ensured, ResolveLocation, ClientOf, StartOutside, KeptParent, NameOf;
    hide ExtentOf, SymbolAddress, SymbolStart, ElfStart;
    var (u, b) := Described(t, elf, isKernel);
    DescribedKeepsLocations(t, elf, isKernel);
    assert b.isKernel == isKernel by { KernelStays(t, elf, isKernel); }
    var (v, address, b') := Outside(u, a, AddressOnly(ip, isArm, pid), ElfStart(elf), b);
    OutsideParent(u, a, AddressOnly(ip, isArm, pid), ElfStart(elf), b);
    StartExact(a, SymbolAddress(ip, isArm), ElfStart(elf), isKernel);
    var x := ExtentOf(a, SymbolAddress(ip, isArm), ElfStart(elf), isArm);
    var w := Ensured(v, address.parent, NameOf(a, isKernel), b', x);
    EnsuredKeepsLocations(v, address.parent, NameOf(a, isKernel), b', x);
    Grown(v, w, b', address.parent);
    LocationWalk(w, address.(relAddr := x.relAddr));
    assert ClientOf(v).locations[address.parent] == ClientOf(w).locations[address.parent];
  }

  lemma KernelStays(t: Tables, elf: ElfInfo, isKernel: bool)
    ensures Described(t, elf, isKernel).1.isKernel == isKernel
  {
  }

  /** Where a new producer's client has the function of an address. */
  ghost function FirstStart(a: Answers, elf: ElfInfo, ip: u64, isKernel: bool): Option<u64> {
    var c := ClientOf(LookedUp(NEW_TABLES, a, elf, ip, isKernel, false, 1).0);
    var p := FunctionId(NEW_TABLES, a, elf, ip, isKernel, false, 1);
    if 0 <= p < |c.locations| then Some(c.locations[p].address) else None
  }

  const KERNEL := MakeElf(NO_FILE, 0xFFFF_FFFF_8100_0000, 0x100_0000, 0, "[kernel]", "[kernel]")
  const NO_SYMBOLS := Answers(false, NoReport, FoundSymbol(0, 0, 0, ""), "", None, 0, "", "", None)
  const SCHEDULE := NO_SYMBOLS.(kallsymAddress := 0xFFFF_FFFF_8100_0100, kallsymName := "schedule")
  const GENERATED := NO_SYMBOLS.(perfMap := Some(PerfMapSymbol(0x7000, "generated")))

  /** A kernel function looked up at its start is put at the start of the kernel, and behind it
      at its start; generated code outside of all files is put at zero in the first case. */
  lemma FunctionStartExample()
    ensures FirstStart(SCHEDULE, KERNEL, 0xFFFF_FFFF_8100_0100, true) == Some(0xFFFF_FFFF_8100_0000)
    ensures FirstStart(SCHEDULE, KERNEL, 0xFFFF_FFFF_8100_0104, true) == Some(0xFFFF_FFFF_8100_0100)
    ensures FirstStart(GENERATED, NO_ELF, 0x7000, false) == Some(0)
    ensures FirstStart(GENERATED, NO_ELF, 0x7004, false) == Some(0x7000)
  {
    hide Mirrored, ClientOf, LookedUp, FunctionId;
    NewIsMirrored();
    FunctionOutsideModule(NEW_TABLES, SCHEDULE, KERNEL, 0xFFFF_FFFF_8100_0100, true, false, 1);
    FunctionOutsideModule(NEW_TABLES, SCHEDULE, KERNEL, 0xFFFF_FFFF_8100_0104, true, false, 1);
    FunctionOutsideModule(NEW_TABLES, GENERATED, NO_ELF, 0x7000, false, false, 1);
    FunctionOutsideModule(NEW_TABLES, GENERATED, NO_ELF, 0x7004, false, false, 1);
  }
}
