/** What the debug-information libraries answer about an address, and the requests to the id
    tables that a frame lookup makes with these answers. */
module FrameAnswers {
  import opened WordArithmetic
  import opened Wrappers
  import opened ElfMaps
  import opened OutputMessages
  import opened OutputTables

  datatype Tag = InlinedSubroutine | Subprogram | OtherTag

  /** A debugging entry: its entry point (zero: none), where it is declared, and for an
      inlined one where it is called. */
  datatype Die = Die(tag: Tag, entry: u64, name: string, declFile: string, declLine: int, declColumn: int,
                     callFile: string, callLine: int, callColumn: int)

  datatype SourceLine = SourceLine(file: string, line: int, column: int)

  /** The function at an address, and the inlined calls around the address, outermost first. */
  datatype FoundFunction = FoundFunction(die: Die, scopes: seq<Die>)

  datatype CompilationUnit = CompilationUnit(bias: u64, source: Option<SourceLine>, found: Option<FoundFunction>)

  /** The symbol table's answer for an address; without a name there is no symbol. */
  datatype FoundSymbol = FoundSymbol(offset: u64, value: u64, size: u64, name: string)

  /** Generated code around an address, from the perf map. */
  datatype PerfMapSymbol = PerfMapSymbol(start: u64, name: string)

  /** Whether looking for the module made it known, with an address range, or failed to. */
  datatype Report = NoReport | Reported(start: u64, end: u64) | ReportFails

  /** Everything that is asked about an instruction pointer: whether there is a module, what
      its tables say, and what is known without one. */
  datatype Answers = Answers(
    isModule: bool, report: Report,
    symbol: FoundSymbol, sectionName: string, unit: Option<CompilationUnit>,
    kallsymAddress: u64, kallsymName: string, kallsymModule: string,
    perfMap: Option<PerfMapSymbol>)

  /** The entry of a found function is tagged as a function. */
  predicate Plausible(a: Answers) {
    a.unit.Some? && a.unit.value.found.Some? ==> a.unit.value.found.value.die.tag == Subprogram
  }

  function SymbolAddress(addr: u64, isArm: bool): u64 {
    if !isArm || addr % 2 == 1 then addr else addr + 1
  }

  function AlignedAddress(addr: u64, isArm: bool): u64 {
    if isArm && addr % 2 == 1 then addr - 1 else addr
  }

  /** The ids that describe the binary of a frame. */
  datatype Binary = Binary(name: int, path: int, actualPath: int, isKernel: bool)

  predicate BinaryIds(t: Tables, b: Binary) {
    StringId(t, b.name) && StringId(t, b.path) && StringId(t, b.actualPath)
  }

  /** What the symbol table said about the address. */
  datatype Extent = Extent(start: u64, size: u64, relAddr: u64)

  const NO_LINE := SourceLine("", 0, 0)

  /** The source line that the answers give for an address. */
  function SourceOf(unit: Option<CompilationUnit>): SourceLine {
    if unit.Some? && unit.value.source.Some? then unit.value.source.value else NO_LINE
  }

  function LineOf(a: Answers): SourceLine {
    if a.isModule && a.symbol.name != "" then SourceOf(a.unit) else NO_LINE
  }

  /** The entry that names a found function: the innermost inlined call, if there is one. */
  function Innermost(f: FoundFunction): Die {
    if f.scopes == [] then f.die else f.scopes[|f.scopes| - 1]
  }

  function FunctionName(unit: Option<CompilationUnit>, otherwise: string): string {
    if unit.Some? && unit.value.found.Some? then Innermost(unit.value.found.value).name else otherwise
  }

  /** The name of the symbol for an address. */
  function NameOf(a: Answers, isKernel: bool): string {
    if a.isModule then if a.symbol.name != "" then FunctionName(a.unit, a.symbol.name) else a.sectionName
    else if isKernel then a.kallsymName
    else if a.perfMap.Some? then a.perfMap.value.name
    else ""
  }

  /** The extent of the symbol at an address: the offset into the symbol is added to where
      the symbol lies in its file. */
  function ExtentOf(a: Answers, address: u64, elfStart: u64, isArm: bool): Extent {
    if a.isModule && a.symbol.name != "" then
      var off := Wrap64(address - elfStart - a.symbol.offset);
      Extent(a.symbol.value, a.symbol.size, AlignedAddress(Wrap64(a.symbol.value + off), isArm))
    else Extent(0, 0, 0)
  }

  // ------------------------------------------------------------ inline chains

  function ScopeAddress(die: Die, bias: u64): (r: u64)
    ensures r == (bias + die.entry) % TWO_64
  {
    Wrap64IsModulo(bias + die.entry);
    if die.entry != 0 then Wrap64(bias + die.entry) else bias
  }

  function SymbolOf(name: int, b: Binary, x: Extent, isInline: bool): Symbol {
    Symbol(name, x.start, x.size, b.name, b.path, b.actualPath, b.isKernel, isInline)
  }

  /** A function's location, and its symbol. */
  function Inserted(t: Tables, top: Die, entry: u64, b: Binary, x: Extent, pid: nat, call: int, isInline: bool)
    : (Tables, int)
  {
    var (u, file) := ResolveString(t, top.declFile);
    var (v, id) := ResolveLocation(u, Location(entry, x.relAddr, file, pid, top.declLine, top.declColumn, call));
    var (w, name) := ResolveString(v, top.name);
    (ResolveSymbol(w, id, SymbolOf(name, b, x, isInline)), id)
  }

  /** One entry of a chain: an inlined one also gets a location for its call. */
  function Parsed(t: Tables, top: Die, entry: u64, b: Binary, x: Extent, pid: nat, parent: int): (Tables, int) {
    match top.tag
    case InlinedSubroutine =>
      var (u, file) := ResolveString(t, top.callFile);
      var (v, call) := ResolveLocation(u, Location(entry, 0, file, pid, top.callLine, top.callColumn, parent));
      Inserted(v, top, entry, b, x, pid, call, true)
    case Subprogram => Inserted(t, top, entry, b, x, pid, -1, false)
    case OtherTag => (t, -1)
  }

  /** A chain of entries, outermost first. */
  function ParsedChain(t: Tables, dies: seq<Die>, bias: u64, b: Binary, x: Extent, pid: nat): (Tables, int) {
    if dies == [] then (t, -1)
    else
      var top := dies[|dies| - 1];
      var (u, parent) := ParsedChain(t, dies[..|dies| - 1], bias, b, x, pid);
      var (v, id) := Parsed(u, top, ScopeAddress(top, bias), b, x, pid, parent);
      (v, if id == -1 then parent else id)
  }

  lemma NoChain(t: Tables, bias: u64, b: Binary, x: Extent, pid: nat)
    ensures ParsedChain(t, [], bias, b, x, pid) == (t, -1)
  {
  }

  lemma ChainSnoc(t: Tables, dies: seq<Die>, top: Die, bias: u64, b: Binary, x: Extent, pid: nat)
    ensures var (u, parent) := ParsedChain(t, dies, bias, b, x, pid);
      var (v, id) := Parsed(u, top, ScopeAddress(top, bias), b, x, pid, parent);
      ParsedChain(t, dies + [top], bias, b, x, pid) == (v, if id == -1 then parent else id)
  {
    assert (dies + [top])[..|dies|] == dies;
  }

  // ------------------------------------------------------------ one lookup

  /** Where a known function starts according to its debugging entry. */
  function EntryOf(t: Tables, f: FoundFunction, bias: u64, pid: nat): (Tables, Location) {
    var die := Innermost(f);
    var (u, file) := ResolveString(t, die.declFile);
    (u, Location(Wrap64(die.entry + bias), 0, file, pid, die.declLine, die.declColumn, -1))
  }

  /** The location of a function with inlined calls: cached with a symbol, or parsed. */
  function InlineParent(t: Tables, f: FoundFunction, entry: Location, bias: u64, b: Binary, x: Extent, pid: nat)
    : (Tables, int)
  {
    var known := LookupLocation(t, entry);
    if f.scopes != [] && known !in t.symbols then ParsedChain(t, [f.die] + f.scopes, bias, b, x, pid) else (t, known)
  }

  /** What a compilation unit adds: the source line of the address, its parent, and where the
      function starts. */
  function Debugged(t: Tables, unit: CompilationUnit, address: Location, entry: Location, b: Binary, x: Extent,
                    pid: nat): (Tables, Location, Location)
  {
    var line := SourceOf(Some(unit));
    var (u, file) := ResolveString(t, line.file);
    var lined :=
      if unit.source.Some? then address.(file := file, line := line.line, column := line.column) else address;
    if unit.found.None? then (u, lined, entry)
    else
      var (v, entry') := EntryOf(u, unit.found.value, unit.bias, pid);
      var (w, parent) := InlineParent(v, unit.found.value, entry', unit.bias, b, x, pid);
      (w, lined.(parent := parent), entry')
  }

  /** The address and the start of its function, in a module. */
  function FunctionFound(t: Tables, a: Answers, address: Location, elfStart: u64, b: Binary, isArm: bool, pid: nat)
    : (Tables, Location, Location)
  {
    if a.symbol.name == "" then (t, address, address)
    else
      var off := Wrap64(address.address - elfStart - a.symbol.offset);
      var entry := address.(address := Wrap64(address.address - off));
      if a.unit.None? then (t, address, entry)
      else Debugged(t, a.unit.value, address, entry, b, ExtentOf(a, address.address, elfStart, isArm), pid)
  }

  /** The same with the parent in place. */
  function Modular(t: Tables, a: Answers, address: Location, elfStart: u64, b: Binary, isArm: bool, pid: nat)
    : (Tables, Location)
  {
    var (u, address', entry) := FunctionFound(t, a, address, elfStart, b, isArm, pid);
    if address'.parent != -1 then (u, address')
    else
      var (v, parent) := ResolveLocation(u, entry);
      (v, address'.(parent := parent))
  }

  /** Where the symbol of an address starts, without a module: the kernel's table always has
      an answer, the perf map only for generated code. */
  function SymbolStart(a: Answers, isKernel: bool): Option<u64> {
    if isKernel then Some(a.kallsymAddress)
    else if a.perfMap.Some? then Some(a.perfMap.value.start)
    else None
  }

  /** How far the address lies behind its symbol. */
  function OffsetOutside(a: Answers, address: u64, isKernel: bool): u64 {
    var start := SymbolStart(a, isKernel);
    if start.Some? then Wrap64(address - start.value) else 0
  }

  /** Where the function of an address is put, without a module. */
  function StartOutside(a: Answers, address: u64, elfStart: u64, isKernel: bool): u64 {
    var off := OffsetOutside(a, address, isKernel);
    if off != 0 then Wrap64(address - off) else elfStart
  }

  function Outside(t: Tables, a: Answers, address: Location, elfStart: u64, b: Binary): (Tables, Location, Binary) {
    var (u, name) := if b.isKernel && a.kallsymModule != "" then ResolveString(t, a.kallsymModule) else (t, b.name);
    var entry := address.(address := StartOutside(a, address.address, elfStart, b.isKernel));
    var (v, parent) := ResolveLocation(u, entry);
    (v, address.(parent := parent), b.(name := name))
  }

  /** A parent without a symbol gets the one that is known. */
  function Ensured(t: Tables, id: int, symname: string, b: Binary, x: Extent): Tables {
    if id in t.symbols then t
    else
      var (u, name) := ResolveString(t, symname);
      ResolveSymbol(u, id, SymbolOf(name, b, x, false))
  }

  function ElfStart(elf: ElfInfo): u64 {
    if !elf.IsValid() then 0 else if elf.HasBaseAddr() then elf.baseAddr else elf.addr
  }

  /** The ids that describe the binary an address lies in. */
  function Described(t: Tables, elf: ElfInfo, isKernel: bool): (Tables, Binary) {
    if !elf.IsValid() then (t, Binary(-1, -1, -1, isKernel))
    else
      var (u, name) := ResolveString(t, elf.originalFileName);
      var (v, path) := ResolveString(u, elf.originalPath);
      var (w, actualPath) := ResolveString(v, elf.localFile.absolutePath);
      (w, Binary(name, path, actualPath, isKernel))
  }

  /** The location that stands for an address before anything is known about it. */
  function AddressOnly(ip: u64, isArm: bool, pid: nat): Location {
    Location(SymbolAddress(ip, isArm), 0, -1, pid, 0, 0, -1)
  }

  /** The address with its parent, and the binary as it is named then. */
  function Parented(t: Tables, a: Answers, ip: u64, elfStart: u64, b: Binary, isArm: bool, pid: nat)
    : (Tables, Location, Binary)
  {
    if a.isModule then
      var (u, address) := Modular(t, a, AddressOnly(ip, isArm, pid), elfStart, b, isArm, pid);
      (u, address, b)
    else Outside(t, a, AddressOnly(ip, isArm, pid), elfStart, b)
  }

  /** A whole lookup. */
  function LookedUp(t: Tables, a: Answers, elf: ElfInfo, ip: u64, isKernel: bool, isArm: bool, pid: nat)
    : (Tables, int)
  {
    var (u, b) := Described(t, elf, isKernel);
    var (v, address, b') := Parented(u, a, ip, ElfStart(elf), b, isArm, pid);
    var x := ExtentOf(a, SymbolAddress(ip, isArm), ElfStart(elf), isArm);
    var w := Ensured(v, address.parent, NameOf(a, isKernel), b', x);
    ResolveLocation(w, address.(relAddr := x.relAddr))
  }

  // ------------------------------------------------------------ where functions start

  /** Without debugging entries, a function in a module starts where its symbol does. */
  lemma FunctionStartsAtSymbol(t: Tables, a: Answers, address: Location, elfStart: u64, b: Binary, isArm: bool,
                               pid: nat)
    requires a.symbol.name != "" && (a.unit.None? || a.unit.value.found.None?)
    ensures FunctionFound(t, a, address, elfStart, b, isArm, pid).2 ==
      address.(address := Wrap64(elfStart + a.symbol.offset))
  {
    Wrap64Twice(address.address, elfStart + a.symbol.offset);
  }

  lemma Wrap64Twice(x: u64, y: nat)
    ensures Wrap64(x - Wrap64(x - y)) == Wrap64(y)
  {
    var d := x - Wrap64(x - y);
    Wrap64IsModulo(x - y);
    Wrap64IsModulo(d);
    Wrap64IsModulo(y);
    var q := (x - y) / TWO_64;
    assert d == y + q * TWO_64;
    SameRemainder(y, q);
  }

  lemma SameRemainder(y: nat, q: int)
    ensures (y + q * TWO_64) % TWO_64 == y % TWO_64
  {
    var r := y / TWO_64;
    assert y + q * TWO_64 == (r + q) * TWO_64 + y % TWO_64;
  }
}
