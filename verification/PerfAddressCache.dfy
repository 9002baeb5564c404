/** The symbol caches of all binaries, with names that are demangled when they are found. */
module PerfAddressCaches {
  import opened TimeOrder
  import opened WordArithmetic
  import opened SymbolScan
  import opened Wrappers

  const NO_SYMBOL := Timed(0, 0, Label(0, "", false))

  /** A symbol as lookups show it. */
  function Shown(s: Symbol, demangle: string -> string): Symbol {
    if s.body.demangled then s else s.(body := s.body.(name := demangle(s.body.name), demangled := true))
  }

  function AllShown(s: seq<Symbol>, demangle: string -> string): (r: seq<Symbol>)
    ensures |r| == |s|
    ensures forall i :: 0 <= i < |s| ==> r[i] == Shown(s[i], demangle)
  {
    seq(|s|, i requires 0 <= i < |s| => Shown(s[i], demangle))
  }

  /** The answer to a lookup, given the symbol table as it was read. */
  function Answer(symtab: seq<Symbol>, addr: nat, demangle: string -> string): Symbol {
    var r := Find(SortedTable(symtab), addr);
    if r.Some? then Shown(r.value, demangle) else NO_SYMBOL
  }

  /** An answer is the found symbol with its name demangled once, or an invalid symbol. */
  lemma AnswerIs(symtab: seq<Symbol>, addr: nat, demangle: string -> string)
    ensures var found, r := Find(SortedTable(symtab), addr), Answer(symtab, addr, demangle);
      && (found.None? ==> r == Timed(0, 0, Label(0, "", false)))
      && (found.Some? ==>
            && r.time == found.value.time && r.size == found.value.size && r.body.value == found.value.body.value
            && r.body.demangled
            && r.body.name ==
                 if found.value.body.demangled then found.value.body.name else demangle(found.value.body.name))
  {
  }

  /** A cache after a lookup: the entry that was found is stored as it is answered. */
  function Looked(symbols: seq<Symbol>, addr: nat, entry: Symbol): seq<Symbol> {
    var found := FindIndex(symbols, addr);
    if found.Some? then symbols[found.value := entry] else symbols
  }

  class PerfAddressCache {
    const demangle: string -> string
    var symbolCache: map<string, seq<Symbol>>
    /** The symbol tables that were set, as they were read. */
    ghost var symtabs: map<string, seq<Symbol>>

    /** Up to demangling, each cache is the sorted symbol table. */
    ghost predicate Valid()
      reads this
    {
      && symbolCache.Keys == symtabs.Keys
      && forall path :: path in symbolCache ==>
           AllShown(symbolCache[path], demangle) == AllShown(SortedTable(symtabs[path]), demangle)
    }

    constructor (demangle: string -> string)
      ensures Valid() && symtabs == map[] && this.demangle == demangle
    {
      this.demangle := demangle;
      symbolCache, symtabs := map[], map[];
    }

    method SetSymbolCache(filePath: string, cache: seq<Symbol>)
      requires Valid()
      modifies this
      ensures Valid() && symtabs == old(symtabs)[filePath := cache]
      ensures symbolCache == old(symbolCache)[filePath := SortedTable(cache)]
    {
      var sorted := StableSortByOffset(cache);
      var unique := RemoveDuplicates(sorted);
      symbolCache := symbolCache[filePath := unique];
      symtabs := symtabs[filePath := cache];
    }

    /** Demangles one entry in place, unless that was done before. */
    method LazyDemangle(filePath: string, i: nat) returns (entry: Symbol)
      requires Valid() && filePath in symbolCache && i < |symbolCache[filePath]|
      modifies `symbolCache
      ensures Valid()
      ensures entry == Shown(old(symbolCache[filePath][i]), demangle)
      ensures symbolCache == old(symbolCache)[filePath := old(symbolCache[filePath])[i := entry]]
    {
      hide AllShown, SortedTable;
      var symbols := symbolCache[filePath];
      entry := symbols[i];
      if !entry.body.demangled {
        ShownInPlace(symbols, i, demangle);
        entry := entry.(body := entry.body.(name := demangle(entry.body.name), demangled := true));
        symbolCache := symbolCache[filePath := symbols[i := entry]];
      } else {
        assert symbols[i := entry] == symbols;
      }
    }

    /** Finds the symbol for an address: the answer depends on the symbol table only, not on
        which lookups came before. Asking for an unknown path makes its cache exist. */
    method FindSymbol(filePath: string, relAddr: nat) returns (entry: Symbol)
      requires Valid()
      modifies this
      ensures Valid()
      ensures symtabs == if filePath in old(symtabs) then old(symtabs) else old(symtabs)[filePath := []]
      ensures entry == Answer(symtabs[filePath], relAddr, demangle)
      ensures var was := if filePath in old(symbolCache) then old(symbolCache)[filePath] else [];
        symbolCache == old(symbolCache)[filePath := Looked(was, relAddr, entry)]
    {
      hide AllShown, SortedTable, FindIndex, Shown;
      if filePath !in symbolCache {
        EmptyTable();
        symbolCache, symtabs := symbolCache[filePath := []], symtabs[filePath := []];
      }
      var symbols := symbolCache[filePath];
      SortedLike(symbols, symtabs[filePath], demangle);
      ShownFind(symbols, SortedTable(symtabs[filePath]), relAddr, demangle);
      var it := Position(symbols, relAddr);
      if it.Some? {
        entry := LazyDemangle(filePath, it.value);
      } else {
        entry := NO_SYMBOL;
      }
    }
  }

  lemma EmptyTable()
    ensures SortedTable([]) == []
  {
  }

  lemma ShownInPlace(x: seq<Symbol>, i: nat, demangle: string -> string)
    requires i < |x|
    ensures AllShown(x[i := Shown(x[i], demangle)], demangle) == AllShown(x, demangle)
  {
  }

  lemma SameKeys(x: seq<Symbol>, y: seq<Symbol>, demangle: string -> string)
    requires AllShown(x, demangle) == AllShown(y, demangle)
    ensures |x| == |y|
    ensures forall i :: 0 <= i < |x| ==> x[i].time == y[i].time && x[i].size == y[i].size
    ensures forall i :: 0 <= i < |x| ==> Shown(x[i], demangle) == Shown(y[i], demangle)
  {
    assert |x| == |AllShown(x, demangle)| == |y|;
    forall i | 0 <= i < |x|
      ensures x[i].time == y[i].time && x[i].size == y[i].size && Shown(x[i], demangle) == Shown(y[i], demangle)
    {
      assert AllShown(x, demangle)[i] == AllShown(y, demangle)[i];
    }
  }

  lemma SortedLike(x: seq<Symbol>, symtab: seq<Symbol>, demangle: string -> string)
    requires AllShown(x, demangle) == AllShown(SortedTable(symtab), demangle)
    ensures Sorted(x)
  {
    hide AllShown, SortedTable, Shown;
    SameKeys(x, SortedTable(symtab), demangle);
    TableFacts(symtab, 0);
  }

  /** Lookups in tables that are equal up to demangling end at the same index. */
  lemma ShownFind(x: seq<Symbol>, y: seq<Symbol>, addr: nat, demangle: string -> string)
    requires AllShown(x, demangle) == AllShown(y, demangle)
    ensures |x| == |y| && FindIndex(x, addr) == FindIndex(y, addr)
    ensures forall i :: 0 <= i < |x| ==> Shown(x[i], demangle) == Shown(y[i], demangle)
  {
    hide AllShown, Shown, LowerBound;
    SameKeys(x, y, demangle);
    LowerBoundUnique(y, addr, LowerBound(x, addr));
  }

  lemma {:induction false} LowerBoundUnique(u: seq<Symbol>, addr: nat, i: nat)
    requires i <= |u| && forall j :: 0 <= j < i ==> u[j].time < addr
    requires i < |u| ==> addr <= u[i].time
    ensures i == LowerBound(u, addr)
  {
    if i > 0 {
      LowerBoundUnique(u[1..], addr, i - 1);
    }
  }

  /** The position of the symbol for an address in a sorted table. */
  method Position(symbols: seq<Symbol>, relAddr: nat) returns (r: Option<nat>)
    requires Sorted(symbols)
    ensures r == FindIndex(symbols, relAddr)
  {
    hide LowerBound, Wrap64;
    var it := LowerBoundSearch(symbols, relAddr);
    if it < |symbols| && symbols[it].time == relAddr { return Some(it); }
    if it == 0 { return None; }
    it := it - 1;
    if symbols[it].time <= relAddr
       && (Wrap64(symbols[it].time + symbols[it].size) > relAddr || symbols[it].size == 0) {
      r := Some(it);
    } else {
      r := None;
    }
  }

  /** Binary search. */
  method LowerBoundSearch(u: seq<Symbol>, addr: nat) returns (i: nat)
    requires Sorted(u)
    ensures i == LowerBound(u, addr)
  {
    var lo, hi := 0, |u|;
    while lo < hi
      invariant 0 <= lo <= hi <= |u|
      invariant forall j :: 0 <= j < lo ==> u[j].time < addr
      invariant forall j :: hi <= j < |u| ==> addr <= u[j].time
    {
      var mid := (lo + hi) / 2;
      if u[mid].time < addr { lo := mid + 1; } else { hi := mid; }
    }
    i := lo;
    LowerBoundUnique(u, addr, i);
  }

  /** Sorts by offset and keeps the order of equal offsets. */
  method StableSortByOffset(cache: seq<Symbol>) returns (sorted: seq<Symbol>)
    ensures sorted == StableSort(cache)
  {
    sorted := [];
    var i := 0;
    while i < |cache|
      invariant 0 <= i <= |cache| && sorted == StableSort(cache[..i])
    {
      assert cache[..i + 1][..i] == cache[..i];
      sorted := Insert(sorted, cache[i]);
      i := i + 1;
    }
    assert cache[..i] == cache;
  }

  /** Keeps the first of neighbours that are equal. */
  method RemoveDuplicates(s: seq<Symbol>) returns (kept: seq<Symbol>)
    ensures kept == Unique(s)
  {
    hide Unique;
    UniqueSingle([]);
    kept := [];
    var i := 0;
    while i < |s|
      invariant 0 <= i <= |s| && kept == Unique(s[..i])
    {
      assert s[..i + 1] == s[..i] + [s[i]];
      UniqueSnoc(s[..i], s[i]);
      if kept == [] || !SameSpan(kept[|kept| - 1], s[i]) {
        kept := kept + [s[i]];
      }
      i := i + 1;
    }
    assert s[..i] == s;
  }
}
