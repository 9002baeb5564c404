/** Symbol tables: sorting, removing duplicates, and which symbol an address belongs to. */
module SymbolScan {
  import opened TimeOrder
  import opened WordArithmetic
  import opened Wrappers

  datatype Label = Label(value: nat, name: string, demangled: bool)

  /** A symbol is ordered by its offset, which takes the place of the time. */
  type Symbol = Timed<Label>

  /** Keeps the first of each run of neighbours with equal offset and size. */
  function Unique(s: seq<Symbol>): (r: seq<Symbol>)
    ensures s == [] <==> r == []
    ensures s != [] ==> r[0] == s[0] && SameSpan(r[|r| - 1], s[|s| - 1])
  {
    if |s| <= 1 then s
    else
      var kept, last := Unique(s[..|s| - 1]), s[|s| - 1];
      if SameSpan(kept[|kept| - 1], last) then kept else kept + [last]
  }

  predicate SameSpan(x: Symbol, y: Symbol) {
    x.time == y.time && x.size == y.size
  }

  /** The table that lookups use. */
  function SortedTable(symtab: seq<Symbol>): seq<Symbol> {
    Unique(StableSort(symtab))
  }

  /** Whether the symbol reaches the address, in 64-bit arithmetic. */
  predicate Reaches(s: Symbol, addr: nat) {
    s.size == 0 || Wrap64(s.time + s.size) > addr
  }

  /** Only a symbol whose end does not fit into 64 bits is missed by the wrapped test. */
  lemma ReachesExact(s: Symbol, addr: nat)
    requires s.time <= addr < TWO_64 && s.size < TWO_64
    ensures Reaches(s, addr) <==> s.size == 0 || (addr < s.time + s.size < TWO_64)
  {
    Wrap64IsModulo(s.time + s.size);
  }

  // ------------------------------------------------------------ the reference scan

  /** The greatest offset in the table that is not above the address, or -1. */
  function Nearest(t: seq<Symbol>, addr: nat): (o: int)
    ensures o == -1 || 0 <= o <= addr
    ensures forall i :: 0 <= i < |t| ==> t[i].time <= o || addr < t[i].time
    ensures o >= 0 ==> exists i :: 0 <= i < |t| && t[i].time == o
  {
    if t == [] then -1
    else
      var o, last := Nearest(t[..|t| - 1], addr), t[|t| - 1];
      assert last == t[|t| - 1];
      if o < last.time <= addr then last.time
      else
        assert o >= 0 ==> exists i :: 0 <= i < |t[..|t| - 1]| && t[..|t| - 1][i].time == o && t[i].time == o;
        o
  }

  /** The symbols at the nearest offset, in table order. */
  ghost function Candidates(t: seq<Symbol>, addr: nat): seq<Symbol> {
    var o := Nearest(t, addr);
    if o < 0 then [] else AtTime(t, o)
  }

  predicate Covers(s: Symbol, addr: nat) {
    s.time == addr || Reaches(s, addr)
  }

  /** The first of the candidates, if it covers the address. */
  ghost function FirstNearest(t: seq<Symbol>, addr: nat): Option<Symbol> {
    var group := Candidates(t, addr);
    if group != [] && Covers(group[0], addr) then Some(group[0]) else None
  }

  /** The candidate that starts the last run of equal sizes. */
  ghost function LastRun(group: seq<Symbol>): Symbol
    requires group != []
  {
    var runs := Unique(group);
    runs[|runs| - 1]
  }

  // ------------------------------------------------------------ the lookup

  /** The index of the first symbol whose offset is not below the address. */
  function LowerBound(u: seq<Symbol>, addr: nat): (i: nat)
    ensures i <= |u|
    ensures forall j :: 0 <= j < i ==> u[j].time < addr
    ensures i < |u| ==> addr <= u[i].time
  {
    if u == [] || addr <= u[0].time then 0
    else
      var i := LowerBound(u[1..], addr);
      assert forall j :: 0 < j < i + 1 ==> u[j] == u[1..][j - 1];
      i + 1
  }

  /** The index of the symbol that a lookup in a sorted table ends at. */
  function FindIndex(u: seq<Symbol>, addr: nat): (r: Option<nat>)
    ensures r.Some? ==> r.value < |u|
  {
    var i := LowerBound(u, addr);
    if i < |u| && u[i].time == addr then Some(i)
    else if i == 0 then None
    else if u[i - 1].time <= addr && Reaches(u[i - 1], addr) then Some(i - 1)
    else None
  }

  function Find(u: seq<Symbol>, addr: nat): Option<Symbol> {
    var r := FindIndex(u, addr);
    if r.Some? then Some(u[r.value]) else None
  }

  // ------------------------------------------------------------ sorting and removing duplicates

  lemma {:induction false} UniqueSubset(s: seq<Symbol>)
    ensures forall i :: 0 <= i < |Unique(s)| ==> Unique(s)[i] in s
  {
    if |s| > 1 {
      UniqueSubset(s[..|s| - 1]);
      assert s == s[..|s| - 1] + [s[|s| - 1]];
    }
  }

  lemma {:induction false} UniqueSorted(s: seq<Symbol>)
    requires Sorted(s)
    ensures Sorted(Unique(s))
  {
    if |s| > 1 {
      UniqueSorted(s[..|s| - 1]);
      UniqueSubset(s[..|s| - 1]);
    }
  }

  /** Removing duplicates works offset by offset. */
  lemma {:induction false} UniqueAtTime(s: seq<Symbol>, o: nat)
    requires Sorted(s)
    ensures AtTime(Unique(s), o) == Unique(AtTime(s, o))
  {
    if s == [] {
      UniqueSingle(s);
    } else {
      var front, last := s[..|s| - 1], s[|s| - 1];
      assert s == front + [last];
      UniqueAtTime(front, o);
      if front != [] && last.time == o {
        LastAtTime(front, o);
      }
      UniqueAtTimeSnoc(front, last, o);
    }
  }

  lemma UniqueAtTimeSnoc(s: seq<Symbol>, e: Symbol, o: nat)
    requires AtTime(Unique(s), o) == Unique(AtTime(s, o))
    requires s != [] && e.time == o ==>
      var g := AtTime(s, o);
      if s[|s| - 1].time == o then g != [] && g[|g| - 1] == s[|s| - 1] else g == []
    ensures AtTime(Unique(s + [e]), o) == Unique(AtTime(s + [e], o))
  {
    hide Unique, AtTime;
    AtTimeSnoc(s, e, o);
    AtTimeSnoc(Unique(s), e, o);
    UniqueSnoc(s, e);
    UniqueSnoc(AtTime(s, o), e);
    UniqueSingle([]);
    if s == [] {
      AtTimeNothing(o);
    }
  }

  lemma AtTimeNothing(o: nat)
    ensures AtTime<Label>([], o) == []
  {
  }

  lemma AtTimeSnoc(s: seq<Symbol>, e: Symbol, o: nat)
    ensures AtTime(s + [e], o) == if e.time == o then AtTime(s, o) + [e] else AtTime(s, o)
  {
    AtTimeConcat(s, [e], o);
    assert AtTime(s, o) + [] == AtTime(s, o);
  }

  lemma UniqueSingle(s: seq<Symbol>)
    requires |s| <= 1
    ensures Unique(s) == s
  {
  }

  lemma UniqueSnoc(s: seq<Symbol>, e: Symbol)
    ensures Unique(s + [e]) ==
      if s != [] && SameSpan(s[|s| - 1], e) then Unique(s) else Unique(s) + [e]
  {
    assert (s + [e])[..|s|] == s;
  }

  /** In a sorted sequence, the last event of the greatest time. */
  lemma LastAtTime(s: seq<Symbol>, o: nat)
    requires s != [] && Sorted(s) && s[|s| - 1].time <= o
    ensures if s[|s| - 1].time == o then AtTime(s, o) != [] && AtTime(s, o)[|AtTime(s, o)| - 1] == s[|s| - 1]
            else AtTime(s, o) == []
  {
    var front, last := s[..|s| - 1], s[|s| - 1];
    assert s == front + [last];
    AtTimeSnoc(front, last, o);
    if last.time < o {
      AtTimeAbsent(s, o);
    }
  }

  lemma {:induction false} Occurs(s: seq<Symbol>, o: nat)
    ensures AtTime(s, o) != [] <==> exists i :: 0 <= i < |s| && s[i].time == o
    ensures forall e :: e in AtTime(s, o) ==> e.time == o
  {
    if s != [] {
      Occurs(s[1..], o);
      if AtTime(s[1..], o) != [] {
        var i :| 0 <= i < |s[1..]| && s[1..][i].time == o;
        assert s[i + 1].time == o;
      } else {
        assert forall i :: 0 < i < |s| ==> s[i] == s[1..][i - 1];
      }
    }
  }

  /** The table of the lookups: sorted, with every offset's symbols in table order and
      without repeated sizes. */
  lemma TableFacts(symtab: seq<Symbol>, o: nat)
    ensures Sorted(SortedTable(symtab))
    ensures AtTime(SortedTable(symtab), o) == Unique(AtTime(symtab, o))
  {
    StableSortFacts(symtab);
    UniqueSorted(StableSort(symtab));
    UniqueAtTime(StableSort(symtab), o);
    assert AtTime(StableSort(symtab), o) == AtTime(symtab, o);
  }
}
