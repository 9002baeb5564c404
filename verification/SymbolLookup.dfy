/** What a lookup in the sorted symbol table finds, compared with scanning the symbol table. */
module SymbolLookup {
  import opened WordArithmetic
  import opened TimeOrder
  import opened Wrappers
  import opened SymbolScan

  /** Where a group of equal offsets starts, its first symbol is. */
  lemma GroupFirst(u: seq<Symbol>, i: nat)
    requires i < |u| && forall j :: 0 <= j < i ==> u[j].time < u[i].time
    ensures AtTime(u, u[i].time) != [] && AtTime(u, u[i].time)[0] == u[i]
  {
    var o := u[i].time;
    assert u == u[..i] + u[i..];
    AtTimeConcat(u[..i], u[i..], o);
    AtTimeAbsent(u[..i], o);
    assert u[i..][0] == u[i];
  }

  /** Where it ends, its last symbol is. */
  lemma GroupLast(u: seq<Symbol>, i: nat)
    requires i < |u| && Sorted(u) && forall j :: i < j < |u| ==> u[i].time < u[j].time
    ensures var g := AtTime(u, u[i].time); g != [] && g[|g| - 1] == u[i]
  {
    var o := u[i].time;
    var front, back := u[..i + 1], u[i + 1..];
    assert u == front + back;
    AtTimeConcat(front, back, o);
    AtTimeAbsent(back, o);
    LastAtTime(front, o);
    assert AtTime(front, o) + [] == AtTime(front, o);
  }

  /** The nearest offset is the same in the table and in its sorted form. */
  lemma NearestInTable(t: seq<Symbol>, addr: nat)
    ensures Nearest(SortedTable(t), addr) == Nearest(t, addr)
  {
    hide SortedTable, Nearest;
    var u := SortedTable(t);
    var x, y := Nearest(t, addr), Nearest(u, addr);
    if x >= 0 {
      SameOffsets(t, x);
    }
    if y >= 0 {
      SameOffsets(t, y);
    }
  }

  lemma SameOffsets(t: seq<Symbol>, o: nat)
    ensures (exists i :: 0 <= i < |t| && t[i].time == o) <==>
            (exists i :: 0 <= i < |SortedTable(t)| && SortedTable(t)[i].time == o)
  {
    hide SortedTable;
    Occurs(t, o);
    Occurs(SortedTable(t), o);
    TableFacts(t, o);
  }

  /** The symbol that a lookup considers: an exact hit is the first symbol at its offset,
      and otherwise the one that starts the last run of equal sizes. */
  ghost function Considered(t: seq<Symbol>, addr: nat): Option<Symbol> {
    var group := Candidates(t, addr);
    if group == [] then None
    else if group[0].time == addr then Some(group[0])
    else Some(LastRun(group))
  }

  /** An exact hit in a sorted table. */
  lemma FindHit(u: seq<Symbol>, addr: nat)
    requires Sorted(u) && Nearest(u, addr) == addr
    ensures AtTime(u, addr) != [] && Find(u, addr) == Some(AtTime(u, addr)[0])
  {
    hide AtTime, Reaches, Nearest, LowerBound;
    var i := LowerBound(u, addr);
    var j :| 0 <= j < |u| && u[j].time == addr;
    assert i <= j;
    GroupFirst(u, i);
  }

  /** Any other lookup ends at the last symbol of the nearest offset. */
  lemma FindBefore(u: seq<Symbol>, addr: nat)
    requires Sorted(u) && 0 <= Nearest(u, addr) < addr
    ensures var g := AtTime(u, Nearest(u, addr));
      && g != []
      && Find(u, addr) == if Reaches(g[|g| - 1], addr) then Some(g[|g| - 1]) else None
  {
    hide AtTime, Reaches, Nearest, LowerBound;
    var o := Nearest(u, addr);
    var i := LowerBound(u, addr);
    var j :| 0 <= j < |u| && u[j].time == o;
    assert j < i && u[j].time <= u[i - 1].time <= o;
    GroupLast(u, i - 1);
  }

  lemma FindNothing(u: seq<Symbol>, addr: nat)
    requires Nearest(u, addr) < 0
    ensures Find(u, addr) == None
  {
    hide Reaches, Nearest, LowerBound;
  }

  /** The lookup, for every table and every address. */
  lemma FindExact(t: seq<Symbol>, addr: nat)
    ensures var c := Considered(t, addr);
      Find(SortedTable(t), addr) == if c.Some? && Covers(c.value, addr) then c else None
  {
    hide SortedTable, AtTime, Reaches, Find, Nearest, Unique;
    var u, o := SortedTable(t), Nearest(t, addr);
    NearestInTable(t, addr);
    if o < 0 {
      FindNothing(u, addr);
    } else {
      Occurs(t, o);
      TableFacts(t, o);
      var g := AtTime(t, o);
      assert g[0] in g && g[|g| - 1] in g;
      if o == addr {
        FindHit(u, addr);
      } else {
        FindBefore(u, addr);
      }
    }
  }

  // ------------------------------------------------------------ the scan in table order

  /** The first symbol at an offset is passed over although that matters: the last run of
      equal sizes starts with another one, the next address exists and has no symbol of its
      own, and one of the two reaches it. */
  ghost predicate PassedOver(t: seq<Symbol>, o: nat) {
    var g := AtTime(t, o);
    && o + 1 < TWO_64
    && g != [] && AtTime(t, o + 1) == []
    && g[0] != LastRun(g)
    && (Reaches(g[0], o + 1) || Reaches(LastRun(g), o + 1))
  }

  lemma ReachesLess(s: Symbol, a: nat, b: nat)
    requires Reaches(s, b) && a <= b
    ensures Reaches(s, a)
  {
  }

  /** Where no symbol is passed over, a lookup is the scan in table order. */
  lemma ScanIfNotPassedOver(t: seq<Symbol>, addr: u64)
    requires forall o: nat :: !PassedOver(t, o)
    ensures Find(SortedTable(t), addr) == FirstNearest(t, addr)
  {
    hide SortedTable, AtTime, Reaches, Find, Nearest, Unique;
    FindExact(t, addr);
    var o := Nearest(t, addr);
    if 0 <= o < addr {
      Occurs(t, o);
      Occurs(t, o + 1);
      var g := AtTime(t, o);
      assert g[0] in g;
      LastRunAt(g, o);
      assert !PassedOver(t, o);
      if Reaches(g[0], addr) {
        ReachesLess(g[0], o + 1, addr);
      }
      if Reaches(LastRun(g), addr) {
        ReachesLess(LastRun(g), o + 1, addr);
      }
    } else if o >= 0 {
      Occurs(t, o);
    }
  }

  lemma LastRunAt(g: seq<Symbol>, o: nat)
    requires g != [] && forall e :: e in g ==> e.time == o
    ensures LastRun(g).time == o
  {
    UniqueSubset(g);
  }

  /** Where one is passed over, the lookup of the next address answers differently. */
  lemma PassedOverDiffers(t: seq<Symbol>, o: nat)
    requires PassedOver(t, o)
    ensures Find(SortedTable(t), o + 1) != FirstNearest(t, o + 1)
  {
    hide SortedTable, AtTime, Reaches, Find, Nearest, Unique;
    FindExact(t, o + 1);
    Occurs(t, o);
    Occurs(t, o + 1);
    var i :| 0 <= i < |t| && t[i].time == o;
    var g := AtTime(t, o);
    assert Nearest(t, o + 1) == o;
    assert g[0] in g;
    LastRunAt(g, o);
  }

  lemma NextAddress(t: seq<Symbol>, o: nat)
    requires PassedOver(t, o)
    ensures o + 1 < TWO_64
  {
  }

  /** A lookup always finds what a scan in table order finds, exactly if no symbol is
      passed over. */
  lemma LookupIsScan(t: seq<Symbol>)
    ensures (forall addr: u64 :: Find(SortedTable(t), addr) == FirstNearest(t, addr))
            <==> (forall o: nat :: !PassedOver(t, o))
  {
    hide SortedTable, PassedOver, Find, FirstNearest;
    if o: nat :| PassedOver(t, o) {
      NextAddress(t, o);
      PassedOverDiffers(t, o);
      var addr: u64 := o + 1;
      assert Find(SortedTable(t), addr) != FirstNearest(t, addr);
    } else {
      forall addr: u64
        ensures Find(SortedTable(t), addr) == FirstNearest(t, addr)
      {
        ScanIfNotPassedOver(t, addr);
      }
    }
  }

  ghost predicate EqualSizesAtEqualOffsets(t: seq<Symbol>) {
    forall i, j :: 0 <= i < j < |t| && t[i].time == t[j].time ==> t[i].size == t[j].size
  }

  /** Aliases of equal size are looked up by their first name. */
  lemma AliasesAreScanned(t: seq<Symbol>, addr: u64)
    requires EqualSizesAtEqualOffsets(t)
    ensures Find(SortedTable(t), addr) == FirstNearest(t, addr)
  {
    hide SortedTable, Find, FirstNearest;
    forall o: nat
      ensures !PassedOver(t, o)
    {
      var g := AtTime(t, o);
      if g != [] {
        GroupOfEqualSizes(t, o);
        OneRun(g);
      }
    }
    ScanIfNotPassedOver(t, addr);
  }

  lemma {:induction false} GroupOfEqualSizes(t: seq<Symbol>, o: nat)
    requires EqualSizesAtEqualOffsets(t)
    ensures forall e, e' :: e in AtTime(t, o) && e' in AtTime(t, o) ==> SameSpan(e, e')
  {
    Occurs(t, o);
    GroupInTable(t, o);
  }

  lemma {:induction false} GroupInTable(t: seq<Symbol>, o: nat)
    ensures forall e :: e in AtTime(t, o) ==> e in t
  {
    if t != [] {
      GroupInTable(t[1..], o);
    }
  }

  lemma {:induction false} OneRun(g: seq<Symbol>)
    requires g != [] && forall e, e' :: e in g && e' in g ==> SameSpan(e, e')
    ensures Unique(g) == [g[0]]
  {
    if |g| > 1 {
      OneRun(g[..|g| - 1]);
      assert g[|g| - 1] in g && g[0] in g;
    }
  }

  lemma AtTimeOfTwo(a: Symbol, b: Symbol, t: nat)
    ensures AtTime([a, b], t) == (if a.time == t then [a] else []) + (if b.time == t then [b] else [])
  {
    assert [a, b][1..] == [b] && [b][1..] == [];
    assert AtTime([b], t) == (if b.time == t then [b] else []) + AtTime([b][1..], t);
  }

  /** A label without a size in front of a function at the same offset: the scan answers
      with the label, the lookup with the function. */
  lemma PassedOverExample()
    ensures var a, b := Timed(16, 0, Label(16, "a", false)), Timed(16, 8, Label(16, "b", false));
      var t := [a, b];
      && PassedOver(t, 16)
      && FirstNearest(t, 20) == Some(a)
      && Find(SortedTable(t), 20) == Some(b)
  {
    var a, b := Timed(16, 0, Label(16, "a", false)), Timed(16, 8, Label(16, "b", false));
    var t := [a, b];
    AtTimeOfTwo(a, b, 16);
    AtTimeOfTwo(a, b, 17);
    assert t[0].time == 16;
    assert Nearest(t, 20) == 16;
    assert [a, b][..1] == [a];
    assert Unique([a, b]) == [a] + [b];
    FindExact(t, 20);
  }
}
