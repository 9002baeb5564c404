/** The address map as the program keeps it: a vector updated in place. */
module PerfElfMaps {
  import opened Bytes
  import opened WordArithmetic
  import opened ElfMaps

  /** Inserts an entry in front of the first one that starts at its address or later. */
  function InsertByAddr(elfs: seq<ElfInfo>, e: ElfInfo): seq<ElfInfo> {
    elfs[..LowerBound(elfs, e.addr)] + [e] + elfs[LowerBound(elfs, e.addr)..]
  }

  ghost function InsertAll(elfs: seq<ElfInfo>, fresh_: seq<ElfInfo>): seq<ElfInfo> {
    if fresh_ == [] then elfs
    else InsertByAddr(InsertAll(elfs, fresh_[..|fresh_| - 1]), fresh_[|fresh_| - 1])
  }

  lemma {:induction false} LowerBoundIs(elfs: seq<ElfInfo>, a: int, k: nat)
    requires k <= |elfs|
    requires forall i :: 0 <= i < k ==> elfs[i].addr < a
    requires k < |elfs| ==> a <= elfs[k].addr
    ensures LowerBound(elfs, a) == k
  {
    if k > 0 {
      LowerBoundIs(elfs[1..], a, k - 1);
    }
  }

  lemma InsertBetween(x: seq<ElfInfo>, e: ElfInfo, y: seq<ElfInfo>)
    requires forall i :: 0 <= i < |x| ==> x[i].addr < e.addr
    requires y != [] ==> e.addr <= y[0].addr
    ensures InsertByAddr(x + y, e) == x + [e] + y
  {
    LowerBoundIs(x + y, e.addr, |x|);
    assert (x + y)[..|x|] == x && (x + y)[|x|..] == y;
  }

  ghost predicate StrictlyBelow(x: seq<ElfInfo>, y: seq<ElfInfo>) {
    forall i, j :: 0 <= i < |x| && 0 <= j < |y| ==> x[i].addr < y[j].addr
  }

  lemma InsertOptional(p: seq<ElfInfo>, x: seq<ElfInfo>, s: seq<ElfInfo>, base: seq<ElfInfo>, done: seq<ElfInfo>)
    requires |x| <= 1 && StrictlyBelow(p, x) && StrictlyBelow(x, s)
    requires InsertAll(base, done) == p + s
    ensures InsertAll(base, done + x) == p + x + s
  {
    if x == [] {
      assert done + x == done && p + x == p;
    } else {
      assert x == [x[0]];
      assert (done + x)[..|done|] == done;
      InsertBetween(p, x[0], s);
    }
  }

  /** Putting the fragments and the merged entry back one by one gives the registered vector. */
  lemma InsertAllRegistered(p: seq<ElfInfo>, low: seq<ElfInfo>, elf: ElfInfo, high: seq<ElfInfo>, s: seq<ElfInfo>)
    requires |low| <= 1 && |high| <= 1
    requires ValidElfs(p + low + [elf] + high + s)
    ensures InsertAll(p + s, low + high + [elf]) == p + low + [elf] + high + s
  {
    var base := p + s;
    SplitOrder(p, low, elf, high, s);
    InsertOptional(p, low, s, base, []);
    assert [] + low == low;
    InsertOptional(p + low, high, s, base, low);
    Regroup(p + low, high, s);
    InsertOptional(p + low, [elf], high + s, base, low + high);
    Regroup(p + low + [elf], high, s);
  }

  /** The order of a valid vector, between its parts. */
  lemma SplitOrder(p: seq<ElfInfo>, low: seq<ElfInfo>, elf: ElfInfo, high: seq<ElfInfo>, s: seq<ElfInfo>)
    requires ValidElfs(p + low + [elf] + high + s)
    ensures StrictlyBelow(p, low) && StrictlyBelow(low, s)
    ensures StrictlyBelow(p + low, high) && StrictlyBelow(high, s)
    ensures StrictlyBelow(p + low, [elf]) && StrictlyBelow([elf], high + s)
  {
    SplitBelow(p + low + [elf] + high, s);
    SubBelow(p + low + [elf], high, s);
    SubBelow(p + low, [elf], s);
    SubBelow(p, low, s);
    SplitBelow(p + low + [elf], high);
    SubBelow(p + low, [elf], high);
    SplitBelow(p + low, [elf]);
    SplitBelow(p, low);
    assert forall j :: 0 <= j < |high + s| ==>
      (high + s)[j] == if j < |high| then high[j] else s[j - |high|];
  }

  lemma SubBelow(x: seq<ElfInfo>, x': seq<ElfInfo>, y: seq<ElfInfo>)
    requires StrictlyBelow(x + x', y)
    ensures StrictlyBelow(x, y) && StrictlyBelow(x', y)
  {
    assert forall i :: 0 <= i < |x| ==> (x + x')[i] == x[i];
    assert forall i :: 0 <= i < |x'| ==> (x + x')[|x| + i] == x'[i];
  }

  lemma SplitBelow(x: seq<ElfInfo>, y: seq<ElfInfo>)
    requires ValidElfs(x + y)
    ensures StrictlyBelow(x, y) && ValidElfs(x) && ValidElfs(y)
  {
    var w := x + y;
    assert forall i :: 0 <= i < |x| ==> w[i] == x[i] && ValidEntry(w[i]);
    assert forall j :: 0 <= j < |y| ==> w[|x| + j] == y[j] && ValidEntry(w[|x| + j]);
    forall i, j | 0 <= i < |x| && 0 <= j < |y|
      ensures x[i].addr < y[j].addr
    {
      assert w[i].addr + w[i].length <= w[|x| + j].addr;
    }
    forall i, j | 0 <= i < j < |y|
      ensures y[i].addr + y[i].length <= y[j].addr
    {
      assert w[|x| + i].addr + w[|x| + i].length <= w[|x| + j].addr;
    }
  }

  /** How an entry relates to the mapping, by its position against the touched stretch. */
  ghost predicate Placed(elfs: seq<ElfInfo>, m: Mapping, o: Overlap, k: nat)
    requires k < |elfs| && IsOverlap(elfs, m, o)
  {
    var e := elfs[k];
    && ValidEntry(e)
    && (k < o.first ==> e.addr + e.length < m.addr || (e.addr + e.length == m.addr && !Extends(m, e)))
    && (o.last <= k ==> OuterEnd(elfs, m, o) <= e.addr)
    && (o.first <= k < o.last ==>
          && e.addr < m.addr + m.len && m.addr <= e.addr + e.length
          && (Extends(m, e) <==> SameBias(m, e))
          && (!Extends(m, e) ==> m.addr < e.addr + e.length))
    && (o.first < k < o.last ==> m.addr <= e.addr && MergedStart(elfs, m, o) < e.addr)
    && (o.first <= k < o.last - 1 ==> e.addr + e.length <= m.addr + m.len)
  }

  ghost predicate AllPlaced(elfs: seq<ElfInfo>, m: Mapping, o: Overlap) {
    && ValidElfs(elfs)
    && IsOverlap(elfs, m, o)
    && forall k: nat :: k < |elfs| ==> Placed(elfs, m, o, k)
  }

  lemma OverlapPlacesAll(elfs: seq<ElfInfo>, m: Mapping)
    requires ValidElfs(elfs)
    ensures AllPlaced(elfs, m, OverlapOf(elfs, m))
  {
    var o := OverlapOf(elfs, m);
    OverlapFacts(elfs, m);
    FirstTouchedFacts(elfs, m);
    forall k: nat | k < |elfs|
      ensures Placed(elfs, m, o, k)
    {
      assert k < o.first ==> !Touches(m, elfs[k]);
      EntryPlaced(elfs, m, o, k);
    }
  }

  lemma EntryPlaced(elfs: seq<ElfInfo>, m: Mapping, o: Overlap, k: nat)
    requires ValidElfs(elfs) && IsOverlap(elfs, m, o) && k < |elfs|
    requires k < o.first ==> elfs[k].addr + elfs[k].length <= m.addr && !Touches(m, elfs[k])
    ensures Placed(elfs, m, o, k)
  {
    OutsideFacts(elfs, m, o);
    var e := elfs[k];
    assert ValidEntry(e);
    if o.last <= k {
      assert elfs[o.last..][k - o.last] == e;
    } else if o.first <= k {
      if o.first < k {
        assert ValidEntry(elfs[o.first]);
        assert elfs[o.first].addr + elfs[o.first].length <= e.addr;
      }
      if k < o.last - 1 {
        assert e.addr + e.length <= elfs[o.last - 1].addr;
      }
      ExtendsIsSameBias(m, e);
    }
  }

  /** What the scan over the vector has collected. */
  datatype Scan = Scan(addr: u64, addrEnd: u64, pgoff: u64,
                       newElfs: seq<ElfInfo>, removedElfs: seq<nat>, invalidated: seq<ElfInfo>)

  /** Where the scan stands after looking at `k` entries. */
  ghost function ScanAt(elfs: seq<ElfInfo>, m: Mapping, o: Overlap, k: nat): Scan
    requires ValidElfs(elfs) && IsOverlap(elfs, m, o) && k <= o.last
  {
    MergedFacts(elfs, m, o);
    if k <= o.first then Scan(m.addr, m.addr + m.len, m.pgoff, [], [], [])
    else
      Scan(MergedStart(elfs, m, o),
           if k == o.last then MergedEnd(elfs, m, o) else m.addr + m.len,
           MergedPgoff(elfs, m, o),
           LowFragment(elfs, m, o) + (if k == o.last then HighFragment(elfs, m, o) else []),
           seq(k - o.first, i => o.first + i),
           elfs[o.first..k])
  }

  /** The running bounds after looking at an entry: they grow over an entry that is the same
      file at the same load bias. */
  function MergeBounds(addr: u64, addrEnd: u64, pgoff: u64, path: string, e: ElfInfo): (u64, u64, u64) {
    if SameRegion(addr, pgoff, path, e) then
      (Min(addr, e.addr), Max(addrEnd, Wrap64(e.addr + e.length)), Min(pgoff, e.pgoff))
    else (addr, addrEnd, pgoff)
  }

  function PartBelow(e: ElfInfo, addr: u64): seq<ElfInfo> {
    if e.addr < addr then
      [MakeElf(e.localFile, e.addr, Wrap64(addr - e.addr), e.pgoff, e.originalFileName, e.originalPath)]
    else []
  }

  function PartAbove(e: ElfInfo, addrEnd: u64): seq<ElfInfo> {
    var iEnd := Wrap64(e.addr + e.length);
    if iEnd > addrEnd then
      [MakeElf(e.localFile, addrEnd, Wrap64(iEnd - addrEnd), Wrap64(e.pgoff + addrEnd - e.addr),
               e.originalFileName, e.originalPath)]
    else []
  }

  /** Replacing one entry: merge with it if it is the same file at the same load bias, and
      keep what remains of it on either side otherwise. */
  function Replace(s: Scan, path: string, k: nat, e: ElfInfo): Scan {
    var (addr, addrEnd, pgoff) := MergeBounds(s.addr, s.addrEnd, s.pgoff, path, e);
    Scan(addr, addrEnd, pgoff, s.newElfs + PartBelow(e, addr) + PartAbove(e, addrEnd),
         s.removedElfs + [k], s.invalidated + [e])
  }

  /** Inside the touched stretch the wrapping test means the same bias, wherever the running
      range stands. */
  lemma ScanTest(elfs: seq<ElfInfo>, m: Mapping, o: Overlap, k: nat)
    requires AllPlaced(elfs, m, o) && k < |elfs| && k <= o.last
    ensures var s := ScanAt(elfs, m, o, k);
      && s.addr - s.pgoff == m.addr - m.pgoff
      && (SameRegion(s.addr, s.pgoff, m.originalPath, elfs[k]) <==> Extends(m, elfs[k]))
  {
    hide ScanAt;
    ScanBounds(elfs, m, o, k);
    MergedFacts(elfs, m, o);
  }

  /** The bounds of the scan, apart from what it has collected. */
  lemma ScanBounds(elfs: seq<ElfInfo>, m: Mapping, o: Overlap, k: nat)
    requires ValidElfs(elfs) && IsOverlap(elfs, m, o) && k <= o.last
    ensures var s := ScanAt(elfs, m, o, k);
      && s.addr == (if k <= o.first then m.addr else MergedStart(elfs, m, o))
      && s.pgoff == (if k <= o.first then m.pgoff else MergedPgoff(elfs, m, o))
      && s.addrEnd == (if o.first < k == o.last then MergedEnd(elfs, m, o) else m.addr + m.len)
  {
    hide LowFragment, HighFragment, MergedStart, MergedPgoff, MergedEnd, IsOverlap, ValidElfs;
  }

  lemma BoundsAdvance(elfs: seq<ElfInfo>, m: Mapping, o: Overlap, k: nat)
    requires AllPlaced(elfs, m, o) && o.first <= k < o.last
    ensures var s, t := ScanAt(elfs, m, o, k), ScanAt(elfs, m, o, k + 1);
      MergeBounds(s.addr, s.addrEnd, s.pgoff, m.originalPath, elfs[k]) == (t.addr, t.addrEnd, t.pgoff)
  {
    assert Placed(elfs, m, o, k);
    hide AllPlaced, ScanAt, SameRegion, Extends, ValidElfs, IsOverlap;
    ScanTest(elfs, m, o, k);
    ScanBounds(elfs, m, o, k);
    ScanBounds(elfs, m, o, k + 1);
    MergedFacts(elfs, m, o);
  }

  lemma LowPartIsFragment(elfs: seq<ElfInfo>, m: Mapping, o: Overlap, k: nat)
    requires AllPlaced(elfs, m, o) && o.first <= k < o.last
    ensures PartBelow(elfs[k], MergedStart(elfs, m, o)) == if k == o.first then LowFragment(elfs, m, o) else []
  {
    assert Placed(elfs, m, o, k);
    MergedFacts(elfs, m, o);
  }

  lemma HighPartIsFragment(elfs: seq<ElfInfo>, m: Mapping, o: Overlap, k: nat)
    requires AllPlaced(elfs, m, o) && o.first <= k < o.last
    ensures PartAbove(elfs[k], ScanAt(elfs, m, o, k + 1).addrEnd) ==
      if k == o.last - 1 then HighFragment(elfs, m, o) else []
  {
    assert Placed(elfs, m, o, k);
    hide AllPlaced, ScanAt, SameRegion, Extends, ValidElfs, IsOverlap;
    ScanBounds(elfs, m, o, k + 1);
    MergedFacts(elfs, m, o);
  }

  lemma ScanReplaces(elfs: seq<ElfInfo>, m: Mapping, o: Overlap, k: nat)
    requires AllPlaced(elfs, m, o) && o.first <= k < o.last
    ensures ScanAt(elfs, m, o, k + 1) == Replace(ScanAt(elfs, m, o, k), m.originalPath, k, elfs[k])
  {
    BoundsAdvance(elfs, m, o, k);
    RemovedAdvance(elfs, m, o, k);
    NewElfsAdvance(elfs, m, o, k);
  }

  lemma RemovedAdvance(elfs: seq<ElfInfo>, m: Mapping, o: Overlap, k: nat)
    requires AllPlaced(elfs, m, o) && o.first <= k < o.last
    ensures var s, t := ScanAt(elfs, m, o, k), ScanAt(elfs, m, o, k + 1);
      t.removedElfs == s.removedElfs + [k] && t.invalidated == s.invalidated + [elfs[k]]
  {
  }

  lemma NewElfsAdvance(elfs: seq<ElfInfo>, m: Mapping, o: Overlap, k: nat)
    requires AllPlaced(elfs, m, o) && o.first <= k < o.last
    ensures var s, t := ScanAt(elfs, m, o, k), ScanAt(elfs, m, o, k + 1);
      t.newElfs == s.newElfs + PartBelow(elfs[k], t.addr) + PartAbove(elfs[k], t.addrEnd)
  {
    LowPartIsFragment(elfs, m, o, k);
    HighPartIsFragment(elfs, m, o, k);
  }

  predicate Skips(s: Scan, path: string, e: ElfInfo) {
    var iEnd := Wrap64(e.addr + e.length);
    iEnd < s.addr || (iEnd == s.addr && !SameRegion(s.addr, s.pgoff, path, e))
  }

  /** After merging, the running range is exactly the entry it just merged with. */
  predicate Absorbed(s: Scan, path: string, e: ElfInfo) {
    var (addr, addrEnd, _) := MergeBounds(s.addr, s.addrEnd, s.pgoff, path, e);
    SameRegion(s.addr, s.pgoff, path, e) && addr == e.addr && Wrap64(addrEnd - addr) == e.length
  }

  /** One round of the scan. */
  lemma ScanStep(elfs: seq<ElfInfo>, m: Mapping, o: Overlap, k: nat)
    requires AllPlaced(elfs, m, o) && k < |elfs| && k <= o.last
    requires elfs[k].addr < ScanAt(elfs, m, o, k).addrEnd
    requires o.first < k ==> !Contained(elfs, m, o)
    ensures k < o.last
    ensures var s, t := ScanAt(elfs, m, o, k), ScanAt(elfs, m, o, k + 1);
      && s.addr < s.addrEnd
      && (Skips(s, m.originalPath, elfs[k]) <==> k < o.first)
      && (k < o.first ==> t == s)
      && (o.first <= k ==> t == Replace(s, m.originalPath, k, elfs[k]) && t.addr < t.addrEnd)
      && (o.first <= k ==> (Absorbed(s, m.originalPath, elfs[k]) <==> Contained(elfs, m, o)))
      && (Contained(elfs, m, o) ==> s.newElfs == [] && s.removedElfs == [] && s.invalidated == [])
  {
    assert Placed(elfs, m, o, k);
    MergedFacts(elfs, m, o);
    ScanTest(elfs, m, o, k);
    if o.first <= k {
      ScanReplaces(elfs, m, o, k);
      BoundsAdvance(elfs, m, o, k);
      AbsorbedIsContained(elfs, m, o, k);
    }
  }

  lemma AbsorbedIsContained(elfs: seq<ElfInfo>, m: Mapping, o: Overlap, k: nat)
    requires AllPlaced(elfs, m, o) && o.first <= k < o.last
    requires o.first < k ==> !Contained(elfs, m, o)
    ensures Absorbed(ScanAt(elfs, m, o, k), m.originalPath, elfs[k]) <==> Contained(elfs, m, o)
  {
    assert Placed(elfs, m, o, k);
    assert Placed(elfs, m, o, o.first);
    MergedFacts(elfs, m, o);
    ScanTest(elfs, m, o, k);
    BoundsAdvance(elfs, m, o, k);
  }

  /** The scan stops only behind the touched stretch. */
  lemma ScanEnds(elfs: seq<ElfInfo>, m: Mapping, o: Overlap, k: nat)
    requires AllPlaced(elfs, m, o) && k <= |elfs| && k <= o.last
    requires k == |elfs| || ScanAt(elfs, m, o, k).addrEnd <= elfs[k].addr
    ensures k == o.last
    ensures o.first == o.last ==> !Contained(elfs, m, o)
  {
    assert k < |elfs| ==> Placed(elfs, m, o, k);
  }

  lemma RegisterOverwrites(st: ElfState, m: Mapping)
    ensures forall a: int :: Lookup(Register(st, m).elfs, a) == Overwritten(m, Lookup(st.elfs, a), a)
  {
    forall a: int
      ensures Lookup(Register(st, m).elfs, a) == Overwritten(m, Lookup(st.elfs, a), a)
    {
      RegisterRefinesOverwrite(st, m, a);
    }
  }

  lemma ContainedChangesNothing(st: ElfState, m: Mapping)
    requires IsOverlap(st.elfs, m, OverlapOf(st.elfs, m)) && Contained(st.elfs, m, OverlapOf(st.elfs, m))
    ensures Register(st, m) == st && Invalidated(st, m) == []
  {
  }

  /** What a finished scan collected, put back in place of what it removed, is the
      registered vector. */
  lemma FinishScan(st: ElfState, m: Mapping, s: Scan)
    requires AllPlaced(st.elfs, m, OverlapOf(st.elfs, m))
    requires !Contained(st.elfs, m, OverlapOf(st.elfs, m))
    requires s == ScanAt(st.elfs, m, OverlapOf(st.elfs, m), OverlapOf(st.elfs, m).last)
    ensures var o := OverlapOf(st.elfs, m);
      var built := MakeElf(m.localFile, s.addr, Wrap64(s.addrEnd - s.addr), s.pgoff,
                           m.originalFileName, m.originalPath);
      var (elf, lastBase) := WithBase(st.lastBase, m.originalPath, built);
      && s.invalidated == Invalidated(st, m)
      && o.first <= o.last <= |st.elfs|
      && s.removedElfs == seq(o.last - o.first, i => o.first + i)
      && Register(st, m) ==
         ElfState(InsertAll(st.elfs[..o.first] + st.elfs[o.last..], s.newElfs + [elf]), lastBase)
  {
    var o := OverlapOf(st.elfs, m);
    CollectedIsRegistered(st, m, o, s);
  }

  lemma CollectedIsRegistered(st: ElfState, m: Mapping, o: Overlap, s: Scan)
    requires AllPlaced(st.elfs, m, o) && s == ScanAt(st.elfs, m, o, o.last)
    ensures s.invalidated == st.elfs[o.first..o.last]
    ensures s.removedElfs == seq(o.last - o.first, i => o.first + i)
    ensures MakeElf(m.localFile, s.addr, Wrap64(s.addrEnd - s.addr), s.pgoff,
                    m.originalFileName, m.originalPath) == MergedElf(st.elfs, m, o)
    ensures var elf := WithBase(st.lastBase, m.originalPath, MergedElf(st.elfs, m, o)).0;
      RegisteredElfs(st.elfs, elf, m, o) ==
      InsertAll(st.elfs[..o.first] + st.elfs[o.last..], s.newElfs + [elf])
  {
    ScanAtLast(st.elfs, m, o);
    var elf := WithBase(st.lastBase, m.originalPath, MergedElf(st.elfs, m, o)).0;
    InsertedIsRegistered(st.elfs, elf, m, o);
  }

  lemma ScanAtLast(elfs: seq<ElfInfo>, m: Mapping, o: Overlap)
    requires AllPlaced(elfs, m, o)
    ensures MergedStart(elfs, m, o) < MergedEnd(elfs, m, o) < TWO_64
    ensures ScanAt(elfs, m, o, o.last) ==
      Scan(MergedStart(elfs, m, o), MergedEnd(elfs, m, o), MergedPgoff(elfs, m, o),
           LowFragment(elfs, m, o) + HighFragment(elfs, m, o),
           seq(o.last - o.first, i => o.first + i), elfs[o.first..o.last])
  {
    MergedFacts(elfs, m, o);
    assert o.first == o.last ==> seq(o.last - o.first, i => o.first + i) == [];
  }

  lemma InsertedIsRegistered(elfs: seq<ElfInfo>, elf: ElfInfo, m: Mapping, o: Overlap)
    requires ValidElfs(elfs) && IsOverlap(elfs, m, o) && ValidEntry(elf) && IsMerged(elfs, elf, m, o)
    ensures RegisteredElfs(elfs, elf, m, o) ==
      InsertAll(elfs[..o.first] + elfs[o.last..], LowFragment(elfs, m, o) + HighFragment(elfs, m, o) + [elf])
  {
    RegisteredValid(elfs, elf, m, o);
    InsertAllRegistered(elfs[..o.first], LowFragment(elfs, m, o), elf, HighFragment(elfs, m, o), elfs[o.last..]);
  }

  class PerfElfMap {
    var elfs: seq<ElfInfo>
    var lastBase: ElfInfo

    ghost predicate Valid()
      reads this
    {
      ValidElfs(elfs)
    }

    ghost function State(): ElfState
      requires Valid()
      reads this
    {
      ElfState(elfs, lastBase)
    }

    constructor ()
      ensures Valid() && State() == EMPTY_STATE
    {
      elfs, lastBase := [], NO_ELF;
    }

    /** Looks at one entry that starts below the end of the range: passes over it, merges
        with it, or cuts it. Says whether the entry holds the whole mapping already. */
    static method OverwriteEntry(s: Scan, path: string, k: nat, i: ElfInfo) returns (contained: bool, r: Scan)
      ensures contained <==> !Skips(s, path, i) && Absorbed(s, path, i)
      ensures contained ==> r == s
      ensures !contained ==> r == if Skips(s, path, i) then s else Replace(s, path, k, i)
    {
      hide Wrap64, SameRegion, MakeElf;
      var addr, addrEnd, pgoff := s.addr, s.addrEnd, s.pgoff;
      var newElfs := s.newElfs;
      var iEnd := Wrap64(i.addr + i.length);
      if iEnd < addr {
        return false, s;
      }
      if SameRegion(addr, pgoff, path, i) {
        addr, pgoff, addrEnd := Min(addr, i.addr), Min(pgoff, i.pgoff), Max(addrEnd, iEnd);
        var len := Wrap64(addrEnd - addr);
        if addr == i.addr && len == i.length {
          return true, s;
        }
      } else if iEnd == addr {
        return false, s;
      }
      if i.addr < addr {
        newElfs := newElfs + [MakeElf(i.localFile, i.addr, Wrap64(addr - i.addr), i.pgoff,
                                      i.originalFileName, i.originalPath)];
      }
      if iEnd > addrEnd {
        newElfs := newElfs + [MakeElf(i.localFile, addrEnd, Wrap64(iEnd - addrEnd),
                                      Wrap64(i.pgoff + addrEnd - i.addr),
                                      i.originalFileName, i.originalPath)];
      }
      return false, Scan(addr, addrEnd, pgoff, newElfs, s.removedElfs + [k], s.invalidated + [i]);
    }

    /** Walks over the entries below the end of the mapping, moving the range's own bounds
        as it merges, and collects what to remove and what to insert. */
    method CollectOverwritten(m: Mapping, ghost o: Overlap) returns (contained: bool, s: Scan)
      requires AllPlaced(elfs, m, o)
      ensures contained <==> Contained(elfs, m, o)
      ensures contained ==> s.newElfs == [] && s.removedElfs == [] && s.invalidated == []
      ensures !contained ==> s == ScanAt(elfs, m, o, o.last)
    {
      s := Scan(m.addr, Wrap64(m.addr + m.len), m.pgoff, [], [], []);
      contained := false;
      var k := 0;
      while k < |elfs| && elfs[k].addr < s.addrEnd
        invariant 0 <= k <= o.last
        invariant s == ScanAt(elfs, m, o, k)
        invariant o.first < k ==> !Contained(elfs, m, o)
        decreases |elfs| - k
      {
        ScanStep(elfs, m, o, k);
        contained, s := OverwriteEntry(s, m.originalPath, k, elfs[k]);
        if contained {
          return;
        }
        k := k + 1;
      }
      ScanEnds(elfs, m, o, k);
    }

    /** Removes the entries at the given positions, from the back. */
    method RemoveAt(removedElfs: seq<nat>, ghost o: Overlap)
      requires o.first <= o.last <= |elfs|
      requires removedElfs == seq(o.last - o.first, i => o.first + i)
      modifies this`elfs
      ensures elfs == old(elfs[..o.first] + elfs[o.last..])
    {
      var j := |removedElfs|;
      while j > 0
        invariant 0 <= j <= |removedElfs|
        invariant elfs == old(elfs[..o.first + j] + elfs[o.last..])
      {
        j := j - 1;
        elfs := elfs[..removedElfs[j]] + elfs[removedElfs[j] + 1..];
      }
    }

    /** Maps a range of a file, cutting, replacing or merging what was mapped there. Returns
        the entries that were announced as invalid, in that order. */
    method RegisterElf(m: Mapping) returns (invalidated: seq<ElfInfo>)
      requires Valid()
      modifies this
      ensures Valid()
      ensures State() == Register(old(State()), m)
      ensures invalidated == Invalidated(old(State()), m)
      ensures forall a: int :: Lookup(elfs, a) == Overwritten(m, Lookup(old(elfs), a), a)
    {
      hide Register, Invalidated, Lookup, Overwritten, ScanAt, Contained, OverlapOf, ValidElfs, InsertAll, WithBase;
      ghost var o, st := OverlapOf(elfs, m), State();
      OverlapPlacesAll(elfs, m);
      RegisterOverwrites(st, m);
      var contained, s := CollectOverwritten(m, o);
      if contained {
        ContainedChangesNothing(st, m);
        return [];
      }
      FinishScan(st, m, s);
      invalidated := s.invalidated;
      ApplyOverwrite(m, s, o);
    }

    /** Replaces what the scan marked by what it collected and by the new entry. */
    method ApplyOverwrite(m: Mapping, s: Scan, ghost o: Overlap)
      requires o.first <= o.last <= |elfs|
      requires s.removedElfs == seq(o.last - o.first, i => o.first + i)
      modifies this
      ensures var built := MakeElf(m.localFile, s.addr, Wrap64(s.addrEnd - s.addr), s.pgoff,
                                   m.originalFileName, m.originalPath);
        var (elf, base) := WithBase(old(lastBase), m.originalPath, built);
        && lastBase == base
        && elfs == InsertAll(old(elfs[..o.first] + elfs[o.last..]), s.newElfs + [elf])
    {
      RemoveAt(s.removedElfs, o);
      var built := MakeElf(m.localFile, s.addr, Wrap64(s.addrEnd - s.addr), s.pgoff,
                           m.originalFileName, m.originalPath);
      var elf := TakeBase(built, m.originalPath);
      InsertElfs(s.newElfs + [elf]);
    }

    /** Gives a new entry the base address of its file, or makes it the base itself. */
    method TakeBase(built: ElfInfo, path: string) returns (elf: ElfInfo)
      modifies this`lastBase
      ensures (elf, lastBase) == WithBase(old(lastBase), path, built)
    {
      elf := built;
      if elf.localFile.isFile {
        if lastBase.originalPath == path && elf.addr > lastBase.addr {
          elf := elf.(baseAddr := lastBase.addr);
        } else if elf.pgoff == 0 {
          lastBase := elf;
        } else {
          lastBase := NO_ELF;
        }
      }
    }

    /** Inserts entries one by one, each at its place by start address. */
    method InsertElfs(newElfs: seq<ElfInfo>)
      modifies this`elfs
      ensures elfs == InsertAll(old(elfs), newElfs)
    {
      for j := 0 to |newElfs|
        invariant elfs == InsertAll(old(elfs), newElfs[..j])
      {
        assert newElfs[..j + 1][..j] == newElfs[..j];
        var at := LowerBound(elfs, newElfs[j].addr);
        elfs := elfs[..at] + [newElfs[j]] + elfs[at..];
      }
      assert newElfs[..|newElfs|] == newElfs;
    }

    /** The entry that an instruction pointer falls into, or an invalid one. */
    method FindElf(ip: u64) returns (e: ElfInfo)
      requires Valid()
      ensures e == FoundElf(elfs, ip)
    {
      var i := UpperBound(elfs, ip);
      if i == 0 {
        return NO_ELF;
      }
      i := i - 1;
      if elfs[i].dwflStart < elfs[i].dwflEnd {
        e := if elfs[i].dwflStart <= ip && elfs[i].dwflEnd > ip then elfs[i] else NO_ELF;
      } else {
        e := if Wrap64(elfs[i].addr + elfs[i].length) > ip then elfs[i] else NO_ELF;
      }
    }

    /** Remembers the address range that the unwinder reported for an entry. */
    method UpdateElf(addr: u64, dwflStart: u64, dwflEnd: u64)
      requires Valid()
      requires exists k :: 0 <= k < |elfs| && elfs[k].addr == addr
      modifies this`elfs
      ensures Valid() && |elfs| == |old(elfs)|
      ensures forall k :: 0 <= k < |elfs| ==> elfs[k] == WithReportedRange(old(elfs)[k], addr, dwflStart, dwflEnd)
      ensures forall a: int :: Lookup(elfs, a) == Lookup(old(elfs), a)
    {
      UpperBoundFacts(elfs, addr);
      var i := UpperBound(elfs, addr) - 1;
      assert forall k :: 0 <= k < |elfs| ==> ValidEntry(elfs[k]);
      assert elfs[i].addr == addr;
      ghost var was := elfs;
      elfs := elfs[i := elfs[i].(dwflStart := dwflStart, dwflEnd := dwflEnd)];
      forall a: int
        ensures Lookup(elfs, a) == Lookup(was, a)
      {
        SameRangesSameLookup(elfs, was, a);
      }
    }

    /** Whether an address lies between the first and the last mapped one. */
    method IsAddressInRange(addr: u64) returns (r: bool)
      requires Valid()
      ensures r <==> (exists x: int :: x <= addr && Lookup(elfs, x) != Unmapped) &&
                     (exists y: int :: addr <= y && Lookup(elfs, y) != Unmapped)
    {
      if elfs == [] {
        return false;
      }
      var first, last := elfs[0], elfs[|elfs| - 1];
      HullIsMapped(elfs);
      r := first.addr <= addr && addr < Wrap64(last.addr + last.length);
    }

    /** Takes over the map of another process, as a fork does. */
    method CopyDataFrom(parent: PerfElfMap)
      requires parent.Valid()
      modifies this
      ensures Valid() && State() == old(parent.State())
    {
      elfs := parent.elfs;
      lastBase := parent.lastBase;
    }
  }

  function WithReportedRange(e: ElfInfo, addr: u64, dwflStart: u64, dwflEnd: u64): ElfInfo {
    if e.addr == addr then e.(dwflStart := dwflStart, dwflEnd := dwflEnd) else e
  }

  /** The position of the first entry that starts behind `a`. */
  function UpperBound(elfs: seq<ElfInfo>, a: int): (k: nat)
    ensures k <= |elfs|
  {
    if elfs == [] || a < elfs[0].addr then 0 else 1 + UpperBound(elfs[1..], a)
  }

  lemma {:induction false} UpperBoundFacts(elfs: seq<ElfInfo>, a: int)
    requires ValidElfs(elfs)
    ensures forall i :: 0 <= i < |elfs| ==> (i < UpperBound(elfs, a) <==> elfs[i].addr <= a)
  {
    if elfs != [] {
      assert forall i :: 0 <= i < |elfs| ==> ValidEntry(elfs[i]);
      assert forall i :: 1 <= i < |elfs| ==> elfs[i] == elfs[1..][i - 1] && elfs[0].addr < elfs[i].addr;
      assert ValidElfs(elfs[1..]);
      UpperBoundFacts(elfs[1..], a);
    }
  }

  /** The entry that starts last at or below `ip`, if its range holds `ip`; a range reported
      by the unwinder replaces the mapped one. */
  function FoundElf(elfs: seq<ElfInfo>, ip: int): ElfInfo {
    var k := UpperBound(elfs, ip);
    if k == 0 then NO_ELF
    else
      var e := elfs[k - 1];
      if e.dwflStart < e.dwflEnd then (if e.dwflStart <= ip < e.dwflEnd then e else NO_ELF)
      else if ip < e.addr + e.length then e
      else NO_ELF
  }

  ghost predicate NoReportedRange(elfs: seq<ElfInfo>) {
    forall i :: 0 <= i < |elfs| ==> elfs[i].dwflEnd <= elfs[i].dwflStart
  }

  /** Without reported ranges, finding an entry is looking the address up. */
  lemma FindIsLookup(elfs: seq<ElfInfo>, ip: int)
    requires ValidElfs(elfs) && NoReportedRange(elfs)
    ensures var e := FoundElf(elfs, ip);
      && (e.IsValid() <==> Lookup(elfs, ip) != Unmapped)
      && (e.IsValid() ==> e in elfs && e.Covers(ip) && Lookup(elfs, ip) == TargetIn(e, ip))
  {
    UpperBoundFacts(elfs, ip);
    LookupMiss(elfs, ip);
    var k := UpperBound(elfs, ip);
    if k > 0 {
      assert ValidEntry(elfs[k - 1]);
      if elfs[k - 1].Covers(ip) {
        LookupHit(elfs, ip, k - 1);
      } else {
        assert forall i :: 0 <= i < k - 1 ==> elfs[i].addr + elfs[i].length <= elfs[k - 1].addr;
      }
    }
  }

  lemma {:induction false} SameRangesSameLookup(x: seq<ElfInfo>, y: seq<ElfInfo>, a: int)
    requires |x| == |y|
    requires forall i :: 0 <= i < |x| ==>
      x[i].addr == y[i].addr && x[i].length == y[i].length && x[i].pgoff == y[i].pgoff &&
      x[i].originalPath == y[i].originalPath
    ensures Lookup(x, a) == Lookup(y, a)
  {
    if x != [] {
      SameRangesSameLookup(x[1..], y[1..], a);
    }
  }

  lemma HullIsMapped(elfs: seq<ElfInfo>)
    requires ValidElfs(elfs) && elfs != []
    ensures var first, last := elfs[0], elfs[|elfs| - 1];
      && Lookup(elfs, first.addr) != Unmapped
      && Lookup(elfs, last.addr + last.length - 1) != Unmapped
      && last.addr + last.length < TWO_64
      && forall a: int :: Lookup(elfs, a) != Unmapped ==> first.addr <= a < last.addr + last.length
  {
    var first, last := elfs[0], elfs[|elfs| - 1];
    assert ValidEntry(first) && ValidEntry(last);
    LookupHit(elfs, first.addr, 0);
    LookupHit(elfs, last.addr + last.length - 1, |elfs| - 1);
    forall a: int | Lookup(elfs, a) != Unmapped
      ensures first.addr <= a < last.addr + last.length
    {
      LookupMiss(elfs, a);
      var k :| 0 <= k < |elfs| && elfs[k].Covers(a);
      assert ValidEntry(elfs[k]);
      assert k > 0 ==> first.addr + first.length <= elfs[k].addr;
      assert k < |elfs| - 1 ==> elfs[k].addr + elfs[k].length <= last.addr;
    }
  }

  // ------------------------------------------------------------ base mappings

  /** The entry whose file gets reported for `elf`: the first mapping of the same file, found
      through the base address. The start address is the termination measure. */
  function ModuleElf(elfs: seq<ElfInfo>, elf: ElfInfo): ElfInfo
    requires ValidElfs(elfs)
    requires elf.HasBaseAddr() ==> elf.baseAddr < elf.addr
    decreases elf.addr
  {
    if elf.HasBaseAddr() && elf.baseAddr != elf.addr then
      var base := FoundElf(elfs, elf.baseAddr);
      FoundIsValid(elfs, elf.baseAddr);
      if base.addr == elf.baseAddr && base.pgoff == 0 && elf.originalPath == base.originalPath
         && elf.addr != base.addr
      then ModuleElf(elfs, base)
      else elf
    else elf
  }

  lemma FoundIsValid(elfs: seq<ElfInfo>, ip: int)
    requires ValidElfs(elfs)
    ensures var e := FoundElf(elfs, ip);
      e == NO_ELF || (e in elfs && ValidEntry(e) && e.addr <= ip)
  {
    UpperBoundFacts(elfs, ip);
  }

  /** Following base addresses stays in the same file, only ever moves down, and stops at an
      entry that is the start of the file as far as the map knows. */
  lemma {:induction false} ModuleElfIsRoot(elfs: seq<ElfInfo>, elf: ElfInfo)
    requires ValidElfs(elfs)
    requires elf.HasBaseAddr() ==> elf.baseAddr < elf.addr
    ensures var r := ModuleElf(elfs, elf);
      && r.originalPath == elf.originalPath
      && (r == elf || (r.addr < elf.addr && r.pgoff == 0 && FoundElf(elfs, r.addr) == r))
      && ModuleElf(elfs, r) == r
    decreases elf.addr
  {
    var base := FoundElf(elfs, elf.baseAddr);
    FoundIsValid(elfs, elf.baseAddr);
    if ModuleElf(elfs, elf) != elf {
      ModuleElfIsRoot(elfs, base);
    }
  }
}
