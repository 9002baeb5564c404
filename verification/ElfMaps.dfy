/** The address map of one process: a vector of mapped ranges, sorted by start
    address, and the value it stands for. */
module ElfMaps {
  import opened WordArithmetic

  datatype LocalFile = LocalFile(fileName: string, absolutePath: string, isFile: bool)

  const NO_FILE := LocalFile("", "", false)

  /** The start address that stands for "no base address". */
  const INVALID_BASE_ADDR: u64 := 0xFFFF_FFFF_FFFF_FFFF

  datatype ElfInfo = ElfInfo(
    localFile: LocalFile, originalFileName: string, originalPath: string,
    addr: u64, length: u64, pgoff: u64, baseAddr: u64, dwflStart: u64, dwflEnd: u64)
  {
    predicate IsValid() {
      length > 0
    }

    predicate HasBaseAddr() {
      baseAddr != INVALID_BASE_ADDR
    }

    predicate Covers(a: int) {
      addr <= a < addr + length
    }
  }

  /** A range entry as its constructor builds it: empty names fall back to the local file. */
  function MakeElf(localFile: LocalFile, addr: u64, length: u64, pgoff: u64,
                   originalFileName: string, originalPath: string): ElfInfo
  {
    ElfInfo(localFile,
            if originalFileName == "" then localFile.fileName else originalFileName,
            if originalPath == "" then localFile.absolutePath else originalPath,
            addr, length, pgoff, INVALID_BASE_ADDR, 0, 0)
  }

  const NO_ELF := MakeElf(NO_FILE, 0, 0, 0, "", "")

  /** A mapping to register. */
  datatype MappingRequest = MappingRequest(
    addr: u64, len: u64, pgoff: u64,
    localFile: LocalFile, originalFileName: string, originalPath: string)

  /** Not empty, inside the 64-bit space in memory and in the file, and named as the
      entry constructor would name it. */
  predicate Mappable(m: MappingRequest) {
    && 0 < m.len
    && m.addr + m.len < TWO_64
    && m.pgoff + m.len < TWO_64
    && (m.originalPath == "" ==> m.localFile.absolutePath == "")
  }

  type Mapping = m: MappingRequest | Mappable(m) witness MappingRequest(0, 1, 0, NO_FILE, "", "")

  ghost predicate ValidEntry(e: ElfInfo) {
    && 0 < e.length
    && e.addr + e.length < TWO_64
    && e.pgoff + e.length < TWO_64
    && (e.originalPath == "" ==> e.localFile.absolutePath == "")
    && (e.HasBaseAddr() ==> e.baseAddr < e.addr)
  }

  ghost predicate Ordered(elfs: seq<ElfInfo>) {
    forall i, j :: 0 <= i < j < |elfs| ==> elfs[i].addr + elfs[i].length <= elfs[j].addr
  }

  /** Sorted by start, pairwise disjoint, no empty range, and every base address lies
      below its own range. */
  ghost predicate ValidElfs(elfs: seq<ElfInfo>) {
    && Ordered(elfs)
    && forall i :: 0 <= i < |elfs| ==> ValidEntry(elfs[i])
  }

  datatype RawElfState = ElfState(elfs: seq<ElfInfo>, lastBase: ElfInfo)

  type ElfState = s: RawElfState | ValidElfs(s.elfs) witness ElfState([], NO_ELF)

  const EMPTY_STATE: ElfState := ElfState([], NO_ELF)

  // ------------------------------------------------------------ abstract value

  /** What an address means: nothing, or an offset into a file. */
  datatype Target = Unmapped | Mapped(path: string, offset: int)

  function TargetIn(e: ElfInfo, a: int): Target {
    Mapped(e.originalPath, e.pgoff + a - e.addr)
  }

  function Lookup(elfs: seq<ElfInfo>, a: int): Target {
    if elfs == [] then Unmapped
    else if elfs[0].Covers(a) then TargetIn(elfs[0], a)
    else Lookup(elfs[1..], a)
  }

  predicate InMapping(m: Mapping, a: int) {
    m.addr <= a < m.addr + m.len
  }

  /** The last writer wins: the mapping's own range means the mapping, everything else
      keeps its old meaning. */
  function Overwritten(m: Mapping, old_: Target, a: int): Target {
    if InMapping(m, a) then Mapped(m.originalPath, m.pgoff + a - m.addr) else old_
  }

  lemma {:induction false} LookupConcat(x: seq<ElfInfo>, y: seq<ElfInfo>, a: int)
    ensures Lookup(x + y, a) == if Lookup(x, a) == Unmapped then Lookup(y, a) else Lookup(x, a)
  {
    if x == [] {
      assert x + y == y;
    } else {
      assert (x + y)[1..] == x[1..] + y;
      LookupConcat(x[1..], y, a);
    }
  }

  lemma {:induction false} LookupMiss(elfs: seq<ElfInfo>, a: int)
    ensures Lookup(elfs, a) == Unmapped <==> forall i :: 0 <= i < |elfs| ==> !elfs[i].Covers(a)
  {
    if elfs != [] {
      LookupMiss(elfs[1..], a);
      assert forall i :: 1 <= i < |elfs| ==> elfs[i] == elfs[1..][i - 1];
    }
  }

  lemma {:induction false} LookupHit(elfs: seq<ElfInfo>, a: int, k: nat)
    requires Ordered(elfs) && k < |elfs| && elfs[k].Covers(a)
    ensures Lookup(elfs, a) == TargetIn(elfs[k], a)
  {
    if k > 0 {
      assert elfs[0].addr + elfs[0].length <= elfs[k].addr;
      LookupHit(elfs[1..], a, k - 1);
    }
  }

  // ------------------------------------------------------------ registering

  /** The wrapping test for "the same file at the same load bias". */
  predicate SameRegion(addr: u64, pgoff: u64, path: string, e: ElfInfo) {
    Wrap64(addr - pgoff) == Wrap64(e.addr - e.pgoff) && path == e.originalPath
  }

  predicate Extends(m: Mapping, e: ElfInfo) {
    SameRegion(m.addr, m.pgoff, m.originalPath, e)
  }

  /** An entry the mapping replaces: they overlap, or the entry ends where the mapping
      starts and is the same file at the same load bias. */
  predicate Touches(m: Mapping, e: ElfInfo) {
    && e.addr < m.addr + m.len
    && (m.addr < e.addr + e.length || (m.addr == e.addr + e.length && Extends(m, e)))
  }

  /** The number of leading entries that lie before the mapping. */
  function FirstTouched(elfs: seq<ElfInfo>, m: Mapping): (k: nat)
    ensures k <= |elfs|
  {
    if elfs == [] || m.addr < elfs[0].addr + elfs[0].length
       || (m.addr == elfs[0].addr + elfs[0].length && Extends(m, elfs[0]))
    then 0
    else 1 + FirstTouched(elfs[1..], m)
  }

  /** The position of the first entry that starts at `a` or later. */
  function LowerBound(elfs: seq<ElfInfo>, a: int): (k: nat)
    ensures k <= |elfs|
  {
    if elfs == [] || a <= elfs[0].addr then 0 else 1 + LowerBound(elfs[1..], a)
  }

  /** The stretch of entries a mapping replaces, and whether its outermost entries are the
      same file at the same load bias and are merged instead of cut. */
  datatype Overlap = Overlap(first: nat, last: nat, mergesLow: bool, mergesHigh: bool)

  function OverlapOf(elfs: seq<ElfInfo>, m: Mapping): Overlap {
    var f, l := FirstTouched(elfs, m), LowerBound(elfs, m.addr + m.len);
    Overlap(f, l, f < l && Extends(m, elfs[f]), f < l && Extends(m, elfs[l - 1]))
  }

  predicate SameBias(m: Mapping, e: ElfInfo) {
    m.addr - m.pgoff == e.addr - e.pgoff && m.originalPath == e.originalPath
  }

  /** What the proofs below need to know about an overlap. */
  ghost predicate IsOverlap(elfs: seq<ElfInfo>, m: Mapping, o: Overlap) {
    && o.first <= o.last <= |elfs|
    && Within(elfs[..o.first], 0, m.addr)
    && Within(elfs[o.last..], m.addr + m.len, TWO_64)
    && (o.first < o.last ==>
          && m.addr <= elfs[o.first].addr + elfs[o.first].length
          && elfs[o.last - 1].addr < m.addr + m.len
          && (o.mergesLow <==> SameBias(m, elfs[o.first]))
          && (o.mergesHigh <==> SameBias(m, elfs[o.last - 1]))
          && (!o.mergesLow ==> m.addr < elfs[o.first].addr + elfs[o.first].length))
    && (o.first == o.last ==> !o.mergesLow && !o.mergesHigh)
  }

  function MergedStart(elfs: seq<ElfInfo>, m: Mapping, o: Overlap): u64
    requires IsOverlap(elfs, m, o)
  {
    if o.mergesLow then Min(m.addr, elfs[o.first].addr) else m.addr
  }

  function MergedPgoff(elfs: seq<ElfInfo>, m: Mapping, o: Overlap): u64
    requires IsOverlap(elfs, m, o)
  {
    if o.mergesLow then Min(m.pgoff, elfs[o.first].pgoff) else m.pgoff
  }

  function MergedEnd(elfs: seq<ElfInfo>, m: Mapping, o: Overlap): nat
    requires IsOverlap(elfs, m, o)
  {
    if o.mergesHigh then
      Max(m.addr + m.len, elfs[o.last - 1].addr + elfs[o.last - 1].length)
    else m.addr + m.len
  }

  /** One entry holds the whole mapping already. */
  predicate Contained(elfs: seq<ElfInfo>, m: Mapping, o: Overlap)
    requires IsOverlap(elfs, m, o)
  {
    && o.first + 1 == o.last
    && o.mergesLow
    && elfs[o.first].addr <= m.addr
    && m.addr + m.len <= elfs[o.first].addr + elfs[o.first].length
  }

  /** What is left of the first replaced entry below the mapping. */
  function LowFragment(elfs: seq<ElfInfo>, m: Mapping, o: Overlap): seq<ElfInfo>
    requires IsOverlap(elfs, m, o)
  {
    if o.first < o.last && !o.mergesLow && elfs[o.first].addr < m.addr then
      var e := elfs[o.first];
      [MakeElf(e.localFile, e.addr, m.addr - e.addr, e.pgoff, e.originalFileName, e.originalPath)]
    else []
  }

  /** What is left of the last replaced entry above the mapping. */
  function HighFragment(elfs: seq<ElfInfo>, m: Mapping, o: Overlap): seq<ElfInfo>
    requires ValidElfs(elfs) && IsOverlap(elfs, m, o)
  {
    var end := m.addr + m.len;
    if o.first < o.last && !o.mergesHigh && end < elfs[o.last - 1].addr + elfs[o.last - 1].length then
      var e := elfs[o.last - 1];
      [MakeElf(e.localFile, end, e.addr + e.length - end, e.pgoff + (end - e.addr),
               e.originalFileName, e.originalPath)]
    else []
  }

  /** The base-address bookkeeping for a newly built entry. */
  function WithBase(lastBase: ElfInfo, path: string, elf: ElfInfo): (ElfInfo, ElfInfo) {
    if !elf.localFile.isFile then (elf, lastBase)
    else if lastBase.originalPath == path && elf.addr > lastBase.addr then
      (elf.(baseAddr := lastBase.addr), lastBase)
    else if elf.pgoff == 0 then (elf, elf)
    else (elf, NO_ELF)
  }

  function MergedElf(elfs: seq<ElfInfo>, m: Mapping, o: Overlap): (e: ElfInfo)
    requires ValidElfs(elfs) && IsOverlap(elfs, m, o)
    ensures ValidEntry(e) && IsMerged(elfs, e, m, o)
  {
    MergedFacts(elfs, m, o);
    var start := MergedStart(elfs, m, o);
    MakeElf(m.localFile, start, MergedEnd(elfs, m, o) - start, MergedPgoff(elfs, m, o),
            m.originalFileName, m.originalPath)
  }

  function RegisteredElfs(elfs: seq<ElfInfo>, elf: ElfInfo, m: Mapping, o: Overlap): seq<ElfInfo>
    requires ValidElfs(elfs) && IsOverlap(elfs, m, o)
  {
    elfs[..o.first] + LowFragment(elfs, m, o) + [elf] + HighFragment(elfs, m, o) + elfs[o.last..]
  }

  /** The map after registering `m`: the replaced entries make room for one entry and for
      what remains of them at both ends. */
  function Register(st: ElfState, m: Mapping): ElfState {
    var o := OverlapOf(st.elfs, m);
    OverlapFacts(st.elfs, m);
    if Contained(st.elfs, m, o) then st
    else
      var (elf, lastBase) := WithBase(st.lastBase, m.originalPath, MergedElf(st.elfs, m, o));
      RegisteredValid(st.elfs, elf, m, o);
      ElfState(RegisteredElfs(st.elfs, elf, m, o), lastBase)
  }

  /** The entries whose replacement is signalled before it happens. */
  function Invalidated(st: ElfState, m: Mapping): seq<ElfInfo> {
    var o := OverlapOf(st.elfs, m);
    OverlapFacts(st.elfs, m);
    if Contained(st.elfs, m, o) then [] else st.elfs[o.first..o.last]
  }

  lemma {:induction false} FirstTouchedFacts(elfs: seq<ElfInfo>, m: Mapping)
    ensures forall i :: 0 <= i < FirstTouched(elfs, m) ==>
      elfs[i].addr + elfs[i].length <= m.addr && !Touches(m, elfs[i])
    ensures var f := FirstTouched(elfs, m);
      f < |elfs| && elfs[f].addr < m.addr + m.len ==> Touches(m, elfs[f])
    ensures var f := FirstTouched(elfs, m);
      f < |elfs| ==>
        && m.addr <= elfs[f].addr + elfs[f].length
        && (m.addr == elfs[f].addr + elfs[f].length ==> Extends(m, elfs[f]))
  {
    if elfs != [] && FirstTouched(elfs, m) > 0 {
      FirstTouchedFacts(elfs[1..], m);
      assert forall i :: 1 <= i < |elfs| ==> elfs[i] == elfs[1..][i - 1];
    }
  }

  lemma {:induction false} LowerBoundFacts(elfs: seq<ElfInfo>, a: int)
    ensures forall i :: 0 <= i < LowerBound(elfs, a) ==> elfs[i].addr < a
    ensures LowerBound(elfs, a) < |elfs| ==> a <= elfs[LowerBound(elfs, a)].addr
  {
    if elfs != [] && LowerBound(elfs, a) > 0 {
      LowerBoundFacts(elfs[1..], a);
      assert forall i :: 1 <= i < |elfs| ==> elfs[i] == elfs[1..][i - 1];
    }
  }

  /** The wrapping test decides integer equality of the load biases, for two ranges that
      overlap or touch. */
  lemma WrapTestExact(addr: u64, len: nat, pgoff: u64, e: ElfInfo)
    requires ValidEntry(e)
    requires addr + len < TWO_64 && pgoff + len < TWO_64
    requires e.addr <= addr + len && addr <= e.addr + e.length
    ensures Wrap64(addr - pgoff) == Wrap64(e.addr - e.pgoff) <==> addr - pgoff == e.addr - e.pgoff
  {
    var x, y := addr - pgoff, e.addr - e.pgoff;
    assert -TWO_64 < x < TWO_64 && -TWO_64 < y < TWO_64;
    assert -TWO_64 < x - y < TWO_64 by {
      assert x - y == (addr - e.addr) + (e.pgoff - pgoff);
    }
    assert Wrap64(x) == if x < 0 then x + TWO_64 else x;
    assert Wrap64(y) == if y < 0 then y + TWO_64 else y;
  }

  lemma ExtendsIsSameBias(m: Mapping, e: ElfInfo)
    requires ValidEntry(e)
    requires e.addr <= m.addr + m.len && m.addr <= e.addr + e.length
    ensures Extends(m, e) <==> SameBias(m, e)
  {
    WrapTestExact(m.addr, m.len, m.pgoff, e);
  }

  /** Where the touched stretch lies, for any two positions with the bounds' properties. */
  lemma StretchFacts(elfs: seq<ElfInfo>, m: Mapping, f: nat, l: nat)
    requires ValidElfs(elfs) && f <= |elfs| && l <= |elfs|
    requires forall i :: 0 <= i < f ==> elfs[i].addr + elfs[i].length <= m.addr
    requires f < |elfs| ==> m.addr <= elfs[f].addr + elfs[f].length
    requires forall i :: 0 <= i < l ==> elfs[i].addr < m.addr + m.len
    requires l < |elfs| ==> m.addr + m.len <= elfs[l].addr
    ensures f <= l
    ensures Within(elfs[..f], 0, m.addr) && Within(elfs[l..], m.addr + m.len, TWO_64)
    ensures f < l ==> elfs[f].addr < m.addr + m.len && m.addr <= elfs[l - 1].addr + elfs[l - 1].length
  {
    assert l < |elfs| ==> ValidEntry(elfs[l]);
    forall i | l <= i < |elfs|
      ensures m.addr + m.len <= elfs[i].addr && ValidEntry(elfs[i])
    {
      assert i > l ==> elfs[l].addr + elfs[l].length <= elfs[i].addr;
    }
    if f < l - 1 {
      assert ValidEntry(elfs[l - 1]);
      assert elfs[f].addr + elfs[f].length <= elfs[l - 1].addr;
    }
  }

  lemma OverlapFacts(elfs: seq<ElfInfo>, m: Mapping)
    requires ValidElfs(elfs)
    ensures IsOverlap(elfs, m, OverlapOf(elfs, m))
  {
    var f, l := FirstTouched(elfs, m), LowerBound(elfs, m.addr + m.len);
    FirstTouchedFacts(elfs, m);
    LowerBoundFacts(elfs, m.addr + m.len);
    StretchFacts(elfs, m, f, l);
    if f < l {
      ExtendsIsSameBias(m, elfs[f]);
      ExtendsIsSameBias(m, elfs[l - 1]);
    }
  }

  /** The entries the mapping replaces are exactly those of one contiguous stretch. */
  lemma TouchedIsContiguous(elfs: seq<ElfInfo>, m: Mapping, i: nat)
    requires ValidElfs(elfs) && i < |elfs|
    ensures var o := OverlapOf(elfs, m);
      Touches(m, elfs[i]) <==> o.first <= i < o.last
  {
    hide FirstTouched, LowerBound, SameRegion, Lookup;
    var o := OverlapOf(elfs, m);
    OverlapFacts(elfs, m);
    FirstTouchedFacts(elfs, m);
    assert ValidEntry(elfs[i]);
    assert i >= o.last ==> elfs[i] == elfs[o.last..][i - o.last];
    assert o.first < i ==> elfs[o.first].addr + elfs[o.first].length <= elfs[i].addr;
    assert i < o.last - 1 ==> elfs[i].addr + elfs[i].length <= elfs[o.last - 1].addr;
  }

  ghost predicate Within(elfs: seq<ElfInfo>, lo: int, hi: int) {
    forall i :: 0 <= i < |elfs| ==> lo <= elfs[i].addr && elfs[i].addr + elfs[i].length <= hi
  }

  lemma JoinValid(x: seq<ElfInfo>, y: seq<ElfInfo>, lo: int, mid: int, hi: int)
    requires ValidElfs(x) && Within(x, lo, mid)
    requires ValidElfs(y) && Within(y, mid, hi)
    requires lo <= mid <= hi
    ensures ValidElfs(x + y) && Within(x + y, lo, hi)
  {
  }

  ghost predicate IsMerged(elfs: seq<ElfInfo>, elf: ElfInfo, m: Mapping, o: Overlap)
    requires IsOverlap(elfs, m, o)
  {
    && elf.addr == MergedStart(elfs, m, o)
    && elf.addr + elf.length == MergedEnd(elfs, m, o)
    && elf.pgoff == MergedPgoff(elfs, m, o)
    && elf.originalPath == m.originalPath
  }

  /** The end of everything that the mapping replaces or writes. */
  function OuterEnd(elfs: seq<ElfInfo>, m: Mapping, o: Overlap): nat
    requires IsOverlap(elfs, m, o)
  {
    if o.first < o.last then Max(m.addr + m.len, elfs[o.last - 1].addr + elfs[o.last - 1].length)
    else m.addr + m.len
  }

  function OuterStart(elfs: seq<ElfInfo>, m: Mapping, o: Overlap): nat
    requires IsOverlap(elfs, m, o)
  {
    if o.first < o.last then Min(m.addr, elfs[o.first].addr) else m.addr
  }

  /** The merged range grows over the touched entries only, at an unchanged load bias. */
  lemma MergedFacts(elfs: seq<ElfInfo>, m: Mapping, o: Overlap)
    requires ValidElfs(elfs) && IsOverlap(elfs, m, o)
    ensures var start, end, pgoff := MergedStart(elfs, m, o), MergedEnd(elfs, m, o), MergedPgoff(elfs, m, o);
      && OuterStart(elfs, m, o) <= start <= m.addr
      && m.addr + m.len <= end <= OuterEnd(elfs, m, o) < TWO_64
      && pgoff + (end - start) < TWO_64
      && m.addr - m.pgoff == start - pgoff
  {
    if o.first < o.last {
      assert ValidEntry(elfs[o.first]) && ValidEntry(elfs[o.last - 1]);
    }
  }

  /** The untouched entries stay clear of everything the mapping replaces or writes. */
  lemma OutsideFacts(elfs: seq<ElfInfo>, m: Mapping, o: Overlap)
    requires ValidElfs(elfs) && IsOverlap(elfs, m, o)
    ensures Within(elfs[..o.first], 0, OuterStart(elfs, m, o))
    ensures Within(elfs[o.last..], OuterEnd(elfs, m, o), TWO_64)
  {
    forall i | 0 <= i < o.first
      ensures elfs[i].addr + elfs[i].length <= OuterStart(elfs, m, o)
    {
      assert elfs[..o.first][i] == elfs[i];
      assert o.first < o.last ==> elfs[i].addr + elfs[i].length <= elfs[o.first].addr;
    }
    forall i | o.last <= i < |elfs|
      ensures OuterEnd(elfs, m, o) <= elfs[i].addr && ValidEntry(elfs[i])
    {
      assert elfs[o.last..][i - o.last] == elfs[i];
      assert o.first < o.last ==> elfs[o.last - 1].addr + elfs[o.last - 1].length <= elfs[i].addr;
    }
  }

  /** The fragments are valid and lie on either side of the merged range. */
  lemma FragmentFacts(elfs: seq<ElfInfo>, m: Mapping, o: Overlap)
    requires ValidElfs(elfs) && IsOverlap(elfs, m, o)
    ensures ValidElfs(LowFragment(elfs, m, o)) && ValidElfs(HighFragment(elfs, m, o))
    ensures Within(LowFragment(elfs, m, o), OuterStart(elfs, m, o), MergedStart(elfs, m, o))
    ensures Within(HighFragment(elfs, m, o), MergedEnd(elfs, m, o), OuterEnd(elfs, m, o))
  {
    if o.first < o.last {
      assert ValidEntry(elfs[o.first]) && ValidEntry(elfs[o.last - 1]);
    }
  }

  lemma JoinRegistered(before: seq<ElfInfo>, low: seq<ElfInfo>, elf: ElfInfo, high: seq<ElfInfo>,
                       after: seq<ElfInfo>, lo: int, hi: int)
    requires ValidEntry(elf)
    requires 0 <= lo <= elf.addr && elf.addr + elf.length <= hi <= TWO_64
    requires ValidElfs(before) && Within(before, 0, lo)
    requires ValidElfs(low) && Within(low, lo, elf.addr)
    requires ValidElfs(high) && Within(high, elf.addr + elf.length, hi)
    requires ValidElfs(after) && Within(after, hi, TWO_64)
    ensures ValidElfs(before + low + [elf] + high + after)
  {
    JoinValid(before, low, 0, lo, elf.addr);
    JoinValid(before + low, [elf], 0, elf.addr, elf.addr + elf.length);
    JoinValid(before + low + [elf], high, 0, elf.addr + elf.length, hi);
    JoinValid(before + low + [elf] + high, after, 0, hi, TWO_64);
  }

  /** Registering keeps the vector sorted, disjoint and free of empty ranges. */
  lemma RegisteredValid(elfs: seq<ElfInfo>, elf: ElfInfo, m: Mapping, o: Overlap)
    requires ValidElfs(elfs) && IsOverlap(elfs, m, o)
    requires ValidEntry(elf) && IsMerged(elfs, elf, m, o)
    ensures ValidElfs(RegisteredElfs(elfs, elf, m, o))
  {
    MergedFacts(elfs, m, o);
    OutsideFacts(elfs, m, o);
    FragmentFacts(elfs, m, o);
    JoinRegistered(elfs[..o.first], LowFragment(elfs, m, o), elf, HighFragment(elfs, m, o), elfs[o.last..],
                   OuterStart(elfs, m, o), OuterEnd(elfs, m, o));
  }

  // ------------------------------------------------------------ refinement

  lemma LookupFive(p: seq<ElfInfo>, low: seq<ElfInfo>, mid: seq<ElfInfo>, high: seq<ElfInfo>,
                   s: seq<ElfInfo>, a: int)
    ensures Lookup(p + low + mid + high + s, a) ==
      if Lookup(p, a) != Unmapped then Lookup(p, a)
      else if Lookup(low, a) != Unmapped then Lookup(low, a)
      else if Lookup(mid, a) != Unmapped then Lookup(mid, a)
      else if Lookup(high, a) != Unmapped then Lookup(high, a)
      else Lookup(s, a)
  {
    LookupConcat(p + low + mid + high, s, a);
    LookupConcat(p + low + mid, high, a);
    LookupConcat(p + low, mid, a);
    LookupConcat(p, low, a);
  }

  lemma OutsideUnmapped(elfs: seq<ElfInfo>, lo: int, hi: int, a: int)
    requires Within(elfs, lo, hi) && !(lo <= a < hi)
    ensures Lookup(elfs, a) == Unmapped
  {
    LookupMiss(elfs, a);
  }

  /** What the low fragment, the merged entry and the high fragment mean together. */
  function Replacement(low: seq<ElfInfo>, elf: ElfInfo, high: seq<ElfInfo>, a: int): Target {
    if Lookup(low, a) != Unmapped then Lookup(low, a)
    else if elf.Covers(a) then TargetIn(elf, a)
    else Lookup(high, a)
  }

  /** Below the mapping, the touched stretch means what its first entry means. */
  lemma MidLow(elfs: seq<ElfInfo>, m: Mapping, o: Overlap, a: int)
    requires ValidElfs(elfs) && IsOverlap(elfs, m, o) && a < m.addr
    ensures Lookup(elfs[o.first..o.last], a) ==
      if o.first < o.last && elfs[o.first].Covers(a) then TargetIn(elfs[o.first], a) else Unmapped
  {
    var mid := elfs[o.first..o.last];
    if o.first < o.last {
      assert mid[0] == elfs[o.first];
      if elfs[o.first].Covers(a) {
        LookupHit(mid, a, 0);
      } else {
        forall i | 0 <= i < |mid|
          ensures !mid[i].Covers(a)
        {
          assert mid[i] == elfs[o.first + i];
          assert i > 0 ==> elfs[o.first].addr + elfs[o.first].length <= elfs[o.first + i].addr;
        }
        LookupMiss(mid, a);
      }
    }
  }

  /** Above the mapping, the touched stretch means what its last entry means. */
  lemma MidHigh(elfs: seq<ElfInfo>, m: Mapping, o: Overlap, a: int)
    requires ValidElfs(elfs) && IsOverlap(elfs, m, o) && m.addr + m.len <= a
    ensures Lookup(elfs[o.first..o.last], a) ==
      if o.first < o.last && elfs[o.last - 1].Covers(a) then TargetIn(elfs[o.last - 1], a) else Unmapped
  {
    var mid := elfs[o.first..o.last];
    if o.first < o.last {
      assert mid[|mid| - 1] == elfs[o.last - 1];
      if elfs[o.last - 1].Covers(a) {
        LookupHit(mid, a, |mid| - 1);
      } else {
        forall i | 0 <= i < |mid|
          ensures !mid[i].Covers(a)
        {
          assert mid[i] == elfs[o.first + i];
          assert o.first + i < o.last - 1 ==>
            elfs[o.first + i].addr + elfs[o.first + i].length <= elfs[o.last - 1].addr;
        }
        LookupMiss(mid, a);
      }
    }
  }

  lemma BelowKept(elfs: seq<ElfInfo>, elf: ElfInfo, m: Mapping, o: Overlap, a: int)
    requires ValidElfs(elfs) && IsOverlap(elfs, m, o) && IsMerged(elfs, elf, m, o) && a < m.addr
    ensures Lookup(elfs[o.first..o.last], a) ==
      Replacement(LowFragment(elfs, m, o), elf, HighFragment(elfs, m, o), a)
  {
    MergedFacts(elfs, m, o);
    FragmentFacts(elfs, m, o);
    OutsideUnmapped(HighFragment(elfs, m, o), m.addr + m.len, TWO_64, a);
    MidLow(elfs, m, o, a);
    if o.first < o.last {
      assert ValidEntry(elfs[o.first]);
      LowFragmentLookup(elfs, m, o, a);
    }
  }

  lemma LowFragmentLookup(elfs: seq<ElfInfo>, m: Mapping, o: Overlap, a: int)
    requires ValidElfs(elfs) && IsOverlap(elfs, m, o) && o.first < o.last && a < m.addr
    ensures Lookup(LowFragment(elfs, m, o), a) ==
      if !o.mergesLow && elfs[o.first].Covers(a) then TargetIn(elfs[o.first], a) else Unmapped
  {
    assert ValidEntry(elfs[o.first]);
    var low := LowFragment(elfs, m, o);
    if low != [] {
      assert low[1..] == [];
    }
  }

  lemma HighFragmentLookup(elfs: seq<ElfInfo>, m: Mapping, o: Overlap, a: int)
    requires ValidElfs(elfs) && IsOverlap(elfs, m, o) && o.first < o.last && m.addr + m.len <= a
    ensures Lookup(HighFragment(elfs, m, o), a) ==
      if !o.mergesHigh && elfs[o.last - 1].Covers(a) then TargetIn(elfs[o.last - 1], a) else Unmapped
  {
    assert ValidEntry(elfs[o.last - 1]);
    var high := HighFragment(elfs, m, o);
    if high != [] {
      assert high[1..] == [];
    }
  }

  lemma AboveKept(elfs: seq<ElfInfo>, elf: ElfInfo, m: Mapping, o: Overlap, a: int)
    requires ValidElfs(elfs) && IsOverlap(elfs, m, o) && IsMerged(elfs, elf, m, o) && m.addr + m.len <= a
    ensures Lookup(elfs[o.first..o.last], a) ==
      Replacement(LowFragment(elfs, m, o), elf, HighFragment(elfs, m, o), a)
  {
    MergedFacts(elfs, m, o);
    FragmentFacts(elfs, m, o);
    OutsideUnmapped(LowFragment(elfs, m, o), 0, m.addr, a);
    MidHigh(elfs, m, o, a);
    if o.first < o.last {
      assert ValidEntry(elfs[o.last - 1]);
      HighFragmentLookup(elfs, m, o, a);
    }
  }

  /** The merged entry and the fragments together mean the overwritten touched stretch. */
  lemma MiddleOverwritten(elfs: seq<ElfInfo>, elf: ElfInfo, m: Mapping, o: Overlap, a: int)
    requires ValidElfs(elfs) && IsOverlap(elfs, m, o) && IsMerged(elfs, elf, m, o)
    ensures Overwritten(m, Lookup(elfs[o.first..o.last], a), a) ==
      Replacement(LowFragment(elfs, m, o), elf, HighFragment(elfs, m, o), a)
  {
    if a < m.addr {
      BelowKept(elfs, elf, m, o, a);
    } else if m.addr + m.len <= a {
      AboveKept(elfs, elf, m, o, a);
    } else {
      MergedFacts(elfs, m, o);
      FragmentFacts(elfs, m, o);
      OutsideUnmapped(LowFragment(elfs, m, o), 0, m.addr, a);
    }
  }

  /** Splices the overwritten stretch back between the untouched ends. */
  lemma SpliceLookup(p: seq<ElfInfo>, low: seq<ElfInfo>, mid: seq<ElfInfo>, elf: ElfInfo,
                     high: seq<ElfInfo>, s: seq<ElfInfo>, hi: int, m: Mapping, a: int)
    requires Within(p, 0, m.addr) && Within(low, 0, hi) && Within(high, 0, hi) && Within(s, hi, TWO_64)
    requires elf.addr + elf.length <= hi && m.addr + m.len <= hi
    requires Overwritten(m, Lookup(mid, a), a) == Replacement(low, elf, high, a)
    ensures Lookup(p + low + [elf] + high + s, a) == Overwritten(m, Lookup(p + mid + s, a), a)
  {
    LookupFive(p, low, [elf], high, s, a);
    LookupConcat(p + mid, s, a);
    LookupConcat(p, mid, a);
    LookupMiss(p, a);
    LookupMiss(s, a);
    if Lookup(s, a) != Unmapped {
      OutsideUnmapped(low, 0, hi, a);
      OutsideUnmapped(high, 0, hi, a);
    }
  }

  lemma RegisteredLookup(elfs: seq<ElfInfo>, elf: ElfInfo, m: Mapping, o: Overlap, a: int)
    requires ValidElfs(elfs) && IsOverlap(elfs, m, o) && IsMerged(elfs, elf, m, o)
    ensures Lookup(RegisteredElfs(elfs, elf, m, o), a) == Overwritten(m, Lookup(elfs, a), a)
  {
    MergedFacts(elfs, m, o);
    OutsideFacts(elfs, m, o);
    FragmentFacts(elfs, m, o);
    MiddleOverwritten(elfs, elf, m, o, a);
    SpliceLookup(elfs[..o.first], LowFragment(elfs, m, o), elfs[o.first..o.last], elf,
                 HighFragment(elfs, m, o), elfs[o.last..], OuterEnd(elfs, m, o), m, a);
    CutInThree(elfs, o.first, o.last);
  }

  lemma CutInThree(elfs: seq<ElfInfo>, f: nat, l: nat)
    requires f <= l <= |elfs|
    ensures elfs[..f] + elfs[f..l] + elfs[l..] == elfs
  {
  }

  /** Registering refines a map overwrite: inside the mapping's range every address means
      the new mapping, everywhere else the meaning is untouched. */
  lemma RegisterRefinesOverwrite(st: ElfState, m: Mapping, a: int)
    ensures Lookup(Register(st, m).elfs, a) == Overwritten(m, Lookup(st.elfs, a), a)
  {
    var o := OverlapOf(st.elfs, m);
    OverlapFacts(st.elfs, m);
    if Contained(st.elfs, m, o) {
      if InMapping(m, a) {
        LookupHit(st.elfs, a, o.first);
      }
    } else {
      RegisteredLookup(st.elfs, WithBase(st.lastBase, m.originalPath, MergedElf(st.elfs, m, o)).0, m, o, a);
    }
  }

  /** The entries announced as invalid are exactly the ones that leave the vector, each once
      and in order: between an untouched front and an untouched back, the touched stretch
      gives way to at most three new entries. A mapping that is contained already announces
      nothing and changes nothing. */
  lemma AnnouncedIsRemoved(st: ElfState, m: Mapping)
    returns (front: seq<ElfInfo>, written: seq<ElfInfo>, back: seq<ElfInfo>)
    ensures st.elfs == front + Invalidated(st, m) + back
    ensures Register(st, m).elfs == front + written + back
    ensures written == [] ==> Invalidated(st, m) == [] && Register(st, m) == st
    ensures |written| <= 3
    ensures written != [] ==>
      && (forall e :: e in front + back ==> !Touches(m, e))
      && (forall e :: e in Invalidated(st, m) ==> Touches(m, e))
  {
    var o := OverlapOf(st.elfs, m);
    OverlapFacts(st.elfs, m);
    if Contained(st.elfs, m, o) {
      front, written, back := st.elfs, [], [];
    } else {
      var elf := WithBase(st.lastBase, m.originalPath, MergedElf(st.elfs, m, o)).0;
      front, back := st.elfs[..o.first], st.elfs[o.last..];
      written := LowFragment(st.elfs, m, o) + [elf] + HighFragment(st.elfs, m, o);
      CutInThree(st.elfs, o.first, o.last);
      RegisteredSplit(st.elfs, elf, m, o);
      StretchTouched(st.elfs, m);
    }
  }

  lemma RegisteredSplit(elfs: seq<ElfInfo>, elf: ElfInfo, m: Mapping, o: Overlap)
    requires ValidElfs(elfs) && IsOverlap(elfs, m, o)
    ensures RegisteredElfs(elfs, elf, m, o) ==
      elfs[..o.first] + (LowFragment(elfs, m, o) + [elf] + HighFragment(elfs, m, o)) + elfs[o.last..]
  {
  }

  lemma StretchTouched(elfs: seq<ElfInfo>, m: Mapping)
    requires ValidElfs(elfs)
    ensures var o := OverlapOf(elfs, m);
      && o.first <= o.last <= |elfs|
      && (forall e :: e in elfs[..o.first] + elfs[o.last..] ==> !Touches(m, e))
      && (forall e :: e in elfs[o.first..o.last] ==> Touches(m, e))
  {
    var o := OverlapOf(elfs, m);
    OverlapFacts(elfs, m);
    forall i: nat | i < |elfs|
      ensures Touches(m, elfs[i]) <==> o.first <= i < o.last
    {
      TouchedIsContiguous(elfs, m, i);
    }
  }
}
