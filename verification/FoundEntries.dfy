/** Which entry of an address map is found at an address, with the ranges that the unwinder
    reported, and which one its base addresses lead to. */
module FoundEntries {
  import opened WordArithmetic
  import opened ElfMaps
  import opened PerfElfMaps

  /** Entry `k` is the last one that starts at or below the address. */
  ghost predicate LastBelow(elfs: seq<ElfInfo>, ip: int, k: nat) {
    && k < |elfs| && elfs[k].addr <= ip
    && forall j :: k < j < |elfs| ==> ip < elfs[j].addr
  }

  /** The entry's range holds the address: the reported one if that is not empty, or the mapped
      one. */
  ghost predicate Holds(e: ElfInfo, ip: int) {
    if e.dwflStart < e.dwflEnd then e.dwflStart <= ip < e.dwflEnd else e.addr <= ip < e.addr + e.length
  }

  /** An entry is found exactly if it is the last one that starts at or below the address and its
      range holds the address. */
  lemma FindExactly(elfs: seq<ElfInfo>, ip: int)
    requires ValidElfs(elfs)
    ensures forall k: nat :: LastBelow(elfs, ip, k) && Holds(elfs[k], ip) ==> FoundElf(elfs, ip) == elfs[k]
    ensures FoundElf(elfs, ip).length > 0 <==> exists k: nat :: LastBelow(elfs, ip, k) && Holds(elfs[k], ip)
  {
    LastIsBound(elfs, ip);
    var n := UpperBound(elfs, ip);
    if n > 0 {
      assert ValidEntry(elfs[n - 1]) && LastBelow(elfs, ip, n - 1);
    }
  }

  lemma LastIsBound(elfs: seq<ElfInfo>, ip: int)
    requires ValidElfs(elfs)
    ensures forall k: nat :: LastBelow(elfs, ip, k) <==> k == UpperBound(elfs, ip) - 1
  {
    UpperBoundFacts(elfs, ip);
    var n := UpperBound(elfs, ip);
    assert n > 0 ==> elfs[n - 1].addr <= ip;
    forall k: nat | LastBelow(elfs, ip, k)
      ensures k == n - 1
    {
      assert k < n;
    }
  }

  /** What changes when the unwinder reports a range for the entry at `addr`: that entry is found
      exactly at the addresses of the range between it and the next one, and at every other address
      the same is found as before. */
  lemma ReportedFinds(before: seq<ElfInfo>, after: seq<ElfInfo>, k: nat, start: u64, end: u64, ip: int)
    requires ValidElfs(before) && k < |before| == |after|
    requires forall i :: 0 <= i < |after| ==> after[i] == WithReportedRange(before[i], before[k].addr, start, end)
    ensures LastBelow(before, ip, k) && start < end ==>
      FoundElf(after, ip) ==
        if start <= ip < end then before[k].(dwflStart := start, dwflEnd := end) else NO_ELF
    ensures !LastBelow(before, ip, k) ==> FoundElf(after, ip) == FoundElf(before, ip)
  {
    hide FoundElf, LastBelow, UpperBound;
    OneStartsThere(before, k);
    RangesKeepValid(before, after, before[k].addr, start, end);
    SameBound(before, after, ip);
    LastIsBound(before, ip);
    FoundAtBound(before, ip);
    FoundAtBound(after, ip);
  }

  lemma OneStartsThere(elfs: seq<ElfInfo>, k: nat)
    requires ValidElfs(elfs) && k < |elfs|
    ensures forall i :: 0 <= i < |elfs| ==> (elfs[i].addr == elfs[k].addr <==> i == k)
  {
    forall i | 0 <= i < |elfs|
      ensures elfs[i].addr == elfs[k].addr <==> i == k
    {
      assert ValidEntry(elfs[i]) && ValidEntry(elfs[k]);
    }
  }

  lemma {:induction false} SameBound(x: seq<ElfInfo>, y: seq<ElfInfo>, ip: int)
    requires |x| == |y| && forall i :: 0 <= i < |x| ==> x[i].addr == y[i].addr
    ensures UpperBound(x, ip) == UpperBound(y, ip)
  {
    if x != [] {
      SameBound(x[1..], y[1..], ip);
    }
  }

  lemma FoundAtBound(elfs: seq<ElfInfo>, ip: int)
    requires ValidElfs(elfs)
    ensures var n := UpperBound(elfs, ip);
      && (n == 0 ==> FoundElf(elfs, ip) == NO_ELF)
      && (n > 0 ==> FoundElf(elfs, ip) == if Holds(elfs[n - 1], ip) then elfs[n - 1] else NO_ELF)
  {
    UpperBoundFacts(elfs, ip);
  }

  lemma RangesKeepValid(before: seq<ElfInfo>, after: seq<ElfInfo>, addr: u64, start: u64, end: u64)
    requires ValidElfs(before) && |before| == |after|
    requires forall i :: 0 <= i < |after| ==> after[i] == WithReportedRange(before[i], addr, start, end)
    ensures ValidElfs(after)
  {
    forall i | 0 <= i < |after|
      ensures ValidEntry(after[i])
    {
      assert ValidEntry(before[i]);
    }
  }

  // ------------------------------------------------------------ base addresses

  /** The entry is what is found at the address: one of the map, or the invalid one. */
  ghost predicate IsFound(elfs: seq<ElfInfo>, ip: int, e: ElfInfo) {
    if exists k: nat :: LastBelow(elfs, ip, k) && Holds(elfs[k], ip)
    then exists k: nat :: LastBelow(elfs, ip, k) && Holds(elfs[k], ip) && elfs[k] == e
    else e == NO_ELF
  }

  /** The base address of `x` leads to `y`: a mapping of the same file from its start on, which is
      found at the base address and starts there. The invalid entry counts as one at zero that has
      no name. */
  ghost predicate LeadsTo(elfs: seq<ElfInfo>, x: ElfInfo, y: ElfInfo) {
    && x.baseAddr != 0xFFFF_FFFF_FFFF_FFFF && IsFound(elfs, x.baseAddr, y)
    && y.addr == x.baseAddr && y.pgoff == 0 && y.originalPath == x.originalPath
  }

  ghost predicate IsEnd(elfs: seq<ElfInfo>, x: ElfInfo) {
    forall y :: !LeadsTo(elfs, x, y)
  }

  ghost predicate Leads(elfs: seq<ElfInfo>, chain: seq<ElfInfo>) {
    forall i :: 0 < i < |chain| ==> LeadsTo(elfs, chain[i - 1], chain[i])
  }

  lemma FoundExactly(elfs: seq<ElfInfo>, ip: int, e: ElfInfo)
    requires ValidElfs(elfs)
    ensures IsFound(elfs, ip, e) <==> e == FoundElf(elfs, ip)
  {
    LastIsBound(elfs, ip);
    FoundAtBound(elfs, ip);
  }

  lemma FollowsBase(elfs: seq<ElfInfo>, x: ElfInfo)
    requires ValidElfs(elfs) && (x.HasBaseAddr() ==> x.baseAddr < x.addr)
    ensures var base := FoundElf(elfs, x.baseAddr);
      if LeadsTo(elfs, x, base) then
        && (base.HasBaseAddr() ==> base.baseAddr < base.addr) && base.addr < x.addr
        && ModuleElf(elfs, x) == ModuleElf(elfs, base)
      else ModuleElf(elfs, x) == x && IsEnd(elfs, x)
  {
    hide FoundElf, IsFound;
    FoundIsValid(elfs, x.baseAddr);
    forall y
      ensures IsFound(elfs, x.baseAddr, y) <==> y == FoundElf(elfs, x.baseAddr)
    {
      FoundExactly(elfs, x.baseAddr, y);
    }
  }

  /** The module of an entry is the one of the entry at the end of its base addresses: followed as
      long as they lead to another mapping. */
  lemma {:induction false} ModuleElfExactly(elfs: seq<ElfInfo>, elf: ElfInfo) returns (chain: seq<ElfInfo>)
    requires ValidElfs(elfs) && (elf.HasBaseAddr() ==> elf.baseAddr < elf.addr)
    ensures chain != [] && chain[0] == elf && chain[|chain| - 1] == ModuleElf(elfs, elf)
    ensures Leads(elfs, chain) && IsEnd(elfs, chain[|chain| - 1])
    decreases elf.addr
  {
    hide LeadsTo, ModuleElf, FoundElf, IsEnd;
    var base := FoundElf(elfs, elf.baseAddr);
    FollowsBase(elfs, elf);
    if LeadsTo(elfs, elf, base) {
      var rest := ModuleElfExactly(elfs, base);
      chain := [elf] + rest;
      forall i | 0 < i < |chain|
        ensures LeadsTo(elfs, chain[i - 1], chain[i])
      {
        if i > 1 {
          assert LeadsTo(elfs, rest[i - 2], rest[i - 1]);
        }
      }
    } else {
      chain := [elf];
    }
  }
}
