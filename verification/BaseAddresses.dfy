/** Which mapping gives an entry its base address, for any list of registered mappings. */
module BaseAddresses {
  import opened WordArithmetic
  import opened ElfMaps

  /** The state after registering mappings one after the other. */
  function RegisterAll(ms: seq<Mapping>): ElfState {
    if ms == [] then EMPTY_STATE else Register(RegisterAll(ms[..|ms| - 1]), ms[|ms| - 1])
  }

  /** One entry holds the mapping already, so nothing is inserted. */
  predicate Held(st: ElfState, m: Mapping) {
    OverlapFacts(st.elfs, m);
    Contained(st.elfs, m, OverlapOf(st.elfs, m))
  }

  /** The entry that registering inserts: the mapping, merged with what it extends. */
  function Inserted(st: ElfState, m: Mapping): ElfInfo {
    OverlapFacts(st.elfs, m);
    MergedElf(st.elfs, m, OverlapOf(st.elfs, m))
  }

  /** The inserted entries that are files, in order. */
  function Files(ms: seq<Mapping>): seq<ElfInfo> {
    if ms == [] then []
    else
      var front, m := ms[..|ms| - 1], ms[|ms| - 1];
      var st := RegisterAll(front);
      Files(front) + (if Held(st, m) || !m.localFile.isFile then [] else [Inserted(st, m)])
  }

  /** The entry at `j` is the start of a file, and every file inserted since is a part of the
      same one above it. */
  ghost predicate InForce(files: seq<ElfInfo>, j: nat) {
    && j < |files| && files[j].pgoff == 0
    && forall k :: j < k < |files| ==> files[k].originalPath == files[j].originalPath && files[j].addr < files[k].addr
  }

  /** The first start that is still in force. */
  ghost predicate IsBase(files: seq<ElfInfo>, j: nat) {
    j < |files| && InForce(files, j) && forall i: nat :: i < j ==> !InForce(files, i)
  }

  ghost predicate Named(ms: seq<Mapping>) {
    forall i :: 0 <= i < |ms| && ms[i].localFile.isFile ==> ms[i].originalPath != ""
  }

  /** The base is the first start in force, none if there is none. */
  ghost predicate BaseIs(files: seq<ElfInfo>, base: ElfInfo) {
    || (exists j: nat :: IsBase(files, j) && base == files[j])
    || (base == NO_ELF && forall j: nat :: !InForce(files, j))
  }

  lemma {:induction false} LeastInForce(files: seq<ElfInfo>, j: nat) returns (i: nat)
    requires InForce(files, j)
    ensures i <= j && IsBase(files, i)
    decreases j
  {
    if k: nat :| k < j && InForce(files, k) {
      i := LeastInForce(files, k);
    } else {
      i := j;
    }
  }

  /** One more file: a start in force stays so exactly if it is of the same file and below; the
      new entry is one itself if it has offset zero. */
  lemma InForceSnoc(files: seq<ElfInfo>, e: ElfInfo, j: nat)
    ensures j < |files| ==>
      (InForce(files + [e], j) <==>
        InForce(files, j) && e.originalPath == files[j].originalPath && files[j].addr < e.addr)
    ensures InForce(files + [e], |files|) <==> e.pgoff == 0
  {
    var longer := files + [e];
    assert longer[|files|] == e;
    if j < |files| {
      assert longer[j] == files[j];
      if InForce(longer, j) {
        forall k | j < k < |files|
          ensures files[k].originalPath == files[j].originalPath && files[j].addr < files[k].addr
        {
          assert longer[k] == files[k];
        }
      }
    }
  }

  /** All starts in force are parts of the same file above the first one. */
  lemma AboveBase(files: seq<ElfInfo>, base: ElfInfo, i: nat)
    requires BaseIs(files, base) && InForce(files, i)
    ensures base.originalPath == files[i].originalPath && base.addr <= files[i].addr
  {
    var j: nat :| IsBase(files, j) && base == files[j];
    if j < i {
      assert files[j].addr < files[i].addr;
    } else {
      assert j == i;
    }
  }

  /** What an insertion does to the base. */
  lemma BaseSnoc(files: seq<ElfInfo>, base: ElfInfo, e: ElfInfo)
    requires BaseIs(files, base) && e.originalPath != ""
    ensures BaseIs(files + [e],
      if base.originalPath == e.originalPath && base.addr < e.addr then base
      else if e.pgoff == 0 then e
      else NO_ELF)
  {
    hide InForce;
    var longer := files + [e];
    InForceSnoc(files, e, |files|);
    forall j: nat | j < |files|
      ensures InForce(longer, j) <==>
        InForce(files, j) && e.originalPath == files[j].originalPath && files[j].addr < e.addr
    {
      InForceSnoc(files, e, j);
    }
    forall j: nat | j < |files| && InForce(files, j)
      ensures base.originalPath == files[j].originalPath && base.addr <= files[j].addr
    {
      AboveBase(files, base, j);
    }
    forall j: nat | |longer| <= j
      ensures !InForce(longer, j)
    {
      InRange(longer, j);
    }
    if base.originalPath == e.originalPath && base.addr < e.addr {
      var j: nat :| IsBase(files, j) && base == files[j];
      assert longer[j] == files[j] && IsBase(longer, j);
    } else if e.pgoff == 0 {
      assert longer[|files|] == e && IsBase(longer, |files|);
    }
  }

  lemma InRange(files: seq<ElfInfo>, j: nat)
    ensures InForce(files, j) ==> j < |files|
  {
  }

  /** What registering does to the base. */
  lemma RegisterBase(st: ElfState, m: Mapping)
    ensures Held(st, m) ==> Register(st, m) == st
    ensures !Held(st, m) ==>
      Register(st, m).lastBase ==
        var e := Inserted(st, m);
        if !m.localFile.isFile then st.lastBase
        else if st.lastBase.originalPath == m.originalPath && e.addr > st.lastBase.addr then st.lastBase
        else if e.pgoff == 0 then e
        else NO_ELF
    ensures Inserted(st, m).localFile == m.localFile
    ensures m.originalPath != "" ==> Inserted(st, m).originalPath == m.originalPath
  {
  }

  /** After any mappings, the base that the next one may get is the first start in force. */
  lemma {:induction false} BaseAfter(ms: seq<Mapping>)
    requires Named(ms)
    ensures BaseIs(Files(ms), RegisterAll(ms).lastBase)
    decreases |ms|
  {
    hide Register, Held, Inserted, InForce;
    if ms == [] {
      NothingInForce();
    } else {
      var front, m := ms[..|ms| - 1], ms[|ms| - 1];
      assert forall i :: 0 <= i < |front| ==> front[i] == ms[i];
      BaseAfter(front);
      var st := RegisterAll(front);
      RegisterBase(st, m);
      if !Held(st, m) && m.localFile.isFile {
        BaseSnoc(Files(front), st.lastBase, Inserted(st, m));
      } else {
        assert Files(ms) == Files(front);
      }
    }
  }

  lemma NothingInForce()
    ensures forall j: nat :: !InForce([], j)
  {
  }

  // ------------------------------------------------------------ the entry

  /** A map has at most one entry for an address. */
  lemma OneEntry(elfs: seq<ElfInfo>, k: nat, e: ElfInfo, a: int)
    requires ValidElfs(elfs) && k < |elfs| && elfs[k].Covers(a) && e in elfs && e.Covers(a)
    ensures e == elfs[k]
  {
    var i :| 0 <= i < |elfs| && elfs[i] == e;
  }

  /** Where the inserted entry is. */
  lemma InsertedAt(st: ElfState, m: Mapping) returns (k: nat)
    requires !Held(st, m)
    ensures k < |Register(st, m).elfs|
    ensures Register(st, m).elfs[k] == Inserted(st, m).(baseAddr :=
      if m.localFile.isFile && st.lastBase.originalPath == m.originalPath && Inserted(st, m).addr > st.lastBase.addr
      then st.lastBase.addr else INVALID_BASE_ADDR)
    ensures Inserted(st, m).Covers(m.addr)
  {
    hide Lookup, SameRegion;
    var o := OverlapOf(st.elfs, m);
    OverlapFacts(st.elfs, m);
    MergedFacts(st.elfs, m, o);
    k := |st.elfs[..o.first] + LowFragment(st.elfs, m, o)|;
  }

  /** After registering a mapping, the entry at its address has a base if and only if it is a
      file, and a start in force is of the same file and below it. Its base is the first such
      start. */
  lemma NewEntryBase(ms: seq<Mapping>, m: Mapping, e: ElfInfo)
    requires Named(ms + [m]) && !Held(RegisterAll(ms), m)
    requires e in Register(RegisterAll(ms), m).elfs && e.Covers(m.addr)
    ensures e.HasBaseAddr() <==>
      m.localFile.isFile && exists j: nat ::
        InForce(Files(ms), j) && Files(ms)[j].originalPath == m.originalPath && Files(ms)[j].addr < e.addr
    ensures e.HasBaseAddr() ==> exists j: nat :: IsBase(Files(ms), j) && e.baseAddr == Files(ms)[j].addr
  {
    hide Register, Held, Inserted, RegisterAll, Files, InForce;
    var st, files := RegisterAll(ms), Files(ms);
    NamedParts(ms, m);
    BaseAfter(ms);
    var k := InsertedAt(st, m);
    OneEntry(Register(st, m).elfs, k, e, m.addr);
    assert e.addr < TWO_64 - 1 by { assert ValidEntry(e); }
    forall j: nat | InForce(files, j)
      ensures j < |files| && st.lastBase.originalPath == files[j].originalPath && st.lastBase.addr <= files[j].addr
    {
      InRange(files, j);
      AboveBase(files, st.lastBase, j);
    }
  }

  lemma NamedParts(ms: seq<Mapping>, m: Mapping)
    requires Named(ms + [m])
    ensures Named(ms) && (m.localFile.isFile ==> m.originalPath != "")
  {
    assert (ms + [m])[|ms|] == m;
    assert forall i :: 0 <= i < |ms| ==> (ms + [m])[i] == ms[i];
  }

  // ------------------------------------------------------------ the other entries

  /** A part of an entry: the same file at the same load bias, inside its range. */
  predicate PartOf(x: ElfInfo, e: ElfInfo) {
    && x.localFile == e.localFile && x.originalPath == e.originalPath
    && x.originalFileName == (if e.originalFileName == "" then e.localFile.fileName else e.originalFileName)
    && e.addr <= x.addr && x.addr + x.length <= e.addr + e.length
    && x.addr - x.pgoff == e.addr - e.pgoff
  }

  lemma FragmentIsPart(elfs: seq<ElfInfo>, m: Mapping, o: Overlap, x: ElfInfo) returns (e: ElfInfo)
    requires ValidElfs(elfs) && IsOverlap(elfs, m, o)
    requires x in LowFragment(elfs, m, o) || x in HighFragment(elfs, m, o)
    ensures e in elfs && PartOf(x, e) && x.dwflStart == x.dwflEnd == 0 && !x.HasBaseAddr()
  {
    e := if x in LowFragment(elfs, m, o) then elfs[o.first] else elfs[o.last - 1];
    assert ValidEntry(e);
  }

  /** Every entry of the map after registering is the inserted one, was there before, or is a
      part of one that was; a part is not reported and has no base. */
  lemma EntriesAfter(st: ElfState, m: Mapping, x: ElfInfo) returns (e: ElfInfo)
    requires x in Register(st, m).elfs && !Held(st, m)
    ensures x == Inserted(st, m).(baseAddr := x.baseAddr) || e in st.elfs
    ensures x != Inserted(st, m).(baseAddr := x.baseAddr) && x != e ==>
      PartOf(x, e) && x.dwflStart == x.dwflEnd == 0 && !x.HasBaseAddr()
  {
    hide Lookup, SameRegion, LowFragment, HighFragment, PartOf, MergedElf, IsOverlap;
    var elfs, o := st.elfs, OverlapOf(st.elfs, m);
    OverlapFacts(elfs, m);
    OverlapInRange(elfs, m);
    if x in LowFragment(elfs, m, o) || x in HighFragment(elfs, m, o) {
      e := FragmentIsPart(elfs, m, o, x);
    } else {
      e := x;
    }
  }

  lemma OverlapInRange(elfs: seq<ElfInfo>, m: Mapping)
    requires ValidElfs(elfs)
    ensures var o := OverlapOf(elfs, m); o.first <= o.last <= |elfs|
  {
    OverlapFacts(elfs, m);
  }

  /** The inserted entry is the mapping, grown at the same load bias, and is not reported. */
  lemma InsertedIs(st: ElfState, m: Mapping)
    ensures var e := Inserted(st, m);
      && e.localFile == m.localFile
      && e.originalFileName == (if m.originalFileName == "" then m.localFile.fileName else m.originalFileName)
      && e.originalPath == m.originalPath
      && e.addr <= m.addr && m.addr + m.len <= e.addr + e.length && e.addr - e.pgoff == m.addr - m.pgoff
      && e.dwflStart == e.dwflEnd == 0 && !e.HasBaseAddr()
  {
    hide Lookup, SameRegion;
    OverlapFacts(st.elfs, m);
    MergedFacts(st.elfs, m, OverlapOf(st.elfs, m));
  }

  /** It has grown over addresses that meant the same file at the same load bias already. */
  lemma InsertedGrows(st: ElfState, m: Mapping, a: int)
    requires Inserted(st, m).Covers(a) && !InMapping(m, a)
    ensures Lookup(st.elfs, a) == Mapped(m.originalPath, m.pgoff + a - m.addr)
  {
    hide Lookup, SameRegion;
    var o := OverlapOf(st.elfs, m);
    OverlapFacts(st.elfs, m);
    LookupHit(st.elfs, a, if a < m.addr then o.first else o.last - 1);
  }

  const TEXT: Mapping := MappingRequest(0x1000, 0x1000, 0, NO_FILE.(isFile := true), "lib.so", "/lib.so")
  const DATA: Mapping := MappingRequest(0x3000, 0x1000, 0x2000, NO_FILE.(isFile := true), "lib.so", "/lib.so")
  const TEXT_ELF := MakeElf(TEXT.localFile, 0x1000, 0x1000, 0, "lib.so", "/lib.so")
  const DATA_ELF := MakeElf(DATA.localFile, 0x3000, 0x1000, 0x2000, "lib.so", "/lib.so")

  lemma TextRegistered()
    ensures Register(EMPTY_STATE, TEXT) == ElfState([TEXT_ELF], TEXT_ELF)
  {
    assert OverlapOf([], TEXT) == Overlap(0, 0, false, false);
    assert RegisteredElfs([], TEXT_ELF, TEXT, OverlapOf([], TEXT)) == [TEXT_ELF];
  }

  lemma DataRegistered()
    ensures Register(ElfState([TEXT_ELF], TEXT_ELF), DATA).elfs == [TEXT_ELF, DATA_ELF.(baseAddr := 0x1000)]
  {
    assert [TEXT_ELF][1..] == [] && [TEXT_ELF][..1] == [TEXT_ELF];
    assert OverlapOf([TEXT_ELF], DATA) == Overlap(1, 1, false, false);
    var e := DATA_ELF.(baseAddr := 0x1000);
    assert RegisteredElfs([TEXT_ELF], e, DATA, Overlap(1, 1, false, false)) == [TEXT_ELF, e];
  }

  /** A file in two parts: the second one has the start of the first one as its base. */
  lemma BaseExample()
    ensures RegisterAll([TEXT, DATA]).elfs == [TEXT_ELF, DATA_ELF.(baseAddr := 0x1000)]
  {
    hide Register;
    assert [TEXT, DATA][..1] == [TEXT] && [TEXT][..0] == [];
    TextRegistered();
    DataRegistered();
    assert RegisterAll([TEXT]) == ElfState([TEXT_ELF], TEXT_ELF);
  }
}
