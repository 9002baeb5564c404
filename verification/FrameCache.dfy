/** The address cache: what lookups remember about an address, for all processes. */
module FrameCaches {
  import opened WordArithmetic
  import opened Wrappers
  import opened ElfMaps
  import opened OutputMessages
  import opened OutputTables
  import opened FrameAnswers
  import opened PerfElfMaps

  // ------------------------------------------------------------ addresses in files

  /** Where an address lies in its file. */
  function RelativeAddress(elf: ElfInfo, addr: u64): u64 {
    Wrap64(addr - (if elf.HasBaseAddr() then elf.baseAddr else elf.addr))
  }

  /** A found entry starts at or below the address, so the difference does not wrap. */
  lemma RelativeAddressFits(elfs: seq<ElfInfo>, ip: u64)
    requires ValidElfs(elfs) && FoundElf(elfs, ip).IsValid()
    ensures var e := FoundElf(elfs, ip);
      RelativeAddress(e, ip) == ip - (if e.HasBaseAddr() then e.baseAddr else e.addr)
  {
    FoundIsValid(elfs, ip);
  }

  /** The reported range of entry `k` reaches past its mapped range, in front of the next entry. */
  predicate Overshoots(elfs: seq<ElfInfo>, k: nat) {
    && k < |elfs|
    && var e := elfs[k];
      var past := Max(e.dwflStart, e.addr + e.length);
      past < e.dwflEnd && past < (if k + 1 < |elfs| then elfs[k + 1].addr else TWO_64)
  }

  /** A found entry is asserted to be mapped at the address. That holds for every address
      exactly if no reported range overshoots. */
  lemma MappedExactly(elfs: seq<ElfInfo>)
    requires ValidElfs(elfs)
    ensures (forall ip: u64 :: var e := FoundElf(elfs, ip); e.IsValid() ==> ip < e.addr + e.length)
            <==> (forall k: nat :: !Overshoots(elfs, k))
  {
    hide FoundElf, Overshoots;
    if k: nat :| Overshoots(elfs, k) {
      var ip := OvershootingAddress(elfs, k);
    } else {
      forall ip: u64
        ensures var e := FoundElf(elfs, ip); e.IsValid() ==> ip < e.addr + e.length
      {
        MappedWithoutOvershoot(elfs, ip);
      }
    }
  }

  lemma OvershootingAddress(elfs: seq<ElfInfo>, k: nat) returns (ip: u64)
    requires ValidElfs(elfs) && Overshoots(elfs, k)
    ensures var e := FoundElf(elfs, ip); e.IsValid() && e.addr + e.length <= ip
  {
    ip := Max(elfs[k].dwflStart, elfs[k].addr + elfs[k].length);
    UpperBoundFacts(elfs, ip);
    assert ValidEntry(elfs[k]);
    assert UpperBound(elfs, ip) == k + 1;
  }

  lemma MappedWithoutOvershoot(elfs: seq<ElfInfo>, ip: u64)
    requires ValidElfs(elfs) && forall k: nat :: !Overshoots(elfs, k)
    ensures var e := FoundElf(elfs, ip); e.IsValid() ==> ip < e.addr + e.length
  {
    UpperBoundFacts(elfs, ip);
    var k := UpperBound(elfs, ip);
    if k > 0 {
      assert !Overshoots(elfs, k - 1);
    }
  }

  const LIBRARY := LocalFile("lib.so", "/lib.so", true)

  /** A file that is mapped once and reported with twice its mapped length is found at the
      first address behind its mapping. */
  lemma OvershootExample()
    ensures var elfs := Register(EMPTY_STATE, MappingRequest(0x1000, 0x1000, 0, LIBRARY, "lib.so", "/lib.so")).elfs;
      && |elfs| == 1
      && var reported := [WithReportedRange(elfs[0], 0x1000, 0x1000, 0x3000)];
        && Overshoots(reported, 0)
        && FoundElf(reported, 0x2000) == reported[0] && !reported[0].Covers(0x2000)
  {
    var m: Mapping := MappingRequest(0x1000, 0x1000, 0, LIBRARY, "lib.so", "/lib.so");
    var e := MakeElf(LIBRARY, 0x1000, 0x1000, 0, "lib.so", "/lib.so");
    assert OverlapOf([], m) == Overlap(0, 0, false, false);
    assert RegisteredElfs([], e, m, OverlapOf([], m)) == [e];
    assert Register(EMPTY_STATE, m).elfs == [e];
    var reported := [WithReportedRange(e, 0x1000, 0x1000, 0x3000)];
    assert reported[1..] == [];
    assert UpperBound(reported, 0x2000) == 1;
  }

  // ------------------------------------------------------------ what a frame's location says

  /** The id of a text, none for the empty one. */
  ghost predicate FileIs(t: Tables, text: string, id: int) {
    if text == "" then id == -1 else text in t.strings && t.strings[text] == id
  }

  /** What a frame's own location says, but for its parent. */
  ghost predicate Describes(t: Tables, l: Location, a: Answers, ip: u64, isArm: bool, pid: nat) {
    && l.address == SymbolAddress(ip, isArm) && l.pid == pid
    && l.line == LineOf(a).line && l.column == LineOf(a).column && FileIs(t, LineOf(a).file, l.file)
  }

  /** The client's location for a frame. */
  ghost predicate LocatedAs(t: Tables, id: int, a: Answers, elf: ElfInfo, ip: u64, isArm: bool, pid: nat) {
    var c := Replay(t.sent);
    && 0 <= id < |c.locations|
    && Describes(t, c.locations[id], a, ip, isArm, pid)
    && c.locations[id].relAddr == ExtentOf(a, SymbolAddress(ip, isArm), ElfStart(elf), isArm).relAddr
  }

  /** Later tables; ids that were in range before are in range after. */
  ghost predicate Goes(before: Tables, after: Tables) {
    && Continues(before, after)
    && |before.strings| <= |after.strings|
    && |before.locations| <= |after.locations|
    && before.symbols.Keys <= after.symbols.Keys
  }

  lemma GoesIfContinues(before: Tables, after: Tables)
    requires Continues(before, after)
    ensures Goes(before, after)
  {
  }

  lemma FileStays(before: Tables, after: Tables, text: string, id: int)
    requires Goes(before, after) && FileIs(before, text, id)
    ensures FileIs(after, text, id)
  {
  }

  lemma FileResolved(t: Tables, text: string)
    ensures FileIs(ResolveString(t, text).0, text, ResolveString(t, text).1)
  {
  }

  /** The client's location is the given one, but for its parent. */
  ghost predicate LocationIs(t: Tables, id: int, l: Location) {
    var c := Replay(t.sent);
    0 <= id < |c.locations| && KeyOf(c.locations[id]) == KeyOf(l)
  }

  lemma PlacedAt(t: Tables, l: Location)
    requires Mirrored(t) && StringId(t, l.file) && Refers(l.parent, |t.locations|)
    ensures LocationIs(ResolveLocation(t, l).0, ResolveLocation(t, l).1, l)
  {
    hide Mirrored, Replay, KeyOf;
    ResolveLocationFacts(t, l);
    StringCount(ResolveLocation(t, l).0);
  }

  lemma DescribesStays(before: Tables, after: Tables, l: Location, a: Answers, ip: u64, isArm: bool, pid: nat)
    requires Goes(before, after) && Describes(before, l, a, ip, isArm, pid)
    ensures Describes(after, l, a, ip, isArm, pid)
  {
    FileStays(before, after, LineOf(a).file, l.file);
  }

  lemma DescribesAnyParent(t: Tables, l: Location, parent: int, a: Answers, ip: u64, isArm: bool, pid: nat)
    requires Describes(t, l, a, ip, isArm, pid)
    ensures Describes(t, l.(parent := parent), a, ip, isArm, pid)
    ensures forall relAddr: u64 :: Describes(t, l.(relAddr := relAddr), a, ip, isArm, pid)
    ensures l.pid == pid
  {
  }

  lemma LocatedByKey(t: Tables, id: int, l: Location, a: Answers, elf: ElfInfo, ip: u64, isArm: bool, pid: nat)
    requires LocationIs(t, id, l) && Describes(t, l, a, ip, isArm, pid)
    requires l.relAddr == ExtentOf(a, SymbolAddress(ip, isArm), ElfStart(elf), isArm).relAddr
    ensures LocatedAs(t, id, a, elf, ip, isArm, pid)
  {
  }

  // ------------------------------------------------------------ the cache

  /** A lookup: what is asked, and what the libraries answer. */
  datatype Asked = Asked(answers: Answers, elf: ElfInfo, ip: u64, isKernel: bool, pid: nat)

  datatype CacheEntry = CacheEntry(locationId: int, isInterworking: bool)

  /** An entry is the frame of a lookup. */
  ghost predicate Remembers(t: Tables, isArm: bool, entry: CacheEntry, first: Asked) {
    && LocatedAs(t, entry.locationId, first.answers, first.elf, first.ip, isArm, first.pid)
    && (entry.isInterworking <==> NameOf(first.answers, first.isKernel) in {"$a", "$t"})
  }

  lemma RemembersItself(t: Tables, isArm: bool, entry: CacheEntry, asked: Asked)
    requires LocatedAs(t, entry.locationId, asked.answers, asked.elf, asked.ip, isArm, asked.pid)
    requires entry.isInterworking <==> NameOf(asked.answers, asked.isKernel) in {"$a", "$t"}
    ensures Remembers(t, isArm, entry, asked)
  {
  }

  lemma RemembersInRange(t: Tables, isArm: bool, entry: CacheEntry, first: Asked)
    requires Mirrored(t) && Remembers(t, isArm, entry, first)
    ensures 0 <= entry.locationId < |t.locations|
    ensures LocatedAs(t, entry.locationId, first.answers, first.elf, first.ip, isArm, first.pid)
  {
    StringCount(t);
  }

  function RelAddrOf(asked: Asked, isArm: bool): u64 {
    ExtentOf(asked.answers, SymbolAddress(asked.ip, isArm), ElfStart(asked.elf), isArm).relAddr
  }

  /** Two lookups whose frames are at the same place, in the same process. */
  predicate SamePlace(x: Asked, y: Asked, isArm: bool) {
    && SymbolAddress(x.ip, isArm) == SymbolAddress(y.ip, isArm) && x.pid == y.pid
    && LineOf(x.answers) == LineOf(y.answers) && RelAddrOf(x, isArm) == RelAddrOf(y, isArm)
  }

  lemma FilesDiffer(t: Tables, x: string, y: string, id: int)
    requires Mirrored(t) && FileIs(t, x, id) && FileIs(t, y, id)
    ensures x == y
  {
    hide AllReferBack;
  }

  /** A location of one lookup is right for another one exactly if both are at the same place. */
  lemma LocatedExactly(t: Tables, id: int, isArm: bool, first: Asked, asked: Asked)
    requires Mirrored(t) && LocatedAs(t, id, first.answers, first.elf, first.ip, isArm, first.pid)
    ensures LocatedAs(t, id, asked.answers, asked.elf, asked.ip, isArm, asked.pid) <==> SamePlace(first, asked, isArm)
  {
    hide Mirrored, LineOf, ExtentOf, FileIs;
    if LocatedAs(t, id, asked.answers, asked.elf, asked.ip, isArm, asked.pid) {
      FilesDiffer(t, LineOf(first.answers).file, LineOf(asked.answers).file, Replay(t.sent).locations[id].file);
    }
  }

  lemma RemembersStays(t: Tables, t': Tables, isArm: bool, entry: CacheEntry, first: Asked)
    requires Goes(t, t') && Remembers(t, isArm, entry, first)
    ensures Remembers(t', isArm, entry, first)
  {
    hide Continues, FileIs, NameOf, LineOf, ExtentOf;
    assert Replay(t.sent).locations <= Replay(t'.sent).locations by {
      SentGrows(t, t');
      ReplayGrows(t.sent, t'.sent);
    }
    FileStays(t, t', LineOf(first.answers).file, Replay(t.sent).locations[entry.locationId].file);
  }

  lemma SentGrows(t: Tables, t': Tables)
    requires Continues(t, t')
    ensures t.sent <= t'.sent
  {
  }

  /** A cached frame, if it has a location. */
  function Cached<K>(cache: map<K, CacheEntry>, key: K): Option<CacheEntry> {
    if key in cache && cache[key].locationId >= 0 then Some(cache[key]) else None
  }

  function CacheKey(elf: ElfInfo, ip: u64): (string, u64) {
    (elf.originalPath, RelativeAddress(elf, ip))
  }

  /** Two lookups that share an entry. Their addresses are the same exactly if the file starts
      at the same address for both; on ARM, where the lowest bit of an address does not count,
      if the starts agree in that bit, as the starts of pages do. */
  lemma SharedEntry(x: Asked, y: Asked, isArm: bool)
    requires x.elf.IsValid() && y.elf.IsValid() && CacheKey(x.elf, x.ip) == CacheKey(y.elf, y.ip)
    requires isArm ==> ElfStart(x.elf) % 2 == ElfStart(y.elf) % 2
    ensures SymbolAddress(x.ip, isArm) == SymbolAddress(y.ip, isArm) <==> ElfStart(x.elf) == ElfStart(y.elf)
  {
    var d := x.ip - y.ip - (ElfStart(x.elf) - ElfStart(y.elf));
    assert d == 0 || d == TWO_64 || d == -TWO_64;
  }

  const ONE_PROCESS := MakeElf(LIBRARY, 0x1000, 0x1000, 0, "lib.so", "/lib.so")
  const ANOTHER_PROCESS := MakeElf(LIBRARY, 0x5000, 0x1000, 0, "lib.so", "/lib.so")

  /** A file that two processes have mapped at different addresses: both share the entry, and
      its location is right for at most one of them. */
  lemma SharedEntryExample(t: Tables, id: int, a: Answers, b: Answers)
    ensures CacheKey(ONE_PROCESS, 0x1010) == CacheKey(ANOTHER_PROCESS, 0x5010)
    ensures LocatedAs(t, id, a, ONE_PROCESS, 0x1010, false, 1) ==>
      !LocatedAs(t, id, b, ANOTHER_PROCESS, 0x5010, false, 2)
  {
    hide FileIs, LineOf, ExtentOf;
  }

  /** The frames of all addresses in files, for all processes together. */
  class AddressCache {
    const isArm: bool
    var cache: map<(string, u64), CacheEntry>
    /** The lookup that made each entry. */
    ghost var firsts: map<(string, u64), Asked>

    ghost predicate Valid(t: Tables)
      reads this
    {
      && cache.Keys == firsts.Keys
      && forall key :: key in cache ==>
           && firsts[key].elf.IsValid() && CacheKey(firsts[key].elf, firsts[key].ip) == key
           && Remembers(t, isArm, cache[key], firsts[key])
    }

    constructor (isArm: bool)
      ensures cache == map[] && this.isArm == isArm && forall t :: Valid(t)
    {
      this.isArm := isArm;
      cache, firsts := map[], map[];
    }

    lemma ValidStays(t: Tables, t': Tables)
      requires Valid(t) && Goes(t, t')
      ensures Valid(t')
    {
      hide Goes, Remembers, CacheKey;
      forall key | key in cache
        ensures Remembers(t', isArm, cache[key], firsts[key])
      {
        RemembersStays(t, t', isArm, cache[key], firsts[key]);
      }
    }
  }
}
