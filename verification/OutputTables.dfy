/** The producer's id tables. An id is sent as a definition when it is first given out. */
module OutputTables {
  import opened WordArithmetic
  import opened OutputMessages

  /** Locations are compared without their parent. */
  datatype LocationKey = LocationKey(address: u64, relAddr: u64, file: int, pid: nat, line: int, column: int)

  function KeyOf(l: Location): LocationKey {
    LocationKey(l.address, l.relAddr, l.file, l.pid, l.line, l.column)
  }

  datatype Tables = Tables(strings: map<string, int>, locations: map<LocationKey, int>, symbols: map<int, Symbol>,
                           attributes: seq<Attributes>, attributeIds: map<u64, int>, sent: seq<Message>)

  const NEW_TABLES := Tables(map[], map[], map[], [], map[], [])

  function Sent(t: Tables, m: Message): Tables {
    t.(sent := t.sent + [m])
  }

  /** The id of a text; the empty text has none. */
  function ResolveString(t: Tables, text: string): (Tables, int) {
    if text == "" then (t, -1)
    else if text in t.strings then (t, t.strings[text])
    else
      var id := |t.strings|;
      (Sent(t.(strings := t.strings[text := id]), StringDefinition(id, text)), id)
  }

  function LookupString(t: Tables, text: string): int {
    if text in t.strings then t.strings[text] else -1
  }

  function ResolveLocation(t: Tables, l: Location): (Tables, int) {
    if KeyOf(l) in t.locations then (t, t.locations[KeyOf(l)])
    else
      var id := |t.locations|;
      (Sent(t.(locations := t.locations[KeyOf(l) := id]), LocationDefinition(id, l)), id)
  }

  function LookupLocation(t: Tables, l: Location): int {
    if KeyOf(l) in t.locations then t.locations[KeyOf(l)] else -1
  }

  function ResolveSymbol(t: Tables, id: int, s: Symbol): Tables {
    Sent(t.(symbols := t.symbols[id := s]), SymbolDefinition(id, s))
  }

  /** The ids that have no attributes yet. */
  function Unknown(known: map<u64, int>, ids: seq<u64>): (r: seq<u64>)
    ensures forall id :: id in r <==> id in ids && id !in known
  {
    if ids == [] then [] else (if ids[0] in known then [] else [ids[0]]) + Unknown(known, ids[1..])
  }

  function AssignAll(known: map<u64, int>, ids: seq<u64>, internal: int): map<u64, int> {
    map id | id in known.Keys + (set id | id in ids) :: if id in ids then internal else known[id]
  }

  function Announced(t: Tables, a: Attributes, nameId: int, ids: seq<u64>): Tables {
    var internal := |t.attributes|;
    Sent(t.(attributes := t.attributes + [a], attributeIds := AssignAll(t.attributeIds, ids, internal)),
         AttributesDefinition(internal, a, nameId))
  }

  /** Attributes get an internal id, unless each of their ids has attributes already. The id
      zero, for samples without one, goes to the first attributes. */
  function AddAttributes(t: Tables, a: Attributes, name: string, ids: seq<u64>): Tables {
    var filtered := Unknown(t.attributeIds, ids + [0]);
    if filtered == [] then t
    else
      var (named, nameId) := ResolveString(t, name);
      Announced(named, a, nameId, filtered)
  }

  // ------------------------------------------------------------ producer and client

  /** The table numbers exactly the given keys, in their order. */
  ghost predicate Numbered<K>(ids: map<K, int>, keys: seq<K>) {
    && |ids| == |keys|
    && (forall i :: 0 <= i < |keys| ==> keys[i] in ids && ids[keys[i]] == i)
    && (forall key :: key in ids ==> 0 <= ids[key] < |keys| && keys[ids[key]] == key)
  }

  /** Entries are only added. */
  ghost predicate Grows<K>(before: map<K, int>, after: map<K, int>) {
    forall key :: key in before ==> key in after && after[key] == before[key]
  }

  lemma NumberedSnoc<K>(ids: map<K, int>, keys: seq<K>, key: K)
    requires Numbered(ids, keys) && key !in ids
    ensures |ids| == |keys|
    ensures Numbered(ids[key := |ids|], keys + [key]) && Grows(ids, ids[key := |ids|])
  {
  }

  lemma NumberedAt<K>(ids: map<K, int>, keys: seq<K>, key: K)
    requires Numbered(ids, keys) && key in ids
    ensures 0 <= ids[key] < |keys| == |ids| && keys[ids[key]] == key
  {
  }

  ghost function Keys(locations: seq<Location>): (r: seq<LocationKey>)
    ensures |r| == |locations|
    ensures forall i :: 0 <= i < |r| ==> r[i] == KeyOf(locations[i])
  {
    seq(|locations|, i requires 0 <= i < |locations| => KeyOf(locations[i]))
  }

  lemma KeysSnoc(locations: seq<Location>, l: Location)
    ensures Keys(locations + [l]) == Keys(locations) + [KeyOf(l)]
  {
  }

  ghost predicate AttributesMirrored(attributes: seq<Attributes>, received: seq<(Attributes, int)>) {
    && |attributes| == |received|
    && forall i :: 0 <= i < |attributes| ==> received[i].0 == attributes[i]
  }

  /** Replaying what was sent rebuilds the tables, and every id in it refers back. */
  ghost predicate Mirrored(t: Tables) {
    var c := Replay(t.sent);
    && Numbered(t.strings, c.strings)
    && Numbered(t.locations, Keys(c.locations))
    && c.symbols == t.symbols
    && AttributesMirrored(t.attributes, c.attributes)
    && (forall id :: id in t.attributeIds ==> 0 <= t.attributeIds[id] < |t.attributes|)
    && AllReferBack(t.sent)
  }

  /** Later tables: nothing is forgotten or renumbered, and messages are only appended. */
  ghost predicate Continues(before: Tables, after: Tables) {
    && before.sent <= after.sent
    && |before.strings| <= |after.strings| && |before.locations| <= |after.locations|
    && Grows(before.strings, after.strings)
    && Grows(before.locations, after.locations)
    && before.symbols.Keys <= after.symbols.Keys
    && before.attributes <= after.attributes
    && Grows(before.attributeIds, after.attributeIds)
  }

  lemma ContinuesTransitive(x: Tables, y: Tables, z: Tables)
    requires Continues(x, y) && Continues(y, z)
    ensures Continues(x, z)
  {
  }

  predicate StringId(t: Tables, id: int) {
    Refers(id, |t.strings|)
  }

  lemma NewIsMirrored()
    ensures Mirrored(NEW_TABLES)
  {
  }

  predicate DefinesNothing(m: Message) {
    m.ThreadStart? || m.ThreadEnd? || m.Command? || m.Sample?
  }

  /** Sending a message that defines nothing new in the tables. */
  lemma SentMirrored(t: Tables, m: Message)
    requires Mirrored(t) && RefersBack(Replay(t.sent), m) && DefinesNothing(m)
    ensures Mirrored(Sent(t, m)) && Continues(t, Sent(t, m))
  {
    ReplaySnoc(t.sent, m);
    AllReferBackSnoc(t.sent, m);
  }

  lemma ResolveStringFacts(t: Tables, text: string)
    requires Mirrored(t)
    ensures var (t', id) := ResolveString(t, text);
      && Mirrored(t') && Continues(t, t')
      && StringId(t', id) && (id == -1 <==> text == "")
      && (text != "" ==> Replay(t'.sent).strings[id] == text)
      && t' == t.(strings := t'.strings, sent := t'.sent)
  {
    hide AllReferBack;
    if text != "" && text !in t.strings {
      var m := StringDefinition(|t.strings|, text);
      ReplaySnoc(t.sent, m);
      AllReferBackSnoc(t.sent, m);
      NumberedSnoc(t.strings, Replay(t.sent).strings, text);
    }
  }

  lemma ResolveLocationFacts(t: Tables, l: Location)
    requires Mirrored(t) && StringId(t, l.file) && Refers(l.parent, |t.locations|)
    ensures var (t', id) := ResolveLocation(t, l);
      && Mirrored(t') && Continues(t, t')
      && 0 <= id < |t'.locations| && KeyOf(Replay(t'.sent).locations[id]) == KeyOf(l)
      && t' == t.(locations := t'.locations, sent := t'.sent)
  {
    hide AllReferBack, KeyOf, Keys, Numbered;
    var c, key, id := Replay(t.sent), KeyOf(l), |t.locations|;
    if key in t.locations {
      NumberedAt(t.locations, Keys(c.locations), key);
    } else {
      var m := LocationDefinition(id, l);
      NumberedSnoc(t.locations, Keys(c.locations), key);
      KeysSnoc(c.locations, l);
      ReplaySnoc(t.sent, m);
      assert |c.locations| == id;
      StringCount(t);
      AllReferBackSnoc(t.sent, m);
    }
  }

  lemma StringCount(t: Tables)
    requires Mirrored(t)
    ensures |t.strings| == |Replay(t.sent).strings| && |t.locations| == |Replay(t.sent).locations|
  {
  }

  predicate SymbolIds(t: Tables, s: Symbol) {
    StringId(t, s.name) && StringId(t, s.binary) && StringId(t, s.path) && StringId(t, s.actualPath)
  }

  lemma ResolveSymbolFacts(t: Tables, id: int, s: Symbol)
    requires Mirrored(t) && 0 <= id < |t.locations| && SymbolIds(t, s)
    ensures var t' := ResolveSymbol(t, id, s);
      && Mirrored(t') && Continues(t, t')
      && t' == t.(symbols := t.symbols[id := s], sent := t'.sent)
  {
    hide AllReferBack, Numbered, Keys;
    StringCount(t);
    ReplaySnoc(t.sent, SymbolDefinition(id, s));
    AllReferBackSnoc(t.sent, SymbolDefinition(id, s));
  }

  /** New attributes: ids that had none get them, and all others keep theirs. */
  lemma AddAttributesFacts(t: Tables, a: Attributes, name: string, ids: seq<u64>)
    requires Mirrored(t)
    ensures var t' := AddAttributes(t, a, name, ids);
      && Mirrored(t') && Continues(t, t')
      && t'.locations == t.locations && t'.symbols == t.symbols
      && forall id :: id in t'.attributeIds <==> id in t.attributeIds || id in ids || id == 0
    ensures var t' := AddAttributes(t, a, name, ids);
      forall id: u64 :: (id in ids || id == 0) && id !in t.attributeIds ==>
        t'.attributeIds[id] == |t.attributes| && t'.attributes == t.attributes + [a]
  {
    hide Mirrored, Continues;
    var filtered := Unknown(t.attributeIds, ids + [0]);
    assert forall id :: id in ids + [0] <==> id in ids || id == 0;
    if filtered == [] {
      ContinuesItself(t);
    } else {
      ResolveStringFacts(t, name);
      var (named, nameId) := ResolveString(t, name);
      AnnounceFacts(named, a, nameId, filtered);
      ContinuesTransitive(t, named, Announced(named, a, nameId, filtered));
    }
  }

  lemma ContinuesItself(t: Tables)
    ensures Continues(t, t)
  {
  }

  lemma AnnounceFacts(t: Tables, a: Attributes, nameId: int, ids: seq<u64>)
    requires Mirrored(t) && StringId(t, nameId) && forall id :: id in ids ==> id !in t.attributeIds
    ensures var t' := Announced(t, a, nameId, ids); Mirrored(t') && Continues(t, t')
  {
    hide AllReferBack, Numbered, Keys, Continues, AssignAll, AttributesMirrored, RefersBack;
    var m := AttributesDefinition(|t.attributes|, a, nameId);
    AnnounceRefersBack(t, m);
    AssignedInRange(t.attributeIds, ids, |t.attributes|);
    AttributesSnoc(t.attributes, Replay(t.sent).attributes, a, nameId);
    ReplaySnoc(t.sent, m);
    AllReferBackSnoc(t.sent, m);
    AnnounceContinues(t, a, nameId, ids);
  }

  lemma AnnounceRefersBack(t: Tables, m: Message)
    requires Mirrored(t) && m.AttributesDefinition? && m.id == |t.attributes| && StringId(t, m.name)
    ensures RefersBack(Replay(t.sent), m)
  {
    hide AllReferBack;
  }

  lemma AttributesSnoc(attributes: seq<Attributes>, received: seq<(Attributes, int)>, a: Attributes, nameId: int)
    requires AttributesMirrored(attributes, received)
    ensures AttributesMirrored(attributes + [a], received + [(a, nameId)])
  {
  }

  lemma AssignedInRange(known: map<u64, int>, ids: seq<u64>, n: nat)
    requires forall id :: id in known ==> 0 <= known[id] < n
    ensures forall id :: id in AssignAll(known, ids, n) ==> 0 <= AssignAll(known, ids, n)[id] < n + 1
  {
  }

  lemma AnnounceContinues(t: Tables, a: Attributes, nameId: int, ids: seq<u64>)
    requires forall id :: id in ids ==> id !in t.attributeIds
    ensures Continues(t, Announced(t, a, nameId, ids))
  {
  }
}
