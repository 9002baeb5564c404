/** Every frame the client prints has a symbol, at the latest one step up its chain. */
module NamedFrames {
  import opened OutputMessages
  import opened OutputTables

  /** Every location but `id` has a symbol itself, or its parent has one. */
  ghost predicate NamedBut(t: Tables, id: int) {
    var c := Replay(t.sent);
    forall i :: 0 <= i < |c.locations| && i != id ==> i in t.symbols || c.locations[i].parent in t.symbols
  }

  /** What a frame lookup keeps, up to one location that waits for its symbol. */
  ghost predicate SoundBut(t: Tables, id: int) {
    Mirrored(t) && NamedBut(t, id) && PidsSet(Replay(t.sent))
  }

  ghost predicate Sound(t: Tables) {
    SoundBut(t, -1)
  }

  lemma NewIsSound()
    ensures Sound(NEW_TABLES)
  {
    NewIsMirrored();
  }

  lemma StringStaysSound(t: Tables, text: string, id: int)
    requires SoundBut(t, id)
    ensures SoundBut(ResolveString(t, text).0, id)
  {
    hide Replay, Mirrored;
    ResolveStringFacts(t, text);
    ReplaySnoc(t.sent, StringDefinition(|t.strings|, text));
  }

  /** A new location may lack a symbol, unless its parent has one. */
  lemma LocationStaysSound(t: Tables, l: Location)
    requires Sound(t) && StringId(t, l.file) && Refers(l.parent, |t.locations|) && l.pid != 0
    ensures var (t', id) := ResolveLocation(t, l);
      SoundBut(t', id) && (l.parent in t.symbols ==> Sound(t'))
  {
    hide Replay, Numbered, Keys, AllReferBack;
    StringCount(t);
    ResolveLocationFacts(t, l);
    ReplaySnoc(t.sent, LocationDefinition(|t.locations|, l));
  }

  lemma SymbolMakesSound(t: Tables, id: int, s: Symbol)
    requires SoundBut(t, id) && 0 <= id < |t.locations| && SymbolIds(t, s)
    ensures Sound(ResolveSymbol(t, id, s))
  {
    hide Replay, Mirrored;
    ResolveSymbolFacts(t, id, s);
    ReplaySnoc(t.sent, SymbolDefinition(id, s));
  }

  lemma SoundAnyway(t: Tables, id: int)
    requires SoundBut(t, id) && id in t.symbols
    ensures Sound(t)
  {
  }

  lemma SymbolsAreLocations(t: Tables)
    requires Mirrored(t)
    ensures forall id :: id in t.symbols ==> 0 <= id < |t.locations|
  {
    ReplayIsGrounded(t.sent);
    StringCount(t);
  }
}
