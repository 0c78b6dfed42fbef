/** The bundled color schemes: an eager table of all of them, and a registry that loads each on
its first lookup. */
module ColorSchemes {
  import opened Options

  datatype Palette = Palette(colors: string)

  datatype Scheme = Scheme(palette: Palette, aliases: seq<string>)

  /** A bundled scheme: its name and what its text parses to, if it parses. */
  datatype Entry = Entry(name: string, parsed: Option<Scheme>)

  /** The names under which an entry is stored. */
  function Keys(e: Entry): set<string> {
    if e.parsed.None? then {} else {e.name} + AliasSet(e.parsed.value.aliases)
  }

  function AliasSet(aliases: seq<string>): set<string> {
    set a | a in aliases
  }

  /** An entry that a search for `n` stops at: a primary name counts even when its text does
  not parse. */
  predicate Stops(e: Entry, n: string) {
    e.name == n || n in Keys(e)
  }

  function Store(m: map<string, Palette>, e: Entry): map<string, Palette>
    requires e.parsed.Some?
  {
    m + Shared(Keys(e), e.parsed.value.palette)
  }

  function Shared(names: set<string>, palette: Palette): map<string, Palette> {
    map k | k in names :: palette
  }

  function Lookup(m: map<string, Palette>, n: string): Option<Palette> {
    if n in m then Some(m[n]) else None
  }

  // ----- The eager table: the last scheme of a name wins -----

  function Eager(schemes: seq<Entry>, n: string): Option<Palette> {
    if schemes == [] then None
    else
      var last := schemes[|schemes| - 1];
      if n in Keys(last) then Some(last.parsed.value.palette) else Eager(schemes[..|schemes| - 1], n)
  }

  /** The map once the name and the first `j` aliases are in. */
  function StoredUpTo(m: map<string, Palette>, e: Entry, j: nat): map<string, Palette>
    requires e.parsed.Some? && j <= |e.parsed.value.aliases|
  {
    m + Shared({e.name} + AliasSet(e.parsed.value.aliases[..j]), e.parsed.value.palette)
  }

  lemma StoredEnds(m: map<string, Palette>, e: Entry)
    requires e.parsed.Some?
    ensures StoredUpTo(m, e, 0) == m[e.name := e.parsed.value.palette]
    ensures StoredUpTo(m, e, |e.parsed.value.aliases|) == Store(m, e)
  {
    var aliases := e.parsed.value.aliases;
    assert aliases[..|aliases|] == aliases;
  }

  lemma StoredOneMore(m: map<string, Palette>, e: Entry, j: nat)
    requires e.parsed.Some? && j < |e.parsed.value.aliases|
    ensures StoredUpTo(m, e, j + 1) == StoredUpTo(m, e, j)[e.parsed.value.aliases[j] := e.parsed.value.palette]
  {
    var aliases := e.parsed.value.aliases;
    assert aliases[..j + 1] == aliases[..j] + [aliases[j]];
    assert AliasSet(aliases[..j + 1]) == AliasSet(aliases[..j]) + {aliases[j]};
  }

  method InsertScheme(m: map<string, Palette>, e: Entry) returns (m': map<string, Palette>)
    requires e.parsed.Some?
    ensures m' == Store(m, e)
  {
    StoredEnds(m, e);
    hide Store, StoredUpTo;
    var palette, aliases := e.parsed.value.palette, e.parsed.value.aliases;
    m' := m[e.name := palette];
    for j := 0 to |aliases|
      invariant m' == StoredUpTo(m, e, j)
    {
      StoredOneMore(m, e, j);
      m' := m'[aliases[j] := palette];
    }
  }

  method BuildDefaultSchemes(schemes: seq<Entry>) returns (m: map<string, Palette>)
    ensures forall n :: Lookup(m, n) == Eager(schemes, n)
  {
    m := map[];
    for i := 0 to |schemes|
      invariant forall n :: Lookup(m, n) == Eager(schemes[..i], n)
    {
      assert schemes[..i + 1][..i] == schemes[..i];
      if schemes[i].parsed.None? {
        continue;
      }
      m := InsertScheme(m, schemes[i]);
    }
    assert schemes[..|schemes|] == schemes;
  }

  // ----- The registry: the first scheme of a name is loaded -----

  function FirstStop(schemes: seq<Entry>, n: string): (i: nat)
    ensures i <= |schemes| && (i < |schemes| ==> Stops(schemes[i], n))
    ensures forall j :: 0 <= j < i ==> !Stops(schemes[j], n)
  {
    if schemes == [] then 0
    else if Stops(schemes[0], n) then 0
    else 1 + FirstStop(schemes[1..], n)
  }

  /** What looking `n` up without a cached value answers and caches. */
  function Load(schemes: seq<Entry>, loaded: map<string, Palette>, n: string): (Option<Palette>, map<string, Palette>) {
    var i := FirstStop(schemes, n);
    if i < |schemes| && schemes[i].parsed.Some?
    then (Some(schemes[i].parsed.value.palette), Store(loaded, schemes[i]))
    else (None, loaded)
  }

  function Get(schemes: seq<Entry>, loaded: map<string, Palette>, n: string): (Option<Palette>, map<string, Palette>) {
    if n in loaded then (Some(loaded[n]), loaded) else Load(schemes, loaded, n)
  }

  class ColorSchemeRegistry {
    const schemes: seq<Entry>
    var loaded: map<string, Palette>

    constructor (schemes: seq<Entry>)
      ensures this.schemes == schemes && loaded == map[]
    {
      this.schemes := schemes;
      loaded := map[];
    }

    method GetScheme(name: string) returns (palette: Option<Palette>)
      modifies this
      ensures (palette, loaded) == Get(schemes, old(loaded), name)
    {
      if name in loaded {
        return Some(loaded[name]);
      }
      palette := LoadScheme(name);
    }

    method LoadScheme(name: string) returns (palette: Option<Palette>)
      modifies this
      ensures (palette, loaded) == Load(schemes, old(loaded), name)
    {
      for i := 0 to |schemes|
        invariant loaded == old(loaded) && forall j :: 0 <= j < i ==> !Stops(schemes[j], name)
      {
        var e := schemes[i];
        if e.name != name {
          if e.parsed.None? {
            continue;
          }
          if name !in e.parsed.value.aliases {
            continue;
          }
          loaded := InsertScheme(loaded, e);
          return Some(e.parsed.value.palette);
        }
        if e.parsed.Some? {
          loaded := InsertScheme(loaded, e);
          return Some(e.parsed.value.palette);
        }
        return None;
      }
      return None;
    }
  }

  // ----- Who answers to a name -----

  /** The entry's name is `n`, or its text parses and lists `n` as an alias. */
  predicate Answers(e: Entry, n: string) {
    e.name == n || (e.parsed.Some? && n in e.parsed.value.aliases)
  }

  /** Entry `i` is the last one whose text parses and that answers to `n`. */
  predicate LastAnswer(schemes: seq<Entry>, n: string, i: nat) {
    && i < |schemes| && schemes[i].parsed.Some? && Answers(schemes[i], n)
    && forall j :: i < j < |schemes| && schemes[j].parsed.Some? ==> !Answers(schemes[j], n)
  }

  /** In the eager table the last parsed entry that answers to a name has it; when there is
  none, nobody has. */
  lemma {:induction false} LastAnswerWins(schemes: seq<Entry>, n: string)
    ensures forall i: nat :: LastAnswer(schemes, n, i) ==> Eager(schemes, n) == Some(schemes[i].parsed.value.palette)
    ensures (forall i: nat :: !LastAnswer(schemes, n, i)) ==> Eager(schemes, n) == None
  {
    if schemes != [] {
      var last := |schemes| - 1;
      LastAnswerWins(schemes[..last], n);
      assert forall j :: 0 <= j < last ==> schemes[..last][j] == schemes[j];
      assert n in Keys(schemes[last]) <==> schemes[last].parsed.Some? && Answers(schemes[last], n);
      hide Answers, Keys;
      assert schemes[last].parsed.Some? && Answers(schemes[last], n) <==> LastAnswer(schemes, n, last);
      if !LastAnswer(schemes, n, last) {
        forall i: nat ensures LastAnswer(schemes, n, i) <==> LastAnswer(schemes[..last], n, i) {}
      }
    }
  }

  /** In the registry a name in the cache is answered from there; otherwise by the first entry
  that answers to it: its palette, under its name and all its aliases, enters the cache, unless
  its text does not parse, which leaves the name without an answer. */
  lemma FirstAnswerLoads(schemes: seq<Entry>, loaded: map<string, Palette>, n: string, i: nat)
    requires n !in loaded && i < |schemes| && Answers(schemes[i], n)
    requires forall j :: 0 <= j < i ==> !Answers(schemes[j], n)
    ensures schemes[i].parsed.None? ==> Get(schemes, loaded, n) == (None, loaded)
    ensures schemes[i].parsed.Some? ==>
      var scheme := schemes[i].parsed.value;
      var (answer, loaded') := Get(schemes, loaded, n);
      && answer == Some(scheme.palette)
      && (forall k :: k in loaded' <==> k in loaded || k == schemes[i].name || k in scheme.aliases)
      && (forall k :: k == schemes[i].name || k in scheme.aliases ==> k in loaded' && loaded'[k] == scheme.palette)
      && (forall k :: k in loaded && k != schemes[i].name && k !in scheme.aliases ==> loaded'[k] == loaded[k])
  {
    StopsAtAnswer(schemes, n);
    assert FirstStop(schemes, n) == i;
  }

  lemma StopsAtAnswer(schemes: seq<Entry>, n: string)
    ensures forall j :: 0 <= j < |schemes| ==> (Stops(schemes[j], n) <==> Answers(schemes[j], n))
  {
  }

  lemma CachedOrUnknown(schemes: seq<Entry>, loaded: map<string, Palette>, n: string)
    ensures n in loaded ==> Get(schemes, loaded, n) == (Some(loaded[n]), loaded)
    ensures n !in loaded && (forall j :: 0 <= j < |schemes| ==> !Answers(schemes[j], n)) ==>
      Get(schemes, loaded, n) == (None, loaded)
  {
    StopsAtAnswer(schemes, n);
  }

  // ----- Agreement -----

  function LoadedAfter(schemes: seq<Entry>, names: seq<string>): map<string, Palette> {
    if names == [] then map[]
    else Get(schemes, LoadedAfter(schemes, names[..|names| - 1]), names[|names| - 1]).1
  }

  /** Some search leads to entry `i` and loads it. */
  ghost predicate Loadable(schemes: seq<Entry>, i: nat) {
    i < |schemes| && schemes[i].parsed.Some? && exists n :: FirstStop(schemes, n) == i
  }

  /** A test of the table alone: an entry that can be loaded has, under each of its names, the
  palette of the last entry of that name; and the search for a stored name does not stop at an
  entry whose text does not parse. */
  ghost predicate Coherent(schemes: seq<Entry>) {
    && (forall i: nat, n :: Loadable(schemes, i) && n in Keys(schemes[i]) ==>
          Eager(schemes, n) == Some(schemes[i].parsed.value.palette))
    && (forall n :: Eager(schemes, n).Some? ==> Loadable(schemes, FirstStop(schemes, n)))
  }

  lemma {:induction false} EagerNone(schemes: seq<Entry>, n: string)
    ensures Eager(schemes, n).None? <==> forall i :: 0 <= i < |schemes| ==> n !in Keys(schemes[i])
  {
    if schemes != [] {
      EagerNone(schemes[..|schemes| - 1], n);
    }
  }

  lemma {:induction false} CacheAgrees(schemes: seq<Entry>, names: seq<string>)
    requires Coherent(schemes)
    ensures forall n :: n in LoadedAfter(schemes, names) ==> Eager(schemes, n) == Some(LoadedAfter(schemes, names)[n])
  {
    if names != [] {
      CacheAgrees(schemes, names[..|names| - 1]);
      var n := names[|names| - 1];
      var i := FirstStop(schemes, n);
      if i < |schemes| && schemes[i].parsed.Some? {
        assert Loadable(schemes, i);
      }
    }
  }

  ghost predicate AgreesAlways(schemes: seq<Entry>) {
    forall names, n :: Get(schemes, LoadedAfter(schemes, names), n).0 == Eager(schemes, n)
  }

  /** After any sequence of lookups the registry answers like the eager table, if and only if
  the table is coherent. */
  lemma LazyAgreesWithEager(schemes: seq<Entry>)
    ensures AgreesAlways(schemes) <==> Coherent(schemes)
  {
    if Coherent(schemes) {
      forall names, n ensures Get(schemes, LoadedAfter(schemes, names), n).0 == Eager(schemes, n) {
        CacheAgrees(schemes, names);
        CacheAgrees(schemes, names + [n]);
        assert (names + [n])[..|names|] == names;
        var i := FirstStop(schemes, n);
        if i < |schemes| && schemes[i].parsed.Some? {
          assert Loadable(schemes, i);
        }
      }
    }
    if AgreesAlways(schemes) {
      forall i: nat, n | Loadable(schemes, i) && n in Keys(schemes[i])
        ensures Eager(schemes, n) == Some(schemes[i].parsed.value.palette)
      {
        var k :| FirstStop(schemes, k) == i;
        assert [k][..0] == [];
        assert LoadedAfter(schemes, [k]) == Store(map[], schemes[i]);
        assert Get(schemes, LoadedAfter(schemes, [k]), n).0 == Some(schemes[i].parsed.value.palette);
      }
      forall n | Eager(schemes, n).Some? ensures Loadable(schemes, FirstStop(schemes, n)) {
        assert LoadedAfter(schemes, []) == map[];
        assert Get(schemes, LoadedAfter(schemes, []), n).0.Some?;
      }
    }
  }

  /** Names and aliases of different entries never collide. */
  ghost predicate NoCollisions(schemes: seq<Entry>) {
    forall i, j, n :: 0 <= i < j < |schemes| ==> !(Stops(schemes[i], n) && Stops(schemes[j], n))
  }

  lemma {:induction false} EagerOnly(schemes: seq<Entry>, i: nat, n: string)
    requires NoCollisions(schemes) && i < |schemes| && n in Keys(schemes[i])
    ensures Eager(schemes, n) == Some(schemes[i].parsed.value.palette)
  {
    var last := |schemes| - 1;
    if i < last {
      assert Stops(schemes[i], n) && !Stops(schemes[last], n);
      EagerOnly(schemes[..last], i, n);
    }
  }

  lemma NoCollisionsAgree(schemes: seq<Entry>)
    requires NoCollisions(schemes)
    ensures AgreesAlways(schemes)
  {
    forall i: nat, n | Loadable(schemes, i) && n in Keys(schemes[i])
      ensures Eager(schemes, n) == Some(schemes[i].parsed.value.palette)
    {
      EagerOnly(schemes, i, n);
    }
    forall n | Eager(schemes, n).Some? ensures Loadable(schemes, FirstStop(schemes, n)) {
      EagerNone(schemes, n);
      var i :| 0 <= i < |schemes| && n in Keys(schemes[i]);
      var first := FirstStop(schemes, n);
      assert Stops(schemes[i], n) && Stops(schemes[first], n);
      assert first == i;
    }
    LazyAgreesWithEager(schemes);
  }
}
