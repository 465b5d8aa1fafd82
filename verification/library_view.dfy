/**
 * The chord library screen: the favourites list, the search and filter over
 * the chord database, and the first fifty chords it renders.
 *
 * The screen's state is a value. `filteredChords` is memoised on the search
 * text and the filter only, so the list is recomputed when one of those two
 * changes and kept as it is otherwise; `LibraryState.shown` holds it.
 */
module LibraryView {
  import opened Util
  import opened Text
  import opened Types

  // ---------------------------------------------------------------------
  // Favourites
  // ---------------------------------------------------------------------

  /** The stored favourites as the initial state reads them. */
  datatype StoredFavorites =
    | NoItem               // no item, or the empty string
    | Unparsable           // reading or `JSON.parse` threw
    | Parsed(ids: seq<string>)

  /** The initial favourites: what is stored, or none. */
  function LoadFavorites(st: StoredFavorites): (r: seq<string>)
    ensures st.Parsed? ==> r == st.ids
    ensures !st.Parsed? ==> r == []
  {
    match st
    case Parsed(ids) => ids
    case _ => []
  }

  /** `toggleFavorite`: drop every copy of a favourite id, or append an id that is not one. */
  function ToggleFavorite(favorites: seq<string>, id: string): (r: seq<string>)
    ensures id in r <==> id !in favorites
    ensures forall x :: x != id ==> (x in r <==> x in favorites)
    ensures id !in favorites ==> r == favorites + [id]
  {
    if id in favorites then Filter(favorites, f => f != id) else favorites + [id]
  }

  /** Toggling keeps a list of favourites free of repeats. */
  lemma ToggleKeepsDistinct(favorites: seq<string>, id: string)
    requires NoDuplicates(favorites)
    ensures NoDuplicates(ToggleFavorite(favorites, id))
  {
    if id in favorites {
      FilterNoDuplicates(favorites, f => f != id);
    }
  }

  /** Removing an id keeps every other favourite in its place. */
  lemma {:induction false} FilterOutKeepsOrder(s: seq<string>, id: string)
    requires id !in s
    ensures Filter(s, f => f != id) == s
  {
    FilterAll(s, f => f != id);
  }

  /** Toggling an id twice restores a list the id was not in. */
  lemma ToggleTwice(favorites: seq<string>, id: string)
    requires id !in favorites
    ensures ToggleFavorite(ToggleFavorite(favorites, id), id) == favorites
  {
    var added := favorites + [id];
    FilterConcat(favorites, [id], f => f != id);
    FilterOutKeepsOrder(favorites, id);
  }

  // ---------------------------------------------------------------------
  // Search and filter
  // ---------------------------------------------------------------------

  /** The four filter buttons. */
  datatype LibraryFilter = All | Favorites | OpenOnly | BarreOnly

  /** `chord.name.toLowerCase().includes(searchTerm.toLowerCase())`. */
  predicate MatchesSearch(c: Chord, term: string)
  {
    Contains(ToLower(c.name), ToLower(term))
  }

  predicate MatchesFilter(c: Chord, filter: LibraryFilter, favorites: seq<string>)
  {
    match filter
    case All => true
    case Favorites => c.id in favorites
    case OpenOnly => c.chordType == Open
    case BarreOnly => c.chordType == Barre
  }

  predicate Matches(c: Chord, term: string, filter: LibraryFilter, favorites: seq<string>)
  {
    MatchesSearch(c, term) && MatchesFilter(c, filter, favorites)
  }

  /** `filteredChords`: the chords matching both the search and the filter, in database order. */
  function FilteredChords(db: seq<Chord>, term: string, filter: LibraryFilter, favorites: seq<string>): (r: seq<Chord>)
    ensures |r| <= |db|
    ensures forall c :: c in r <==> c in db && MatchesSearch(c, term) && MatchesFilter(c, filter, favorites)
  {
    Filter(db, c => Matches(c, term, filter, favorites))
  }

  /** An empty search with the "All" filter lists the whole database. */
  lemma ShowAll(db: seq<Chord>, favorites: seq<string>)
    ensures FilteredChords(db, "", All, favorites) == db
  {
    forall c | c in db ensures Matches(c, "", All, favorites) {
      assert IsPrefix(ToLower(""), ToLower(c.name));
    }
    FilterAll(db, c => Matches(c, "", All, favorites));
  }

  lemma LowerIdempotent(s: string)
    ensures ToLower(ToLower(s)) == ToLower(s)
  {
  }

  /** The search ignores the case of the search text. */
  lemma SearchIgnoresCase(db: seq<Chord>, term: string, filter: LibraryFilter, favorites: seq<string>)
    ensures FilteredChords(db, ToLower(term), filter, favorites) == FilteredChords(db, term, filter, favorites)
  {
    LowerIdempotent(term);
    FilterSame(db, c => Matches(c, ToLower(term), filter, favorites), c => Matches(c, term, filter, favorites));
  }

  /** The open and barre lists never share a chord, and each lies within the unfiltered list. */
  lemma FiltersPartition(db: seq<Chord>, term: string, favorites: seq<string>)
    ensures forall c :: c in FilteredChords(db, term, OpenOnly, favorites) ==> c !in FilteredChords(db, term, BarreOnly, favorites)
    ensures forall c :: c in FilteredChords(db, term, All, favorites) <==>
              c in FilteredChords(db, term, OpenOnly, favorites) || c in FilteredChords(db, term, BarreOnly, favorites)
              || (c in db && MatchesSearch(c, term) && c.chordType == Power)
    ensures forall c :: c in FilteredChords(db, term, Favorites, favorites) ==> c in FilteredChords(db, term, All, favorites)
  {
  }

  /** A longer search text lists no chord a shorter one it starts with did not. */
  lemma SearchNarrows(db: seq<Chord>, term: string, more: string, filter: LibraryFilter, favorites: seq<string>)
    ensures forall c :: c in FilteredChords(db, term + more, filter, favorites) ==> c in FilteredChords(db, term, filter, favorites)
  {
    forall c | c in FilteredChords(db, term + more, filter, favorites)
      ensures MatchesSearch(c, term)
    {
      var name := ToLower(c.name);
      ContainsIff(name, ToLower(term + more));
      var i :| OccursAt(name, ToLower(term + more), i);
      assert ToLower(term + more)[..|term|] == ToLower(term);
      assert name[i..i + |term|] == ToLower(term + more)[..|term|];
      assert OccursAt(name, ToLower(term), i);
      ContainsIff(name, ToLower(term));
    }
  }

  /** `filteredChords.slice(0, 50)`: the chords rendered. */
  function Rendered(list: seq<Chord>): (r: seq<Chord>)
    ensures |r| == Min(50, |list|)
    ensures r == list[..|r|]
  {
    if |list| <= 50 then list else list[..50]
  }

  /** The whole-database listing renders the first fifty chords of the database once it holds fifty. */
  lemma RenderAll(db: seq<Chord>, favorites: seq<string>)
    requires |db| >= 50
    ensures Rendered(FilteredChords(db, "", All, favorites)) == db[..50]
  {
    ShowAll(db, favorites);
  }

  // ---------------------------------------------------------------------
  // The screen's state and its memoised list
  // ---------------------------------------------------------------------

  datatype LibraryState = LibraryState(search: string, filter: LibraryFilter, favorites: seq<string>, shown: seq<Chord>)

  datatype LibraryAction =
    | SetSearch(term: string)
    | SetFilter(f: LibraryFilter)
    | Toggle(id: string)

  /** The list agrees with the search, the filter and the favourites of the state. */
  predicate Current(db: seq<Chord>, st: LibraryState)
  {
    st.shown == FilteredChords(db, st.search, st.filter, st.favorites)
  }

  /** The first render: empty search, "All", the stored favourites. */
  function Initial(db: seq<Chord>, stored: StoredFavorites): (st: LibraryState)
    ensures Current(db, st) && st.shown == db
  {
    var favorites := LoadFavorites(stored);
    ShowAll(db, favorites);
    LibraryState("", All, favorites, FilteredChords(db, "", All, favorites))
  }

  /** One user action as the screen handles it: the list is recomputed only when the search or the filter changes. */
  function Step(db: seq<Chord>, st: LibraryState, a: LibraryAction): (r: LibraryState)
    ensures a.Toggle? ==> r.shown == st.shown && r.favorites == ToggleFavorite(st.favorites, a.id)
  {
    match a
    case SetSearch(t) =>
      if t == st.search then st
      else st.(search := t, shown := FilteredChords(db, t, st.filter, st.favorites))
    case SetFilter(f) =>
      if f == st.filter then st
      else st.(filter := f, shown := FilteredChords(db, st.search, f, st.favorites))
    case Toggle(id) =>
      st.(favorites := ToggleFavorite(st.favorites, id))
  }

  /** Off the "Favorites" filter the favourites do not enter the list, so it stays current. */
  lemma StepCurrentOffFavorites(db: seq<Chord>, st: LibraryState, a: LibraryAction)
    requires Current(db, st) && st.filter != Favorites
    requires !(a.SetFilter? && a.f == Favorites)
    ensures Current(db, Step(db, st, a))
  {
    if a.Toggle? {
      var favs := ToggleFavorite(st.favorites, a.id);
      FilterSame(db, c => Matches(c, st.search, st.filter, st.favorites), c => Matches(c, st.search, st.filter, favs));
    }
  }

  const Sample: Chord := Chord("C", "C", "", "C Major", Basic, Open, [])

  /** Un-favouriting the only favourite under "Favorites" leaves it listed. */
  lemma StaleFavorite()
    ensures var st := LibraryState("", Favorites, ["C"], [Sample]);
            && Current([Sample], st)
            && var next := Step([Sample], st, Toggle("C"));
               next.favorites == [] && next.shown == [Sample] && !Current([Sample], next)
  {
    var st := LibraryState("", Favorites, ["C"], [Sample]);
    assert Matches(Sample, "", Favorites, ["C"]) by {
      assert IsPrefix(ToLower(""), ToLower(Sample.name));
    }
    assert FilteredChords([Sample], "", Favorites, ["C"]) == [Sample];
    var next := Step([Sample], st, Toggle("C"));
    assert next.favorites == [];
    assert Sample !in FilteredChords([Sample], "", Favorites, []);
  }

  /** The same action with the favourites among the list's inputs: the list is recomputed after every action. */
  function StepFixed(db: seq<Chord>, st: LibraryState, a: LibraryAction): (r: LibraryState)
    ensures Current(db, r)
    ensures a.Toggle? ==> r.favorites == ToggleFavorite(st.favorites, a.id) && r.search == st.search && r.filter == st.filter
    ensures a.SetSearch? ==> r.search == a.term && r.filter == st.filter && r.favorites == st.favorites
    ensures a.SetFilter? ==> r.filter == a.f && r.search == st.search && r.favorites == st.favorites
  {
    var next := match a
      case SetSearch(t) => st.(search := t)
      case SetFilter(f) => st.(filter := f)
      case Toggle(id) => st.(favorites := ToggleFavorite(st.favorites, id));
    next.(shown := FilteredChords(db, next.search, next.filter, next.favorites))
  }

  /** Where the screen's list is current, the corrected step gives the same state. */
  lemma StepFixedAgrees(db: seq<Chord>, st: LibraryState, a: LibraryAction)
    requires Current(db, st)
    requires Current(db, Step(db, st, a))
    ensures StepFixed(db, st, a) == Step(db, st, a)
  {
  }

  /** Under the corrected step every reachable state's list is current. */
  lemma {:induction false} RunFixedCurrent(db: seq<Chord>, st: LibraryState, actions: seq<LibraryAction>)
    requires Current(db, st)
    ensures Current(db, RunFixed(db, st, actions))
    decreases |actions|
  {
    if |actions| > 0 {
      RunFixedCurrent(db, StepFixed(db, st, actions[0]), actions[1..]);
    }
  }

  /** The corrected screen after a run of actions. */
  function RunFixed(db: seq<Chord>, st: LibraryState, actions: seq<LibraryAction>): LibraryState
    decreases |actions|
  {
    if |actions| == 0 then st else RunFixed(db, StepFixed(db, st, actions[0]), actions[1..])
  }
}
