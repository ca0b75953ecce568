/**
 * Which parts of the list view are on screen: the loading message, the error
 * message or the card grid (in that order of priority), and the separate
 * "no results" message.
 */
module Display {
  import opened Wrappers
  import opened Search
  import opened Routing

  /** JavaScript truthiness of `error: string | null`: both `null` and `""` are falsy. */
  predicate Shown(error: Option<string>) {
    error.Some? && error.value != ""
  }

  /** A card of the grid: the name it displays and the route its click pushes. */
  datatype Card = Card(name: string, target: string)

  /** The single branch of the main area that is rendered. */
  datatype Main = LoadingView | ErrorView(message: string) | GridView(cards: seq<Card>)

  /** The main area, plus the query named by the "no results" message when it is shown. */
  datatype Screen = Screen(main: Main, noResultsFor: Option<string>)

  /** The card rendered for one record. */
  function CardOf(p: Pokemon): (c: Card)
    ensures c.name == p.name
    ensures PokemonId(p.url).Some? ==> c.target == [SLASH] + PokemonId(p.url).value
    ensures PokemonId(p.url).Some? ==> PokemonId(c.target) == PokemonId(p.url)
    ensures PokemonId(p.url).None? ==> c.target == "/undefined"
  {
    NavTargetRoundTrip(p.url);
    Card(p.name, NavTarget(p.url))
  }

  /** One card per filtered record, in the filtered order. */
  function Cards(filtered: seq<Pokemon>): (cards: seq<Card>)
    ensures |cards| == |filtered|
    ensures forall i :: 0 <= i < |filtered| ==> cards[i] == CardOf(filtered[i])
  {
    seq(|filtered|, i requires 0 <= i < |filtered| => CardOf(filtered[i]))
  }

  /** The rendered view for the component's state. */
  function Render(isLoading: bool, error: Option<string>, pokemonData: seq<Pokemon>, searchQuery: string): (s: Screen)
    ensures s.main.LoadingView? <==> isLoading
    ensures s.main.ErrorView? <==> !isLoading && Shown(error)
    ensures s.main.ErrorView? ==> s.main.message == error.value
    ensures s.main.GridView? ==> s.main.cards == Cards(Filter(pokemonData, searchQuery))
    ensures s.noResultsFor.Some? <==> |Filter(pokemonData, searchQuery)| == 0 && !isLoading && !Shown(error)
    ensures s.noResultsFor.Some? ==> s.noResultsFor.value == searchQuery
  {
    var filtered := Filter(pokemonData, searchQuery);
    var main :=
      if isLoading then LoadingView
      else if Shown(error) then ErrorView(error.value)
      else GridView(Cards(filtered));
    var noResults := if |filtered| == 0 && !isLoading && !Shown(error) then Some(searchQuery) else None;
    Screen(main, noResults)
  }

  /** The "no results" message is shown exactly when the grid is shown and empty. */
  lemma NoResultsIffEmptyGrid(isLoading: bool, error: Option<string>, pokemonData: seq<Pokemon>, searchQuery: string)
    ensures var s := Render(isLoading, error, pokemonData, searchQuery);
      s.noResultsFor.Some? <==> s.main == GridView([])
  {
  }

  /**
   * A settled view without a truthy error (`null` or `""`) shows a record's
   * card exactly when the record is in the list and matches the query, and
   * shows no other card.
   */
  lemma GridShowsMatches(error: Option<string>, pokemonData: seq<Pokemon>, searchQuery: string, p: Pokemon)
    requires !Shown(error)
    ensures var s := Render(false, error, pokemonData, searchQuery);
      && s.main.GridView?
      && (p in pokemonData && Matches(p, searchQuery) ==> CardOf(p) in s.main.cards)
      && (forall c :: c in s.main.cards ==>
            exists q :: q in pokemonData && Matches(q, searchQuery) && c == CardOf(q))
  {
    var filtered := Filter(pokemonData, searchQuery);
    var cards := Cards(filtered);
    FilterMembership(pokemonData, searchQuery, p);
    if p in pokemonData && Matches(p, searchQuery) {
      var i :| 0 <= i < |filtered| && filtered[i] == p;
      assert cards[i] == CardOf(p);
    }
    forall c | c in cards
      ensures exists q :: q in pokemonData && Matches(q, searchQuery) && c == CardOf(q)
    {
      var i :| 0 <= i < |cards| && cards[i] == c;
      assert filtered[i] in filtered;
    }
  }

  /** With an empty query, a settled view without error shows a card for every record, in order. */
  lemma EmptyQueryShowsEverything(pokemonData: seq<Pokemon>, error: Option<string>)
    requires !Shown(error)
    ensures var s := Render(false, error, pokemonData, "");
      && s.main.GridView?
      && |s.main.cards| == |pokemonData|
      && (forall i :: 0 <= i < |pokemonData| ==> s.main.cards[i] == CardOf(pokemonData[i]))
      && (s.noResultsFor.Some? <==> pokemonData == [])
  {
    FilterEmptyQuery(pokemonData);
  }
}
