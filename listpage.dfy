/**
 * The list view component's state cells (`pokemonData`, `isLoading`, `error`,
 * `searchQuery`) and the fetch lifecycle that updates them: start loading,
 * then store the results or an error message, and stop loading either way.
 */
module ListPage {
  import opened Wrappers
  import opened Search
  import opened Display

  /** The value a failed request throws: an `Error` with its message, or anything else. */
  datatype Thrown = ErrorInstance(message: string) | OtherValue

  /** How the listing request ended: its `results`, or the thrown value. */
  datatype FetchOutcome = Fetched(results: seq<Pokemon>) | Threw(thrown: Thrown)

  /** The message stored when the thrown value is not an `Error`. */
  const FALLBACK_MESSAGE: string := "Failed to fetch Pokémon data"

  /** The catch block's message: the `Error`'s own message, otherwise the fallback. */
  function ErrorText(thrown: Thrown): (msg: string)
    ensures thrown.ErrorInstance? ==> msg == thrown.message
    ensures msg == "" <==> thrown == ErrorInstance("")
    ensures thrown.OtherValue? ==> msg == FALLBACK_MESSAGE
  {
    match thrown
    case ErrorInstance(m) => m
    case OtherValue => FALLBACK_MESSAGE
  }

  /**
   * After a failure the error message replaces the grid, whatever data an
   * earlier state held, unless the message is empty: an empty message is falsy
   * and the (unchanged) grid is rendered instead.
   */
  lemma ScreenAfterFailure(pokemonData: seq<Pokemon>, searchQuery: string, thrown: Thrown)
    ensures var s := Render(false, Some(ErrorText(thrown)), pokemonData, searchQuery);
      && (thrown != ErrorInstance("") ==> s == Screen(ErrorView(ErrorText(thrown)), None))
      && (thrown == ErrorInstance("") ==> s.main.GridView?)
  {
  }

  class ListPageState {
    var pokemonData: seq<Pokemon>
    var isLoading: bool
    var error: Option<string>
    var searchQuery: string

    /** The initial `useState` values. */
    constructor ()
      ensures pokemonData == [] && isLoading && error == None && searchQuery == ""
    {
      pokemonData := [];
      isLoading := true;
      error := None;
      searchQuery := "";
    }

    /** What the component renders in the current state. */
    function View(): (s: Screen)
      reads this
      ensures isLoading ==> s == Screen(LoadingView, None)
      ensures !isLoading && Shown(error) ==> s == Screen(ErrorView(error.value), None)
      ensures !isLoading && !Shown(error) ==>
        s.main == GridView(Cards(Filter(pokemonData, searchQuery)))
        && s.noResultsFor == (if Filter(pokemonData, searchQuery) == [] then Some(searchQuery) else None)
    {
      Render(isLoading, error, pokemonData, searchQuery)
    }

    /** The search input's change handler. */
    method SetSearchQuery(query: string)
      modifies this
      ensures searchQuery == query
      ensures pokemonData == old(pokemonData) && isLoading == old(isLoading) && error == old(error)
    {
      searchQuery := query;
    }

    /** `setIsLoading(true)` at the start of the try block. */
    method Start()
      modifies this
      ensures isLoading
      ensures pokemonData == old(pokemonData) && error == old(error) && searchQuery == old(searchQuery)
      ensures View().main == LoadingView && View().noResultsFor == None
    {
      isLoading := true;
    }

    /** The request resolved: store its results, then the finally block clears loading. */
    method Succeed(results: seq<Pokemon>)
      modifies this
      ensures pokemonData == results && !isLoading
      ensures error == old(error) && searchQuery == old(searchQuery)
    {
      pokemonData := results;
      isLoading := false;
    }

    /** The request threw: store the catch block's message, then the finally block clears loading. */
    method Fail(thrown: Thrown)
      modifies this
      ensures error == Some(ErrorText(thrown)) && !isLoading
      ensures pokemonData == old(pokemonData) && searchQuery == old(searchQuery)
    {
      error := Some(ErrorText(thrown));
      isLoading := false;
    }

    /** One run of `fetchPokemon` whose request ends with `outcome`. */
    method FetchPokemon(outcome: FetchOutcome)
      modifies this
      ensures !isLoading && searchQuery == old(searchQuery)
      ensures outcome.Fetched? ==> pokemonData == outcome.results && error == old(error)
      ensures outcome.Threw? ==> pokemonData == old(pokemonData) && error == Some(ErrorText(outcome.thrown))
      ensures View().main != LoadingView
    {
      Start();
      match outcome
      case Fetched(results) => Succeed(results);
      case Threw(thrown) => Fail(thrown);
    }
  }

  /** On mount the view shows the loading message; afterwards the outcome decides. */
  method Mount(outcome: FetchOutcome) returns (page: ListPageState)
    ensures fresh(page)
    ensures page.searchQuery == "" && !page.isLoading
    ensures outcome.Fetched? ==> page.pokemonData == outcome.results && page.error == None
    ensures outcome.Threw? ==> page.pokemonData == [] && page.error == Some(ErrorText(outcome.thrown))
    ensures outcome.Fetched? ==>
      page.View() == Screen(GridView(Cards(outcome.results)), if outcome.results == [] then Some("") else None)
    ensures outcome.Threw? && outcome.thrown != ErrorInstance("") ==>
      page.View() == Screen(ErrorView(ErrorText(outcome.thrown)), None)
    ensures outcome == Threw(ErrorInstance("")) ==> page.View() == Screen(GridView([]), Some(""))
  {
    page := new ListPageState();
    assert page.View().main == LoadingView;
    page.FetchPokemon(outcome);
    if outcome.Fetched? {
      FilterEmptyQuery(outcome.results);
    } else {
      ScreenAfterFailure([], "", outcome.thrown);
    }
  }
}
