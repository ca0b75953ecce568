/**
 * The list view's search filter: the records kept are those whose lower-cased
 * name contains the lower-cased search query, in their original order.
 */
module Search {
  import opened Text

  /** One entry of the listing response: a name and the URL of its full record. */
  datatype Pokemon = Pokemon(name: string, url: string)

  /** The filter's test for one record: a case-insensitive substring match. */
  predicate Matches(p: Pokemon, query: string)
    ensures Matches(p, query) <==> exists i :: OccursAt(Lower(p.name), Lower(query), i)
  {
    ContainsIffOccurs(Lower(p.name), Lower(query));
    Contains(Lower(p.name), Lower(query))
  }

  /** `pokemonData.filter(...)`: the matching records, in input order. */
  function Filter(data: seq<Pokemon>, query: string): (r: seq<Pokemon>)
    ensures |r| <= |data|
    ensures forall p :: p in r ==> p in data && Matches(p, query)
  {
    if data == [] then []
    else (if Matches(data[0], query) then [data[0]] else []) + Filter(data[1..], query)
  }

  /** `xs` is picked out of `ys` at the strictly increasing positions `idx`. */
  ghost predicate PickedAt<T>(xs: seq<T>, ys: seq<T>, idx: seq<nat>) {
    && |idx| == |xs|
    && (forall k :: 0 <= k < |idx| ==> idx[k] < |ys| && xs[k] == ys[idx[k]])
    && (forall j, k :: 0 <= j < k < |idx| ==> idx[j] < idx[k])
  }

  /** `xs` is an order-preserving subsequence of `ys`. */
  ghost predicate IsSubsequence<T>(xs: seq<T>, ys: seq<T>) {
    exists idx :: PickedAt(xs, ys, idx)
  }

  /** The positions at or after `from` whose records match the query, ascending. */
  function MatchingPositions(data: seq<Pokemon>, query: string, from: nat): (idx: seq<nat>)
    requires from <= |data|
    ensures forall k :: 0 <= k < |idx| ==> from <= idx[k] < |data|
    decreases |data| - from
  {
    if from == |data| then []
    else (if Matches(data[from], query) then [from] else []) + MatchingPositions(data, query, from + 1)
  }

  /**
   * The filtered list is picked out of `data[from..]` exactly at the matching
   * positions, and those positions ascend.
   */
  lemma {:induction false} FilterPicksMatchingPositions(data: seq<Pokemon>, query: string, from: nat)
    requires from <= |data|
    ensures var idx := MatchingPositions(data, query, from);
      && |idx| == |Filter(data[from..], query)|
      && (forall k :: 0 <= k < |idx| ==> Filter(data[from..], query)[k] == data[idx[k]])
      && (forall j, k :: 0 <= j < k < |idx| ==> idx[j] < idx[k])
      && (forall i :: from <= i < |data| ==> (i in idx <==> Matches(data[i], query)))
    decreases |data| - from
  {
    if from < |data| {
      FilterPicksMatchingPositions(data, query, from + 1);
      var idx, rest := MatchingPositions(data, query, from), MatchingPositions(data, query, from + 1);
      var f, fRest := Filter(data[from..], query), Filter(data[from + 1..], query);
      assert data[from..][1..] == data[from + 1..];
      assert data[from..][0] == data[from];
      if Matches(data[from], query) {
        assert idx == [from] + rest;
        assert f == [data[from]] + fRest;
        forall k | 0 <= k < |idx|
          ensures f[k] == data[idx[k]]
        {
          if k > 0 {
            assert f[k] == fRest[k - 1] && idx[k] == rest[k - 1];
          }
        }
      } else {
        assert idx == rest;
        assert f == fRest;
      }
    }
  }

  /**
   * The filter keeps exactly the matching records and keeps them in order:
   * its result is `data` read at the ascending list of matching positions.
   */
  lemma FilterSelectsExactlyMatches(data: seq<Pokemon>, query: string)
    ensures var idx := MatchingPositions(data, query, 0);
      && PickedAt(Filter(data, query), data, idx)
      && (forall i :: 0 <= i < |data| ==> (i in idx <==> Matches(data[i], query)))
  {
    FilterPicksMatchingPositions(data, query, 0);
    assert data[0..] == data;
  }

  /** The filtered list is an order-preserving subsequence of the input. */
  lemma FilterIsSubsequence(data: seq<Pokemon>, query: string)
    ensures IsSubsequence(Filter(data, query), data)
  {
    FilterSelectsExactlyMatches(data, query);
  }

  /** A record is in the filtered list exactly when it is in the input and matches. */
  lemma {:induction false} FilterMembership(data: seq<Pokemon>, query: string, p: Pokemon)
    ensures p in Filter(data, query) <==> p in data && Matches(p, query)
  {
    if data != [] {
      FilterMembership(data[1..], query, p);
      assert data == [data[0]] + data[1..];
    }
  }

  /** The empty query keeps the whole list, unchanged. */
  lemma {:induction false} FilterEmptyQuery(data: seq<Pokemon>)
    ensures Filter(data, "") == data
  {
    if data != [] {
      ContainsEmpty(Lower(data[0].name));
      FilterEmptyQuery(data[1..]);
    }
  }

  /** Two queries that lower-case alike select the same records. */
  lemma {:induction false} FilterCaseInsensitive(data: seq<Pokemon>, q1: string, q2: string)
    requires Lower(q1) == Lower(q2)
    ensures Filter(data, q1) == Filter(data, q2)
  {
    if data != [] {
      FilterCaseInsensitive(data[1..], q1, q2);
    }
  }

  /** Lower-casing the query first does not change the result. */
  lemma FilterLowerQuery(data: seq<Pokemon>, query: string)
    ensures Filter(data, Lower(query)) == Filter(data, query)
  {
    LowerIdempotent(query);
    FilterCaseInsensitive(data, Lower(query), query);
  }

  /** Filtering a list with a known first record. */
  lemma FilterCons(p: Pokemon, rest: seq<Pokemon>, query: string)
    ensures Filter([p] + rest, query)
         == (if Matches(p, query) then [p] else []) + Filter(rest, query)
  {
  }

  /** Filtering an already filtered list by the same query changes nothing. */
  lemma {:induction false} FilterIdempotent(data: seq<Pokemon>, query: string)
    ensures Filter(Filter(data, query), query) == Filter(data, query)
  {
    if data != [] {
      FilterIdempotent(data[1..], query);
      if Matches(data[0], query) {
        var rest := Filter(data[1..], query);
        assert Filter(data, query) == [data[0]] + rest;
        FilterCons(data[0], rest, query);
        assert Filter([data[0]] + rest, query) == [data[0]] + Filter(rest, query);
      } else {
        assert Filter(data, query) == Filter(data[1..], query);
      }
    }
  }

  /** "char" does not occur in "bulbasaur". */
  lemma BulbasaurLacksChar()
    ensures !Contains("bulbasaur", "char")
  {
    FirstCharAbsent("bulbasaur", "char");
  }

  /** The listing holding bulbasaur and charmander, searched for "char", keeps charmander only. */
  lemma FilterScenario()
    ensures var bulbasaur := Pokemon("bulbasaur", "https://pokeapi.co/api/v2/pokemon/1/");
      var charmander := Pokemon("charmander", "https://pokeapi.co/api/v2/pokemon/4/");
      Filter([bulbasaur, charmander], "char") == [charmander]
  {
    var bulbasaur := Pokemon("bulbasaur", "https://pokeapi.co/api/v2/pokemon/1/");
    var charmander := Pokemon("charmander", "https://pokeapi.co/api/v2/pokemon/4/");
    assert Lower("char") == "char";
    assert Lower("bulbasaur") == "bulbasaur";
    assert Lower("charmander") == "charmander";
    assert Contains("charmander", "char");
    BulbasaurLacksChar();
    FilterCons(bulbasaur, [charmander], "char");
    FilterCons(charmander, [], "char");
  }
}
