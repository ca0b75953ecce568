/**
 * The identifier a card navigates to: `url.split('/').filter(Boolean).pop()`,
 * i.e. the last non-empty `/`-separated segment of the record's URL, and the
 * route `/${id}` pushed when the card is clicked.
 */
module Routing {
  import opened Wrappers

  const SLASH: char := '/'

  /** Every character of `s` is a slash (vacuously so for the empty string). */
  predicate AllSlashes(s: string) {
    forall i :: 0 <= i < |s| ==> s[i] == SLASH
  }

  /** The last element of a non-empty sequence. */
  function Last<T>(xs: seq<T>): T
    requires xs != []
  {
    xs[|xs| - 1]
  }

  /**
   * `s.split('/')`: the pieces between slashes, empty pieces included, so that
   * the empty string splits into one empty piece.
   */
  function Split(s: string): (parts: seq<string>)
    ensures |parts| >= 1
    ensures forall k :: 0 <= k < |parts| ==> SLASH !in parts[k]
    decreases |s|
  {
    if s == [] then [""]
    else
      var init, c := Split(s[..|s| - 1]), s[|s| - 1];
      if c == SLASH then init + [""]
      else init[..|init| - 1] + [Last(init) + [c]]
  }

  /** `parts.join('/')`, the inverse of `Split`. */
  function Join(parts: seq<string>): string
    requires |parts| >= 1
  {
    if |parts| == 1 then parts[0]
    else Join(parts[..|parts| - 1]) + [SLASH] + Last(parts)
  }

  /** Joining the pieces of a split gives back the string. */
  lemma {:induction false} JoinSplit(s: string)
    ensures Join(Split(s)) == s
    decreases |s|
  {
    if s != [] {
      var prefix, c := s[..|s| - 1], s[|s| - 1];
      assert s == prefix + [c];
      var init := Split(prefix);
      JoinSplit(prefix);
      if c == SLASH {
        assert (init + [""])[..|init|] == init;
      } else {
        var parts := init[..|init| - 1] + [Last(init) + [c]];
        if |init| == 1 {
          assert Join(parts) == init[0] + [c];
        } else {
          assert parts[..|parts| - 1] == init[..|init| - 1];
          assert Join(init) == Join(init[..|init| - 1]) + [SLASH] + Last(init);
        }
      }
    }
  }

  /** Appending slash-free text to a string extends the last piece of its split. */
  lemma {:induction false} SplitAppendSegment(a: string, b: string)
    requires SLASH !in b
    ensures var parts := Split(a);
      Split(a + b) == parts[..|parts| - 1] + [Last(parts) + b]
    decreases |b|
  {
    var parts := Split(a);
    if b == [] {
      assert a + b == a;
      assert Last(parts) + b == Last(parts);
      assert parts == parts[..|parts| - 1] + [Last(parts)];
    } else {
      var b', c := b[..|b| - 1], b[|b| - 1];
      assert b == b' + [c];
      SplitAppendSegment(a, b');
      assert a + b == (a + b') + [c];
      assert (a + b)[..|a + b| - 1] == a + b';
      var mid := Split(a + b');
      assert mid == parts[..|parts| - 1] + [Last(parts) + b'];
      assert mid[..|mid| - 1] == parts[..|parts| - 1];
      assert Last(mid) + [c] == Last(parts) + b;
    }
  }

  /** Splitting the join of slash-free pieces gives back the pieces. */
  lemma {:induction false} SplitJoin(parts: seq<string>)
    requires |parts| >= 1
    requires forall k :: 0 <= k < |parts| ==> SLASH !in parts[k]
    ensures Split(Join(parts)) == parts
  {
    if |parts| == 1 {
      SplitAppendSegment("", parts[0]);
      assert "" + parts[0] == parts[0];
    } else {
      var init, last := parts[..|parts| - 1], Last(parts);
      SplitJoin(init);
      var j := Join(init) + [SLASH];
      assert Join(parts) == j + last;
      assert j != [] && j[|j| - 1] == SLASH && j[..|j| - 1] == Join(init);
      var mid := Split(j);
      assert mid == init + [""];
      SplitAppendSegment(j, last);
      assert Split(j + last) == mid[..|mid| - 1] + [Last(mid) + last];
      assert mid[..|mid| - 1] == init && Last(mid) + last == last;
      assert init + [last] == parts;
    }
  }

  /** `parts.filter(Boolean)`: the non-empty pieces, in order. */
  function DropEmpty(parts: seq<string>): (r: seq<string>)
    ensures |r| <= |parts|
    ensures forall k :: 0 <= k < |r| ==> r[k] != "" && r[k] in parts
  {
    if parts == [] then []
    else
      var init := DropEmpty(parts[..|parts| - 1]);
      if Last(parts) == "" then init else init + [Last(parts)]
  }

  /** A piece survives `filter(Boolean)` exactly when it is non-empty. */
  lemma {:induction false} DropEmptyMembership(parts: seq<string>, x: string)
    ensures x in DropEmpty(parts) <==> x in parts && x != ""
  {
    if parts != [] {
      var init := parts[..|parts| - 1];
      DropEmptyMembership(init, x);
      assert parts == init + [Last(parts)];
    }
  }

  /** `filter(Boolean)` of one piece keeps it exactly when it is non-empty. */
  lemma DropEmptySingle(x: string)
    ensures DropEmpty([x]) == (if x == "" then [] else [x])
  {
    assert [x][..0] == [];
  }

  /**
   * `filter(Boolean)` distributes over concatenation, so with `DropEmptySingle`
   * it keeps every non-empty piece, in order and as often as it occurs.
   */
  lemma {:induction false} DropEmptyAppend(a: seq<string>, b: seq<string>)
    ensures DropEmpty(a + b) == DropEmpty(a) + DropEmpty(b)
    decreases |b|
  {
    if b == [] {
      assert a + b == a;
    } else {
      var b' := b[..|b| - 1];
      assert (a + b)[..|a + b| - 1] == a + b';
      assert Last(a + b) == Last(b);
      DropEmptyAppend(a, b');
    }
  }

  /** `xs.pop()` used as an expression: the last element, or `undefined`. */
  function Pop<T>(xs: seq<T>): (r: Option<T>)
    ensures r.None? <==> xs == []
    ensures r.Some? ==> xs == xs[..|xs| - 1] + [r.value]
  {
    if xs == [] then None else Some(Last(xs))
  }

  /** The identifier of a record: its URL's last non-empty `/`-separated segment. */
  function PokemonId(url: string): (id: Option<string>)
    ensures id.Some? ==> id.value != "" && SLASH !in id.value
  {
    Pop(DropEmpty(Split(url)))
  }

  /** A trailing slash does not change the identifier. */
  lemma IdIgnoresTrailingSlash(s: string)
    ensures PokemonId(s + [SLASH]) == PokemonId(s)
  {
  }

  /** The last piece of a split: the slash-free end of the string. */
  function LastPiece(s: string): string {
    Last(Split(s))
  }

  /** A character other than a slash ends the identifier. */
  lemma IdAfterCharacter(s: string, c: char)
    requires c != SLASH
    ensures PokemonId(s + [c]) == Some(LastPiece(s) + [c])
  {
  }

  /** A string splits as what precedes its last piece, then that piece. */
  lemma {:induction false} LastPieceSplitsString(s: string) returns (p: string)
    ensures s == p + LastPiece(s)
    ensures p == [] || Last(p) == SLASH
    decreases |s|
  {
    if s == [] {
      p := [];
    } else {
      var prefix, c := s[..|s| - 1], s[|s| - 1];
      assert s == prefix + [c];
      if c == SLASH {
        assert Split(s) == Split(prefix) + [""];
        p := s;
      } else {
        var q := LastPieceSplitsString(prefix);
        var init := Split(prefix);
        assert Split(s) == init[..|init| - 1] + [Last(init) + [c]];
        assert LastPiece(s) == LastPiece(prefix) + [c];
        p := q;
      }
    }
  }

  /**
   * `url` is some prefix that is empty or ends in a slash, then the segment
   * `seg` (non-empty, slash-free), then nothing but slashes.
   */
  ghost predicate Decomposes(url: string, p: string, seg: string, t: string) {
    && url == p + seg + t
    && (p == [] || Last(p) == SLASH)
    && seg != [] && SLASH !in seg
    && AllSlashes(t)
  }

  /** Trailing slashes never change the identifier. */
  lemma {:induction false} IdIgnoresTrailingSlashes(s: string, t: string)
    requires AllSlashes(t)
    ensures PokemonId(s + t) == PokemonId(s)
    decreases |t|
  {
    if t == [] {
      assert s + t == s;
    } else {
      var t' := t[..|t| - 1];
      assert s + t == (s + t') + [SLASH];
      IdIgnoresTrailingSlash(s + t');
      IdIgnoresTrailingSlashes(s, t');
    }
  }

  /** The identifier of a decomposed URL is its segment. */
  lemma IdOfDecomposed(url: string, p: string, seg: string, t: string)
    requires Decomposes(url, p, seg, t)
    ensures PokemonId(url) == Some(seg)
  {
    var body, c := seg[..|seg| - 1], Last(seg);
    assert seg == body + [c];
    assert SLASH !in body;
    assert LastPiece(p) == "" by {
      if p != [] {
        assert Split(p) == Split(p[..|p| - 1]) + [""];
      }
    }
    SplitAppendSegment(p, body);
    assert LastPiece(p + body) == body;
    assert p + seg == (p + body) + [c];
    IdAfterCharacter(p + body, c);
    IdIgnoresTrailingSlashes(p + seg, t);
    assert url == (p + seg) + t;
  }

  /** A URL with an identifier decomposes around it. */
  lemma {:induction false} DecomposedOfId(url: string, seg: string) returns (p: string, t: string)
    requires PokemonId(url) == Some(seg)
    ensures Decomposes(url, p, seg, t)
    decreases |url|
  {
    var prefix, c := url[..|url| - 1], url[|url| - 1];
    assert url == prefix + [c];
    if c == SLASH {
      IdIgnoresTrailingSlash(prefix);
      var t';
      p, t' := DecomposedOfId(prefix, seg);
      t := t' + [SLASH];
      assert url == p + seg + t;
    } else {
      IdAfterCharacter(prefix, c);
      p := LastPieceSplitsString(prefix);
      t := [];
      assert url == p + seg + t;
    }
  }

  /**
   * The identifier is the last non-empty slash-free segment: it is `seg`
   * exactly when the URL decomposes around `seg`.
   */
  lemma IdIsLastSegment(url: string, seg: string)
    ensures PokemonId(url) == Some(seg) <==> exists p, t :: Decomposes(url, p, seg, t)
  {
    if PokemonId(url) == Some(seg) {
      var p, t := DecomposedOfId(url, seg);
    }
    forall p, t | Decomposes(url, p, seg, t)
      ensures PokemonId(url) == Some(seg)
    {
      IdOfDecomposed(url, p, seg, t);
    }
  }

  /** There is no identifier exactly when the URL is empty or made only of slashes. */
  lemma {:induction false} NoIdIffAllSlashes(url: string)
    ensures PokemonId(url) == None <==> AllSlashes(url)
    decreases |url|
  {
    if url != [] {
      var prefix, c := url[..|url| - 1], url[|url| - 1];
      assert url == prefix + [c];
      NoIdIffAllSlashes(prefix);
      if c == SLASH {
        IdIgnoresTrailingSlash(prefix);
      } else {
        IdAfterCharacter(prefix, c);
      }
    }
  }

  /** The resource URL of the listing's 25th record yields the identifier "25". */
  lemma IdOfResourceUrl()
    ensures PokemonId("https://pokeapi.co/api/v2/pokemon/25/") == Some("25")
  {
    var p := "https://pokeapi.co/api/v2/pokemon/";
    assert "https://pokeapi.co/api/v2/pokemon/25/" == p + "25" + "/";
    IdOfDecomposed("https://pokeapi.co/api/v2/pokemon/25/", p, "25", "/");
  }

  /** The route pushed on a card click: `/${id}`, where a missing id prints as "undefined". */
  function NavTarget(url: string): (route: string)
    ensures |route| >= 2 && route[0] == SLASH && SLASH !in route[1..]
  {
    [SLASH] + PokemonId(url).GetOr("undefined")
  }

  /** The route pushed for a card carries that card's identifier and nothing else. */
  lemma NavTargetRoundTrip(url: string)
    ensures PokemonId(url).Some? ==> PokemonId(NavTarget(url)) == PokemonId(url)
    ensures PokemonId(url).None? ==> NavTarget(url) == "/undefined"
  {
    if PokemonId(url).Some? {
      var id := PokemonId(url).value;
      assert NavTarget(url) == [SLASH] + id + [];
      IdOfDecomposed(NavTarget(url), [SLASH], id, []);
    }
  }
}
