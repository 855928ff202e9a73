/** `GenreCaseFixer`: re-cases every genre string already in a record. */
module GenreFixer {
  import opened Wrappers
  import opened SongInfo
  import GenreCase
  import Text

  /** Cases each genre string, keeping length and order. */
  function CaseAll(genres: seq<string>, tc: GenreCase.TitleCaser): seq<string>
  {
    seq(|genres|, i requires 0 <= i < |genres| => GenreCase.Case(genres[i], tc))
  }

  /** Casing is per entry: casing a concatenation cases each part on its own. */
  lemma CaseAllAppend(a: seq<string>, b: seq<string>, tc: GenreCase.TitleCaser)
    ensures CaseAll(a + b, tc) == CaseAll(a, tc) + CaseAll(b, tc)
  {
  }

  /** A list whose every entry casing leaves alone is left alone. */
  lemma CaseAllFixed(genres: seq<string>, tc: GenreCase.TitleCaser)
    requires forall i :: 0 <= i < |genres| ==> GenreCase.Case(genres[i], tc) == genres[i]
    ensures CaseAll(genres, tc) == genres
  {
  }

  /** `GenreCaseFixer.populate`: an empty or unset genre is left alone;
      otherwise each entry is replaced by its cased form. Only `genre`
      changes, and it stays non-empty exactly when it was. */
  function Populate(info: Song, tc: GenreCase.TitleCaser): (r: Song)
    ensures r.pathname == info.pathname
    ensures Valid(info) ==> Valid(r)
    ensures forall k :: k != Genre ==> Get(r, k) == Get(info, k)
    ensures Truthy(Get(r, Genre)) <==> Truthy(Get(info, Genre))
    ensures !Truthy(Get(info, Genre)) ==> r == info
    ensures Truthy(Get(info, Genre)) ==>
              var g := Get(info, Genre).value;
              var g' := Get(r, Genre).value;
              |g'| == |g| && forall i :: 0 <= i < |g| ==> g'[i] == GenreCase.Case(g[i], tc)
  {
    var g := Get(info, Genre);
    if Truthy(g) then With(info, Genre, Some(CaseAll(g.value, tc))) else info
  }

  /** A genre list made only of override words in any casing comes out as
      their canonical forms, and fixing it a second time changes nothing. */
  lemma FixOverrides(info: Song, tc: GenreCase.TitleCaser)
    requires Truthy(Get(info, Genre))
    requires forall i :: 0 <= i < |Get(info, Genre).value| ==>
               ' ' !in Get(info, Genre).value[i] && Text.Lower(Get(info, Genre).value[i]) in GenreCase.Overrides
    ensures var g := Get(info, Genre).value;
            Get(Populate(info, tc), Genre) ==
              Some(seq(|g|, i requires 0 <= i < |g| => GenreCase.Overrides[Text.Lower(g[i])]))
    ensures Populate(Populate(info, tc), tc) == Populate(info, tc)
  {
    var g := Get(info, Genre).value;
    var once := Populate(info, tc);
    var g1 := Get(once, Genre).value;
    forall i | 0 <= i < |g| ensures g1[i] == GenreCase.Overrides[Text.Lower(g[i])] {
    }
    var canon := seq(|g|, i requires 0 <= i < |g| => GenreCase.Overrides[Text.Lower(g[i])]);
    assert g1 == canon;
    GenreCase.OverridesCanonical();
    forall i | 0 <= i < |g1| ensures GenreCase.Case(g1[i], tc) == g1[i] {
      GenreCase.CaseOverrideStable(g[i], tc);
    }
    assert CaseAll(g1, tc) == g1;
    assert Genre in once.tags && once.tags[Genre] == Some(g1);
    assert once.tags[Genre := Some(g1)] == once.tags;
  }
}
