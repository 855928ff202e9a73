/** `EchoNestTerms`: derives a genre list from the term service's weighted
    terms for the record's first artist. The service is abstracted as a map
    from artist name to its term list, already sorted by weight as the
    service returns it; an artist it does not know makes the lookup raise. */
module EchoNest {
  import opened Wrappers
  import opened SongInfo
  import GenreCase

  /** A weighted descriptive term; weights compare exactly. */
  datatype Term = Term(name: string, weight: real)

  /** The term service: artist name -> weight-sorted term list. */
  type Service = map<string, seq<Term>>

  /** Terms at or above this weight become genres. */
  const MinWeight: real := 0.5

  predicate Kept(t: Term)
  {
    t.weight >= MinWeight
  }

  /** The lookup runs only for a record with an artist and no genre yet. */
  predicate Gate(info: Song)
  {
    Truthy(Get(info, Artist)) && !Truthy(Get(info, Genre))
  }

  /** The gate in plain terms: the artist list is set and non-empty, and the
      genre is unset or an empty list. */
  lemma GateTruthiness(info: Song)
    ensures Gate(info) <==>
              && Get(info, Artist).Some? && |Get(info, Artist).value| > 0
              && (Get(info, Genre) == None || Get(info, Genre) == Some([]))
  {
  }

  /** The body of `_populate`'s loop: the kept terms' names, cased, in order. */
  function GenresFromTerms(terms: seq<Term>, tc: GenreCase.TitleCaser): (g: seq<string>)
    ensures |g| <= |terms|
    decreases |terms|
  {
    if |terms| == 0 then []
    else
      var rest := GenresFromTerms(terms[1..], tc);
      if Kept(terms[0]) then [GenreCase.Case(terms[0].name, tc)] + rest else rest
  }

  /** `EchoNestTerms.populate`: behind the gate, looks up `artist[0]` and
      replaces `genre` with the genres derived from its terms; nothing else
      in the record changes, and a closed gate changes nothing at all. */
  function Populate(info: Song, service: Service, tc: GenreCase.TitleCaser): (r: Result<Song>)
    ensures !Gate(info) ==> r == Ok(info)
    ensures Gate(info) ==> (r.Err? <==> Get(info, Artist).value[0] !in service)
    ensures r.Err? ==> r.error == LookupError(Get(info, Artist).value[0])
    ensures r.Ok? ==> r.value.pathname == info.pathname
    ensures r.Ok? && Valid(info) ==> Valid(r.value)
    ensures r.Ok? ==> forall k :: k != Genre ==> Get(r.value, k) == Get(info, k)
    ensures r.Ok? && Gate(info) ==>
              Get(r.value, Genre) == Some(GenresFromTerms(service[Get(info, Artist).value[0]], tc))
  {
    if !Gate(info) then Ok(info)
    else
      var artist := Get(info, Artist).value[0];
      if artist !in service then Err(LookupError(artist))
      else Ok(With(info, Genre, Some(GenresFromTerms(service[artist], tc))))
  }

  /** A genre comes out exactly when some kept term's cased name is it. */
  lemma {:induction false} GenresFromTermsMembership(terms: seq<Term>, tc: GenreCase.TitleCaser, x: string)
    ensures x in GenresFromTerms(terms, tc) <==>
            exists i :: 0 <= i < |terms| && Kept(terms[i]) && GenreCase.Case(terms[i].name, tc) == x
    decreases |terms|
  {
    if |terms| > 0 {
      GenresFromTermsMembership(terms[1..], tc, x);
      if x in GenresFromTerms(terms, tc) && !(Kept(terms[0]) && GenreCase.Case(terms[0].name, tc) == x) {
        var i :| 0 <= i < |terms[1..]| && Kept(terms[1..][i]) && GenreCase.Case(terms[1..][i].name, tc) == x;
        assert terms[i + 1] == terms[1..][i];
      }
      if exists i :: 0 <= i < |terms| && Kept(terms[i]) && GenreCase.Case(terms[i].name, tc) == x {
        var i :| 0 <= i < |terms| && Kept(terms[i]) && GenreCase.Case(terms[i].name, tc) == x;
        if i > 0 {
          assert terms[1..][i - 1] == terms[i];
        }
      }
    }
  }

  /** The service's order is kept: the genres of a concatenation are the
      genres of the first part followed by those of the second. */
  lemma {:induction false} GenresFromTermsAppend(a: seq<Term>, b: seq<Term>, tc: GenreCase.TitleCaser)
    ensures GenresFromTerms(a + b, tc) == GenresFromTerms(a, tc) + GenresFromTerms(b, tc)
    decreases |a|
  {
    if |a| == 0 {
      assert a + b == b;
    } else {
      GenresFromTermsAppend(a[1..], b, tc);
      assert (a + b)[1..] == a[1..] + b;
    }
  }

  /** No term is dropped exactly when every term reaches the threshold. */
  lemma {:induction false} GenresFromTermsAllKept(terms: seq<Term>, tc: GenreCase.TitleCaser)
    ensures |GenresFromTerms(terms, tc)| == |terms| <==> forall i :: 0 <= i < |terms| ==> Kept(terms[i])
    decreases |terms|
  {
    if |terms| > 0 {
      GenresFromTermsAllKept(terms[1..], tc);
      if forall i :: 0 <= i < |terms[1..]| ==> Kept(terms[1..][i]) {
        forall i | 1 <= i < |terms| ensures Kept(terms[i]) {
          assert terms[1..][i - 1] == terms[i];
        }
      }
    }
  }

  /** Only the first artist is looked up: two gated records that share it
      get the same outcome for `genre`. */
  lemma FirstArtistOnly(a: Song, b: Song, service: Service, tc: GenreCase.TitleCaser)
    requires Gate(a) && Gate(b)
    requires Get(a, Artist).value[0] == Get(b, Artist).value[0]
    ensures Populate(a, service, tc).Ok? <==> Populate(b, service, tc).Ok?
    ensures Populate(a, service, tc).Ok? ==>
              Get(Populate(a, service, tc).value, Genre) == Get(Populate(b, service, tc).value, Genre)
  {
  }

  /** Weights 0.9, 0.7 and 0.3: the last term is dropped and the other two
      keep their order. */
  lemma ThresholdExample(tc: GenreCase.TitleCaser)
    ensures GenresFromTerms([Term("grunge", 0.9), Term("rock", 0.7), Term("loud", 0.3)], tc)
            == [GenreCase.Case("grunge", tc), GenreCase.Case("rock", tc)]
  {
    var t := [Term("grunge", 0.9), Term("rock", 0.7), Term("loud", 0.3)];
    assert t[1..][1..][1..] == [];
  }

  /** A weight of exactly 0.5 is kept and 0.49 is not; an "r&b" term comes
      out as "R&B". */
  lemma ThresholdBoundary(tc: GenreCase.TitleCaser)
    ensures GenresFromTerms([Term("r&b", 0.5), Term("noise", 0.49)], tc) == ["R&B"]
  {
    var u := [Term("r&b", 0.5), Term("noise", 0.49)];
    assert u[1..][1..] == [];
    GenreCase.CaseRAndB(tc);
  }
}
