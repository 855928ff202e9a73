/** Genre capitalisation: the override table and the callback handed to the
    title-casing library, which consults the callback for every word before
    applying its own rules. The library's own rules are not visible, so they
    enter as a `TitleCaser` parameter. */
module GenreCase {
  import opened Wrappers
  import opened Text

  /** Lower-case word -> canonical display form. */
  const Overrides: map<string, string> := map["r&b" := "R&B"]

  /** The library's casing of word `i` of a whitespace-split word list. It sees
      the whole list because its small-word rules depend on position. */
  type TitleCaser = (seq<string>, nat) -> string

  /** The callback: a word whose lower-case form is an override key is
      replaced by the canonical form; any other word is left to the library.
      An answer differs from the word in letter case only, and is a single
      non-empty word. */
  function Callback(word: string): (r: Option<string>)
    ensures r.Some? <==> Lower(word) in Overrides
    ensures r.Some? ==> r.value == Overrides[Lower(word)]
    ensures r.Some? ==> Lower(r.value) == Lower(word) && |r.value| > 0 && ' ' !in r.value
  {
    OverridesCanonical();
    var key := Lower(word);
    if key in Overrides then Some(Overrides[key]) else None
  }

  /** The callback's answer is its own answer: asking again with the
      canonical form gives the canonical form. */
  lemma CallbackFixedPoint(word: string)
    ensures Callback(word).Some? ==> Callback(Callback(word).value) == Callback(word)
  {
  }

  /** Cases one word: the callback's answer when it gives a non-empty one,
      the library's otherwise. */
  function CaseWord(words: seq<string>, i: nat, tc: TitleCaser): string
    requires i < |words|
  {
    var cb := Callback(words[i]);
    if cb.Some? && |cb.value| > 0 then cb.value else tc(words, i)
  }

  /** Cases every word of a split genre, each with the whole list in view. */
  function CaseWords(words: seq<string>, tc: TitleCaser): seq<string>
  {
    seq(|words|, i requires 0 <= i < |words| => CaseWord(words, i, tc))
  }

  /** `genre_case`: split into words at spaces, case each word, join again.
      A single word that is an override in any casing comes out as the
      canonical form, whatever the library would have done. */
  function Case(genre: string, tc: TitleCaser): (r: string)
    ensures ' ' !in genre && Lower(genre) in Overrides ==> r == Overrides[Lower(genre)]
  {
    var r := Join(CaseWords(Split(genre, ' '), tc), ' ');
    if ' ' !in genre && Lower(genre) in Overrides then
      SplitNoSep(genre, ' ');
      assert CaseWords([genre], tc) == [Overrides[Lower(genre)]];
      r
    else
      r
  }

  /** Every canonical form is its own key when lower-cased, so casing an
      already canonical word reproduces it. */
  lemma OverridesCanonical()
    ensures forall k :: k in Overrides ==> Lower(Overrides[k]) == k && ' ' !in Overrides[k] && |Overrides[k]| > 0
  {
  }

  /** Word by word: when the library keeps words free of spaces, word `i` of
      the result is the canonical form if word `i` of the input is an
      override in any casing, and the library's casing otherwise; the word
      count never changes. */
  lemma CaseByWord(genre: string, tc: TitleCaser)
    requires forall ws: seq<string>, i: nat :: ' ' !in tc(ws, i)
    ensures var words := Split(genre, ' ');
            var out := Split(Case(genre, tc), ' ');
            && |out| == |words|
            && (forall i :: 0 <= i < |words| && Lower(words[i]) in Overrides ==>
                  out[i] == Overrides[Lower(words[i])])
            && (forall i :: 0 <= i < |words| && Lower(words[i]) !in Overrides ==>
                  out[i] == tc(words, i))
  {
    OverridesCanonical();
    var words := Split(genre, ' ');
    var cased := CaseWords(words, tc);
    assert forall i :: 0 <= i < |cased| ==> ' ' !in cased[i];
    SplitJoin(cased, ' ');
  }

  /** "r&b", "R&b", "R&B" all become "R&B". */
  lemma CaseRAndB(tc: TitleCaser)
    ensures Case("r&b", tc) == "R&B"
    ensures Case("R&b", tc) == "R&B"
    ensures Case("R&B", tc) == "R&B"
  {
    assert Lower("r&b") == "r&b";
    assert Lower("R&b") == "r&b";
    assert Lower("R&B") == "r&b";
  }

  /** Casing a canonical override form a second time leaves it as it is. */
  lemma CaseOverrideStable(word: string, tc: TitleCaser)
    requires ' ' !in word
    requires Lower(word) in Overrides
    ensures Case(Case(word, tc), tc) == Case(word, tc)
  {
    OverridesCanonical();
  }
}
