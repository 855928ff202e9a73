# TagDog tag pipeline in Dafny

TagDog walks a directory of audio files and fills in missing ID3 tags. For
each file whose extension is accepted it builds a blank `SongInfo` record
and runs it through an ordered list of populators, such as:

- `ID3Reader` copies the tags the file already has.
- `EchoNestTerms` looks up the first artist's weighted terms when the record
  has an artist but no genre, and turns the terms of weight at least 0.5
  into the genre list.
- `GenreCaseFixer` re-cases a genre list that is already there.

The script itself configures only `ID3Reader` and `EchoNestTerms`.

Unless it runs dry, it then hands the record to its writers. `ID3Writer`
stores every non-empty value and never clears a tag. An exception while
tagging one file is logged, and the walk goes on with the next file.

The model is a set of pure functions over immutable values:

- `SongInfo.Song` is the record: a path and a map from the fifteen tag keys
  of `SongInfo.tag_keys` to an optional list of strings.
- `Id3.Disk` maps each path the tag library can open to its tag store. A
  store maps tag names to value lists. A path missing from the disk is a
  file that cannot be opened, and opening it raises.
- The term service is a map from artist name to its weight-sorted term
  list. Asking it about an artist it does not know raises.
- The title-casing library is a parameter `GenreCase.TitleCaser`. The
  override table and its callback are concrete.
- An exception is an `Err` (`Wrappers.Result`). A file's processing returns
  the disk together with the exception, if any. With the populators and the
  writer modelled here an exception always comes before any write, so a
  failed file leaves the disk as it was (`TagUpdater.TagFailureWritesNothing`).
- `TagUpdater.NewUpdater` is the constructor: no populators, no writers,
  not a dry run. `TagUpdater.ScriptUpdater` is the configuration the script
  builds: reader, then term fetcher, then the ID3 writer.

Modules: `Wrappers`, `Text` (ASCII lower-casing, split and join), `SongInfo`,
`Id3`, `GenreCase`, `EchoNest`, `GenreFixer`, `Paths` (`os.path.splitext`),
`TagUpdater`, and `Collections` (generic map and sequence facts).

The key tuple includes `author` (tagdog.py:65). The rate limiter releases
its lock before the wrapped call runs (tagdog.py:49-51), so it does not
serialise callers; it is left out anyway (see below).

## Model

| member | source | states |
|---|---|---|
| SongInfo.TagKeysOrder | tagdog.py:65-66 | the key order holds all fifteen keys, each once, in the tuple's order |
| SongInfo.NameInjective | tagdog.py:65-66 | the attribute names are distinct: each name decodes back to its key |
| SongInfo.With | tagdog.py:86 | setting one attribute changes that attribute only and keeps the path and the key set |
| SongInfo.New | tagdog.py:68-71 | a new record carries every key; a key named in the keyword arguments holds that value, every other key is unset |
| SongInfo.NewIsBlank | tagdog.py:68-70 | a record built from a path alone has no attribute set, so none is truthy |
| Id3.ReadFrom | tagdog.py:84-87 | the reader loop sets exactly the keys the store holds, to the stored value, and leaves the others as they were |
| Id3.Read | tagdog.py:82-87 | reading raises exactly when the file cannot be opened; otherwise a key the store holds gets the stored value, and any other key keeps its prior value |
| Id3.WritePreservesWellFormed | tagdog.py:97-100 | writing stores only tag-key names, so a store with no other name spelling a key keeps that property |
| Id3.ReadFresh | tagdog.py:82-87 | reading into a blank record sets a key if and only if the store holds it, with the stored value |
| Id3.WriteFrom | tagdog.py:97-100 | the writer loop adds or overwrites exactly the keys with truthy values and leaves every other store name alone |
| Id3.Write | tagdog.py:95-101 | writing raises exactly when the file cannot be opened; otherwise truthy values are stored, unset or empty ones never clear a tag, names outside the key set are untouched, and so is every other file |
| Id3.WriteThenRead | tagdog.py:82-101 | writing a record and reading the file back gives back each truthy value of the record |
| Id3.WriteFromNoop | tagdog.py:97-100 | writing values the store already holds leaves the store equal to what it was |
| Id3.ReadThenWriteUnchanged | tagdog.py:82-101 | reading a file into a blank record and writing that record back leaves every tag value of every file as it was |
| Id3.WriteIdempotent | tagdog.py:95-101 | writing the same record twice has the effect of writing it once |
| Id3.WriteBackOneChange | tagdog.py:97-100 | writing back a record that matches the store except for one key changes only that key, and nothing when the new value is empty |
| Id3.ReadModifyWrite | tagdog.py:82-101 | read, change one attribute, write back: the file changes in that one tag, and not at all when the new value is empty |
| GenreCase.Callback | tagdog.py:22-24 | the callback answers if and only if the lower-cased word is an override key; an answer differs from the word in letter case only and is one non-empty word |
| GenreCase.CallbackFixedPoint | tagdog.py:22-24 | asking the callback about its own answer gives the same answer |
| GenreCase.Case | tagdog.py:21-25 | a single override word in any casing becomes the canonical form, whatever the library does |
| GenreCase.OverridesCanonical | tagdog.py:16-18 | each canonical form lower-cases back to its key and is a single non-empty word |
| GenreCase.CaseByWord | tagdog.py:21-25 | word for word: an override word in any casing becomes its canonical form, and every other word is left to the library; the word count is kept |
| GenreCase.CaseRAndB | test_tagdog.py:12 | "r&b", "R&b" and "R&B" all become "R&B" |
| GenreCase.CaseOverrideStable | tagdog.py:16-25 | casing an override word's result again changes nothing |
| EchoNest.GateTruthiness | tagdog.py:112 | the lookup runs if and only if the artist list is set and non-empty and the genre is unset or an empty list |
| EchoNest.GenresFromTerms | tagdog.py:118-121 | no more genres come out than terms go in |
| EchoNest.GenresFromTermsMembership | tagdog.py:119-121 | a genre comes out if and only if some term of weight at least 0.5 cases to it |
| EchoNest.GenresFromTermsAppend | tagdog.py:119-121 | the service's order is kept: genres of a concatenation are the first part's genres followed by the second's |
| EchoNest.GenresFromTermsAllKept | tagdog.py:120 | every term survives if and only if every weight reaches 0.5 |
| EchoNest.ThresholdExample | tagdog.py:119-121 | weights 0.9, 0.7, 0.3 keep the first two terms, in order |
| EchoNest.ThresholdBoundary | tagdog.py:119-121 | weight exactly 0.5 is kept, 0.49 is not, and "r&b" comes out "R&B" |
| EchoNest.Populate | tagdog.py:111-122 | without an artist, or with a genre, nothing changes; otherwise the lookup raises if and only if the first artist is unknown, and else the genre becomes the derived list while every other attribute stays |
| EchoNest.FirstArtistOnly | tagdog.py:117 | two gated records with the same first artist get the same outcome and the same genre |
| GenreFixer.CaseAllAppend | tagdog.py:132 | genres are cased one by one: casing a concatenation is casing each part |
| GenreFixer.CaseAllFixed | tagdog.py:132 | a list whose every entry is already cased comes back unchanged |
| GenreFixer.Populate | tagdog.py:130-132 | an unset or empty genre leaves the record as it is; otherwise the genre list is cased element by element, and nothing else changes |
| GenreFixer.FixOverrides | tagdog.py:130-132 | a genre list of override words comes out canonical, and fixing it again changes nothing |
| Paths.SplitExt | tagdog.py:151 | the two parts concatenate to the name; the extension is non-empty if and only if the name has one, and it is one dot followed by no dot and no separator |
| Paths.ExtAt | tagdog.py:151 | the extension is the suffix from the last dot whenever a non-dot character precedes that dot in the last path component |
| Paths.ExtLastDot | tagdog.py:151 | the extension keeps its case and starts at the last dot |
| Paths.ExtNone | tagdog.py:151 | leading dots, and a dot in a directory name, give no extension |
| Paths.ExtLower | tagdog.py:151 | lower-casing a name and then taking its extension gives the lower-cased extension |
| Paths.AcceptedIgnoresCase | tagdog.py:152 | a name is accepted if and only if its lower-cased form is: only the extension's letters matter, not their case |
| Paths.AcceptedUpperCase | tagdog.py:152 | ".MP3" is accepted by the script's list (".mp3",) |
| Paths.OtherExtNotAccepted | tagdog.py:152 | ".jpg" is not accepted by the script's list |
| Paths.DotFileNotAccepted | tagdog.py:152 | a file named ".mp3" has no extension and is not accepted |
| TagUpdater.RunPopulator | tagdog.py:170-171 | one populator keeps the path and the key set; only the reader raises an open error, for this path, and only the term fetcher a lookup error |
| TagUpdater.Populate | tagdog.py:169-171 | populating keeps the path and the key set; an open error can only come from the reader on this path, a lookup error only from the term fetcher |
| TagUpdater.PopulateAppend | tagdog.py:169-171 | populators run in list order, each on the previous one's result, and the first exception stops the pass |
| TagUpdater.RunWriters | tagdog.py:165-167 | with no writers nothing changes; an unopenable file makes the first writer raise with nothing written; otherwise the disk ends as after one write of the final record |
| TagUpdater.Tag | tagdog.py:158-167 | a populator exception or a dry run writes nothing, and an unopenable file makes the first writer raise; otherwise the writers store the final record; at most the file at this path changes |
| TagUpdater.TagFailureWritesNothing | tagdog.py:158-167 | with the modelled populators and writer, a file whose processing raised is left as it was |
| TagUpdater.NewUpdaterNoop | tagdog.py:140-143 | a fresh updater leaves every file as it was and raises nothing |
| TagUpdater.ScriptPopulate | tagdog.py:188-189 | the script's populators read the file and then run the term lookup on what was read |
| TagUpdater.ScriptTag | tagdog.py:158-167 | end to end with the script's configuration: an unopenable file or an unknown artist raises; without the gate every tag value stays as it was; otherwise only the genre tag changes, to the derived genres, unless they are empty or the run is dry |
| TagUpdater.UnopenableFails | tagdog.py:83 | with the script's configuration an unopenable file raises before anything is written |
| TagUpdater.AcceptedPaths | tagdog.py:150-152 | no more paths are handed to `tag` than the walk yields |
| TagUpdater.AcceptedPathsAppend | tagdog.py:150-152 | walk order is kept: the accepted paths of two lists in a row are the first list's, then the second's |
| TagUpdater.AcceptedPathsMembership | tagdog.py:150-152 | a path is handed to `tag` if and only if an entry with an accepted extension carries it |
| TagUpdater.TagDir | tagdog.py:145-156 | exactly the accepted files are tagged, in walk order, and every failed file is one of them |
| TagUpdater.TagDirFrame | tagdog.py:145-156 | a directory pass changes only accepted files, adds and removes none, and changes nothing when dry |
| TagUpdater.TagDirAppend | tagdog.py:149-156 | a pass over two lists is a pass over the first, then a pass over the second on the disk it left, whatever failed in the first |
| TagUpdater.TagDirOne | tagdog.py:152-156 | a pass over one accepted file is one call of `tag`, logged as failed exactly when it raised |
| TagUpdater.CorruptFileSkipped | tagdog.py:152-156 | an unopenable file followed by another accepted file: both are tagged, the first fails, and the second is processed as if alone |

## Left out

- `rate_limited` (tagdog.py:28-57) is not modelled. It depends on the clock, `time.sleep` and a thread lock, and it does not change any value.
- The title-casing library's rules are a parameter. The model splits on single spaces only, not on tabs or line breaks. The callback on hyphenated or slashed parts of a word is not modelled. Outputs that depend on the library, such as "Post-Hardcore" or "80s" in test_tagdog.py:6-11, are not claimed.
- The ID3 format and the tag library's parsing, key validation and `save()` are not modelled. A store is a map from names to value lists, and a save either happens or the file cannot be opened at all. An error in `save()` after a successful open is not modelled. `save()` rewrites the file even when no value changed; the model sees only tag values, so "unchanged" in the table means every tag value is the same.
- Store names are `Field` values: `Tag(k)` for the fifteen keys and `Other(name)` for any other name. `SongInfo.NameInjective` shows that `Tag(k)` codes the names one-to-one. That an `Other` name never spells a key name is the condition `Id3.WellFormed`, which writing preserves; the type itself does not enforce it.
- `Text.Lower` lower-cases ASCII letters only. File names from the walk are byte strings, where that is exact, but genre names are Unicode strings, whose non-ASCII case mapping is not modelled.
- The term service is a map from artist name to its term list, already sorted by weight. The network, caching and API key are not modelled. Weights are exact reals.
- `SongInfo.New` drops keyword arguments that are not tag keys, where Python would set any attribute. The pipeline only ever calls it with a path.
- `os.walk`, `os.path.join` and `abspath` are not modelled. A directory is the sequence of `Entry(path, name)` values the walk yields. Logging, `argparse` and the `__main__` wiring (tagdog.py:174-194) and setup.py are plumbing and are left out. Only the updater configuration they build is kept, as `TagUpdater.ScriptUpdater`.
- The populator and writer lists range over the repository's own three populators (`ID3Reader`, `EchoNestTerms`, `GenreCaseFixer`) and its one writer (`ID3Writer`), not over any object with a `populate` or `write` method. `TagUpdater.Populate`'s error origins, `TagUpdater.RunWriters`' single-write result, `TagUpdater.Tag`'s frame and `TagUpdater.TagFailureWritesNothing` hold for these only; a plug-in writer that raised after an earlier writer stored something would leave that write on disk.
- `GenreFixer.Populate` is not in the script's populator list. It is modelled as the `GenreCaseFixer` populator, which a caller may add.
