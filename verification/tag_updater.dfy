/** `TagUpdater`: runs an ordered list of populators over a fresh record for
    one file and, unless in dry-run mode, an ordered list of writers; and
    runs that for every accepted file of a directory listing, catching each
    file's failure and going on with the next. */
module TagUpdater {
  import opened Wrappers
  import opened SongInfo
  import opened Id3
  import EchoNest
  import GenreFixer
  import GenreCase
  import Paths
  import Collections

  datatype Populator = ID3Reader | EchoNestTerms | GenreCaseFixer

  datatype Writer = ID3Writer

  /** What populators consult besides the record and the disk: the term
      service and the title-casing library. */
  datatype World = World(service: EchoNest.Service, tc: GenreCase.TitleCaser)

  datatype Updater = Updater(populators: seq<Populator>, writers: seq<Writer>, dryRun: bool)

  /** A fresh updater has no populators, no writers, and writes files. */
  function NewUpdater(): Updater
  {
    Updater([], [], false)
  }

  /** With a fresh updater, `tag` populates nothing, writes nothing and
      never raises, whatever the file. */
  lemma NewUpdaterNoop(pathname: string, disk: Disk, w: World)
    ensures Tag(NewUpdater(), pathname, disk, w) == Run(disk, None)
  {
  }

  /** The script's configuration: read the ID3 tags, then fetch terms, then
      write the ID3 tags. */
  function ScriptUpdater(dryRun: bool): Updater
  {
    Updater([ID3Reader, EchoNestTerms], [ID3Writer], dryRun)
  }

  /** One populator's `populate`: none of them changes the path or the key
      set; only the reader raises an open error, on this path, and only the
      term fetcher a lookup error. */
  function RunPopulator(p: Populator, info: Song, disk: Disk, w: World): (r: Result<Song>)
    ensures r.Ok? ==> r.value.pathname == info.pathname
    ensures r.Ok? && Valid(info) ==> Valid(r.value)
    ensures r.Err? && r.error.OpenError? ==> p == ID3Reader && r.error.path == info.pathname
    ensures r.Err? && r.error.LookupError? ==> p == EchoNestTerms
  {
    match p
    case ID3Reader => Read(info, disk)
    case EchoNestTerms => EchoNest.Populate(info, w.service, w.tc)
    case GenreCaseFixer => Ok(GenreFixer.Populate(info, w.tc))
  }

  /** `TagUpdater.populate`: each populator sees the record the previous one
      left; the first exception ends the pass. The path never changes and
      the record keeps its fixed key set. */
  function Populate(ps: seq<Populator>, info: Song, disk: Disk, w: World): (r: Result<Song>)
    ensures r.Ok? ==> r.value.pathname == info.pathname
    ensures r.Ok? && Valid(info) ==> Valid(r.value)
    ensures r.Err? && r.error.OpenError? ==> ID3Reader in ps && r.error.path == info.pathname
    ensures r.Err? && r.error.LookupError? ==> EchoNestTerms in ps
    decreases |ps|
  {
    if |ps| == 0 then Ok(info)
    else
      match RunPopulator(ps[0], info, disk, w)
      case Err(e) => Err(e)
      case Ok(next) => Populate(ps[1..], next, disk, w)
  }

  /** Running `a + b` is running `a`, then running `b` on its result. */
  lemma {:induction false} PopulateAppend(a: seq<Populator>, b: seq<Populator>, info: Song, disk: Disk, w: World)
    ensures Populate(a + b, info, disk, w) ==
            match Populate(a, info, disk, w)
            case Err(e) => Err(e)
            case Ok(mid) => Populate(b, mid, disk, w)
    decreases |a|
  {
    if |a| == 0 {
      assert a + b == b;
    } else {
      assert (a + b)[0] == a[0];
      assert (a + b)[1..] == a[1..] + b;
      match RunPopulator(a[0], info, disk, w)
      case Err(e) =>
      case Ok(next) => PopulateAppend(a[1..], b, next, disk, w);
    }
  }

  /** The disk after a file's processing, and the exception that ended it,
      if any. */
  datatype Run = Run(disk: Disk, err: Option<Error>)

  function RunWriter(wr: Writer, pathname: string, info: Song, disk: Disk): Result<Disk>
  {
    match wr
    case ID3Writer => Write(pathname, info, disk)
  }

  /** The writer loop: every writer writes the same record to the same file,
      in order, until one raises. An openable file ends up as after a single
      write; an unopenable one makes the first writer raise and nothing
      changes. */
  function RunWriters(ws: seq<Writer>, pathname: string, info: Song, disk: Disk): (r: Run)
    ensures |ws| == 0 ==> r == Run(disk, None)
    ensures |ws| > 0 && pathname !in disk ==> r == Run(disk, Some(OpenError(pathname)))
    ensures |ws| > 0 && pathname in disk ==> r.err == None && Write(pathname, info, disk) == Ok(r.disk)
    decreases |ws|
  {
    if |ws| == 0 then Run(disk, None)
    else
      match RunWriter(ws[0], pathname, info, disk)
      case Err(e) => Run(disk, Some(e))
      case Ok(next) =>
        WriteIdempotent(pathname, info, disk);
        RunWriters(ws[1..], pathname, info, next)
  }

  /** `TagUpdater.tag`: a fresh record for `pathname` goes through the
      populators; if none raised and this is not a dry run, the writers
      store the final record. A dry run, or a populator that raised, leaves
      the disk as it was; nothing but the file at `pathname` ever changes. */
  function Tag(u: Updater, pathname: string, disk: Disk, w: World): (r: Run)
    ensures var p := Populate(u.populators, New(pathname, map[]), disk, w);
            && (p.Err? ==> r == Run(disk, Some(p.error)))
            && (p.Ok? && (u.dryRun || |u.writers| == 0) ==> r == Run(disk, None))
            && (p.Ok? && !u.dryRun && |u.writers| > 0 && pathname !in disk ==>
                  r == Run(disk, Some(OpenError(pathname))))
            && (p.Ok? && !u.dryRun && |u.writers| > 0 && pathname in disk ==>
                  r.err == None && Write(pathname, p.value, disk) == Ok(r.disk))
    ensures u.dryRun ==> r.disk == disk
    ensures pathname !in disk ==> r.disk == disk
    ensures pathname in disk ==> pathname in r.disk && r.disk == disk[pathname := r.disk[pathname]]
  {
    var p := Populate(u.populators, New(pathname, map[]), disk, w);
    if p.Err? then Run(disk, Some(p.error))
    else if u.dryRun then Run(disk, None)
    else RunWriters(u.writers, pathname, p.value, disk)
  }

  /** With this model's populators and writer, every exception comes before
      any write: a file whose processing raised is left as it was. */
  lemma TagFailureWritesNothing(u: Updater, pathname: string, disk: Disk, w: World)
    ensures Tag(u, pathname, disk, w).err.Some? ==> Tag(u, pathname, disk, w).disk == disk
  {
  }

  /** The script's configuration on one file, end to end: an unopenable
      file raises; a file whose record has no artist, or already has a
      genre, is written back as it was read, so every tag value stays; an
      artist the service does not know raises; otherwise only the file's
      genre changes, to the derived genres (and not even that when they are
      empty, or in a dry run). */
  lemma ScriptTag(dryRun: bool, pathname: string, disk: Disk, w: World)
    ensures var r := Tag(ScriptUpdater(dryRun), pathname, disk, w);
            && (pathname !in disk ==> r == Run(disk, Some(OpenError(pathname))))
            && (pathname in disk ==>
                  var info := Read(New(pathname, map[]), disk).value;
                  var store := disk[pathname];
                  && (!EchoNest.Gate(info) ==> r == Run(disk, None))
                  && (EchoNest.Gate(info) && Get(info, Artist).value[0] !in w.service ==>
                        r == Run(disk, Some(LookupError(Get(info, Artist).value[0]))))
                  && (EchoNest.Gate(info) && Get(info, Artist).value[0] in w.service ==>
                        var g := EchoNest.GenresFromTerms(w.service[Get(info, Artist).value[0]], w.tc);
                        r == Run(if dryRun || |g| == 0 then disk else disk[pathname := store[Field.Tag(Genre) := g]], None)))
  {
    var blank := New(pathname, map[]);
    ScriptPopulate(pathname, disk, w);
    if pathname in disk {
      var info := Read(blank, disk).value;
      ReadThenWriteUnchanged(pathname, disk);
      if EchoNest.Gate(info) {
        var artist := Get(info, Artist).value[0];
        if artist in w.service {
          var g := EchoNest.GenresFromTerms(w.service[artist], w.tc);
          assert EchoNest.Populate(info, w.service, w.tc) == Ok(With(info, Genre, Some(g)));
          ReadModifyWrite(pathname, disk, Genre, g);
          if |g| == 0 {
            Collections.UpdateSame(disk, pathname);
          }
        }
      }
    }
  }

  /** The script's populators: the reader, then the term populator on what
      it read. */
  lemma ScriptPopulate(pathname: string, disk: Disk, w: World)
    ensures Populate([ID3Reader, EchoNestTerms], New(pathname, map[]), disk, w) ==
            match Read(New(pathname, map[]), disk)
            case Err(e) => Err(e)
            case Ok(info) => EchoNest.Populate(info, w.service, w.tc)
  {
  }

  /** A file the directory walk yields: the path `tag` receives (the walk's
      directory joined with the name) and the name whose extension is
      checked. */
  datatype Entry = Entry(path: string, name: string)

  /** The outcome of a directory pass: the disk, the paths handed to `tag`
      in order, and those among them whose `tag` raised (logged and
      skipped). */
  datatype DirRun = DirRun(disk: Disk, tagged: seq<string>, failed: seq<string>)

  /** The paths of the entries whose lower-cased extension is accepted, in
      walk order. */
  function AcceptedPaths(entries: seq<Entry>, exts: seq<string>): (r: seq<string>)
    ensures |r| <= |entries|
    decreases |entries|
  {
    if |entries| == 0 then []
    else
      var rest := AcceptedPaths(entries[1..], exts);
      if Paths.Accepted(entries[0].name, exts) then [entries[0].path] + rest else rest
  }

  /** Entry `i` carries path `p` and has an accepted extension. */
  predicate CarriesAccepted(entries: seq<Entry>, i: int, p: string, exts: seq<string>)
  {
    0 <= i < |entries| && entries[i].path == p && Paths.Accepted(entries[i].name, exts)
  }

  /** A path is among the accepted paths exactly when some entry with an
      accepted name carries it. */
  lemma {:induction false} AcceptedPathsMembership(entries: seq<Entry>, exts: seq<string>, p: string)
    ensures p in AcceptedPaths(entries, exts) <==> exists i :: CarriesAccepted(entries, i, p, exts)
    decreases |entries|
  {
    if |entries| > 0 {
      var tail := entries[1..];
      AcceptedPathsMembership(tail, exts, p);
      assert AcceptedPaths(entries, exts) ==
        (if Paths.Accepted(entries[0].name, exts) then [entries[0].path] else []) + AcceptedPaths(tail, exts);
      if p in AcceptedPaths(entries, exts) && !CarriesAccepted(entries, 0, p, exts) {
        var i :| CarriesAccepted(tail, i, p, exts);
        assert CarriesAccepted(entries, i + 1, p, exts);
      }
      if exists i :: CarriesAccepted(entries, i, p, exts) {
        var i :| CarriesAccepted(entries, i, p, exts);
        if i > 0 {
          assert CarriesAccepted(tail, i - 1, p, exts);
        }
      }
    }
  }

  /** Walk order is kept: the accepted paths of two entry lists in a row are
      the first list's followed by the second's. */
  lemma {:induction false} AcceptedPathsAppend(a: seq<Entry>, b: seq<Entry>, exts: seq<string>)
    ensures AcceptedPaths(a + b, exts) == AcceptedPaths(a, exts) + AcceptedPaths(b, exts)
    decreases |a|
  {
    if |a| == 0 {
      assert a + b == b;
    } else {
      assert (a + b)[0] == a[0];
      assert (a + b)[1..] == a[1..] + b;
      AcceptedPathsAppend(a[1..], b, exts);
      var h: seq<string> := if Paths.Accepted(a[0].name, exts) then [a[0].path] else [];
      assert AcceptedPaths(a, exts) == h + AcceptedPaths(a[1..], exts);
      assert AcceptedPaths(a + b, exts) == h + AcceptedPaths(a[1..] + b, exts);
      Collections.AppendAssoc(h, AcceptedPaths(a[1..], exts), AcceptedPaths(b, exts));
    }
  }

  /** Logs one tagged file ahead of the rest of the pass: it is tagged, and
      failed when its `tag` call raised. */
  function Logged(path: string, run: Run, rest: DirRun): DirRun
  {
    DirRun(rest.disk, [path] + rest.tagged, (if run.err.Some? then [path] else []) + rest.failed)
  }

  /** Logging a file ahead of two passes in a row is logging it ahead of the
      first. */
  lemma LoggedAppend(path: string, run: Run, ra: DirRun, rb: DirRun)
    ensures Logged(path, run, DirRun(rb.disk, ra.tagged + rb.tagged, ra.failed + rb.failed))
            == DirRun(rb.disk, Logged(path, run, ra).tagged + rb.tagged, Logged(path, run, ra).failed + rb.failed)
  {
    Collections.AppendAssoc([path], ra.tagged, rb.tagged);
    Collections.AppendAssoc(if run.err.Some? then [path] else [], ra.failed, rb.failed);
  }

  /** `TagUpdater.tag_dir`: tags every accepted file in walk order, each on
      the disk the previous one left; an exception from one file is caught
      and the pass goes on, so exactly the accepted files are tagged, and
      the failed ones are among them. */
  function TagDir(u: Updater, entries: seq<Entry>, exts: seq<string>, disk: Disk, w: World): (r: DirRun)
    ensures r.tagged == AcceptedPaths(entries, exts)
    ensures forall p :: p in r.failed ==> p in r.tagged
    decreases |entries|
  {
    if |entries| == 0 then DirRun(disk, [], [])
    else
      var e := entries[0];
      if !Paths.Accepted(e.name, exts) then TagDir(u, entries[1..], exts, disk, w)
      else
        var run := Tag(u, e.path, disk, w);
        Logged(e.path, run, TagDir(u, entries[1..], exts, run.disk, w))
  }

  /** A directory pass changes only files that accepted entries name; no
      file appears or disappears, and a dry run changes nothing. */
  lemma {:induction false} TagDirFrame(u: Updater, entries: seq<Entry>, exts: seq<string>, disk: Disk, w: World)
    ensures var r := TagDir(u, entries, exts, disk, w);
            && r.disk.Keys == disk.Keys
            && (forall p :: p in disk && p !in r.tagged ==> r.disk[p] == disk[p])
            && (u.dryRun ==> r.disk == disk)
    decreases |entries|
  {
    if |entries| > 0 {
      var e := entries[0];
      if !Paths.Accepted(e.name, exts) {
        TagDirFrame(u, entries[1..], exts, disk, w);
      } else {
        var run := Tag(u, e.path, disk, w);
        TagDirFrame(u, entries[1..], exts, run.disk, w);
      }
    }
  }

  /** Failure isolation: a pass over `a + b` is a pass over `a` followed by a
      pass over `b` on the disk `a` left, whatever failed in `a`. */
  lemma {:induction false} TagDirAppend(u: Updater, a: seq<Entry>, b: seq<Entry>, exts: seq<string>, disk: Disk, w: World)
    ensures var ra := TagDir(u, a, exts, disk, w);
            var rb := TagDir(u, b, exts, ra.disk, w);
            TagDir(u, a + b, exts, disk, w) == DirRun(rb.disk, ra.tagged + rb.tagged, ra.failed + rb.failed)
    decreases |a|
  {
    if |a| == 0 {
      assert a + b == b;
    } else {
      var e := a[0];
      assert (a + b)[0] == e;
      assert (a + b)[1..] == a[1..] + b;
      if !Paths.Accepted(e.name, exts) {
        TagDirAppend(u, a[1..], b, exts, disk, w);
      } else {
        var run := Tag(u, e.path, disk, w);
        var ra' := TagDir(u, a[1..], exts, run.disk, w);
        TagDirAppend(u, a[1..], b, exts, run.disk, w);
        LoggedAppend(e.path, run, ra', TagDir(u, b, exts, ra'.disk, w));
      }
    }
  }

  /** A directory holding a file the tag library cannot open, then another
      accepted file: the first is tagged, fails and is skipped, and the
      second is still processed on the unchanged disk. */
  lemma CorruptFileSkipped(dryRun: bool, bad: Entry, good: Entry, exts: seq<string>, disk: Disk, w: World)
    requires Paths.Accepted(bad.name, exts) && Paths.Accepted(good.name, exts)
    requires bad.path !in disk
    ensures var u := ScriptUpdater(dryRun);
            var r := TagDir(u, [bad, good], exts, disk, w);
            var run := Tag(u, good.path, disk, w);
            && r.tagged == [bad.path, good.path]
            && r.failed == [bad.path] + (if run.err.Some? then [good.path] else [])
            && r.disk == run.disk
  {
    var u := ScriptUpdater(dryRun);
    UnopenableFails(dryRun, bad.path, disk, w);
    TagDirOne(u, bad, exts, disk, w);
    TagDirOne(u, good, exts, disk, w);
    TagDirAppend(u, [bad], [good], exts, disk, w);
    assert [bad] + [good] == [bad, good];
  }

  /** With the script's configuration, a file the tag library cannot open
      makes `tag` raise before anything is written. */
  lemma UnopenableFails(dryRun: bool, pathname: string, disk: Disk, w: World)
    requires pathname !in disk
    ensures Tag(ScriptUpdater(dryRun), pathname, disk, w) == Run(disk, Some(OpenError(pathname)))
  {
  }

  /** A pass over one accepted file is one call of `tag`, logged as failed
      exactly when it raised. */
  lemma TagDirOne(u: Updater, e: Entry, exts: seq<string>, disk: Disk, w: World)
    requires Paths.Accepted(e.name, exts)
    ensures var run := Tag(u, e.path, disk, w);
            TagDir(u, [e], exts, disk, w) == DirRun(run.disk, [e.path], if run.err.Some? then [e.path] else [])
  {
  }
}
