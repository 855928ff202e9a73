/** `ID3Reader` and `ID3Writer`: moving tag values between a file's embedded
    tag store and a `SongInfo`. A store is abstracted as a map from tag name
    to value list, where the fifteen names of the record's keys appear as
    `Tag(k)` (the name is `Name(k)`, a one-to-one code) and any other name the
    file holds as `Other(name)`. The files on disk are a map from path to
    store; a path that is absent is a file the tag library cannot open.
    Both loops walk the keys in `TagKeys` order, position 0 to 14. */
module Id3 {
  import opened Wrappers
  import opened SongInfo
  import Collections

  /** A name in a tag store. */
  datatype Field = Tag(key: TagKey) | Other(name: string)

  /** The tag library's view of one file's tags, by name. */
  type Store = map<Field, Value>

  /** Every file the tag library can open, by path. */
  type Disk = map<string, Store>

  /** A store is well formed when no `Other` name spells one of the tag
      keys' names: those names are always coded as `Tag(k)`. */
  predicate WellFormed(store: Store)
  {
    forall f :: f in store && f.Other? ==> KeyOf(f.name).None?
  }

  /** The reader loop from position `i` on: each key the store holds is
      copied into `tags`; the other keys keep their value. */
  function ReadFrom(i: nat, store: Store, tags: map<TagKey, Option<Value>>): (r: map<TagKey, Option<Value>>)
    ensures forall k :: k in r <==> k in tags || (i <= Position(k) && Tag(k) in store)
    ensures forall k :: i <= Position(k) && Tag(k) in store ==> r[k] == Some(store[Tag(k)])
    ensures forall k :: k in tags && !(i <= Position(k) && Tag(k) in store) ==> r[k] == tags[k]
    decreases 15 - i
  {
    KeyAtPosition();
    if i >= 15 then tags
    else
      var k := KeyAt(i);
      ReadFrom(i + 1, store, if Tag(k) in store then tags[k := Some(store[Tag(k)])] else tags)
  }

  /** `ID3Reader.populate`: opens the file at the record's path and sets every
      tag key the store holds; keys the store lacks keep their value. A file
      that cannot be opened raises. */
  function Read(info: Song, disk: Disk): (r: Result<Song>)
    ensures r.Err? <==> info.pathname !in disk
    ensures r.Err? ==> r.error == OpenError(info.pathname)
    ensures r.Ok? ==> r.value.pathname == info.pathname
    ensures r.Ok? && Valid(info) ==> Valid(r.value)
    ensures r.Ok? ==> forall k :: Tag(k) in disk[info.pathname] ==>
              Get(r.value, k) == Some(disk[info.pathname][Tag(k)])
    ensures r.Ok? ==> forall k :: Tag(k) !in disk[info.pathname] ==>
              Get(r.value, k) == Get(info, k)
  {
    if info.pathname !in disk then Err(OpenError(info.pathname))
    else Ok(info.(tags := ReadFrom(0, disk[info.pathname], info.tags)))
  }

  /** The writer loop from position `i` stores `f` when `f` is a tag key at
      or after `i` whose record value is truthy. */
  predicate WrittenFrom(i: nat, info: Song, f: Field)
  {
    f.Tag? && i <= Position(f.key) && Truthy(Get(info, f.key))
  }

  /** The writer loop from position `i` on: each truthy record value is
      stored; keys whose value is unset or empty are never cleared. */
  function WriteFrom(i: nat, info: Song, store: Store): (r: Store)
    ensures forall f :: f in r <==> f in store || WrittenFrom(i, info, f)
    ensures forall f :: WrittenFrom(i, info, f) ==> r[f] == Get(info, f.key).value
    ensures forall f :: f in store && !WrittenFrom(i, info, f) ==> r[f] == store[f]
    decreases 15 - i
  {
    KeyAtPosition();
    if i >= 15 then store
    else if Truthy(Get(info, KeyAt(i))) then
      WriteFrom(i + 1, info, store[Tag(KeyAt(i)) := Get(info, KeyAt(i)).value])
    else
      WriteFrom(i + 1, info, store)
  }

  /** `ID3Writer.write`: opens the file at `pathname` and stores the record's
      truthy tag values; the store's other names, and every other file, are
      untouched. A file that cannot be opened raises. */
  function Write(pathname: string, info: Song, disk: Disk): (r: Result<Disk>)
    ensures r.Err? <==> pathname !in disk
    ensures r.Err? ==> r.error == OpenError(pathname)
    ensures r.Ok? ==> pathname in r.value && r.value == disk[pathname := r.value[pathname]]
    ensures r.Ok? ==> forall f :: f in r.value[pathname] <==> f in disk[pathname] || WrittenFrom(0, info, f)
    ensures r.Ok? ==> forall k :: Truthy(Get(info, k)) ==>
              Tag(k) in r.value[pathname] && r.value[pathname][Tag(k)] == Get(info, k).value
    ensures r.Ok? ==> forall f :: f in disk[pathname] && !WrittenFrom(0, info, f) ==>
              r.value[pathname][f] == disk[pathname][f]
  {
    if pathname !in disk then Err(OpenError(pathname))
    else Ok(disk[pathname := WriteFrom(0, info, disk[pathname])])
  }

  /** Writing adds only `Tag` names, so a well-formed store stays well
      formed, and so does every other file. */
  lemma WritePreservesWellFormed(pathname: string, info: Song, disk: Disk)
    requires forall p :: p in disk ==> WellFormed(disk[p])
    ensures var w := Write(pathname, info, disk);
            w.Ok? ==> forall p :: p in w.value ==> WellFormed(w.value[p])
  {
  }

  /** Reading a file into a fresh record sets exactly the tag keys the file
      holds, each to the stored value; the others stay unset. */
  lemma ReadFresh(pathname: string, disk: Disk)
    requires pathname in disk
    ensures var r := Read(New(pathname, map[]), disk);
            && r.Ok?
            && (forall k :: Get(r.value, k).Some? <==> Tag(k) in disk[pathname])
            && (forall k :: Tag(k) in disk[pathname] ==> Get(r.value, k) == Some(disk[pathname][Tag(k)]))
  {
  }

  /** Writing a record and reading the file back into any record yields the
      record's truthy values. */
  lemma WriteThenRead(pathname: string, info: Song, other: Song, disk: Disk)
    requires pathname in disk
    requires other.pathname == pathname
    ensures var w := Write(pathname, info, disk);
            && w.Ok?
            && Read(other, w.value).Ok?
            && forall k :: Truthy(Get(info, k)) ==> Get(Read(other, w.value).value, k) == Get(info, k)
  {
  }

  /** Writing values the store already holds changes nothing. */
  lemma WriteFromNoop(i: nat, info: Song, store: Store)
    requires forall k :: i <= Position(k) && Truthy(Get(info, k)) ==>
               Tag(k) in store && store[Tag(k)] == Get(info, k).value
    ensures WriteFrom(i, info, store) == store
  {
  }

  /** Reading a file into a fresh record and writing that record back leaves
      every tag value of every file as it was. */
  lemma ReadThenWriteUnchanged(pathname: string, disk: Disk)
    requires pathname in disk
    ensures var r := Read(New(pathname, map[]), disk);
            r.Ok? && Write(pathname, r.value, disk) == Ok(disk)
  {
    var info := Read(New(pathname, map[]), disk).value;
    WriteFromNoop(0, info, disk[pathname]);
    Collections.UpdateSame(disk, pathname);
  }

  /** Writing the same record twice has the effect of writing it once. */
  lemma WriteIdempotent(pathname: string, info: Song, disk: Disk)
    requires pathname in disk
    ensures var w := Write(pathname, info, disk);
            w.Ok? && Write(pathname, info, w.value) == w
  {
    var s1 := WriteFrom(0, info, disk[pathname]);
    var w := disk[pathname := s1];
    assert Write(pathname, info, disk) == Ok(w);
    forall k | Truthy(Get(info, k)) ensures Tag(k) in s1 && s1[Tag(k)] == Get(info, k).value {
      assert WrittenFrom(0, info, Tag(k));
    }
    WriteFromNoop(0, info, s1);
    Collections.UpdateSame(w, pathname);
  }

  /** Reading a file into a fresh record, changing one attribute to `v` and
      writing the record back stores exactly that change; an empty `v` is
      not written, so the file keeps what it had. */
  lemma ReadModifyWrite(pathname: string, disk: Disk, k: TagKey, v: Value)
    requires pathname in disk
    ensures var info := Read(New(pathname, map[]), disk).value;
            var store := disk[pathname];
            Write(pathname, With(info, k, Some(v)), disk) ==
              Ok(disk[pathname := if |v| == 0 then store else store[Tag(k) := v]])
  {
    var store := disk[pathname];
    var info := Read(New(pathname, map[]), disk).value;
    WriteBackOneChange(store, info, k, v);
  }

  /** Writing back a record whose truthy values `store` already holds, with
      `k` changed to `v`, changes at most `k`. */
  lemma WriteBackOneChange(store: Store, info: Song, k: TagKey, v: Value)
    requires forall j :: Truthy(Get(info, j)) ==> Tag(j) in store && store[Tag(j)] == Get(info, j).value
    ensures WriteFrom(0, With(info, k, Some(v)), store) ==
            if |v| == 0 then store else store[Tag(k) := v]
  {
    if |v| == 0 {
      WriteFromNoop(0, With(info, k, Some(v)), store);
    } else {
      WriteBackNonEmpty(store, info, k, v);
    }
  }

  /** The case of `WriteBackOneChange` where `v` is non-empty, so it is
      written. */
  lemma WriteBackNonEmpty(store: Store, info: Song, k: TagKey, v: Value)
    requires forall j :: Truthy(Get(info, j)) ==> Tag(j) in store && store[Tag(j)] == Get(info, j).value
    requires |v| > 0
    ensures WriteFrom(0, With(info, k, Some(v)), store) == store[Tag(k) := v]
  {
    var info2 := With(info, k, Some(v));
    var r := WriteFrom(0, info2, store);
    var target := store[Tag(k) := v];
    assert WrittenFrom(0, info2, Tag(k));
    forall f | f in r ensures f in target && r[f] == target[f] {
      if WrittenFrom(0, info2, f) && f.key != k {
        assert Get(info2, f.key) == Get(info, f.key);
      }
    }
    Collections.MapExtensional(r, target);
  }
}
