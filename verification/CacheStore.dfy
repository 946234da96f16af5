/**
 The cache store object (internal/cache/store.go). Each method is proved to do to
 the books, the files and the saved index what CacheModel says. The directory is
 a map from path to bytes and the index file the list its JSON stands for.
 */
module CacheStore {
  import opened Common
  import opened CacheEviction
  import opened CacheModel

  /** One hour in the nanoseconds of Go's time.Duration. */
  const HOUR := 3_600_000_000_000

  datatype IndexFile = NoFile | Listing(entries: seq<Entry>) | Unreadable

  ghost predicate ProperListing(es: seq<Entry>) {
    WellFiled(Loaded(es)) && Lists(es, Loaded(es))
  }

  function Decoded(file: IndexFile): Index {
    match file
    case NoFile => Absent
    case Listing(es) => Saved(Loaded(es))
    case Unreadable => Garbled
  }

  function ListedTotal(file: IndexFile): int {
    if file.Listing? then TotalOf(file.entries) else 0
  }

  ghost predicate ProperIndex(file: IndexFile) {
    file.Listing? ==> ProperListing(file.entries)
  }

  class Store {
    const maxSize: int
    const ttl: int
    var entries: Entries
    var totalSize: int
    var files: map<string, Bytes>
    var index: IndexFile

    function Snapshot(): State
      reads this
    {
      State(Books(entries, totalSize), files, Decoded(index))
    }

    ghost predicate Valid()
      reads this
    {
      WellFiled(entries) && totalSize == SizeSum(entries) && ProperIndex(index)
    }

    /** Opens a store on a directory. */
    constructor (maxSizeMB: int, ttlHours: int, files: map<string, Bytes>, index: IndexFile)
      ensures maxSize == maxSizeMB * 1024 * 1024 && ttl == ttlHours * HOUR
      ensures this.files == files && this.index == index
      ensures entries == Decoded(index).Contents() && totalSize == ListedTotal(index)
      ensures ProperIndex(index) ==> Valid()
      ensures ProperIndex(index) ==> forall b :: Snapshot() == Reopened(State(b, files, Decoded(index)))
    {
      maxSize := maxSizeMB * 1024 * 1024;
      ttl := ttlHours * HOUR;
      entries := map[];
      totalSize := 0;
      this.files := files;
      this.index := index;
      new;
      LoadIndex();
    }

    method LoadIndex()
      requires entries == map[] && totalSize == 0
      modifies this`entries, this`totalSize
      ensures entries == Decoded(index).Contents() && totalSize == ListedTotal(index)
      ensures ProperIndex(index) ==> Valid()
      ensures ProperIndex(index) ==> forall b :: Snapshot() == Reopened(State(b, files, Decoded(index)))
    {
      if !index.Listing? {
        return;
      }
      var list := index.entries;
      for i := 0 to |list|
        invariant entries == Loaded(list[..i]) && totalSize == TotalOf(list[..i])
      {
        var e := list[i];
        assert list[..i + 1][..i] == list[..i];
        entries := entries[e.key := e];
        totalSize := totalSize + e.size;
      }
      assert list[..|list|] == list;
      if ProperListing(list) {
        ListingLoads(list, Loaded(list));
      }
    }

    /** The entries in the unpredictable order of a Go map. */
    method ListEntries() returns (es: seq<Entry>)
      requires WellFiled(entries)
      ensures Lists(es, entries)
    {
      hide Lists;
      es := [];
      var rest := entries.Keys;
      NoneListed(entries);
      while rest != {}
        invariant rest <= entries.Keys && Lists(es, entries - rest)
        decreases |rest|
      {
        var k :| k in rest;
        OneMoreListed(es, entries, rest, k);
        es := es + [entries[k]];
        rest := rest - {k};
      }
      assert entries - {} == entries;
    }

    method SaveIndex(save: Save) returns (ok: bool)
      requires Valid()
      modifies this`index
      ensures Valid() && ok == save.Stored?
      ensures Snapshot() == Persisted(old(Snapshot()), save)
    {
      var es := ListEntries();
      ListingLoads(es, entries);
      match save {
        case Stored => index := Listing(es);
        case Untouched =>
        case Mangled => index := Unreadable;
      }
      return save.Stored?;
    }

    method EvictIfNeeded(stuck: set<string>) returns (ghost victims: seq<Entry>)
      requires Valid()
      modifies this`entries, this`totalSize, this`files
      ensures Valid()
      ensures Eviction(old(entries), old(totalSize), maxSize, victims)
      ensures Snapshot() == Shrunk(old(Snapshot()), victims, stuck)
    {
      victims := [];
      if totalSize <= maxSize {
        NothingShrinks(Snapshot(), stuck);
        return;
      }
      var listed := ListEntries();
      var a := new Entry[|listed|](i requires 0 <= i < |listed| => listed[i]);
      assert a[..] == listed;
      ExchangeSort(a);
      victims := EvictOldest(a[..], stuck);
    }

    /** The eviction loop over the sorted entries. */
    method EvictOldest(sorted: seq<Entry>, stuck: set<string>) returns (ghost victims: seq<Entry>)
      requires Valid() && Lists(sorted, entries) && Ordered(sorted) && totalSize > maxSize
      modifies this`entries, this`totalSize, this`files
      ensures Valid()
      ensures Eviction(old(entries), old(totalSize), maxSize, victims)
      ensures Snapshot() == Shrunk(old(Snapshot()), victims, stuck)
    {
      hide Lists, Ordered, WellFiled, SizeSum, TotalOf, Goal, Shrunk, KeyPath, Decoded, ProperIndex, Eviction;
      ghost var before := Snapshot();
      NothingShrinks(before, stuck);
      assert sorted[..0] == [];
      var i := 0;
      while i < |sorted| && totalSize > Goal(maxSize)
        invariant i <= |sorted|
        invariant Snapshot() == Shrunk(before, sorted[..i], stuck)
        invariant index == old(index)
        invariant totalSize == before.books.totalSize - TotalOf(sorted[..i])
        invariant forall n :: 0 <= n < i ==> before.books.totalSize - TotalOf(sorted[..n]) > Goal(maxSize)
      {
        var e := sorted[i];
        ShrinkMore(before, sorted, i, stuck);
        entries := entries - {e.key};
        totalSize := totalSize - e.size;
        if KeyPath(e.key) !in stuck {
          files := files - {KeyPath(e.key)};
        }
        i := i + 1;
      }
      victims := sorted[..i];
      CutHere(before.books, maxSize, sorted, i);
      ShrunkBalances(before, maxSize, victims, stuck);
    }

    method Commit(key: string, data: Bytes, io: Io) returns (ok: bool, ghost victims: seq<Entry>)
      requires Valid()
      modifies this
      ensures Valid() && ok == io.save.Stored?
      ensures var b := Inserted(old(Snapshot()).books, NewEntry(key, data, io.now));
              Eviction(b.entries, b.totalSize, maxSize, victims)
      ensures Snapshot() == Committed(old(Snapshot()), key, data, io, victims)
    {
      SectionBalances(maxSize, Snapshot().books, Insert(NewEntry(key, data, io.now)));
      var entry := Entry(key, |data|, io.now, io.now, 0);
      if key in entries {
        totalSize := totalSize - entries[key].size;
      }
      entries := entries[key := entry];
      totalSize := totalSize + |data|;
      victims := EvictIfNeeded(io.stuck);
      ok := SaveIndex(io.save);
    }

    /** Put streams into a temporary file and renames it. */
    method Put(key: string, data: Bytes, io: Io) returns (ok: bool, ghost victims: seq<Entry>)
      requires Valid()
      modifies this
      ensures Valid() && ok == (key != "" && io.write.Done? && io.save.Stored?)
      ensures Snapshot() == AfterPut(old(Snapshot()), key, data, io, victims)
      ensures key != "" && io.write.Done? ==>
                var b := Inserted(old(Snapshot()).books, NewEntry(key, data, io.now));
                Eviction(b.entries, b.totalSize, maxSize, victims)
    {
      victims := [];
      if key == "" || io.write.NotStarted? {
        return false, [];
      }
      var path, tmp := KeyPath(key), TmpPath(key);
      if io.write.Failed? {
        files := files[tmp := io.write.written];
        if tmp !in io.stuck {
          files := files - {tmp};
        }
        return false, [];
      }
      files := files - {tmp};
      files := files[path := data];
      ok, victims := Commit(key, data, io);
    }

    /** PutBytes writes the final file directly. */
    method PutBytes(key: string, data: Bytes, io: Io) returns (ok: bool, ghost victims: seq<Entry>)
      requires Valid()
      modifies this
      ensures Valid() && ok == (key != "" && io.write.Done? && io.save.Stored?)
      ensures Snapshot() == AfterPutBytes(old(Snapshot()), key, data, io, victims)
      ensures key != "" && io.write.Done? ==>
                var b := Inserted(old(Snapshot()).books, NewEntry(key, data, io.now));
                Eviction(b.entries, b.totalSize, maxSize, victims)
    {
      victims := [];
      if key == "" || io.write.NotStarted? {
        return false, [];
      }
      if io.write.Failed? {
        files := files[KeyPath(key) := io.write.written];
        return false, [];
      }
      files := files[KeyPath(key) := data];
      ok, victims := Commit(key, data, io);
    }

    method Get(key: string, io: Io) returns (data: Option<Bytes>)
      requires Valid()
      modifies this
      ensures Valid()
      ensures data == GetResult(ttl, old(Snapshot()), key, io)
      ensures Snapshot() == AfterGet(ttl, old(Snapshot()), key, io)
    {
      if key !in entries {
        return None;
      }
      if io.now - entries[key].createdAt > ttl {
        var _ := Delete(key, io);
        return None;
      }
      if !io.openOk || KeyPath(key) !in files {
        var _ := Delete(key, io);
        return None;
      }
      data := Some(files[KeyPath(key)]);
      SectionBalances(maxSize, Snapshot().books, Touch(key, io.now));
      if key in entries {
        var current := entries[key];
        entries := entries[key := current.(accessedAt := io.now, hits := current.hits + 1)];
      }
    }

    method Delete(key: string, io: Io) returns (ok: bool)
      requires Valid()
      modifies this
      ensures Valid() && ok == io.save.Stored?
      ensures Snapshot() == AfterDelete(old(Snapshot()), key, io)
    {
      SectionBalances(maxSize, Snapshot().books, Remove(key));
      if key in entries {
        totalSize := totalSize - entries[key].size;
        entries := entries - {key};
      }
      if KeyPath(key) !in io.stuck {
        files := files - {KeyPath(key)};
      }
      ok := SaveIndex(io.save);
    }

    method Clear(io: Io) returns (ok: bool)
      requires Valid()
      modifies this
      ensures Valid() && ok == io.save.Stored?
      ensures Snapshot() == AfterClear(old(Snapshot()), io)
    {
      entries := map[];
      totalSize := 0;
      files := map p | p in files && p in io.stuck :: files[p];
      ok := SaveIndex(io.save);
    }
  }

  lemma NoneListed(m: Entries)
    ensures Lists([], m - m.Keys)
  {
  }

  lemma OneMoreListed(es: seq<Entry>, m: Entries, rest: set<string>, k: string)
    requires WellFiled(m) && rest <= m.Keys && k in rest && Lists(es, m - rest)
    ensures Lists(es + [m[k]], m - (rest - {k}))
  {
    hide Lists;
    ListsAppend(es, m - rest, m[k]);
    assert (m - rest)[k := m[k]] == m - (rest - {k});
  }

  lemma ShrunkBalances(s: State, max: int, victims: seq<Entry>, stuck: set<string>)
    requires BooksBalance(s.books) && Eviction(s.books.entries, s.books.totalSize, max, victims)
    ensures BooksBalance(Shrunk(s, victims, stuck).books)
  {
    SectionBalances(max, s.books, Evict(victims));
  }

  lemma NothingShrinks(s: State, stuck: set<string>)
    ensures Shrunk(s, [], stuck) == s && TotalOf([]) == 0
  {
    assert Keys([]) == {};
    assert Without(s.books.entries, []) == s.books.entries;
    assert FilesLeft(s.files, [], stuck) == s.files;
  }

  /** One more round of the eviction loop. */
  lemma ShrinkMore(s: State, sorted: seq<Entry>, i: nat, stuck: set<string>)
    requires i < |sorted|
    ensures var t, u, e := Shrunk(s, sorted[..i], stuck), Shrunk(s, sorted[..i + 1], stuck), sorted[i];
            && u.books == Books(t.books.entries - {e.key}, t.books.totalSize - e.size)
            && u.files == Discarded(t.files, KeyPath(e.key), stuck)
            && u.index == s.index
            && TotalOf(sorted[..i + 1]) == TotalOf(sorted[..i]) + e.size
  {
    hide KeyPath;
    var victims, e := sorted[..i], sorted[i];
    assert sorted[..i + 1] == victims + [e];
    KeysAppend(victims, e);
    TotalOfAppend(victims, e);
    assert Without(s.books.entries, victims + [e]) == Without(s.books.entries, victims) - {e.key};
    FilesLeftAppend(s.files, victims, e, stuck);
  }

  lemma FilesLeftAppend(files: map<string, Bytes>, victims: seq<Entry>, e: Entry, stuck: set<string>)
    ensures FilesLeft(files, victims + [e], stuck) == Discarded(FilesLeft(files, victims, stuck), KeyPath(e.key), stuck)
  {
    hide KeyPath;
    var more := victims + [e];
    assert more[|victims|] == e;
    assert forall i :: 0 <= i < |victims| ==> more[i] == victims[i];
  }

  /** Where the eviction loop stops is a cut. */
  lemma CutHere(b: Books, max: int, sorted: seq<Entry>, i: nat)
    requires i <= |sorted| && Lists(sorted, b.entries) && Ordered(sorted) && b.totalSize > max
    requires i == |sorted| || b.totalSize - TotalOf(sorted[..i]) <= Goal(max)
    requires forall n :: 0 <= n < i ==> b.totalSize - TotalOf(sorted[..n]) > Goal(max)
    ensures Eviction(b.entries, b.totalSize, max, sorted[..i])
  {
    hide Lists, Ordered, TotalOf, Goal;
    assert sorted[..i] + sorted[i..] == sorted;
    assert forall n :: 0 <= n < i ==> sorted[..i][..n] == sorted[..n];
    assert CutsAt(b.entries, b.totalSize, max, sorted[..i], sorted[i..]);
  }
}
