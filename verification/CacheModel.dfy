/**
 The local cache as a lossy map (internal/cache/store.go). Every operation is a
 function on the store's books, the files under its directory and the saved
 index; the clock reading and everything the file system may refuse to do are
 parameters. A hit returns exactly the bytes of the latest put of that key not
 since dropped, in every sequential run except where a write that broke off or
 an index left by a failed save shows; exactly where is proved.
 */
module CacheModel {
  import opened Common
  import opened CacheEviction

  type Bytes = seq<bv8>

  /** The saved index, as what its JSON decodes to. */
  datatype Index = Absent | Saved(entries: Entries) | Garbled {
    /** What a store opened on this index starts with. */
    function Contents(): Entries {
      if this.Saved? then entries else map[]
    }
  }

  datatype State = State(books: Books, files: map<string, Bytes>, index: Index)

  /** How far writing a file got; Failed carries what is in the file then. */
  datatype Write = NotStarted | Failed(written: Bytes) | Done

  /** Writing the index can succeed, fail before touching the file, or leave it unreadable. */
  datatype Save = Stored | Untouched | Mangled

  /** What the outside world does during one operation; stuck holds the paths that cannot be removed. */
  datatype Io = Io(now: int, write: Write, openOk: bool, stuck: set<string>, save: Save)

  const FRESH := State(Books(map[], 0), map[], Absent)

  // ---------------------------------------------------------------------
  // Paths
  // ---------------------------------------------------------------------

  function KeyPath(key: string): string {
    if |key| < 2 then key else key[..2] + "/" + key
  }

  function TmpPath(key: string): string {
    KeyPath(key) + ".tmp"
  }

  predicate HexDigit(c: char) {
    '0' <= c <= '9' || 'a' <= c <= 'f'
  }

  /** The form of the keys that KeyBuilder.Sum produces. */
  predicate SumKey(key: string) {
    |key| == 16 && forall i :: 0 <= i < |key| ==> HexDigit(key[i])
  }

  /** A file lies under its key in the directory of the key's first two characters; files of different keys, temporary
      files and the index never share a path. */
  lemma PathsApart(k: string, l: string)
    requires SumKey(k) && SumKey(l)
    ensures KeyPath(k) == KeyPath(l) ==> k == l
    ensures KeyPath(k) != TmpPath(l) && KeyPath(k) != "index.json" && TmpPath(k) != "index.json"
    ensures KeyPath(k)[..2] == k[..2] && KeyPath(k)[2] == '/' && KeyPath(k)[3..] == k
  {
    assert k == KeyPath(k)[3..] && l == KeyPath(l)[3..];
  }

  // ---------------------------------------------------------------------
  // The operations
  // ---------------------------------------------------------------------

  function Discarded(files: map<string, Bytes>, path: string, stuck: set<string>): map<string, Bytes> {
    if path in stuck then files else files - {path}
  }

  function Persisted(s: State, save: Save): State {
    match save
    case Stored => s.(index := Saved(s.books.entries))
    case Untouched => s
    case Mangled => s.(index := Garbled)
  }

  function FilesLeft(files: map<string, Bytes>, victims: seq<Entry>, stuck: set<string>): map<string, Bytes> {
    files - (set i | 0 <= i < |victims| && KeyPath(victims[i].key) !in stuck :: KeyPath(victims[i].key))
  }

  function Shrunk(s: State, victims: seq<Entry>, stuck: set<string>): State {
    s.(books := Evicted(s.books, victims), files := FilesLeft(s.files, victims, stuck))
  }

  function NewEntry(key: string, data: Bytes, now: int): Entry {
    Entry(key, |data|, now, now, 0)
  }

  /** From the moment the file is in place: book the entry, evict, save the index. */
  function Committed(s: State, key: string, data: Bytes, io: Io, victims: seq<Entry>): State {
    Persisted(Shrunk(s.(books := Inserted(s.books, NewEntry(key, data, io.now))), victims, io.stuck), io.save)
  }

  /** Put writes a temporary file and renames it. */
  function AfterPut(s: State, key: string, data: Bytes, io: Io, victims: seq<Entry>): State {
    if key == "" || io.write.NotStarted? then s
    else if io.write.Failed? then
      s.(files := Discarded(s.files[TmpPath(key) := io.write.written], TmpPath(key), io.stuck))
    else
      Committed(s.(files := (s.files - {TmpPath(key)})[KeyPath(key) := data]), key, data, io, victims)
  }

  /** PutBytes writes the file in place. */
  function AfterPutBytes(s: State, key: string, data: Bytes, io: Io, victims: seq<Entry>): State {
    if key == "" || io.write.NotStarted? then s
    else if io.write.Failed? then s.(files := s.files[KeyPath(key) := io.write.written])
    else Committed(s.(files := s.files[KeyPath(key) := data]), key, data, io, victims)
  }

  function AfterDelete(s: State, key: string, io: Io): State {
    Persisted(s.(books := Removed(s.books, key), files := Discarded(s.files, KeyPath(key), io.stuck)), io.save)
  }

  function AfterClear(s: State, io: Io): State {
    Persisted(s.(books := Books(map[], 0), files := map p | p in s.files && p in io.stuck :: s.files[p]), io.save)
  }

  predicate Expired(ttl: int, e: Entry, now: int) {
    now - e.createdAt > ttl
  }

  function GetResult(ttl: int, s: State, key: string, io: Io): Option<Bytes> {
    if key in s.books.entries && !Expired(ttl, s.books.entries[key], io.now) && io.openOk && KeyPath(key) in s.files
    then Some(s.files[KeyPath(key)])
    else None
  }

  function AfterGet(ttl: int, s: State, key: string, io: Io): State {
    if key !in s.books.entries then s
    else if GetResult(ttl, s, key, io).None? then AfterDelete(s, key, io)
    else s.(books := Touched(s.books, key, io.now))
  }

  /** A new store on the same directory. */
  ghost function Reopened(s: State): State {
    s.(books := Books(s.index.Contents(), SizeSum(s.index.Contents())))
  }

  // ---------------------------------------------------------------------
  // Runs
  // ---------------------------------------------------------------------

  datatype Step =
    | Put(key: string, data: Bytes, io: Io, victims: seq<Entry>)
    | PutBytes(key: string, data: Bytes, io: Io, victims: seq<Entry>)
    | Get(key: string, io: Io)
    | Delete(key: string, io: Io)
    | Clear(io: Io)
    | Reopen

  ghost predicate Enabled(max: int, s: State, step: Step) {
    && (step.Put? || step.PutBytes? || step.Get? || step.Delete? ==> SumKey(step.key))
    && ((step.Put? || step.PutBytes?) && step.io.write.Done? ==>
          var b := Inserted(s.books, NewEntry(step.key, step.data, step.io.now));
          Eviction(b.entries, b.totalSize, max, step.victims))
  }

  ghost function Apply(ttl: int, s: State, step: Step): State {
    match step
    case Put(k, d, io, victims) => AfterPut(s, k, d, io, victims)
    case PutBytes(k, d, io, victims) => AfterPutBytes(s, k, d, io, victims)
    case Get(k, io) => AfterGet(ttl, s, k, io)
    case Delete(k, io) => AfterDelete(s, k, io)
    case Clear(io) => AfterClear(s, io)
    case Reopen => Reopened(s)
  }

  ghost function After(ttl: int, run: seq<Step>): State {
    if run == [] then FRESH else Apply(ttl, After(ttl, run[..|run| - 1]), run[|run| - 1])
  }

  // ---------------------------------------------------------------------
  // The plain map it stands for
  // ---------------------------------------------------------------------

  /** Bytes and the time they were put. */
  datatype Item = Item(data: Bytes, at: int)

  /** What happened to the contents: bytes stored under a key, keys dropped, or everything gone. */
  datatype Event = Kept(key: string, item: Item) | Dropped(keys: set<string>) | Emptied

  /** What an event makes of the bytes known for k so far. */
  function Seen(known: Option<Item>, e: Event, k: string): Option<Item> {
    match e
    case Kept(l, item) => if k == l then Some(item) else known
    case Dropped(keys) => if k in keys then None else known
    case Emptied => None
  }

  /** The bytes last stored under k, unless dropped since. */
  function Latest(events: seq<Event>, k: string): Option<Item> {
    if events == [] then None else Seen(Latest(events[..|events| - 1], k), events[|events| - 1], k)
  }

  /** Keys that a reopened store has forgotten because the index was saved before they were put. */
  function Forgotten(s: State): set<string> {
    if s.index.Saved? then s.books.entries.Keys - s.index.entries.Keys else {}
  }

  /** Deletion, eviction, expiry, an unreadable file and an index that lacks a key drop keys; clearing and a lost index drop everything. */
  ghost function Events(ttl: int, s: State, step: Step): seq<Event> {
    if step.Put? || step.PutBytes? then
      if step.io.write.Done? then [Kept(step.key, Item(step.data, step.io.now)), Dropped(Keys(step.victims))] else []
    else if step.Get? then
      if GetResult(ttl, s, step.key, step.io).None? then [Dropped({step.key})] else []
    else if step.Delete? then [Dropped({step.key})]
    else if step.Clear? || !s.index.Saved? then [Emptied]
    else [Dropped(Forgotten(s))]
  }

  ghost function History(ttl: int, run: seq<Step>): seq<Event> {
    if run == [] then []
    else var init := run[..|run| - 1]; History(ttl, init) + Events(ttl, After(ttl, init), run[|run| - 1])
  }

  ghost predicate EnabledRun(max: int, ttl: int, run: seq<Step>) {
    run == []
    || (var init := run[..|run| - 1]; EnabledRun(max, ttl, init) && Enabled(max, After(ttl, init), run[|run| - 1]))
  }

  // ---------------------------------------------------------------------
  // What every step keeps, whatever fails
  // ---------------------------------------------------------------------

  ghost predicate Filed(m: Entries) {
    WellFiled(m) && forall k :: k in m ==> SumKey(k)
  }

  ghost predicate Orderly(s: State) {
    BooksBalance(s.books) && Filed(s.books.entries) && Filed(s.index.Contents())
  }

  function LookUp(s: State, k: string): Option<Item> {
    if k in s.books.entries && KeyPath(k) in s.files then Some(Item(s.files[KeyPath(k)], s.books.entries[k].createdAt)) else None
  }

  ghost predicate Agrees(s: State, events: seq<Event>) {
    forall k :: LookUp(s, k) == Latest(events, k)
  }

  lemma LatestAppend(events: seq<Event>, e: Event, k: string)
    ensures Latest(events + [e], k) == Seen(Latest(events, k), e, k)
  {
    assert (events + [e])[..|events|] == events;
  }

  lemma LatestAppendTwo(events: seq<Event>, key: string, item: Item, ks: set<string>, k: string)
    ensures Latest(events + [Kept(key, item), Dropped(ks)], k)
         == if k in ks then None else if k == key then Some(item) else Latest(events, k)
  {
    assert events + [Kept(key, item), Dropped(ks)] == (events + [Kept(key, item)]) + [Dropped(ks)];
    LatestAppend(events, Kept(key, item), k);
    LatestAppend(events + [Kept(key, item)], Dropped(ks), k);
  }

  /** After a commit the file of any key that is not a victim is still in place. */
  lemma FileStays(files: map<string, Bytes>, victims: seq<Entry>, stuck: set<string>, k: string)
    requires SumKey(k) && k !in Keys(victims)
    requires forall i :: 0 <= i < |victims| ==> SumKey(victims[i].key)
    ensures KeyPath(k) in FilesLeft(files, victims, stuck) <==> KeyPath(k) in files
    ensures KeyPath(k) in files ==> FilesLeft(files, victims, stuck)[KeyPath(k)] == files[KeyPath(k)]
  {
    forall i | 0 <= i < |victims|
      ensures KeyPath(victims[i].key) != KeyPath(k)
    {
      PathsApart(victims[i].key, k);
      assert victims[i].key in Keys(victims);
    }
  }

  lemma VictimsKnown(m: Entries, total: int, max: int, victims: seq<Entry>)
    requires Eviction(m, total, max, victims)
    ensures forall i :: 0 <= i < |victims| ==> victims[i].key in m
  {
    if total > max {
      var survivors :| CutsAt(m, total, max, victims, survivors);
      forall i | 0 <= i < |victims|
        ensures victims[i].key in m
      {
        ListsMember(victims + survivors, m, i);
        assert (victims + survivors)[i] == victims[i];
      }
    }
  }

  /** What both kinds of put do once the bytes are in place. */
  ghost predicate InPlace(s: State, mid: State, key: string, data: Bytes) {
    && mid.books == s.books && mid.index == s.index
    && KeyPath(key) in mid.files && mid.files[KeyPath(key)] == data
    && (forall k :: SumKey(k) && k != key ==>
          && (KeyPath(k) in mid.files <==> KeyPath(k) in s.files)
          && (KeyPath(k) in s.files ==> mid.files[KeyPath(k)] == s.files[KeyPath(k)]))
  }

  lemma WritesInPlace(s: State, key: string, data: Bytes)
    requires SumKey(key)
    ensures InPlace(s, s.(files := (s.files - {TmpPath(key)})[KeyPath(key) := data]), key, data)
    ensures InPlace(s, s.(files := s.files[KeyPath(key) := data]), key, data)
  {
    hide KeyPath, TmpPath, SumKey;
    forall k | SumKey(k)
      ensures KeyPath(k) != TmpPath(key) && (KeyPath(k) == KeyPath(key) ==> k == key)
    {
      PathsApart(k, key);
    }
  }

  ghost predicate CanCommit(max: int, s: State, key: string, data: Bytes, io: Io, victims: seq<Entry>) {
    var b := Inserted(s.books, NewEntry(key, data, io.now));
    SumKey(key) && Eviction(b.entries, b.totalSize, max, victims)
  }

  /** One key after a commit: victims are gone, the new key has its bytes, the others are as before. */
  lemma CommitLooks(max: int, s: State, mid: State, key: string, data: Bytes, io: Io, victims: seq<Entry>, k: string)
    requires Orderly(s) && InPlace(s, mid, key, data) && CanCommit(max, s, key, data, io, victims)
    ensures var t := Committed(mid, key, data, io, victims);
            LookUp(t, k) == if k in Keys(victims) then None else if k == key then Some(Item(data, io.now)) else LookUp(s, k)
  {
    hide Eviction, KeyPath, SumKey, BooksBalance, WellFiled;
    var b := Inserted(s.books, NewEntry(key, data, io.now));
    VictimsKnown(b.entries, b.totalSize, max, victims);
    assert forall l :: l in b.entries ==> SumKey(l);
    var t := Committed(mid, key, data, io, victims);
    assert t.books.entries == Without(b.entries, victims);
    assert t.files == FilesLeft(mid.files, victims, io.stuck);
    if k in b.entries && k !in Keys(victims) {
      FileStays(mid.files, victims, io.stuck, k);
    }
  }

  lemma CommitKeeps(max: int, s: State, mid: State, key: string, data: Bytes, io: Io, victims: seq<Entry>)
    requires Orderly(s) && InPlace(s, mid, key, data) && CanCommit(max, s, key, data, io, victims)
    ensures Orderly(Committed(mid, key, data, io, victims))
  {
    hide Eviction, SizeSum, TotalOf, SumKey, KeyPath;
    var e := NewEntry(key, data, io.now);
    SectionBalances(max, s.books, Insert(e));
    SectionBalances(max, Inserted(s.books, e), Evict(victims));
  }

  /** Files of live entries are as before, and none has appeared: nothing a reader could notice has changed. */
  ghost predicate SameFiles(s: State, files: map<string, Bytes>) {
    forall k :: k in s.books.entries ==>
      && (KeyPath(k) in files <==> KeyPath(k) in s.files)
      && (KeyPath(k) in files ==> files[KeyPath(k)] == s.files[KeyPath(k)])
  }

  /** A put that reports failure leaves every live entry's file alone, except an in-place write over one. */
  lemma FailureIsHarmless(s: State, key: string, w: Bytes, stuck: set<string>)
    requires Orderly(s) && SumKey(key)
    ensures SameFiles(s, Discarded(s.files[TmpPath(key) := w], TmpPath(key), stuck))
    ensures key !in s.books.entries ==> SameFiles(s, s.files[KeyPath(key) := w])
  {
    hide KeyPath, TmpPath, SumKey, BooksBalance;
    forall k | k in s.books.entries
      ensures KeyPath(k) != TmpPath(key) && (KeyPath(k) == KeyPath(key) ==> k == key)
    {
      PathsApart(k, key);
    }
  }

  lemma SameFilesLook(s: State, files: map<string, Bytes>)
    requires SameFiles(s, files)
    ensures forall k :: LookUp(s.(files := files), k) == LookUp(s, k)
  {
    hide KeyPath;
  }

  lemma DeleteOne(s: State, key: string, io: Io, k: string)
    requires Orderly(s) && SumKey(key)
    ensures LookUp(AfterDelete(s, key, io), k) == if k == key then None else LookUp(s, k)
  {
    hide KeyPath, SumKey, BooksBalance, WellFiled;
    if k in s.books.entries && k != key {
      PathsApart(k, key);
    }
  }

  lemma DeleteLooks(s: State, key: string, io: Io)
    requires Orderly(s) && SumKey(key)
    ensures Orderly(AfterDelete(s, key, io))
    ensures forall k :: LookUp(AfterDelete(s, key, io), k) == if k == key then None else LookUp(s, k)
  {
    SectionBalances(0, s.books, Remove(key));
    hide KeyPath, SumKey, LookUp, SizeSum;
    forall k
      ensures LookUp(AfterDelete(s, key, io), k) == if k == key then None else LookUp(s, k)
    {
      DeleteOne(s, key, io, k);
    }
  }

  lemma TouchLooks(s: State, key: string, now: int)
    requires Orderly(s)
    ensures var t := s.(books := Touched(s.books, key, now));
            Orderly(t) && forall k :: LookUp(t, k) == LookUp(s, k)
  {
    hide KeyPath, SumKey, SizeSum;
    SectionBalances(0, s.books, Touch(key, now));
  }

  lemma GetLooks(ttl: int, s: State, key: string, io: Io)
    requires Orderly(s) && SumKey(key)
    ensures Orderly(AfterGet(ttl, s, key, io))
    ensures forall k :: LookUp(AfterGet(ttl, s, key, io), k)
                     == if k == key && GetResult(ttl, s, key, io).None? then None else LookUp(s, k)
  {
    hide KeyPath, SumKey, BooksBalance, AfterDelete, Touched, WellFiled;
    DeleteLooks(s, key, io);
    TouchLooks(s, key, io.now);
  }

  lemma ClearLooks(s: State, io: Io)
    requires Orderly(s)
    ensures Orderly(AfterClear(s, io)) && forall k :: LookUp(AfterClear(s, io), k) == None
  {
  }

  // ---------------------------------------------------------------------
  // Exactly which steps agree with the plain map
  // ---------------------------------------------------------------------

  /** An in-place write that breaks off over a booked key leaves the bytes that were there. */
  ghost predicate WriteShowsNothing(s: State, step: Step) {
    step.PutBytes? && step.io.write.Failed? && step.key in s.books.entries ==>
      KeyPath(step.key) in s.files && s.files[KeyPath(step.key)] == step.io.write.written
  }

  /** Whatever the saved index lists and has a file for is booked now, and was put at the same time. */
  ghost predicate NothingResurrected(s: State) {
    forall k :: k in s.index.Contents() && KeyPath(k) in s.files ==>
      k in s.books.entries && s.index.Contents()[k].createdAt == s.books.entries[k].createdAt
  }

  ghost predicate Harmless(s: State, step: Step) {
    WriteShowsNothing(s, step) && (step.Reopen? ==> NothingResurrected(s))
  }

  /** A put whose write did not complete agrees with the map exactly when it shows nothing. */
  lemma TornWriteShows(max: int, ttl: int, s: State, step: Step, events: seq<Event>)
    requires Orderly(s) && Agrees(s, events) && Enabled(max, s, step) && (step.Put? || step.PutBytes?) && !step.io.write.Done?
    ensures Agrees(Apply(ttl, s, step), events + Events(ttl, s, step)) <==> Harmless(s, step)
  {
    assert step.key != "";
    hide KeyPath, TmpPath, Eviction, Latest, SameFiles, BooksBalance, Filed, SumKey;
    assert events + Events(ttl, s, step) == events;
    var t := Apply(ttl, s, step);
    if step.io.write.Failed? {
      FailureIsHarmless(s, step.key, step.io.write.written, step.io.stuck);
      if step.Put? || step.key !in s.books.entries {
        SameFilesLook(s, t.files);
      } else {
        assert LookUp(t, step.key) == Some(Item(step.io.write.written, s.books.entries[step.key].createdAt));
        assert LookUp(s, step.key) == Latest(events, step.key);
        if WriteShowsNothing(s, step) {
          assert t.files == s.files;
        }
      }
    }
  }

  lemma WrittenPut(max: int, ttl: int, s: State, step: Step, events: seq<Event>)
    requires Orderly(s) && Agrees(s, events) && Enabled(max, s, step) && (step.Put? || step.PutBytes?) && step.io.write.Done?
    ensures Agrees(Apply(ttl, s, step), events + Events(ttl, s, step))
  {
    hide Orderly, KeyPath, TmpPath, Committed, Eviction, InPlace, LookUp, Latest;
    var key, data, io, victims := step.key, step.data, step.io, step.victims;
    var mid := s.(files := if step.Put? then (s.files - {TmpPath(key)})[KeyPath(key) := data]
                           else s.files[KeyPath(key) := data]);
    WritesInPlace(s, key, data);
    forall k
      ensures LookUp(Apply(ttl, s, step), k) == Latest(events + Events(ttl, s, step), k)
    {
      CommitLooks(max, s, mid, key, data, io, victims, k);
      LatestAppendTwo(events, key, Item(data, io.now), Keys(victims), k);
    }
  }

  lemma ReopenKeeps(s: State)
    requires Orderly(s)
    ensures Orderly(Reopened(s))
  {
    hide SumKey;
  }

  /** Reopening agrees with the map exactly when nothing is resurrected. */
  lemma ReopenAgreesIff(ttl: int, s: State, events: seq<Event>)
    requires Orderly(s) && Agrees(s, events)
    ensures Agrees(Reopened(s), events + Events(ttl, s, Reopen)) <==> NothingResurrected(s)
  {
    hide KeyPath, Latest, Orderly;
    var t, e := Reopened(s), if s.index.Saved? then Dropped(Forgotten(s)) else Emptied;
    assert Events(ttl, s, Reopen) == [e];
    forall k
      ensures Latest(events + [e], k) == Seen(LookUp(s, k), e, k)
    {
      LatestAppend(events, e, k);
      assert LookUp(s, k) == Latest(events, k);
    }
    if NothingResurrected(s) {
      forall k
        ensures LookUp(t, k) == Latest(events + [e], k)
      {
        assert LookUp(t, k) == Seen(LookUp(s, k), e, k);
      }
    } else {
      var k :| k in s.index.Contents() && KeyPath(k) in s.files
               && !(k in s.books.entries && s.index.Contents()[k].createdAt == s.books.entries[k].createdAt);
      assert LookUp(t, k) != Seen(LookUp(s, k), e, k);
      assert LookUp(t, k) != Latest(events + [e], k);
    }
  }

  /** ... and forgets nothing either exactly when the index, as far as it has files, and the books have the same keys and times. */
  lemma ReopenSameIff(s: State, events: seq<Event>)
    requires Orderly(s) && Agrees(s, events) && AllBacked(s)
    ensures Agrees(Reopened(s), events)
       <==> (forall k :: (k in s.index.Contents() && KeyPath(k) in s.files <==> k in s.books.entries))
            && (forall k :: k in s.index.Contents() && k in s.books.entries ==>
                  s.index.Contents()[k].createdAt == s.books.entries[k].createdAt)
  {
    hide KeyPath, Latest, Orderly, SumKey;
    assert forall k :: k in s.books.entries ==> Backed(s, k);
    assert forall k :: LookUp(s, k) == Latest(events, k);
    var t := Reopened(s);
    assert Agrees(t, events) <==> forall k :: LookUp(t, k) == LookUp(s, k);
    if Agrees(t, events) {
      forall k
        ensures k in s.index.Contents() && KeyPath(k) in s.files <==> k in s.books.entries
        ensures k in s.index.Contents() && k in s.books.entries ==>
                  s.index.Contents()[k].createdAt == s.books.entries[k].createdAt
      {
        assert LookUp(t, k) == LookUp(s, k);
      }
    }
  }

  lemma OtherAgrees(max: int, ttl: int, s: State, step: Step, events: seq<Event>)
    requires Orderly(s) && Agrees(s, events) && Enabled(max, s, step) && (step.Get? || step.Delete? || step.Clear?)
    ensures Agrees(Apply(ttl, s, step), events + Events(ttl, s, step))
  {
    hide KeyPath, AfterGet, AfterDelete, AfterClear, GetResult, Eviction, LookUp, Latest, BooksBalance, WellFiled, SumKey;
    var t, more := Apply(ttl, s, step), Events(ttl, s, step);
    if step.Get? {
      GetLooks(ttl, s, step.key, step.io);
    } else if step.Delete? {
      DeleteLooks(s, step.key, step.io);
    } else {
      ClearLooks(s, step.io);
    }
    if more == [] {
      assert events + more == events;
    } else {
      forall k
        ensures LookUp(t, k) == Latest(events + more, k)
      {
        LatestAppend(events, more[0], k);
      }
    }
  }

  /** Every step keeps agreeing with the plain map exactly when it is harmless. */
  lemma StepAgreesIff(max: int, ttl: int, s: State, step: Step, events: seq<Event>)
    requires Orderly(s) && Agrees(s, events) && Enabled(max, s, step)
    ensures Agrees(Apply(ttl, s, step), events + Events(ttl, s, step)) <==> Harmless(s, step)
  {
    hide Orderly, Agrees, Enabled, Events, NothingResurrected, AfterPut, AfterPutBytes, AfterGet, AfterDelete, AfterClear, Reopened;
    if step.Put? || step.PutBytes? {
      if step.io.write.Done? {
        WrittenPut(max, ttl, s, step, events);
      } else {
        TornWriteShows(max, ttl, s, step, events);
      }
    } else if step.Reopen? {
      ReopenAgreesIff(ttl, s, events);
    } else {
      OtherAgrees(max, ttl, s, step, events);
    }
  }

  /** Every step keeps the books in order, harmless or not. */
  lemma StepKeepsOrder(max: int, ttl: int, s: State, step: Step)
    requires Orderly(s) && Enabled(max, s, step)
    ensures Orderly(Apply(ttl, s, step))
  {
    hide Orderly, KeyPath, TmpPath, Committed, Eviction, InPlace, AfterGet, AfterDelete, AfterClear, Reopened, SumKey;
    if step.Put? || step.PutBytes? {
      if step.io.write.Done? {
        WritesInPlace(s, step.key, step.data);
        CommitKeeps(max, s, s.(files := (s.files - {TmpPath(step.key)})[KeyPath(step.key) := step.data]),
                    step.key, step.data, step.io, step.victims);
        CommitKeeps(max, s, s.(files := s.files[KeyPath(step.key) := step.data]), step.key, step.data, step.io, step.victims);
      }
      FilesDoNotMatter(s, Apply(ttl, s, step));
    } else if step.Get? {
      GetLooks(ttl, s, step.key, step.io);
    } else if step.Delete? {
      DeleteLooks(s, step.key, step.io);
    } else if step.Clear? {
      ClearLooks(s, step.io);
    } else {
      ReopenKeeps(s);
    }
  }

  lemma FilesDoNotMatter(s: State, t: State)
    ensures Orderly(s) && t.books == s.books && t.index == s.index ==> Orderly(t)
  {
  }

  lemma {:induction false} OrderAlways(max: int, ttl: int, run: seq<Step>)
    requires EnabledRun(max, ttl, run)
    ensures Orderly(After(ttl, run))
  {
    hide Enabled, Apply;
    if run != [] {
      var init := run[..|run| - 1];
      OrderAlways(max, ttl, init);
      StepKeepsOrder(max, ttl, After(ttl, init), run[|run| - 1]);
    }
  }

  // ---------------------------------------------------------------------
  // Exactly which runs agree with the plain map
  // ---------------------------------------------------------------------

  ghost predicate HarmlessRun(ttl: int, run: seq<Step>) {
    run == [] || (HarmlessRun(ttl, run[..|run| - 1]) && Harmless(After(ttl, run[..|run| - 1]), run[|run| - 1]))
  }

  /** The store agreed with the map of its history at every moment of the run. */
  ghost predicate AgreedThroughout(ttl: int, run: seq<Step>) {
    && Agrees(After(ttl, run), History(ttl, run))
    && (run == [] || AgreedThroughout(ttl, run[..|run| - 1]))
  }

  /** A store agrees with the plain map throughout a run exactly when every step of the run is harmless. */
  lemma {:induction false} AgreesIff(max: int, ttl: int, run: seq<Step>)
    requires EnabledRun(max, ttl, run)
    ensures AgreedThroughout(ttl, run) <==> HarmlessRun(ttl, run)
  {
    hide Agrees, Harmless, Enabled, Apply, Events, Orderly;
    if run == [] {
      FreshAgrees();
    } else {
      var init, step := run[..|run| - 1], run[|run| - 1];
      AgreesIff(max, ttl, init);
      if HarmlessRun(ttl, init) {
        OrderAlways(max, ttl, init);
        StepAgreesIff(max, ttl, After(ttl, init), step, History(ttl, init));
      }
    }
  }

  lemma FreshAgrees()
    ensures Agrees(FRESH, [])
  {
  }

  // ---------------------------------------------------------------------
  // Runs a caller can tell to be safe
  // ---------------------------------------------------------------------

  /** The step writes, or tries to write, the index. */
  ghost predicate Attempts(ttl: int, s: State, step: Step) {
    match step
    case Put(_, _, io, _) => io.write.Done?
    case PutBytes(_, _, io, _) => io.write.Done?
    case Get(k, io) => k in s.books.entries && GetResult(ttl, s, k, io).None?
    case Delete(_, _) => true
    case Clear(_) => true
    case Reopen => false
  }

  /** The last attempt to save the index succeeded, or there was none. */
  ghost predicate LastSaveWorked(ttl: int, run: seq<Step>) {
    run == []
    || (var init, step := run[..|run| - 1], run[|run| - 1];
        if Attempts(ttl, After(ttl, init), step) then step.io.save.Stored? else LastSaveWorked(ttl, init))
  }

  /** No in-place write broke off over a booked key, and the store was reopened only when the last save had worked. */
  ghost predicate CarefulRun(ttl: int, run: seq<Step>) {
    run == []
    || (var init, step := run[..|run| - 1], run[|run| - 1];
        && CarefulRun(ttl, init)
        && !(step.PutBytes? && step.io.write.Failed? && step.key in After(ttl, init).books.entries)
        && (step.Reopen? ==> LastSaveWorked(ttl, init)))
  }

  /** The same keys with the same sizes and creation times; access times and hits are not saved on a hit. */
  ghost predicate SameRecords(m: Entries, m': Entries) {
    SameSizes(m, m') && forall k :: k in m ==> m[k].createdAt == m'[k].createdAt
  }

  /** The saved index describes the store as it is. */
  ghost predicate Synced(s: State) {
    SameRecords(s.index.Contents(), s.books.entries)
  }

  /** The entry's file is there and has the booked size. */
  ghost predicate Backed(s: State, k: string)
    requires k in s.books.entries
  {
    KeyPath(k) in s.files && |s.files[KeyPath(k)]| == s.books.entries[k].size
  }

  ghost predicate AllBacked(s: State) {
    forall k :: k in s.books.entries ==> Backed(s, k)
  }

  lemma SavingSyncs(ttl: int, s: State, step: Step)
    requires Attempts(ttl, s, step) && step.io.save.Stored?
    requires step.Put? || step.PutBytes? || step.Get? || step.Delete? ==> step.key != ""
    ensures Synced(Apply(ttl, s, step))
  {
    hide KeyPath, TmpPath, Evicted, Inserted, FilesLeft, Discarded, Removed;
  }

  lemma OthersStaySynced(ttl: int, s: State, step: Step)
    requires Synced(s) && !Attempts(ttl, s, step)
    ensures Synced(Apply(ttl, s, step))
  {
    hide KeyPath, TmpPath, Discarded;
  }

  /** A store in step with its index reopens as it was. */
  lemma ReopenRestores(s: State)
    requires Orderly(s) && Synced(s)
    ensures var t := Reopened(s);
            && SameRecords(t.books.entries, s.books.entries) && t.books.totalSize == s.books.totalSize
            && (forall k :: LookUp(t, k) == LookUp(s, k))
            && NothingResurrected(s) && (AllBacked(s) ==> AllBacked(t))
  {
    hide KeyPath, SumKey, SizeSum;
    var t := Reopened(s);
    SizeSumSame(s.index.Contents(), s.books.entries);
    if AllBacked(s) {
      forall k | k in t.books.entries
        ensures Backed(t, k)
      {
        assert Backed(s, k);
      }
    }
  }

  lemma CommitBacked(max: int, s: State, mid: State, key: string, data: Bytes, io: Io, victims: seq<Entry>)
    requires Orderly(s) && AllBacked(s) && InPlace(s, mid, key, data) && CanCommit(max, s, key, data, io, victims)
    ensures AllBacked(Committed(mid, key, data, io, victims))
  {
    hide Eviction, KeyPath, SumKey, BooksBalance, WellFiled;
    var b := Inserted(s.books, NewEntry(key, data, io.now));
    VictimsKnown(b.entries, b.totalSize, max, victims);
    var t := Committed(mid, key, data, io, victims);
    assert t.books.entries == Without(b.entries, victims);
    assert t.files == FilesLeft(mid.files, victims, io.stuck);
    forall k | k in t.books.entries
      ensures Backed(t, k)
    {
      FileStays(mid.files, victims, io.stuck, k);
      assert k != key ==> Backed(s, k);
    }
  }

  lemma DeleteBacked(s: State, key: string, io: Io)
    requires Orderly(s) && AllBacked(s) && SumKey(key)
    ensures AllBacked(AfterDelete(s, key, io))
  {
    hide KeyPath, SumKey, BooksBalance, WellFiled;
    var t := AfterDelete(s, key, io);
    forall k | k in t.books.entries
      ensures Backed(t, k)
    {
      assert Backed(s, k);
      PathsApart(k, key);
    }
  }

  lemma TouchBacked(s: State, key: string, now: int)
    requires AllBacked(s)
    ensures AllBacked(s.(books := Touched(s.books, key, now)))
  {
    hide KeyPath;
    forall k | k in s.books.entries
      ensures Backed(s.(books := Touched(s.books, key, now)), k)
    {
      assert Backed(s, k);
    }
  }

  lemma PutBacked(max: int, ttl: int, s: State, step: Step)
    requires Orderly(s) && AllBacked(s) && Enabled(max, s, step) && (step.Put? || step.PutBytes?)
    requires !(step.PutBytes? && step.io.write.Failed? && step.key in s.books.entries)
    ensures AllBacked(Apply(ttl, s, step))
  {
    hide Orderly, KeyPath, TmpPath, Committed, Eviction, InPlace, SameFiles, Discarded, SumKey;
    if step.io.write.Done? {
      WritesInPlace(s, step.key, step.data);
      var mid := s.(files := if step.Put? then (s.files - {TmpPath(step.key)})[KeyPath(step.key) := step.data]
                             else s.files[KeyPath(step.key) := step.data]);
      CommitBacked(max, s, mid, step.key, step.data, step.io, step.victims);
      KeyNotEmpty(step.key);
    } else if step.io.write.Failed? {
      FailureIsHarmless(s, step.key, step.io.write.written, step.io.stuck);
      KeyNotEmpty(step.key);
      SameFilesBacked(s, Apply(ttl, s, step).files);
    }
  }

  lemma KeyNotEmpty(key: string)
    requires SumKey(key)
    ensures key != ""
  {
  }

  lemma SameFilesBacked(s: State, files: map<string, Bytes>)
    requires AllBacked(s) && SameFiles(s, files)
    ensures AllBacked(s.(files := files))
  {
    hide KeyPath;
    forall k | k in s.books.entries
      ensures Backed(s.(files := files), k)
    {
      assert Backed(s, k);
    }
  }

  lemma StepBacked(max: int, ttl: int, s: State, step: Step)
    requires Orderly(s) && AllBacked(s) && Enabled(max, s, step)
    requires !(step.PutBytes? && step.io.write.Failed? && step.key in s.books.entries) && (step.Reopen? ==> Synced(s))
    ensures AllBacked(Apply(ttl, s, step))
  {
    hide Orderly, AllBacked, Eviction, AfterPut, AfterPutBytes, AfterDelete, Touched, Reopened, SumKey;
    if step.Put? || step.PutBytes? {
      PutBacked(max, ttl, s, step);
    } else if step.Get? {
      DeleteBacked(s, step.key, step.io);
      TouchBacked(s, step.key, step.io.now);
    } else if step.Delete? {
      DeleteBacked(s, step.key, step.io);
    } else if step.Clear? {
      ClearBacked(s, step.io);
    } else {
      ReopenRestores(s);
    }
  }

  lemma ClearBacked(s: State, io: Io)
    ensures AllBacked(AfterClear(s, io))
  {
  }

  /** In a careful run every entry is backed by a file of its size, the index is in step after every save that worked,
      and no step does harm. */
  lemma {:induction false} CarefulAlways(max: int, ttl: int, run: seq<Step>)
    requires EnabledRun(max, ttl, run) && CarefulRun(ttl, run)
    ensures AllBacked(After(ttl, run)) && HarmlessRun(ttl, run)
    ensures LastSaveWorked(ttl, run) ==> Synced(After(ttl, run))
  {
    if run != [] {
      var init, step := run[..|run| - 1], run[|run| - 1];
      var s := After(ttl, init);
      CarefulAlways(max, ttl, init);
      OrderAlways(max, ttl, init);
      NamedKey(max, s, step);
      hide Enabled, Apply, Attempts, AllBacked, Synced, Orderly, NothingResurrected;
      StepBacked(max, ttl, s, step);
      if step.Reopen? {
        ReopenRestores(s);
      }
      if Attempts(ttl, s, step) {
        if step.io.save.Stored? {
          SavingSyncs(ttl, s, step);
        }
      } else if LastSaveWorked(ttl, init) {
        OthersStaySynced(ttl, s, step);
      }
    }
  }

  lemma NamedKey(max: int, s: State, step: Step)
    requires Enabled(max, s, step)
    ensures step.Put? || step.PutBytes? || step.Get? || step.Delete? ==> step.key != ""
  {
  }

  /** Runs whose saves all succeed have always saved. */
  lemma {:induction false} AllSavesWork(ttl: int, run: seq<Step>)
    requires forall i :: 0 <= i < |run| ==> run[i].Reopen? || run[i].io.save.Stored?
    ensures LastSaveWorked(ttl, run)
  {
    hide Attempts;
    if run != [] {
      AllSavesWork(ttl, run[..|run| - 1]);
      assert run[|run| - 1].Reopen? || run[|run| - 1].io.save.Stored?;
      NoSaveOnReopen(ttl, After(ttl, run[..|run| - 1]));
    }
  }

  lemma NoSaveOnReopen(ttl: int, s: State)
    ensures !Attempts(ttl, s, Reopen)
  {
  }

  // ---------------------------------------------------------------------
  // What it means
  // ---------------------------------------------------------------------

  /** The plain map's answer: the item as long as it has not expired and its file can be opened. */
  function Answer(ttl: int, latest: Option<Item>, io: Io): Option<Bytes> {
    if latest.Some? && io.now - latest.value.at <= ttl && io.openOk then Some(latest.value.data) else None
  }

  lemma AnswerIsLookUp(ttl: int, s: State, key: string, io: Io)
    ensures GetResult(ttl, s, key, io) == Answer(ttl, LookUp(s, key), io)
  {
  }

  /** In a careful run a lookup answers exactly with the bytes of the latest put not since deleted, cleared, evicted or
      dropped, as long as they have not expired and the file can be opened. */
  lemma HitIsLatestPut(max: int, ttl: int, run: seq<Step>, key: string, io: Io)
    requires EnabledRun(max, ttl, run) && CarefulRun(ttl, run)
    ensures GetResult(ttl, After(ttl, run), key, io) == Answer(ttl, Latest(History(ttl, run), key), io)
  {
    hide Latest, LookUp, GetResult, Answer, Enabled, Apply, Events;
    CarefulAlways(max, ttl, run);
    AgreesIff(max, ttl, run);
    AnswerIsLookUp(ttl, After(ttl, run), key, io);
    assert LookUp(After(ttl, run), key) == Latest(History(ttl, run), key);
  }

  /** In any run at all: every lookup, at every moment, would have answered like the plain map exactly when every step was harmless. */
  lemma HitsAgreeIff(max: int, ttl: int, run: seq<Step>)
    requires EnabledRun(max, ttl, run)
    ensures HarmlessRun(ttl, run) <==> AnsweredThroughout(ttl, run)
  {
    hide Enabled, Harmless;
    AgreesIff(max, ttl, run);
    AnsweredIff(ttl, run);
  }

  /** At every moment of the run, every lookup would have answered like the plain map. */
  ghost predicate AnsweredThroughout(ttl: int, run: seq<Step>) {
    && (forall key, io :: GetResult(ttl, After(ttl, run), key, io) == Answer(ttl, Latest(History(ttl, run), key), io))
    && (run == [] || AnsweredThroughout(ttl, run[..|run| - 1]))
  }

  lemma {:induction false} AnsweredIff(ttl: int, run: seq<Step>)
    ensures AgreedThroughout(ttl, run) <==> AnsweredThroughout(ttl, run)
  {
    hide LookUp, GetResult, Answer, Latest, Apply, Events, History, After;
    if run != [] {
      AnsweredIff(ttl, run[..|run| - 1]);
    }
    AnswersAgree(ttl, After(ttl, run), History(ttl, run));
  }

  /** Answers at all times tell everything a lookup could find, except when an item was put. */
  lemma AnswersAgree(ttl: int, s: State, events: seq<Event>)
    ensures Agrees(s, events) <==>
            forall key, io :: GetResult(ttl, s, key, io) == Answer(ttl, Latest(events, key), io)
  {
    hide GetResult, LookUp, Latest;
    forall key, io
      ensures GetResult(ttl, s, key, io) == Answer(ttl, LookUp(s, key), io)
    {
      AnswerIsLookUp(ttl, s, key, io);
    }
    if forall key, io :: GetResult(ttl, s, key, io) == Answer(ttl, Latest(events, key), io) {
      forall key
        ensures LookUp(s, key) == Latest(events, key)
      {
        SameAnswersSameItem(ttl, LookUp(s, key), Latest(events, key));
      }
    }
  }

  lemma SameAnswersSameItem(ttl: int, a: Option<Item>, b: Option<Item>)
    requires forall io :: Answer(ttl, a, io) == Answer(ttl, b, io)
    ensures a == b
  {
    if a.Some? {
      var io := Io(a.value.at + ttl, Done, true, {}, Stored);
      assert Answer(ttl, a, io) == Answer(ttl, b, io);
      assert Answer(ttl, a, io.(now := io.now + 1)) == Answer(ttl, b, io.(now := io.now + 1));
    }
    if b.Some? {
      var io := Io(b.value.at + ttl, Done, true, {}, Stored);
      assert Answer(ttl, a, io) == Answer(ttl, b, io);
      assert Answer(ttl, a, io.(now := io.now + 1)) == Answer(ttl, b, io.(now := io.now + 1));
    }
  }

  /** A put that reached eviction leaves the store within its limit exactly when that limit is not negative. */
  lemma WithinLimitAfterPut(max: int, ttl: int, run: seq<Step>)
    requires EnabledRun(max, ttl, run) && run != []
    requires var step := run[|run| - 1]; (step.Put? || step.PutBytes?) && step.io.write.Done?
    ensures After(ttl, run).books.totalSize <= max <==> max >= 0
  {
    var init, step := run[..|run| - 1], run[|run| - 1];
    OrderAlways(max, ttl, init);
    hide Eviction, EnabledRun, Evicted, Latest;
    var s := After(ttl, init);
    var e := NewEntry(step.key, step.data, step.io.now);
    var b := Inserted(s.books, e);
    SectionBalances(max, s.books, Insert(e));
    SectionBalances(max, b, Evict(step.victims));
    WithinLimit(b.entries, max, step.victims);
    CommittedBooks(s, step, ttl);
  }

  lemma CommittedBooks(s: State, step: Step, ttl: int)
    requires (step.Put? || step.PutBytes?) && step.io.write.Done? && step.key != ""
    ensures Apply(ttl, s, step).books == Evicted(Inserted(s.books, NewEntry(step.key, step.data, step.io.now)), step.victims)
  {
  }

  /** In a careful run whose last save worked, reopening restores keys, sizes, creation times, byte count and contents. */
  lemma ReopenAlwaysRestores(max: int, ttl: int, run: seq<Step>)
    requires EnabledRun(max, ttl, run) && CarefulRun(ttl, run) && LastSaveWorked(ttl, run)
    ensures var s, t := After(ttl, run), Reopened(After(ttl, run));
            && SameRecords(t.books.entries, s.books.entries) && t.books.totalSize == s.books.totalSize
            && (forall k :: LookUp(t, k) == LookUp(s, k))
  {
    hide LookUp, Enabled, Apply, Reopened;
    CarefulAlways(max, ttl, run);
    OrderAlways(max, ttl, run);
    ReopenRestores(After(ttl, run));
  }

  /** An in-place put that breaks off leaves an entry answering with bytes that nobody put as a whole. */
  lemma TornBytesServed(max: int, ttl: int, key: string, data: Bytes, torn: Bytes) returns (run: seq<Step>, io: Io)
    requires SumKey(key) && |data| <= max && ttl >= 0 && torn != data
    ensures EnabledRun(max, ttl, run) && |run| == 2 && run[0].Put? && run[0].data == data
    ensures run[1].PutBytes? && run[1].key == run[0].key == key && run[1].io.write == Failed(torn)
    ensures GetResult(ttl, After(ttl, run), key, io) == Some(torn) && Answer(ttl, Latest(History(ttl, run), key), io) == Some(data)
  {
    io := Io(0, Done, true, {}, Stored);
    var put, broken := Put(key, data, io, []), PutBytes(key, torn, io.(write := Failed(torn)), []);
    FirstPut(max, ttl, key, data, io);
    KeyNotEmpty(key);
    hide KeyPath, SumKey, Latest, AfterPut, Eviction;
    Extended(max, ttl, [], put);
    Extended(max, ttl, [put], broken);
    assert [] + [put] == [put] && [put] + [broken] == [put, broken];
    run := [put, broken];
    assert Keys([]) == {};
    LatestAppendTwo([], key, Item(data, 0), Keys([]), key);
    assert History(ttl, [put]) == [] + [Kept(key, Item(data, 0)), Dropped(Keys([]))];
    assert History(ttl, run) == History(ttl, [put]);
  }

  /** Deleted bytes can be served again: the delete could neither remove the file nor save the index, and the store was reopened. */
  lemma DeletedBytesServed(max: int, ttl: int, key: string, data: Bytes) returns (run: seq<Step>, io: Io)
    requires SumKey(key) && |data| <= max && ttl >= 0
    ensures EnabledRun(max, ttl, run) && |run| == 3 && run[1].Delete? && run[1].key == key && run[2] == Reopen
    ensures Latest(History(ttl, run), key) == None && GetResult(ttl, After(ttl, run), key, io) == Some(data)
  {
    io := Io(0, Done, true, {}, Stored);
    var put := Put(key, data, io, []);
    var delete := Delete(key, Io(0, Done, true, {KeyPath(key)}, Untouched));
    FirstPut(max, ttl, key, data, io);
    hide KeyPath, SumKey, Latest, AfterPut, Enabled;
    Extended(max, ttl, [], put);
    Extended(max, ttl, [put], delete);
    Extended(max, ttl, [put, delete], Reopen);
    assert [] + [put] == [put] && [put] + [delete] == [put, delete] && [put, delete] + [Reopen] == [put, delete, Reopen];
    run := [put, delete, Reopen];
    LatestAppend(History(ttl, [put]), Dropped({key}), key);
    LatestAppend(History(ttl, [put, delete]), Dropped(Forgotten(After(ttl, [put, delete]))), key);
    OthersEnabled(max, After(ttl, [put]), delete);
    OthersEnabled(max, After(ttl, [put, delete]), Reopen);
  }

  lemma OthersEnabled(max: int, s: State, step: Step)
    requires step.Reopen? || (step.Delete? && SumKey(step.key))
    ensures Enabled(max, s, step)
  {
  }

  lemma Extended(max: int, ttl: int, run: seq<Step>, step: Step)
    ensures var longer, s := run + [step], After(ttl, run);
            && After(ttl, longer) == Apply(ttl, s, step)
            && History(ttl, longer) == History(ttl, run) + Events(ttl, s, step)
            && (EnabledRun(max, ttl, longer) <==> EnabledRun(max, ttl, run) && Enabled(max, s, step))
  {
    assert (run + [step])[..|run|] == run;
  }

  lemma FirstPut(max: int, ttl: int, key: string, data: Bytes, io: Io)
    requires SumKey(key) && |data| <= max && io == Io(0, Done, true, {}, Stored)
    ensures Enabled(max, FRESH, Put(key, data, io, []))
    ensures var s := AfterPut(FRESH, key, data, io, []);
            && s.books.entries == map[key := NewEntry(key, data, 0)] && s.index == Saved(s.books.entries)
            && KeyPath(key) in s.files && s.files[KeyPath(key)] == data
  {
    assert Keys([]) == {};
    assert TotalOf([]) == 0;
  }
}
