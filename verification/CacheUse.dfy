/**
 Least recently used, over runs (internal/cache/store.go): the access time of an
 entry is the time of the last put or answered lookup of its key, so that what
 eviction does to access times it does to the history of use.
 */
module CacheUse {
  import opened Common
  import opened CacheEviction
  import opened CacheModel

  /** The step puts k, all the way. */
  predicate Puts(step: Step, k: string) {
    (step.Put? || step.PutBytes?) && step.io.write.Done? && step.key == k
  }

  /** The step is a lookup of k that is answered. */
  predicate Serves(ttl: int, s: State, step: Step, k: string) {
    step.Get? && step.key == k && GetResult(ttl, s, k, step.io).Some?
  }

  /** The time of the last completed put or answered lookup of k. */
  ghost function LastUse(ttl: int, run: seq<Step>, k: string): int {
    if run == [] then 0
    else
      var init, step := run[..|run| - 1], run[|run| - 1];
      if Puts(step, k) || Serves(ttl, After(ttl, init), step, k) then step.io.now else LastUse(ttl, init, k)
  }

  /** How often k was served since it was last put. */
  ghost function TimesServed(ttl: int, run: seq<Step>, k: string): nat {
    if run == [] then 0
    else
      var init, step := run[..|run| - 1], run[|run| - 1];
      if Puts(step, k) then 0
      else TimesServed(ttl, init, k) + if Serves(ttl, After(ttl, init), step, k) then 1 else 0
  }

  ghost predicate NeverReopened(run: seq<Step>) {
    forall i :: 0 <= i < |run| ==> !run[i].Reopen?
  }

  /** What a step makes of the entry of k, if there still is one. */
  lemma EntryAfter(max: int, ttl: int, s: State, step: Step, k: string)
    requires Enabled(max, s, step) && !step.Reopen? && k in Apply(ttl, s, step).books.entries
    ensures var e := Apply(ttl, s, step).books.entries[k];
            if Puts(step, k) then e.accessedAt == step.io.now && e.hits == 0
            else k in s.books.entries
                 && (if Serves(ttl, s, step, k)
                     then e.accessedAt == step.io.now && e.hits == s.books.entries[k].hits + 1
                     else e.accessedAt == s.books.entries[k].accessedAt && e.hits == s.books.entries[k].hits)
  {
    hide KeyPath, TmpPath, FilesLeft, Discarded, Eviction, TotalOf, Keys;
    if step.Put? || step.PutBytes? {
      KeyNotEmpty(step.key);
    }
    hide SumKey;
  }

  /** In every run without reopening an entry's access time is the time of its last use, and its hits are the lookups
      answered since it was put. */
  lemma {:induction false} AccessTimeIsLastUse(max: int, ttl: int, run: seq<Step>, k: string)
    requires EnabledRun(max, ttl, run) && NeverReopened(run) && k in After(ttl, run).books.entries
    ensures After(ttl, run).books.entries[k].accessedAt == LastUse(ttl, run, k)
    ensures After(ttl, run).books.entries[k].hits == TimesServed(ttl, run, k)
  {
    hide Apply, Enabled, Puts, Serves;
    if run != [] {
      var init, step := run[..|run| - 1], run[|run| - 1];
      EntryAfter(max, ttl, After(ttl, init), step, k);
      if !Puts(step, k) {
        AccessTimeIsLastUse(max, ttl, init, k);
      }
    }
  }

  /** Right after a save that worked, reopening gives back the books in every detail, access times and hits included. */
  lemma SavedInEveryDetail(max: int, ttl: int, run: seq<Step>)
    requires EnabledRun(max, ttl, run) && run != []
    requires var init, step := run[..|run| - 1], run[|run| - 1];
             Attempts(ttl, After(ttl, init), step) && step.io.save.Stored?
    ensures Reopened(After(ttl, run)).books == After(ttl, run).books
  {
    var init, step := run[..|run| - 1], run[|run| - 1];
    OrderAlways(max, ttl, run);
    NamedKey(max, After(ttl, init), step);
    hide KeyPath, TmpPath, Evicted, Inserted, FilesLeft, Discarded, Removed, Enabled, SizeSum, WellFiled;
  }

  // ---------------------------------------------------------------------
  // Eviction by use
  // ---------------------------------------------------------------------

  /** The run ends with a put that completes. */
  ghost predicate EndsWithPut(max: int, ttl: int, run: seq<Step>) {
    && EnabledRun(max, ttl, run) && NeverReopened(run) && run != []
    && Puts(run[|run| - 1], if run[|run| - 1].Put? || run[|run| - 1].PutBytes? then run[|run| - 1].key else "")
  }

  /** The entries just before that put evicts: those booked before, and the new one. */
  ghost function BeforeEviction(ttl: int, run: seq<Step>): Entries
    requires run != [] && (run[|run| - 1].Put? || run[|run| - 1].PutBytes?)
  {
    var step := run[|run| - 1];
    Inserted(After(ttl, run[..|run| - 1]).books, NewEntry(step.key, step.data, step.io.now)).entries
  }

  /** What the put leaves is what eviction leaves of these. */
  lemma PutEvicts(max: int, ttl: int, run: seq<Step>)
    requires EndsWithPut(max, ttl, run)
    ensures var m, step := BeforeEviction(ttl, run), run[|run| - 1];
            && WellFiled(m) && Eviction(m, SizeSum(m), max, step.victims)
            && After(ttl, run).books.entries == Without(m, step.victims)
  {
    var init, step := run[..|run| - 1], run[|run| - 1];
    OrderAlways(max, ttl, init);
    KeyNotEmpty(step.key);
    hide Eviction, EnabledRun, Evicted;
    var s := After(ttl, init);
    SectionBalances(max, s.books, Insert(NewEntry(step.key, step.data, step.io.now)));
    CommittedBooks(s, step, ttl);
    EvictedEntries(Inserted(s.books, NewEntry(step.key, step.data, step.io.now)), step.victims);
  }

  lemma EvictedEntries(b: Books, victims: seq<Entry>)
    ensures Evicted(b, victims).entries == Without(b.entries, victims)
  {
  }

  /** Before evicting, access times are times of use, the put itself included. */
  lemma UseBeforeEviction(max: int, ttl: int, run: seq<Step>, k: string)
    requires EndsWithPut(max, ttl, run) && k in BeforeEviction(ttl, run)
    ensures BeforeEviction(ttl, run)[k].accessedAt == LastUse(ttl, run, k)
  {
    var init, step := run[..|run| - 1], run[|run| - 1];
    hide Apply, Enabled;
    if k != step.key {
      AccessTimeIsLastUse(max, ttl, init, k);
    }
  }

  /** No key that a put evicts was used after a key that stays. */
  lemma VictimsUsedNoLater(max: int, ttl: int, run: seq<Step>, v: string, k: string)
    requires EndsWithPut(max, ttl, run)
    requires v in BeforeEviction(ttl, run) && v !in After(ttl, run).books.entries && k in After(ttl, run).books.entries
    ensures LastUse(ttl, run, v) <= LastUse(ttl, run, k)
  {
    hide EnabledRun, Eviction, BeforeEviction, LastUse, After;
    PutEvicts(max, ttl, run);
    var m, victims := BeforeEviction(ttl, run), run[|run| - 1].victims;
    UseBeforeEviction(max, ttl, run, v);
    UseBeforeEviction(max, ttl, run, k);
    var n :| 0 <= n < |victims| && victims[n].key == v;
    VictimsAreOldest(m, SizeSum(m), max, victims, n, k);
    VictimIsEntry(m, SizeSum(m), max, victims, n);
  }

  lemma VictimIsEntry(m: Entries, total: int, max: int, victims: seq<Entry>, n: nat)
    requires Eviction(m, total, max, victims) && n < |victims|
    ensures victims[n].key in m && m[victims[n].key] == victims[n]
  {
    var survivors :| CutsAt(m, total, max, victims, survivors);
    ListsMember(victims + survivors, m, n);
    assert (victims + survivors)[n] == victims[n];
  }

  /** The entries before the eviction whose keys were used no earlier than k. */
  ghost function UsedNoEarlier(ttl: int, run: seq<Step>, k: string): Entries
    requires run != [] && (run[|run| - 1].Put? || run[|run| - 1].PutBytes?)
  {
    var m := BeforeEviction(ttl, run);
    map l | l in m && LastUse(ttl, run, l) >= LastUse(ttl, run, k) :: m[l]
  }

  /** A key survives a put as long as it and all keys used no earlier fit four fifths of the limit together. */
  lemma RecentlyUsedSurvives(max: int, ttl: int, run: seq<Step>, k: string)
    requires EndsWithPut(max, ttl, run) && k in BeforeEviction(ttl, run)
    requires 5 * SizeSum(UsedNoEarlier(ttl, run, k)) <= 4 * max
    ensures k in After(ttl, run).books.entries
  {
    hide EnabledRun, Eviction, BeforeEviction, LastUse, After, SizeSum;
    PutEvicts(max, ttl, run);
    var m := BeforeEviction(ttl, run);
    forall l | l in m
      ensures m[l].accessedAt == LastUse(ttl, run, l)
    {
      UseBeforeEviction(max, ttl, run, l);
    }
    assert NoEarlier(m, k) == UsedNoEarlier(ttl, run, k);
    UsedFiled(ttl, run, k);
    SizeSumNonNegative(UsedNoEarlier(ttl, run, k));
    GoalIsFourFifths(max);
    RecentSurvives(m, max, run[|run| - 1].victims, k);
  }

  lemma UsedFiled(ttl: int, run: seq<Step>, k: string)
    requires run != [] && (run[|run| - 1].Put? || run[|run| - 1].PutBytes?) && WellFiled(BeforeEviction(ttl, run))
    ensures WellFiled(UsedNoEarlier(ttl, run, k))
  {
    hide BeforeEviction, LastUse;
  }

  /** A put that keeps the store within its limit drops nothing. */
  lemma RoomyPutDropsNothing(max: int, ttl: int, run: seq<Step>)
    requires EndsWithPut(max, ttl, run) && SizeSum(BeforeEviction(ttl, run)) <= max
    ensures After(ttl, run).books.entries == BeforeEviction(ttl, run)
  {
    hide EnabledRun, Eviction, BeforeEviction, After;
    PutEvicts(max, ttl, run);
    NothingEvictedWithinLimit(BeforeEviction(ttl, run), max, run[|run| - 1].victims);
  }

  /** A key served later than every other booked key was used, and fitting the goal together with what is put next,
      survives that put. */
  lemma JustServedSurvives(max: int, ttl: int, before: seq<Step>, get: Step, put: Step)
    requires var run := before + [get] + [put];
             && EndsWithPut(max, ttl, run) && get.Get? && Serves(ttl, After(ttl, before), get, get.key)
             && put.key != get.key && get.key in After(ttl, before).books.entries
    requires forall l :: l in After(ttl, before).books.entries && l != get.key ==> LastUse(ttl, before, l) < get.io.now
    requires 5 * (After(ttl, before).books.entries[get.key].size + |put.data|) <= 4 * max
    ensures get.key in After(ttl, before + [get] + [put]).books.entries
  {
    var k, served := get.key, before + [get];
    var run := served + [put];
    assert served[..|before|] == before && run[..|served|] == served && run[|served|] == put;
    var s, t := After(ttl, before), After(ttl, served);
    assert t == AfterGet(ttl, s, k, get.io);
    assert t.books == Touched(s.books, k, get.io.now);
    var m := BeforeEviction(ttl, run);
    assert m == t.books.entries[put.key := NewEntry(put.key, put.data, put.io.now)];
    forall l | l in m && l != k && l != put.key
      ensures LastUse(ttl, run, l) < LastUse(ttl, run, k)
    {
      assert LastUse(ttl, run, l) == LastUse(ttl, served, l) == LastUse(ttl, before, l);
      assert LastUse(ttl, run, k) == LastUse(ttl, served, k) == get.io.now;
    }
    var recent := UsedNoEarlier(ttl, run, k);
    PutEvicts(max, ttl, run);
    AtMostTwo(recent, m, k, put.key);
    RecentlyUsedSurvives(max, ttl, run, k);
  }

  lemma AtMostTwo(recent: Entries, m: Entries, k: string, l: string)
    requires WellFiled(m) && k in m && l in m && k != l
    requires recent.Keys <= {k, l} && forall j :: j in recent ==> j in m && recent[j] == m[j]
    ensures SizeSum(recent) <= m[k].size + m[l].size
  {
    var two := map[k := m[k], l := m[l]];
    SizeSumRemove(two, k);
    assert two - {k} == map[l := m[l]];
    SizeSumRemove(map[l := m[l]], l);
    assert map[l := m[l]] - {l} == map[];
    SizeSumWithin(recent, two);
  }

  // ---------------------------------------------------------------------
  // The disk holds what the books say
  // ---------------------------------------------------------------------

  /** Everything can be removed, and no in-place write breaks off over an absent key. */
  predicate Unhindered(s: State, step: Step) {
    && (!step.Reopen? ==> step.io.stuck == {})
    && !(step.PutBytes? && step.io.write.Failed? && step.key !in s.books.entries)
  }

  ghost predicate UnhinderedRun(ttl: int, run: seq<Step>) {
    run == [] || (UnhinderedRun(ttl, run[..|run| - 1]) && Unhindered(After(ttl, run[..|run| - 1]), run[|run| - 1]))
  }

  /** k has a file exactly when it is booked, and no temporary file. */
  ghost predicate OnDisk(s: State, k: string) {
    (KeyPath(k) in s.files <==> k in s.books.entries) && TmpPath(k) !in s.files
  }

  lemma FilesLeftOnly(files: map<string, Bytes>, victims: seq<Entry>, k: string)
    requires SumKey(k) && forall i :: 0 <= i < |victims| ==> SumKey(victims[i].key)
    ensures KeyPath(k) in FilesLeft(files, victims, {}) <==> KeyPath(k) in files && k !in Keys(victims)
    ensures TmpPath(k) in FilesLeft(files, victims, {}) <==> TmpPath(k) in files
  {
    hide KeyPath, TmpPath, SumKey;
    forall i | 0 <= i < |victims|
      ensures KeyPath(victims[i].key) != TmpPath(k) && (KeyPath(victims[i].key) == KeyPath(k) ==> victims[i].key == k)
    {
      PathsApart(victims[i].key, k);
    }
  }

  lemma CommitOnDisk(max: int, s: State, files: map<string, Bytes>, key: string, data: Bytes, io: Io, victims: seq<Entry>, k: string)
    requires Orderly(s) && CanCommit(max, s, key, data, io, victims) && io.stuck == {} && SumKey(k)
    requires (KeyPath(k) in files <==> k == key || k in s.books.entries) && TmpPath(k) !in files
    ensures OnDisk(Committed(s.(files := files), key, data, io, victims), k)
  {
    hide Eviction, KeyPath, TmpPath, SumKey, BooksBalance, WellFiled, FilesLeft;
    var b := Inserted(s.books, NewEntry(key, data, io.now));
    VictimsKnown(b.entries, b.totalSize, max, victims);
    FilesLeftOnly(files, victims, k);
  }

  lemma PutOnDisk(max: int, ttl: int, s: State, step: Step, k: string)
    requires Orderly(s) && Enabled(max, s, step) && Unhindered(s, step) && (step.Put? || step.PutBytes?)
    requires SumKey(k) && OnDisk(s, k)
    ensures OnDisk(Apply(ttl, s, step), k)
  {
    var key := step.key;
    KeyNotEmpty(key);
    PathsApart(k, key);
    PathsApart(key, k);
    TmpApart(k, key);
    hide KeyPath, TmpPath, Eviction, Committed, Orderly, SumKey;
    if step.io.write.Done? {
      var files := if step.Put? then (s.files - {TmpPath(key)})[KeyPath(key) := step.data] else s.files[KeyPath(key) := step.data];
      CommitOnDisk(max, s, files, key, step.data, step.io, step.victims, k);
    }
  }

  lemma TmpApart(k: string, l: string)
    requires SumKey(k) && SumKey(l)
    ensures TmpPath(k) == TmpPath(l) ==> k == l
  {
    assert k == TmpPath(k)[3..19] && l == TmpPath(l)[3..19];
  }

  lemma OtherOnDisk(max: int, ttl: int, s: State, step: Step, k: string)
    requires Enabled(max, s, step) && Unhindered(s, step) && (step.Get? || step.Delete? || step.Clear?)
    requires SumKey(k) && OnDisk(s, k)
    ensures OnDisk(Apply(ttl, s, step), k)
  {
    if !step.Clear? {
      PathsApart(k, step.key);
      PathsApart(step.key, k);
    }
    hide KeyPath, TmpPath, Eviction, SumKey;
  }

  /** As long as files can be removed, the files under the store's paths are those of the booked keys, and nothing is left
      of temporary files, evicted, expired, deleted or cleared entries. */
  lemma {:induction false} DiskMatchesBooks(max: int, ttl: int, run: seq<Step>, k: string)
    requires EnabledRun(max, ttl, run) && NeverReopened(run) && UnhinderedRun(ttl, run) && SumKey(k)
    ensures OnDisk(After(ttl, run), k)
  {
    hide Apply, Enabled, OnDisk, Unhindered, SumKey;
    if run == [] {
      FreshOnDisk(k);
    } else {
      var init, step := run[..|run| - 1], run[|run| - 1];
      DiskMatchesBooks(max, ttl, init, k);
      OrderAlways(max, ttl, init);
      if step.Put? || step.PutBytes? {
        PutOnDisk(max, ttl, After(ttl, init), step, k);
      } else {
        OtherOnDisk(max, ttl, After(ttl, init), step, k);
      }
    }
  }

  lemma FreshOnDisk(k: string)
    ensures OnDisk(FRESH, k)
  {
  }
}
