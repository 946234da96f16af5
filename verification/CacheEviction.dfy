/**
 Byte accounting and eviction of the local cache (internal/cache/store.go,
 evictIfNeeded and the sections of the other operations that run under the
 write lock).
 */
module CacheEviction {
  import opened Common

  datatype Entry = Entry(key: string, size: int, createdAt: int, accessedAt: int, hits: int)

  type Entries = map<string, Entry>

  /** Every entry is filed under its own key, with a size that can be one. */
  ghost predicate WellFiled(m: Entries) {
    forall k :: k in m ==> m[k].key == k && m[k].size >= 0
  }

  // ---------------------------------------------------------------------
  // Sums of sizes
  // ---------------------------------------------------------------------

  ghost function SizeSum(m: Entries): int {
    if m == map[] then 0
    else
      var k :| k in m;
      m[k].size + SizeSum(m - {k})
  }

  lemma {:induction false} SizeSumRemove(m: Entries, k: string)
    requires k in m
    ensures SizeSum(m) == m[k].size + SizeSum(m - {k})
    decreases |m|
  {
    var l :| l in m && SizeSum(m) == m[l].size + SizeSum(m - {l});
    if l != k {
      SizeSumRemove(m - {l}, k);
      SizeSumRemove(m - {k}, l);
      assert m - {l} - {k} == m - {k} - {l};
    }
  }

  lemma SizeSumInsert(m: Entries, k: string, e: Entry)
    ensures SizeSum(m[k := e]) == SizeSum(m) + e.size - (if k in m then m[k].size else 0)
  {
    SizeSumRemove(m[k := e], k);
    assert m[k := e] - {k} == m - {k};
    if k in m {
      SizeSumRemove(m, k);
    } else {
      assert m - {k} == m;
    }
  }

  ghost predicate SameSizes(m: Entries, m': Entries) {
    m.Keys == m'.Keys && forall k :: k in m ==> m[k].size == m'[k].size
  }

  lemma {:induction false} SizeSumSame(m: Entries, m': Entries)
    requires SameSizes(m, m')
    ensures SizeSum(m) == SizeSum(m')
    decreases |m|
  {
    if m == map[] {
      assert m' == map[];
    } else {
      var k :| k in m;
      SizeSumRemove(m, k);
      SizeSumRemove(m', k);
      SizeSumSame(m - {k}, m' - {k});
    }
  }

  lemma {:induction false} SizeSumNonNegative(m: Entries)
    requires WellFiled(m)
    ensures SizeSum(m) >= 0
    decreases |m|
  {
    if m != map[] {
      var k :| k in m;
      SizeSumRemove(m, k);
      SizeSumNonNegative(m - {k});
    }
  }

  // ---------------------------------------------------------------------
  // Listings of a map
  // ---------------------------------------------------------------------

  /** es holds every entry of m exactly once, in any order. */
  ghost predicate Lists(es: seq<Entry>, m: Entries) {
    forall e :: multiset(es)[e] == if e.key in m && m[e.key] == e then 1 else 0
  }

  function TotalOf(es: seq<Entry>): int {
    if es == [] then 0 else TotalOf(es[..|es| - 1]) + es[|es| - 1].size
  }

  /** What loadIndex makes of a list: a later entry replaces an earlier one with the same key. */
  function Loaded(es: seq<Entry>): Entries {
    if es == [] then map[] else Loaded(es[..|es| - 1])[es[|es| - 1].key := es[|es| - 1]]
  }

  lemma ListsLast(es: seq<Entry>, m: Entries)
    requires Lists(es, m) && es != []
    ensures var e := es[|es| - 1]; e.key in m && m[e.key] == e && Lists(es[..|es| - 1], m - {e.key})
  {
    var init, e := es[..|es| - 1], es[|es| - 1];
    assert es == init + [e];
    assert multiset(es) == multiset(init) + multiset{e};
    assert multiset(es)[e] > 0;
    forall d: Entry
      ensures multiset(init)[d] == if d.key in m - {e.key} && (m - {e.key})[d.key] == d then 1 else 0
    {
      assert multiset(es)[d] == multiset(init)[d] + multiset{e}[d];
    }
  }

  lemma ListsEmpty(es: seq<Entry>, m: Entries)
    requires Lists(es, m) && es == [] && WellFiled(m)
    ensures m == map[]
  {
    assert forall k :: k in m ==> multiset(es)[m[k]] == 1;
  }

  /** Loading a listing gives back the map it lists and the sum of its sizes. */
  lemma {:induction false} ListingLoads(es: seq<Entry>, m: Entries)
    requires Lists(es, m) && WellFiled(m)
    ensures Loaded(es) == m && TotalOf(es) == SizeSum(m)
  {
    if es == [] {
      ListsEmpty(es, m);
    } else {
      var e := es[|es| - 1];
      ListsLast(es, m);
      ListingLoads(es[..|es| - 1], m - {e.key});
      SizeSumRemove(m, e.key);
    }
  }

  /** Two positions of a listing hold different keys. */
  lemma {:induction false} ListsDistinct(es: seq<Entry>, m: Entries, i: nat, j: nat)
    requires Lists(es, m) && i < j < |es|
    ensures es[i].key != es[j].key
  {
    var e := es[|es| - 1];
    ListsLast(es, m);
    if j < |es| - 1 {
      ListsDistinct(es[..|es| - 1], m - {e.key}, i, j);
    } else {
      var init := es[..|es| - 1];
      assert init[i] in multiset(init);
    }
  }

  lemma ListsMember(es: seq<Entry>, m: Entries, i: nat)
    requires Lists(es, m) && i < |es|
    ensures es[i].key in m && m[es[i].key] == es[i]
  {
    assert es[i] in multiset(es);
  }

  lemma TotalOfAppend(es: seq<Entry>, e: Entry)
    ensures TotalOf(es + [e]) == TotalOf(es) + e.size
  {
    assert (es + [e])[..|es|] == es;
  }

  /** Adding an entry under a new key extends a listing. */
  lemma ListsAppend(es: seq<Entry>, m: Entries, e: Entry)
    requires Lists(es, m) && e.key !in m
    ensures Lists(es + [e], m[e.key := e])
  {
    forall d: Entry
      ensures multiset(es + [e])[d] == if d.key in m[e.key := e] && m[e.key := e][d.key] == d then 1 else 0
    {
      assert multiset(es)[d] == if d.key in m && m[d.key] == d then 1 else 0;
    }
  }

  // ---------------------------------------------------------------------
  // Sorting by access time
  // ---------------------------------------------------------------------

  ghost predicate Ordered(es: seq<Entry>) {
    forall i, j :: 0 <= i < j < |es| ==> es[i].accessedAt <= es[j].accessedAt
  }

  /** Nothing before position i was accessed after anything from there on. */
  ghost predicate Below(es: seq<Entry>, i: int) {
    forall p, q :: 0 <= p < i <= q < |es| ==> es[p].accessedAt <= es[q].accessedAt
  }

  method Exchange(a: array<Entry>, i: nat, j: nat)
    requires i < j < a.Length
    modifies a
    ensures multiset(a[..]) == multiset(old(a[..]))
    ensures a[i] == old(a[j]) && a[j] == old(a[i])
    ensures forall k :: 0 <= k < a.Length && k != i && k != j ==> a[k] == old(a[k])
  {
    a[i], a[j] := a[j], a[i];
  }

  ghost predicate PassInv(es: seq<Entry>, i: int, j: int)
    requires 0 <= i < j <= |es|
  {
    Ordered(es[..i]) && Below(es, i) && forall q :: i < q < j ==> es[i].accessedAt <= es[q].accessedAt
  }

  lemma PassStep(es: seq<Entry>, es': seq<Entry>, i: nat, j: nat)
    requires i < j < |es| && PassInv(es, i, j) && |es'| == |es|
    requires if es[i].accessedAt > es[j].accessedAt then es' == es[i := es[j]][j := es[i]] else es' == es
    ensures PassInv(es', i, j + 1)
  {
    assert es'[..i] == es[..i];
  }

  lemma PassDone(es: seq<Entry>, i: nat)
    requires i < |es| && PassInv(es, i, |es|)
    ensures Ordered(es[..i + 1]) && Below(es, i + 1)
  {
    assert forall p :: 0 <= p < i ==> es[..i][p] == es[p];
  }

  /** One pass of the exchange sort: position i receives the oldest entry from there on. */
  method ExchangePass(a: array<Entry>, i: nat)
    requires i < a.Length && Ordered(a[..i]) && Below(a[..], i)
    modifies a
    ensures multiset(a[..]) == multiset(old(a[..]))
    ensures Ordered(a[..i + 1]) && Below(a[..], i + 1)
  {
    hide Ordered, Below;
    assert a[..][..i] == a[..i];
    for j := i + 1 to a.Length
      invariant multiset(a[..]) == multiset(old(a[..]))
      invariant PassInv(a[..], i, j)
    {
      ghost var before := a[..];
      if a[i].accessedAt > a[j].accessedAt {
        Exchange(a, i, j);
        assert a[..] == before[i := before[j]][j := before[i]];
      }
      PassStep(before, a[..], i, j);
    }
    PassDone(a[..], i);
    assert a[..][..i + 1] == a[..i + 1];
  }

  /** The nested exchange loops give an access-time-ordered permutation. */
  method ExchangeSort(a: array<Entry>)
    modifies a
    ensures multiset(a[..]) == multiset(old(a[..]))
    ensures Ordered(a[..])
  {
    var i := 0;
    while i < a.Length - 1
      invariant i <= a.Length
      invariant a.Length > 0 ==> i <= a.Length - 1
      invariant multiset(a[..]) == multiset(old(a[..]))
      invariant Ordered(a[..i]) && Below(a[..], i)
    {
      ExchangePass(a, i);
      i := i + 1;
    }
    assert a[..][..i] == a[..i];
    OrderedWhenOneLeft(a[..], i);
  }

  lemma OrderedWhenOneLeft(es: seq<Entry>, i: nat)
    requires i <= |es| <= i + 1 && Ordered(es[..i]) && Below(es, i)
    ensures Ordered(es)
  {
    forall p, q | 0 <= p < q < |es|
      ensures es[p].accessedAt <= es[q].accessedAt
    {
      if q < i {
        assert es[p] == es[..i][p] && es[q] == es[..i][q];
      }
    }
  }

  // ---------------------------------------------------------------------
  // What is evicted
  // ---------------------------------------------------------------------

  /** 80% of the limit, in Go's truncating integer arithmetic. */
  function Goal(max: int): int {
    GoDiv(max * 8, 10)
  }

  /** The goal is four fifths of the limit, rounded toward zero. */
  lemma GoalIsFourFifths(max: int)
    ensures max >= 0 ==> 5 * Goal(max) <= 4 * max < 5 * Goal(max) + 5
    ensures max <= 0 ==> 5 * Goal(max) - 5 < 4 * max <= 5 * Goal(max)
  {
  }

  /** victims, then survivors, lists the map oldest first; victims stops as soon as the rest fits the goal. */
  ghost predicate CutsAt(m: Entries, total: int, max: int, victims: seq<Entry>, survivors: seq<Entry>) {
    && Lists(victims + survivors, m)
    && Ordered(victims + survivors)
    && (survivors == [] || total - TotalOf(victims) <= Goal(max))
    && (forall n :: 0 <= n < |victims| ==> total - TotalOf(victims[..n]) > Goal(max))
  }

  /** victims is what evictIfNeeded removes, and the order in which it does. */
  ghost predicate Eviction(m: Entries, total: int, max: int, victims: seq<Entry>) {
    if total <= max then victims == []
    else exists survivors :: CutsAt(m, total, max, victims, survivors)
  }

  function Keys(es: seq<Entry>): set<string> {
    set i | 0 <= i < |es| :: es[i].key
  }

  function Without(m: Entries, victims: seq<Entry>): Entries {
    m - Keys(victims)
  }

  lemma KeysAppend(es: seq<Entry>, e: Entry)
    ensures Keys(es + [e]) == Keys(es) + {e.key}
  {
    assert (es + [e])[|es|] == e;
    assert forall i :: 0 <= i < |es| ==> (es + [e])[i] == es[i];
  }

  /** Removing a prefix of a listing leaves a map listed by the rest, and takes the prefix's bytes off the sum. */
  lemma {:induction false} PrefixRemoved(m: Entries, victims: seq<Entry>, survivors: seq<Entry>)
    requires Lists(victims + survivors, m) && WellFiled(m)
    ensures SizeSum(Without(m, victims)) == SizeSum(m) - TotalOf(victims)
    ensures Lists(survivors, Without(m, victims))
    decreases |victims|
  {
    hide Lists, WellFiled, SizeSum;
    if victims == [] {
      assert victims + survivors == survivors && Without(m, victims) == m;
    } else {
      var init, e := victims[..|victims| - 1], victims[|victims| - 1];
      assert victims == init + [e];
      assert victims + survivors == init + ([e] + survivors);
      PrefixRemoved(m, init, [e] + survivors);
      KeysAppend(init, e);
      var left := Without(m, init);
      FirstRemoved(left, e, survivors);
      assert Without(m, victims) == left - {e.key};
      SizeSumRemove(left, e.key);
    }
  }

  lemma FirstRemoved(m: Entries, e: Entry, rest: seq<Entry>)
    requires Lists([e] + rest, m)
    ensures e.key in m && m[e.key] == e && Lists(rest, m - {e.key})
  {
    ListsMember([e] + rest, m, 0);
    forall d: Entry
      ensures multiset(rest)[d] == if d.key in m - {e.key} && (m - {e.key})[d.key] == d then 1 else 0
    {
      assert multiset([e] + rest)[d] == multiset{e}[d] + multiset(rest)[d];
    }
  }

  /** Evicting keeps the byte count equal to the sum of the sizes. */
  lemma EvictionAccounts(m: Entries, max: int, victims: seq<Entry>)
    requires WellFiled(m) && Eviction(m, SizeSum(m), max, victims)
    ensures SizeSum(Without(m, victims)) == SizeSum(m) - TotalOf(victims)
  {
    if SizeSum(m) <= max {
      assert Without(m, victims) == m;
    } else {
      var survivors :| CutsAt(m, SizeSum(m), max, victims, survivors);
      PrefixRemoved(m, victims, survivors);
    }
  }

  /** No victim was accessed after an entry that stays. */
  lemma VictimsAreOldest(m: Entries, total: int, max: int, victims: seq<Entry>, n: nat, k: string)
    requires WellFiled(m) && Eviction(m, total, max, victims) && n < |victims| && k in Without(m, victims)
    ensures victims[n].accessedAt <= m[k].accessedAt
  {
    var survivors :| CutsAt(m, total, max, victims, survivors);
    var es := victims + survivors;
    assert forall i :: 0 <= i < |victims| ==> es[i].key in Keys(victims);
    assert multiset(es)[m[k]] == 1;
    assert m[k] in es;
    var j :| 0 <= j < |es| && es[j] == m[k];
    assert es[n] == victims[n];
  }

  /** The victims are a minimal prefix: before the last one went, the rest did not fit the goal; afterwards it does, or nothing is left. */
  lemma VictimsAreMinimal(m: Entries, max: int, victims: seq<Entry>)
    requires WellFiled(m) && Eviction(m, SizeSum(m), max, victims) && SizeSum(m) > max
    ensures SizeSum(Without(m, victims)) <= Goal(max) || Without(m, victims) == map[]
    ensures forall n :: 0 <= n < |victims| ==> SizeSum(Without(m, victims[..n])) > Goal(max)
  {
    hide Lists, Ordered, WellFiled, SizeSum, Without, TotalOf, Goal;
    var survivors :| CutsAt(m, SizeSum(m), max, victims, survivors);
    PrefixRemoved(m, victims, survivors);
    if survivors == [] {
      LeavesWellFiled(m, victims);
      ListsEmpty(survivors, Without(m, victims));
    }
    forall n | 0 <= n < |victims|
      ensures SizeSum(Without(m, victims[..n])) > Goal(max)
    {
      assert victims[..n] + (victims[n..] + survivors) == victims + survivors;
      PrefixRemoved(m, victims[..n], victims[n..] + survivors);
    }
  }

  lemma LeavesWellFiled(m: Entries, victims: seq<Entry>)
    requires WellFiled(m)
    ensures WellFiled(Without(m, victims))
  {
  }

  /** After eviction the store is within its limit exactly when that limit is not negative. */
  lemma WithinLimit(m: Entries, max: int, victims: seq<Entry>)
    requires WellFiled(m) && Eviction(m, SizeSum(m), max, victims)
    ensures SizeSum(Without(m, victims)) <= max <==> max >= 0
  {
    SizeSumNonNegative(Without(m, victims));
    EvictionAccounts(m, max, victims);
    if SizeSum(m) > max >= 0 {
      VictimsAreMinimal(m, max, victims);
    }
  }

  /** In an oldest-first listing the strictly latest entry is the last. */
  lemma LatestIsLast(m: Entries, es: seq<Entry>, n: nat)
    requires Lists(es, m) && Ordered(es) && n < |es| && es[n].key in m && StrictlyLatest(m, es[n].key)
    ensures n == |es| - 1
  {
    if n < |es| - 1 {
      ListsMember(es, m, n);
      ListsMember(es, m, n + 1);
      ListsDistinct(es, m, n, n + 1);
      assert false;
    }
  }

  lemma OnlyLastLeft(m: Entries, victims: seq<Entry>)
    requires WellFiled(m) && Lists(victims + [], m) && victims != []
    ensures var n := |victims| - 1;
            victims[n].key in m && m[victims[n].key] == victims[n]
            && SizeSum(m) - TotalOf(victims[..n]) == victims[n].size
  {
    assert victims + [] == victims;
    ListsMember(victims, m, |victims| - 1);
    ListingLoads(victims, m);
  }

  ghost predicate StrictlyLatest(m: Entries, k: string)
    requires k in m
  {
    forall l :: l in m && l != k ==> m[l].accessedAt < m[k].accessedAt
  }

  /** A strictly latest entry that is evicted goes last, so it alone exceeds the goal. */
  lemma LatestVictimIsLarge(m: Entries, max: int, victims: seq<Entry>, survivors: seq<Entry>, n: nat)
    requires WellFiled(m) && CutsAt(m, SizeSum(m), max, victims, survivors) && n < |victims|
    requires victims[n].key in m && StrictlyLatest(m, victims[n].key)
    ensures m[victims[n].key].size > Goal(max)
  {
    hide Lists, WellFiled, SizeSum, TotalOf, Goal, Ordered;
    var es := victims + survivors;
    assert es[n] == victims[n];
    LatestIsLast(m, es, n);
    assert survivors == [];
    OnlyLastLeft(m, victims);
  }

  /** An entry accessed strictly after all others, and no larger than the goal, is never evicted. */
  lemma MostRecentSurvives(m: Entries, max: int, victims: seq<Entry>, k: string)
    requires WellFiled(m) && Eviction(m, SizeSum(m), max, victims) && k in m
    requires m[k].size <= Goal(max) && StrictlyLatest(m, k)
    ensures k in Without(m, victims)
  {
    hide CutsAt, WellFiled, SizeSum, Goal;
    if k in Keys(victims) {
      var n :| 0 <= n < |victims| && victims[n].key == k;
      var survivors :| CutsAt(m, SizeSum(m), max, victims, survivors);
      LatestVictimIsLarge(m, max, victims, survivors, n);
      assert false;
    }
  }

  /** Nothing is evicted from a store within its limit. */
  lemma NothingEvictedWithinLimit(m: Entries, max: int, victims: seq<Entry>)
    requires Eviction(m, SizeSum(m), max, victims) && SizeSum(m) <= max
    ensures Without(m, victims) == m
  {
  }

  /** The entries accessed no earlier than k. */
  ghost function NoEarlier(m: Entries, k: string): Entries
    requires k in m
  {
    map l | l in m && m[l].accessedAt >= m[k].accessedAt :: m[l]
  }

  lemma {:induction false} SizeSumWithin(m: Entries, m': Entries)
    requires WellFiled(m') && m.Keys <= m'.Keys && forall k :: k in m ==> m[k] == m'[k]
    ensures SizeSum(m) <= SizeSum(m')
    decreases |m'|
  {
    if m' != map[] {
      var k :| k in m';
      SizeSumRemove(m', k);
      if k in m {
        SizeSumRemove(m, k);
      } else {
        assert m - {k} == m;
      }
      SizeSumWithin(m - {k}, m' - {k});
    }
  }

  /** Whatever an oldest-first listing has from position n on was accessed no earlier than its n-th entry. */
  lemma RestIsNoEarlier(m: Entries, es: seq<Entry>, n: nat)
    requires Lists(es, m) && Ordered(es) && n < |es| && es[n].key in m && m[es[n].key] == es[n] && WellFiled(m)
    ensures var rest := Without(m, es[..n]);
            rest.Keys <= NoEarlier(m, es[n].key).Keys && forall l :: l in rest ==> rest[l] == NoEarlier(m, es[n].key)[l]
  {
    assert forall j :: 0 <= j < n ==> es[j] == es[..n][j] && es[..n][j].key in Keys(es[..n]);
    forall l | l in Without(m, es[..n])
      ensures m[l].accessedAt >= es[n].accessedAt
    {
      assert multiset(es)[m[l]] == 1;
      assert m[l] in es;
      var j :| 0 <= j < |es| && es[j] == m[l];
      assert j >= n;
    }
  }

  /** An entry is safe as long as it and all entries accessed no earlier fit the goal together. */
  lemma RecentSurvives(m: Entries, max: int, victims: seq<Entry>, k: string)
    requires WellFiled(m) && Eviction(m, SizeSum(m), max, victims) && k in m && SizeSum(NoEarlier(m, k)) <= Goal(max)
    ensures k in Without(m, victims)
  {
    hide WellFiled, SizeSum, Goal, NoEarlier, Lists, Ordered, TotalOf;
    if k in Keys(victims) {
      var n :| 0 <= n < |victims| && victims[n].key == k;
      var survivors :| CutsAt(m, SizeSum(m), max, victims, survivors);
      VictimIsLarge(m, max, victims, survivors, n);
      assert false;
    }
  }

  lemma VictimIsLarge(m: Entries, max: int, victims: seq<Entry>, survivors: seq<Entry>, n: nat)
    requires WellFiled(m) && CutsAt(m, SizeSum(m), max, victims, survivors) && n < |victims|
    ensures victims[n].key in m && SizeSum(NoEarlier(m, victims[n].key)) > Goal(max)
  {
    hide WellFiled, SizeSum, Goal, Lists, Ordered, TotalOf, NoEarlier, Without;
    var es := victims + survivors;
    var earlier := victims[..n];
    assert es[n] == victims[n] && es[..n] == earlier;
    ListsMember(es, m, n);
    RestIsNoEarlier(m, es, n);
    assert earlier + (victims[n..] + survivors) == es;
    PrefixRemoved(m, earlier, victims[n..] + survivors);
    NoEarlierFiled(m, victims[n].key);
    SizeSumWithin(Without(m, earlier), NoEarlier(m, victims[n].key));
  }

  lemma NoEarlierFiled(m: Entries, k: string)
    requires WellFiled(m) && k in m
    ensures WellFiled(NoEarlier(m, k))
  {
  }

  // ---------------------------------------------------------------------
  // The sections that run under the write lock
  // ---------------------------------------------------------------------

  datatype Books = Books(entries: Entries, totalSize: int)

  function Inserted(b: Books, e: Entry): Books {
    var freed := if e.key in b.entries then b.entries[e.key].size else 0;
    Books(b.entries[e.key := e], b.totalSize - freed + e.size)
  }

  function Removed(b: Books, k: string): Books {
    if k in b.entries then Books(b.entries - {k}, b.totalSize - b.entries[k].size) else b
  }

  function Touched(b: Books, k: string, now: int): Books {
    if k in b.entries then
      b.(entries := b.entries[k := b.entries[k].(accessedAt := now, hits := b.entries[k].hits + 1)])
    else b
  }

  function Evicted(b: Books, victims: seq<Entry>): Books {
    Books(Without(b.entries, victims), b.totalSize - TotalOf(victims))
  }

  datatype Section = Insert(e: Entry) | Remove(k: string) | Touch(k: string, now: int) | Reset | Evict(victims: seq<Entry>)

  ghost predicate Allowed(max: int, b: Books, section: Section) {
    match section
    case Insert(e) => e.size >= 0
    case Evict(victims) => Eviction(b.entries, b.totalSize, max, victims)
    case _ => true
  }

  function Run(b: Books, section: Section): Books {
    match section
    case Insert(e) => Inserted(b, e)
    case Remove(k) => Removed(b, k)
    case Touch(k, now) => Touched(b, k, now)
    case Reset => Books(map[], 0)
    case Evict(victims) => Evicted(b, victims)
  }

  ghost predicate BooksBalance(b: Books) {
    WellFiled(b.entries) && b.totalSize == SizeSum(b.entries)
  }

  lemma SectionBalances(max: int, b: Books, section: Section)
    requires BooksBalance(b) && Allowed(max, b, section)
    ensures BooksBalance(Run(b, section))
  {
    match section
    case Insert(e) => SizeSumInsert(b.entries, e.key, e);
    case Remove(k) =>
      if k in b.entries {
        SizeSumRemove(b.entries, k);
      }
    case Touch(k, now) => SizeSumSame(b.entries, Touched(b, k, now).entries);
    case Reset =>
    case Evict(victims) => EvictionAccounts(b.entries, max, victims);
  }

  ghost function RunAll(b: Books, sections: seq<Section>): Books {
    if sections == [] then b else Run(RunAll(b, sections[..|sections| - 1]), sections[|sections| - 1])
  }

  ghost predicate AllAllowed(max: int, b: Books, sections: seq<Section>) {
    sections == []
    || (var init := sections[..|sections| - 1];
        AllAllowed(max, b, init) && Allowed(max, RunAll(b, init), sections[|sections| - 1]))
  }

  /** However the locked sections of concurrent operations interleave, totalSize is the sum of the entry sizes at every release. */
  lemma {:induction false} TotalSizeAlwaysBalances(max: int, b: Books, sections: seq<Section>)
    requires BooksBalance(b) && AllAllowed(max, b, sections)
    ensures BooksBalance(RunAll(b, sections))
  {
    if sections != [] {
      var init := sections[..|sections| - 1];
      TotalSizeAlwaysBalances(max, b, init);
      SectionBalances(max, RunAll(b, init), sections[|sections| - 1]);
    }
  }
}
