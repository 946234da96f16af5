/** Strings in lexicographic order, as sort.Strings orders them. */
module SortedStrings {

  predicate Leq(a: string, b: string) {
    a == "" || (b != "" && (a[0] < b[0] || (a[0] == b[0] && Leq(a[1..], b[1..]))))
  }

  lemma {:induction false} LeqTotal(a: string, b: string)
    ensures Leq(a, b) || Leq(b, a)
  {
    if a != "" && b != "" && a[0] == b[0] {
      LeqTotal(a[1..], b[1..]);
    }
  }

  lemma {:induction false} LeqAntisymmetric(a: string, b: string)
    requires Leq(a, b) && Leq(b, a)
    ensures a == b
  {
    if a != "" {
      LeqAntisymmetric(a[1..], b[1..]);
      assert a == [a[0]] + a[1..] && b == [b[0]] + b[1..];
    }
  }

  lemma {:induction false} LeqTransitive(a: string, b: string, c: string)
    requires Leq(a, b) && Leq(b, c)
    ensures Leq(a, c)
  {
    if a != "" && a[0] == b[0] == c[0] {
      LeqTransitive(a[1..], b[1..], c[1..]);
    }
  }

  ghost predicate Sorted(ss: seq<string>) {
    forall i, j :: 0 <= i < j < |ss| ==> Leq(ss[i], ss[j])
  }

  function Insert(s: string, ss: seq<string>): seq<string> {
    if ss == [] || Leq(s, ss[0]) then [s] + ss else [ss[0]] + Insert(s, ss[1..])
  }

  lemma {:induction false} InsertSorts(s: string, ss: seq<string>)
    requires Sorted(ss)
    ensures Sorted(Insert(s, ss)) && multiset(Insert(s, ss)) == multiset(ss) + multiset{s}
  {
    if ss == [] {
    } else if Leq(s, ss[0]) {
      forall i | 0 <= i < |ss|
        ensures Leq(s, ss[i])
      {
        if i > 0 {
          LeqTransitive(s, ss[0], ss[i]);
        }
      }
    } else {
      LeqTotal(s, ss[0]);
      InsertSorts(s, ss[1..]);
      var rest := Insert(s, ss[1..]);
      assert ss == [ss[0]] + ss[1..];
      forall i | 0 <= i < |rest|
        ensures Leq(ss[0], rest[i])
      {
        assert rest[i] in multiset(rest);
        assert rest[i] in ss[1..] || rest[i] == s;
      }
    }
  }

  /** What sort.Strings leaves: its contract is all that is used of it. */
  function Sort(ss: seq<string>): (r: seq<string>)
    ensures Sorted(r) && multiset(r) == multiset(ss)
  {
    if ss == [] then []
    else
      assert ss == [ss[0]] + ss[1..];
      InsertSorts(ss[0], Sort(ss[1..]));
      Insert(ss[0], Sort(ss[1..]))
  }

  lemma FirstOfSorted(a: seq<string>, b: seq<string>)
    requires Sorted(a) && Sorted(b) && multiset(a) == multiset(b) && a != [] && b != []
    ensures Leq(b[0], a[0])
  {
    assert a[0] in multiset(b);
    LeqReflexive(a[0]);
  }

  lemma {:induction false} LeqReflexive(a: string)
    ensures Leq(a, a)
  {
    if a != "" {
      LeqReflexive(a[1..]);
    }
  }

  lemma RestOfSorted(a: seq<string>)
    requires Sorted(a) && a != []
    ensures a == [a[0]] + a[1..] && Sorted(a[1..]) && multiset(a[1..]) == multiset(a) - multiset{a[0]}
  {
    assert a == [a[0]] + a[1..];
  }

  /** There is only one sorted arrangement. */
  lemma {:induction false} SortedUnique(a: seq<string>, b: seq<string>)
    requires Sorted(a) && Sorted(b) && multiset(a) == multiset(b)
    ensures a == b
  {
    hide Leq, Sorted;
    assert |a| == |multiset(a)| == |multiset(b)| == |b|;
    if a != [] {
      FirstOfSorted(a, b);
      FirstOfSorted(b, a);
      LeqAntisymmetric(a[0], b[0]);
      RestOfSorted(a);
      RestOfSorted(b);
      SortedUnique(a[1..], b[1..]);
    }
  }

  /** The keys of a map in sorted order. */
  ghost function SortedKeys(m: map<string, string>): (r: seq<string>)
    ensures Sorted(r) && multiset(r) == multiset(m.Keys)
    ensures forall k :: k in r <==> k in m
  {
    if m == map[] then []
    else
      var k :| k in m;
      InsertSorts(k, SortedKeys(m - {k}));
      assert m.Keys == (m - {k}).Keys + {k};
      var r := Insert(k, SortedKeys(m - {k}));
      assert forall l :: l in r <==> l in multiset(r);
      r
  }

  /** Collecting the keys in any order and sorting them gives SortedKeys. */
  lemma SortedKeysOf(m: map<string, string>, keys: seq<string>)
    requires multiset(keys) == multiset(m.Keys)
    ensures Sort(keys) == SortedKeys(m)
  {
    SortedUnique(Sort(keys), SortedKeys(m));
  }
}
