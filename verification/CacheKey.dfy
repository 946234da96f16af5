/**
 The byte streams that internal/cache/key.go feeds to the hash: every string is
 followed by a NUL, lists and maps are written in sorted order. What is proved
 here is about the stream; two different streams may of course hash alike.
 */
module CacheKey {
  import opened Common
  import opened SortedStrings

  const NUL: char := '\0'

  predicate NulFree(s: string) {
    NUL !in s
  }

  ghost predicate AllNulFree(ss: seq<string>) {
    forall i :: 0 <= i < |ss| ==> NulFree(ss[i])
  }

  function Encode(pieces: seq<string>): string {
    if pieces == [] then "" else pieces[0] + [NUL] + Encode(pieces[1..])
  }

  // ---------------------------------------------------------------------
  // Unique decodability
  // ---------------------------------------------------------------------

  lemma {:induction false} EncodeAppend(a: seq<string>, b: seq<string>)
    ensures Encode(a + b) == Encode(a) + Encode(b)
  {
    if a == [] {
      assert a + b == b;
    } else {
      assert (a + b)[1..] == a[1..] + b;
      EncodeAppend(a[1..], b);
    }
  }

  /** A NUL-free string before the first NUL is determined by the whole. */
  lemma FirstPiece(x: string, y: string, rest: string, rest': string)
    requires NulFree(x) && NulFree(y) && x + [NUL] + rest == y + [NUL] + rest'
    ensures x == y && rest == rest'
  {
    var s, t := x + [NUL] + rest, y + [NUL] + rest';
    assert s[|x|] == NUL && t[|y|] == NUL;
    assert forall i :: 0 <= i < |x| ==> s[i] == x[i] != NUL;
    assert forall i :: 0 <= i < |y| ==> t[i] == y[i] != NUL;
    assert |x| == |y|;
    assert x == s[..|x|] && y == t[..|y|] && rest == s[|x| + 1..] && rest' == t[|y| + 1..];
  }

  lemma {:induction false} EncodeInjective(a: seq<string>, b: seq<string>)
    requires AllNulFree(a) && AllNulFree(b) && Encode(a) == Encode(b)
    ensures a == b
  {
    if a != [] && b != [] {
      FirstPiece(a[0], b[0], Encode(a[1..]), Encode(b[1..]));
      EncodeInjective(a[1..], b[1..]);
      assert a == [a[0]] + a[1..] && b == [b[0]] + b[1..];
    }
  }

  /** The string cut at its NULs. */
  function Split(s: string): (r: seq<string>)
    ensures r != []
  {
    if s == "" then [""]
    else
      var r := Split(s[1..]);
      if s[0] == NUL then [""] + r else [[s[0]] + r[0]] + r[1..]
  }

  function SplitAll(pieces: seq<string>): seq<string> {
    if pieces == [] then [] else Split(pieces[0]) + SplitAll(pieces[1..])
  }

  lemma {:induction false} SplitEncodes(s: string)
    ensures Encode(Split(s)) == s + [NUL] && AllNulFree(Split(s))
  {
    if s == "" {
      assert Encode([""]) == [NUL];
    } else {
      SplitEncodes(s[1..]);
      hide Encode;
      assert s == [s[0]] + s[1..];
      if s[0] == NUL {
        EncodeFirst("", Split(s[1..]));
        assert s + [NUL] == [NUL] + (s[1..] + [NUL]);
      } else {
        LongerFirst(s[0], Split(s[1..]));
        assert s + [NUL] == [s[0]] + (s[1..] + [NUL]);
      }
    }
  }

  lemma EncodeFirst(x: string, rest: seq<string>)
    ensures Encode([x] + rest) == x + [NUL] + Encode(rest)
  {
    assert ([x] + rest)[1..] == rest;
  }

  lemma LongerFirst(c: char, r: seq<string>)
    requires r != []
    ensures Encode([[c] + r[0]] + r[1..]) == [c] + Encode(r)
  {
    hide Encode;
    EncodeFirst([c] + r[0], r[1..]);
    EncodeFirst(r[0], r[1..]);
    assert [r[0]] + r[1..] == r;
    Regroup([c], r[0], [NUL], Encode(r[1..]));
  }

  lemma Regroup(a: string, b: string, c: string, d: string)
    ensures (a + b) + c + d == a + (b + c + d)
  {
  }

  lemma {:induction false} SplitAllEncodes(pieces: seq<string>)
    ensures Encode(SplitAll(pieces)) == Encode(pieces) && AllNulFree(SplitAll(pieces))
  {
    if pieces != [] {
      SplitEncodes(pieces[0]);
      SplitAllEncodes(pieces[1..]);
      EncodeAppend(Split(pieces[0]), SplitAll(pieces[1..]));
    }
  }

  /** Without any assumption: two lists give the same stream exactly when cutting them at their NULs gives the same pieces. */
  lemma StreamsEqualIff(a: seq<string>, b: seq<string>)
    ensures Encode(a) == Encode(b) <==> SplitAll(a) == SplitAll(b)
  {
    SplitAllEncodes(a);
    SplitAllEncodes(b);
    if Encode(a) == Encode(b) {
      EncodeInjective(SplitAll(a), SplitAll(b));
    }
  }

  // ---------------------------------------------------------------------
  // Maps
  // ---------------------------------------------------------------------

  function Pairs(keys: seq<string>, m: map<string, string>): seq<string>
    requires forall i :: 0 <= i < |keys| ==> keys[i] in m
  {
    if keys == [] then [] else [keys[0], m[keys[0]]] + Pairs(keys[1..], m)
  }

  ghost function MapPieces(m: map<string, string>): seq<string> {
    Pairs(SortedKeys(m), m)
  }

  lemma {:induction false} PairsInjective(keys: seq<string>, m: map<string, string>, keys': seq<string>, m': map<string, string>)
    requires forall i :: 0 <= i < |keys| ==> keys[i] in m
    requires forall i :: 0 <= i < |keys'| ==> keys'[i] in m'
    requires Pairs(keys, m) == Pairs(keys', m')
    ensures keys == keys' && forall i :: 0 <= i < |keys| ==> m[keys[i]] == m'[keys[i]]
  {
    if keys != [] && keys' != [] {
      var p, p' := Pairs(keys, m), Pairs(keys', m');
      assert p[0] == keys[0] && p'[0] == keys'[0] && p[1] == m[keys[0]] && p'[1] == m'[keys'[0]];
      assert p[2..] == Pairs(keys[1..], m) && p'[2..] == Pairs(keys'[1..], m');
      PairsInjective(keys[1..], m, keys'[1..], m');
      assert keys == [keys[0]] + keys[1..] && keys' == [keys'[0]] + keys'[1..];
    }
  }

  /** The written pairs determine the whole map. */
  lemma MapPiecesInjective(m: map<string, string>, m': map<string, string>)
    requires MapPieces(m) == MapPieces(m')
    ensures m == m'
  {
    hide Sorted, Pairs, SortedKeys;
    PairsInjective(SortedKeys(m), m, SortedKeys(m'), m');
    assert forall k :: k in m ==> k in SortedKeys(m);
    assert m.Keys == m'.Keys;
  }

  ghost predicate CleanMap(m: map<string, string>) {
    forall k :: k in m ==> NulFree(k) && NulFree(m[k])
  }

  lemma {:induction false} PairsClean(keys: seq<string>, m: map<string, string>)
    requires CleanMap(m) && forall i :: 0 <= i < |keys| ==> keys[i] in m
    ensures AllNulFree(Pairs(keys, m))
  {
    if keys != [] {
      PairsClean(keys[1..], m);
    }
  }

  lemma MapPiecesClean(m: map<string, string>)
    requires CleanMap(m)
    ensures AllNulFree(MapPieces(m))
  {
    PairsClean(SortedKeys(m), m);
  }

  // ---------------------------------------------------------------------
  // Flutter and Unity builds
  // ---------------------------------------------------------------------

  /** A build's own settings and its defines or extra arguments; the two kinds of config differ only in the names. */
  datatype Config = Config(first: string, second: string, extra: map<string, string>)

  /** A missing config counts as an empty one. */
  function Plain(config: Option<Config>): Config {
    if config.Some? then config.value else Config("", "", map[])
  }

  ghost function ConfigPieces(config: Option<Config>): seq<string> {
    if config.Some? then [config.value.first, config.value.second] + MapPieces(config.value.extra) else ["", ""]
  }

  /** build mode, flavour and Dart defines between the pubspec hash and the Flutter version */
  ghost function FlutterPieces(config: Option<Config>, pubspecHash: string, version: string): seq<string> {
    [pubspecHash] + ConfigPieces(config) + [version]
  }

  /** scripting backend, build method and extra arguments after project hash, Unity version and platform name */
  ghost function UnityPieces(config: Option<Config>, projectHash: string, version: string, platform: string): seq<string> {
    [projectHash, version, platform] + ConfigPieces(config)
  }

  ghost predicate CleanConfig(config: Option<Config>) {
    NulFree(Plain(config).first) && NulFree(Plain(config).second) && CleanMap(Plain(config).extra)
  }

  lemma ConfigClean(config: Option<Config>)
    requires CleanConfig(config)
    ensures AllNulFree(ConfigPieces(config))
  {
    MapPiecesClean(Plain(config).extra);
  }

  lemma EmptyMapPieces()
    ensures MapPieces(map[]) == []
  {
    assert SortedKeys(map[]) == [];
  }

  lemma ConfigInjective(c: Option<Config>, d: Option<Config>)
    ensures ConfigPieces(c) == ConfigPieces(d) <==> Plain(c) == Plain(d)
  {
    EmptyMapPieces();
    var p, q := ConfigPieces(c), ConfigPieces(d);
    assert p == [Plain(c).first, Plain(c).second] + MapPieces(Plain(c).extra);
    assert q == [Plain(d).first, Plain(d).second] + MapPieces(Plain(d).extra);
    if p == q {
      assert p[0] == q[0] && p[1] == q[1] && p[2..] == q[2..];
      MapPiecesInjective(Plain(c).extra, Plain(d).extra);
    }
  }

  /** Between fixed numbers of NUL-free strings, the stream of a config determines everything. */
  lemma FramedDetermines(head: seq<string>, c: Option<Config>, tail: seq<string>,
                         head': seq<string>, d: Option<Config>, tail': seq<string>)
    requires |head| == |head'| && |tail| == |tail'|
    requires AllNulFree(head) && CleanConfig(c) && AllNulFree(tail)
    requires AllNulFree(head') && CleanConfig(d) && AllNulFree(tail')
    ensures Encode(head + ConfigPieces(c) + tail) == Encode(head' + ConfigPieces(d) + tail')
       <==> Plain(c) == Plain(d) && head == head' && tail == tail'
  {
    hide Encode, ConfigPieces, CleanConfig, Plain, NulFree;
    ConfigClean(c);
    ConfigClean(d);
    ConfigInjective(c, d);
    var p, q := head + ConfigPieces(c) + tail, head' + ConfigPieces(d) + tail';
    if Encode(p) == Encode(q) {
      EncodeInjective(p, q);
      var n, k := |head|, |p| - |tail|;
      assert p[..n] == head && q[..n] == head' && p[k..] == tail && q[k..] == tail';
      assert p[n..k] == ConfigPieces(c) && q[n..k] == ConfigPieces(d);
    }
  }

  /** For NUL-free inputs the Flutter stream is the same exactly when every field and the whole define map are. */
  lemma FlutterStreamDetermines(c: Option<Config>, hash: string, version: string, d: Option<Config>, hash': string, version': string)
    requires CleanConfig(c) && NulFree(hash) && NulFree(version)
    requires CleanConfig(d) && NulFree(hash') && NulFree(version')
    ensures Encode(FlutterPieces(c, hash, version)) == Encode(FlutterPieces(d, hash', version'))
       <==> Plain(c) == Plain(d) && hash == hash' && version == version'
  {
    hide Encode, ConfigPieces, CleanConfig, Plain, NulFree;
    FramedDetermines([hash], c, [version], [hash'], d, [version']);
  }

  /** For NUL-free inputs the Unity stream is the same exactly when every field and the whole argument map are. */
  lemma UnityStreamDetermines(c: Option<Config>, hash: string, version: string, platform: string,
                              d: Option<Config>, hash': string, version': string, platform': string)
    requires CleanConfig(c) && NulFree(hash) && NulFree(version) && NulFree(platform)
    requires CleanConfig(d) && NulFree(hash') && NulFree(version') && NulFree(platform')
    ensures Encode(UnityPieces(c, hash, version, platform)) == Encode(UnityPieces(d, hash', version', platform'))
       <==> Plain(c) == Plain(d) && hash == hash' && version == version' && platform == platform'
  {
    hide Encode, ConfigPieces, CleanConfig, Plain, NulFree;
    var head, head' := [hash, version, platform], [hash', version', platform'];
    FramedDetermines(head, c, [], head', d, []);
    assert head + ConfigPieces(c) + [] == UnityPieces(c, hash, version, platform);
    assert head' + ConfigPieces(d) + [] == UnityPieces(d, hash', version', platform');
  }

  /** A NUL in a field can imitate a define. */
  lemma NulCollides()
    ensures var c, d := Some(Config("", "f\0k\0v", map[])), Some(Config("", "f", map["k" := "v"]));
            Plain(c) != Plain(d) && Encode(FlutterPieces(c, "", "")) == Encode(FlutterPieces(d, "", ""))
  {
    var c, d := Some(Config("", "f\0k\0v", map[])), Some(Config("", "f", map["k" := "v"]));
    var m: map<string, string> := map["k" := "v"];
    EmptyMapPieces();
    assert SortedKeys(m) == ["k"] by {
      assert m.Keys == {"k"};
      assert multiset(m.Keys) == multiset(["k"]);
      SortedUnique(SortedKeys(m), ["k"]);
    }
    assert MapPieces(m) == ["k", "v"];
    assert FlutterPieces(c, "", "") == ["", ""] + ["f\0k\0v"] + [""];
    assert FlutterPieces(d, "", "") == ["", ""] + ["f", "k", "v"] + [""];
    SamePiece();
    EncodeAppend(["", ""], ["f\0k\0v"]);
    EncodeAppend(["", ""] + ["f\0k\0v"], [""]);
    EncodeAppend(["", ""], ["f", "k", "v"]);
    EncodeAppend(["", ""] + ["f", "k", "v"], [""]);
  }

  lemma SamePiece()
    ensures Encode(["f\0k\0v"]) == Encode(["f", "k", "v"])
  {
    assert Encode(["v"]) == "v\0";
    assert ["k", "v"][1..] == ["v"];
    assert Encode(["k", "v"]) == "k\0v\0";
    assert ["f", "k", "v"][1..] == ["k", "v"];
  }

  // ---------------------------------------------------------------------
  // Compilations
  // ---------------------------------------------------------------------

  datatype CompilationKey = CompilationKey(
    compiler: string, compilerVer: string, targetArch: string,
    flags: seq<string>, defines: seq<string>, sourceHash: string)

  function CompilationPieces(c: CompilationKey): seq<string> {
    [c.compiler, c.compilerVer, c.targetArch] + (Sort(c.flags) + Sort(c.defines)) + [c.sourceHash]
  }

  ghost predicate Clean(c: CompilationKey) {
    && NulFree(c.compiler) && NulFree(c.compilerVer) && NulFree(c.targetArch) && NulFree(c.sourceHash)
    && AllNulFree(c.flags) && AllNulFree(c.defines)
  }

  /** The same settings, up to the order of flags and of defines. */
  ghost predicate SameSettings(c: CompilationKey, d: CompilationKey) {
    && c.compiler == d.compiler && c.compilerVer == d.compilerVer && c.targetArch == d.targetArch
    && c.sourceHash == d.sourceHash
    && multiset(c.flags) == multiset(d.flags) && multiset(c.defines) == multiset(d.defines)
  }

  /** Permuting flags or defines does not change the stream. */
  lemma OrderDoesNotMatter(c: CompilationKey, d: CompilationKey)
    requires SameSettings(c, d)
    ensures Encode(CompilationPieces(c)) == Encode(CompilationPieces(d))
  {
    SortedUnique(Sort(c.flags), Sort(d.flags));
    SortedUnique(Sort(c.defines), Sort(d.defines));
  }

  lemma SortClean(ss: seq<string>)
    requires AllNulFree(ss)
    ensures AllNulFree(Sort(ss))
  {
    forall i | 0 <= i < |Sort(ss)|
      ensures NulFree(Sort(ss)[i])
    {
      assert Sort(ss)[i] in multiset(Sort(ss));
      assert Sort(ss)[i] in ss;
    }
  }

  lemma PiecesClean(c: CompilationKey)
    requires Clean(c)
    ensures AllNulFree(CompilationPieces(c))
  {
    hide Sort, NulFree, Sorted;
    SortClean(c.flags);
    SortClean(c.defines);
  }

  ghost predicate SameScalars(c: CompilationKey, d: CompilationKey) {
    c.compiler == d.compiler && c.compilerVer == d.compilerVer && c.targetArch == d.targetArch && c.sourceHash == d.sourceHash
  }

  /** Equal streams mean equal single fields and the same list of sorted flags followed by sorted defines. */
  lemma MiddleDetermined(c: CompilationKey, d: CompilationKey)
    requires Clean(c) && Clean(d)
    ensures Encode(CompilationPieces(c)) == Encode(CompilationPieces(d))
       <==> SameScalars(c, d) && Sort(c.flags) + Sort(c.defines) == Sort(d.flags) + Sort(d.defines)
  {
    hide Encode, Clean, NulFree, Sort;
    PiecesClean(c);
    PiecesClean(d);
    var p, q := CompilationPieces(c), CompilationPieces(d);
    if Encode(p) == Encode(q) {
      EncodeInjective(p, q);
      var k := |p| - 1;
      assert p[0] == q[0] && p[1] == q[1] && p[2] == q[2] && p[k] == q[k];
      assert p[3..k] == Sort(c.flags) + Sort(c.defines) && q[3..k] == Sort(d.flags) + Sort(d.defines);
    }
  }

  predicate Dashed(s: string) {
    s != "" && s[0] == '-'
  }

  /** Every flag starts with a dash and no define does. */
  ghost predicate DashesSeparate(c: CompilationKey) {
    && (forall i :: 0 <= i < |c.flags| ==> Dashed(c.flags[i]))
    && (forall i :: 0 <= i < |c.defines| ==> !Dashed(c.defines[i]))
  }

  lemma SortedDashes(c: CompilationKey)
    requires DashesSeparate(c)
    ensures forall i :: 0 <= i < |Sort(c.flags)| ==> Dashed(Sort(c.flags)[i])
    ensures forall i :: 0 <= i < |Sort(c.defines)| ==> !Dashed(Sort(c.defines)[i])
  {
    hide Dashed;
    forall i | 0 <= i < |Sort(c.flags)|
      ensures Dashed(Sort(c.flags)[i])
    {
      assert Sort(c.flags)[i] in multiset(Sort(c.flags));
      assert Sort(c.flags)[i] in c.flags;
    }
    forall i | 0 <= i < |Sort(c.defines)|
      ensures !Dashed(Sort(c.defines)[i])
    {
      assert Sort(c.defines)[i] in multiset(Sort(c.defines));
      assert Sort(c.defines)[i] in c.defines;
    }
  }

  lemma AtEnd(all: seq<string>, p: nat, q: nat, k: nat)
    requires k < |all| && forall i :: 0 <= i < |all| ==> (Dashed(all[i]) <==> i < p) && (Dashed(all[i]) <==> i < q)
    ensures k < p <==> k < q
  {
    assert (Dashed(all[k]) <==> k < p) && (Dashed(all[k]) <==> k < q);
  }

  lemma SameEnd(all: seq<string>, p: nat, q: nat)
    requires p <= |all| && q <= |all|
    requires forall i :: 0 <= i < |all| ==> (Dashed(all[i]) <==> i < p) && (Dashed(all[i]) <==> i < q)
    ensures p == q
  {
    hide Dashed;
    if p != q {
      AtEnd(all, p, q, if p < q then p else q);
    }
  }

  /** Two splits of one list, both at the point where the dashes end, are the same. */
  lemma DashSplit(f: seq<string>, d: seq<string>, f': seq<string>, d': seq<string>)
    requires f + d == f' + d'
    requires forall i :: 0 <= i < |f| ==> Dashed(f[i])
    requires forall i :: 0 <= i < |d| ==> !Dashed(d[i])
    requires forall i :: 0 <= i < |f'| ==> Dashed(f'[i])
    requires forall i :: 0 <= i < |d'| ==> !Dashed(d'[i])
    ensures f == f' && d == d'
  {
    hide Dashed;
    var all := f + d;
    assert forall i :: 0 <= i < |all| ==> (Dashed(all[i]) <==> i < |f|);
    assert forall i :: 0 <= i < |all| ==> ((f' + d')[i] == all[i] && (Dashed((f' + d')[i]) <==> i < |f'|));
    SameEnd(all, |f|, |f'|);
    assert f == all[..|f|] && f' == all[..|f'|] && d == all[|f|..] && d' == all[|f'|..];
  }

  /** Where dashes tell flags from defines, the stream determines all settings up to order. */
  lemma CompilationStreamDetermines(c: CompilationKey, d: CompilationKey)
    requires Clean(c) && Clean(d) && DashesSeparate(c) && DashesSeparate(d)
    ensures Encode(CompilationPieces(c)) == Encode(CompilationPieces(d)) <==> SameSettings(c, d)
  {
    hide Encode, Clean, Sorted, CompilationPieces, DashesSeparate, Dashed;
    MiddleDetermined(c, d);
    if Encode(CompilationPieces(c)) == Encode(CompilationPieces(d)) {
      SortedDashes(c);
      SortedDashes(d);
      DashSplit(Sort(c.flags), Sort(c.defines), Sort(d.flags), Sort(d.defines));
      assert multiset(c.flags) == multiset(Sort(c.flags)) == multiset(d.flags);
      assert multiset(c.defines) == multiset(Sort(c.defines)) == multiset(d.defines);
    } else if SameSettings(c, d) {
      OrderDoesNotMatter(c, d);
      assert false;
    }
  }

  // ---------------------------------------------------------------------
  // When a compilation key has a double
  // ---------------------------------------------------------------------

  /** Some flag sorts after some define, or there are neither flags nor defines. */
  ghost predicate BoundaryShows(c: CompilationKey) {
    (c.flags == [] && c.defines == [])
    || exists f, d :: f in c.flags && d in c.defines && !Leq(f, d)
  }

  ghost predicate Unmistakable(c: CompilationKey) {
    forall d :: Clean(d) && Encode(CompilationPieces(d)) == Encode(CompilationPieces(c)) ==> SameSettings(c, d)
  }

  lemma SortOfSorted(ss: seq<string>)
    requires Sorted(ss)
    ensures Sort(ss) == ss
  {
    SortedUnique(Sort(ss), ss);
  }

  /** Where the boundary shows, there is a descent there. */
  lemma BoundaryDescends(f: seq<string>, d: seq<string>, x: string, y: string)
    requires Sorted(f) && Sorted(d) && x in f && y in d && !Leq(x, y)
    ensures f != [] && d != [] && !Leq(f[|f| - 1], d[0])
  {
    hide Leq;
    var last, first := f[|f| - 1], d[0];
    LeqReflexive(last);
    LeqReflexive(first);
    assert Leq(x, last) && Leq(first, y);
    if Leq(last, first) {
      LeqTransitive(x, last, first);
      LeqTransitive(x, first, y);
      assert false;
    }
  }

  /** A list with a descent at p can be split into two sorted parts only there. */
  lemma OnlySplit(f: seq<string>, d: seq<string>, f': seq<string>, d': seq<string>)
    requires f != [] && d != [] && !Leq(f[|f| - 1], d[0])
    requires f + d == f' + d' && Sorted(f') && Sorted(d')
    ensures f == f' && d == d'
  {
    hide Leq;
    var all, p := f + d, |f|;
    assert all[p - 1] == f[p - 1] && all[p] == d[0];
    assert forall i :: 0 <= i < |f'| ==> all[i] == f'[i];
    assert forall i :: |f'| <= i < |all| ==> all[i] == d'[i - |f'|];
    if |f'| != p {
      assert false;
    }
    assert f == all[..p] && f' == all[..|f'|] && d == all[p..] && d' == all[|f'|..];
  }

  lemma BoundaryUnmistakable(c: CompilationKey, d: CompilationKey)
    requires Clean(c) && Clean(d) && BoundaryShows(c) && Encode(CompilationPieces(d)) == Encode(CompilationPieces(c))
    ensures SameSettings(c, d)
  {
    hide Encode, CompilationPieces, Clean, Sorted, Leq;
    MiddleDetermined(c, d);
    var f, g := Sort(c.flags), Sort(c.defines);
    if c.flags == [] && c.defines == [] {
      assert f == [] && g == [] by { assert |multiset(f)| == 0 && |multiset(g)| == 0; }
    } else {
      var x, y :| x in c.flags && y in c.defines && !Leq(x, y);
      assert x in multiset(f) && y in multiset(g);
      BoundaryDescends(f, g, x, y);
      OnlySplit(f, g, Sort(d.flags), Sort(d.defines));
    }
    assert Sort(d.flags) == f && Sort(d.defines) == g;
    assert multiset(d.flags) == multiset(f) && multiset(d.defines) == multiset(g);
  }

  /** Without a visible boundary flags and defines together form one sorted list. */
  lemma NoBoundarySorted(c: CompilationKey)
    requires !BoundaryShows(c)
    ensures Sorted(Sort(c.flags) + Sort(c.defines)) && Sort(c.flags) + Sort(c.defines) != []
  {
    hide Leq;
    var f, g := Sort(c.flags), Sort(c.defines);
    forall i, j | 0 <= i < |f| && 0 <= j < |g|
      ensures Leq(f[i], g[j])
    {
      assert f[i] in multiset(f) && g[j] in multiset(g);
      assert f[i] in c.flags && g[j] in c.defines;
    }
    assert |multiset(f)| == |c.flags| && |multiset(g)| == |c.defines|;
  }

  /** Any split of the sorted list into two sorted parts has the same stream. */
  lemma Shifted(c: CompilationKey, flags: seq<string>, defines: seq<string>)
    requires Clean(c) && Sorted(flags) && Sorted(defines) && flags + defines == Sort(c.flags) + Sort(c.defines)
    ensures var d := c.(flags := flags, defines := defines);
            Clean(d) && Encode(CompilationPieces(d)) == Encode(CompilationPieces(c))
  {
    hide Encode, NulFree, Sorted, Sort;
    SortOfSorted(flags);
    SortOfSorted(defines);
    SortClean(c.flags);
    SortClean(c.defines);
    var all := flags + defines;
    assert AllNulFree(all);
    assert forall i :: 0 <= i < |flags| ==> flags[i] == all[i];
    assert forall i :: 0 <= i < |defines| ==> defines[i] == all[|flags| + i];
  }

  /** ... and moving everything to one side gives a different key with the same stream. */
  lemma Double(c: CompilationKey) returns (d: CompilationKey)
    requires Clean(c) && !BoundaryShows(c)
    ensures Clean(d) && Encode(CompilationPieces(d)) == Encode(CompilationPieces(c)) && !SameSettings(c, d)
  {
    hide Encode, Sort, Leq, Clean, CompilationPieces;
    var all := Sort(c.flags) + Sort(c.defines);
    NoBoundarySorted(c);
    if c.defines == [] {
      assert [] + all == all;
      Shifted(c, [], all);
      d := c.(flags := [], defines := all);
      assert |multiset(d.defines)| == |all| && |multiset(c.defines)| == 0;
    } else {
      assert all + [] == all;
      Shifted(c, all, []);
      d := c.(flags := all, defines := []);
      assert |multiset(d.defines)| == 0 && |multiset(c.defines)| == |c.defines|;
    }
  }

  /** A compilation key shares its stream with no other NUL-free settings exactly when the boundary shows. */
  lemma UnmistakableIff(c: CompilationKey)
    requires Clean(c)
    ensures Unmistakable(c) <==> BoundaryShows(c)
  {
    hide Encode, CompilationPieces, Clean, SameSettings, BoundaryShows;
    if BoundaryShows(c) {
      forall d | Clean(d) && Encode(CompilationPieces(d)) == Encode(CompilationPieces(c))
        ensures SameSettings(c, d)
      {
        BoundaryUnmistakable(c, d);
      }
    } else {
      var d := Double(c);
    }
  }

  // ---------------------------------------------------------------------
  // The key builder
  // ---------------------------------------------------------------------

  /** The builder, with the bytes it has passed to the hash. */
  class KeyBuilder {
    var stream: string

    constructor ()
      ensures stream == ""
    {
      stream := "";
    }

    method AddString(s: string)
      modifies this
      ensures stream == old(stream) + Encode([s])
    {
      assert Encode([s]) == s + [NUL];
      stream := stream + s;
      stream := stream + [NUL];
    }

    method AddStrings(ss: seq<string>)
      modifies this
      ensures stream == old(stream) + Encode(ss)
    {
      for i := 0 to |ss|
        invariant stream == old(stream) + Encode(ss[..i])
      {
        AddString(ss[i]);
        EncodeAppend(ss[..i], [ss[i]]);
        assert ss[..i + 1] == ss[..i] + [ss[i]];
      }
      assert ss[..|ss|] == ss;
    }

    method AddSortedStrings(ss: seq<string>)
      modifies this
      ensures stream == old(stream) + Encode(Sort(ss))
    {
      AddStrings(Sort(ss));
    }

    method AddPair(k: string, v: string)
      modifies this
      ensures forall rest :: stream + Encode(rest) == old(stream) + Encode([k, v] + rest)
    {
      AddString(k);
      AddString(v);
      forall rest: seq<string>
        ensures stream + Encode(rest) == old(stream) + Encode([k, v] + rest)
      {
        EncodePair(k, v, rest);
      }
    }

    method AddPairs(keys: seq<string>, m: map<string, string>)
      requires forall i :: 0 <= i < |keys| ==> keys[i] in m
      modifies this
      ensures stream == old(stream) + Encode(Pairs(keys, m))
    {
      hide Encode, Pairs;
      PairsFrom(keys, m, 0);
      for i := 0 to |keys|
        invariant stream + Encode(Pairs(keys[i..], m)) == old(stream) + Encode(Pairs(keys, m))
      {
        PairsFrom(keys, m, i);
        AddPair(keys[i], m[keys[i]]);
      }
      NoPairs(m);
    }

    /** Writes the entries of a map in the order of their keys, however the map yields them. */
    method AddMap(m: map<string, string>)
      modifies this
      ensures stream == old(stream) + Encode(MapPieces(m))
    {
      hide Encode, Pairs, Sorted;
      var keys := CollectKeys(m);
      SortedKeysOf(m, keys);
      AddPairs(Sort(keys), m);
    }
  }

  lemma PairsFrom(keys: seq<string>, m: map<string, string>, i: nat)
    requires i <= |keys| && forall j :: 0 <= j < |keys| ==> keys[j] in m
    ensures i == 0 ==> keys[i..] == keys
    ensures i < |keys| ==> Pairs(keys[i..], m) == [keys[i], m[keys[i]]] + Pairs(keys[i + 1..], m)
  {
    if i < |keys| {
      assert keys[i..][1..] == keys[i + 1..];
    }
  }

  lemma NoPairs(m: map<string, string>)
    ensures Encode(Pairs([], m)) == ""
  {
  }

  lemma EmptyStream()
    ensures Encode([]) == ""
  {
  }

  lemma EncodePair(k: string, v: string, rest: seq<string>)
    ensures Encode([k, v] + rest) == Encode([k]) + Encode([v]) + Encode(rest)
  {
    EncodeAppend([k, v], rest);
    EncodeAppend([k], [v]);
    assert [k] + [v] == [k, v];
  }

  method CollectKeys(m: map<string, string>) returns (keys: seq<string>)
    ensures multiset(keys) == multiset(m.Keys)
  {
    keys := [];
    var rest := m.Keys;
    while rest != {}
      invariant rest <= m.Keys && multiset(keys) == multiset(m.Keys - rest)
      decreases |rest|
    {
      var k :| k in rest;
      assert m.Keys - (rest - {k}) == (m.Keys - rest) + {k};
      keys := keys + [k];
      rest := rest - {k};
    }
    assert m.Keys - {} == m.Keys;
  }

  method CompilationStream(c: CompilationKey) returns (stream: string)
    ensures stream == Encode(CompilationPieces(c))
  {
    hide Encode, Sort, Sorted;
    var kb := new KeyBuilder();
    kb.AddString(c.compiler);
    kb.AddString(c.compilerVer);
    kb.AddString(c.targetArch);
    kb.AddSortedStrings(c.flags);
    kb.AddSortedStrings(c.defines);
    kb.AddString(c.sourceHash);
    var f, d := Sort(c.flags), Sort(c.defines);
    ThreeFirst(c.compiler, c.compilerVer, c.targetArch);
    EncodeAppend(f, d);
    EncodeAppend([c.compiler, c.compilerVer, c.targetArch], f + d);
    EncodeAppend([c.compiler, c.compilerVer, c.targetArch] + (f + d), [c.sourceHash]);
    return kb.stream;
  }

  lemma ThreeFirst(a: string, b: string, c: string)
    ensures Encode([a, b, c]) == Encode([a]) + Encode([b]) + Encode([c])
  {
    EncodePair(a, b, [c]);
    assert [a, b] + [c] == [a, b, c];
  }

  method FlutterStream(config: Option<Config>, pubspecHash: string, version: string) returns (stream: string)
    ensures stream == Encode(FlutterPieces(config, pubspecHash, version))
  {
    hide Encode, MapPieces;
    var kb := new KeyBuilder();
    kb.AddString(pubspecHash);
    AddConfig(kb, config);
    kb.AddString(version);
    EncodeAppend([pubspecHash], ConfigPieces(config));
    EncodeAppend([pubspecHash] + ConfigPieces(config), [version]);
    return kb.stream;
  }

  method UnityStream(config: Option<Config>, projectHash: string, version: string, platform: string) returns (stream: string)
    ensures stream == Encode(UnityPieces(config, projectHash, version, platform))
  {
    hide Encode, MapPieces;
    var kb := new KeyBuilder();
    kb.AddString(projectHash);
    kb.AddString(version);
    kb.AddString(platform);
    AddConfig(kb, config);
    ThreeFirst(projectHash, version, platform);
    EncodeAppend([projectHash, version, platform], ConfigPieces(config));
    return kb.stream;
  }

  method AddConfig(kb: KeyBuilder, config: Option<Config>)
    modifies kb
    ensures kb.stream == old(kb.stream) + Encode(ConfigPieces(config))
  {
    hide Encode, MapPieces;
    if config.Some? {
      kb.AddString(config.value.first);
      kb.AddString(config.value.second);
      kb.AddMap(config.value.extra);
      EncodePair(config.value.first, config.value.second, MapPieces(config.value.extra));
    } else {
      kb.AddString("");
      kb.AddString("");
      EncodePair("", "", []);
      EmptyStream();
      assert ["", ""] + [] == ["", ""];
    }
  }
}
