/**
 Parsing and printing of compiler command lines (internal/compiler/parser.go).
 The loop of Parse is proved to do what a two-stage description says: cut the
 arguments into items, then apply the items one by one. Printing a parsed
 command line and parsing it again gives the same result exactly when no
 include directory and no define is empty.
 */
module CompilerArgs {
  import opened Common

  datatype CompilerType = CompilerUnknown | CompilerGCC | CompilerClang | CompilerGPP | CompilerClangPP

  datatype ParsedArgs = ParsedArgs(
    compiler: string,
    compilerType: CompilerType,
    inputFiles: seq<string>,
    outputFile: string,
    includeDirs: seq<string>,
    defines: seq<string>,
    flags: seq<string>,
    isCompileOnly: bool,
    isPreprocess: bool,
    isLink: bool,
    targetArch: string,
    language: string,
    standard: string,
    optimization: string)

  // ---------------------------------------------------------------------
  // File names
  // ---------------------------------------------------------------------

  /** From the last dot of the last path element on, or nothing. */
  function Ext(path: string): string {
    if path == "" || path[|path| - 1] == '/' then ""
    else if path[|path| - 1] == '.' then "."
    else
      var e := Ext(path[..|path| - 1]);
      if e == "" then "" else e + [path[|path| - 1]]
  }

  function LowerChar(c: char): char {
    if 'A' <= c <= 'Z' then c - 'A' + 'a' else c
  }

  function Lower(s: string): string {
    seq(|s|, i requires 0 <= i < |s| => LowerChar(s[i]))
  }

  predicate IsSourceFile(path: string) {
    Lower(Ext(path)) in [".c", ".cc", ".cpp", ".cxx", ".c++", ".m", ".mm", ".s", ".S"]
  }

  predicate IsObjectFile(path: string) {
    Lower(Ext(path)) in [".o", ".obj"]
  }

  function DetectLanguage(path: string): string {
    var ext := Lower(Ext(path));
    if ext == ".c" then "c"
    else if ext in [".cc", ".cpp", ".cxx", ".c++"] then "c++"
    else if ext == ".m" then "objective-c"
    else if ext == ".mm" then "objective-c++"
    else if ext in [".s", ".S"] then "assembler"
    else ""
  }

  /** The last path element, as filepath.Base gives it. */
  function Base(path: string): string {
    if path == "" then "."
    else if path[|path| - 1] == '/' then (if |path| == 1 then "/" else Base(path[..|path| - 1]))
    else AfterSlash(path)
  }

  function AfterSlash(path: string): string {
    if path == "" || path[|path| - 1] == '/' then "" else AfterSlash(path[..|path| - 1]) + [path[|path| - 1]]
  }

  predicate Contains(s: string, sub: string) {
    exists i :: 0 <= i <= |s| && sub <= s[i..]
  }

  function DetectCompilerType(compiler: string): CompilerType {
    var base := Base(compiler);
    if Contains(base, "clang++") then CompilerClangPP
    else if Contains(base, "clang") then CompilerClang
    else if Contains(base, "g++") then CompilerGPP
    else if Contains(base, "gcc") then CompilerGCC
    else CompilerUnknown
  }

  // ---------------------------------------------------------------------
  // Items
  // ---------------------------------------------------------------------

  /** What one argument, or an argument and its value, means. */
  datatype Item =
    | Flag(arg: string)
    | FlagValue(arg: string, value: string)
    | Include(dir: string)
    | Define(name: string)
    | Output(file: string)
    | Language(name: string)
    | Input(file: string)

  predicate TakesValue(arg: string) {
    arg == "-o" || arg == "-I" || arg == "-D" || arg == "-x" || arg == "-march" || arg == "-mtune"
  }

  function Valued(arg: string, value: string): Item {
    if arg == "-o" then Output(value)
    else if arg == "-I" then Include(value)
    else if arg == "-D" then Define(value)
    else if arg == "-x" then Language(value)
    else FlagValue(arg, value)
  }

  function Single(arg: string): Item {
    if "-o" <= arg then Output(arg[2..])
    else if "-I" <= arg then Include(arg[2..])
    else if "-D" <= arg then Define(arg[2..])
    else if "-x" <= arg then Language(arg[2..])
    else if !("-" <= arg) && (IsSourceFile(arg) || IsObjectFile(arg)) then Input(arg)
    else Flag(arg)
  }

  /** An argument that needs a value and is the last one is dropped. */
  function Items(args: seq<string>): seq<Item> {
    if args == [] then []
    else if !TakesValue(args[0]) then [Single(args[0])] + Items(args[1..])
    else if |args| == 1 then []
    else [Valued(args[0], args[1])] + Items(args[2..])
  }

  // ---------------------------------------------------------------------
  // Their meaning
  // ---------------------------------------------------------------------

  function Blank(compiler: string): ParsedArgs {
    ParsedArgs(compiler, DetectCompilerType(compiler), [], "", [], [], [], false, false, false, "", "", "", "")
  }

  function ApplyFlag(p: ParsedArgs, arg: string): ParsedArgs {
    p.(flags := p.flags + [arg],
       isCompileOnly := p.isCompileOnly || arg == "-c",
       isPreprocess := p.isPreprocess || arg == "-E",
       standard := if "-std=" <= arg then arg[5..] else p.standard,
       targetArch := if "-march=" <= arg then arg[7..] else p.targetArch,
       optimization := if "-O" <= arg then arg[2..] else p.optimization)
  }

  function Apply(p: ParsedArgs, item: Item): ParsedArgs {
    match item
    case Flag(arg) => ApplyFlag(p, arg)
    case FlagValue(arg, value) => p.(flags := p.flags + [arg, value], targetArch := value)
    case Include(dir) => p.(includeDirs := p.includeDirs + [dir])
    case Define(name) => p.(defines := p.defines + [name])
    case Output(file) => p.(outputFile := file)
    case Language(name) => p.(language := name)
    case Input(file) => p.(inputFiles := p.inputFiles + [file])
  }

  function Fold(p: ParsedArgs, items: seq<Item>): ParsedArgs
    decreases |items|
  {
    if items == [] then p else Fold(Apply(p, items[0]), items[1..])
  }

  function Finish(p: ParsedArgs): ParsedArgs {
    p.(isLink := !p.isCompileOnly && !p.isPreprocess && |p.inputFiles| > 0,
       language := if p.language == "" && |p.inputFiles| > 0 then DetectLanguage(p.inputFiles[0]) else p.language)
  }

  function Parsed(args: seq<string>): Option<ParsedArgs> {
    if args == [] then None else Some(Finish(Fold(Blank(args[0]), Items(args[1..]))))
  }

  function Prefixed(prefix: string, ss: seq<string>): seq<string> {
    if ss == [] then [] else [prefix + ss[0]] + Prefixed(prefix, ss[1..])
  }

  function LanguageArgs(p: ParsedArgs): seq<string> {
    if p.language != "" then ["-x", p.language] else []
  }

  function OutputArgs(p: ParsedArgs): seq<string> {
    if p.outputFile != "" then ["-o", p.outputFile] else []
  }

  /** Everything after the include directories and defines. */
  function Tail(p: ParsedArgs): seq<string> {
    LanguageArgs(p) + (p.flags + (p.inputFiles + OutputArgs(p)))
  }

  function Printed(p: ParsedArgs): seq<string> {
    [p.compiler] + (Prefixed("-I", p.includeDirs) + (Prefixed("-D", p.defines) + Tail(p)))
  }

  predicate IsDistributable(p: ParsedArgs) {
    p.isCompileOnly && |p.inputFiles| == 1 && IsSourceFile(p.inputFiles[0])
  }

  // ---------------------------------------------------------------------
  // Items of printed lists
  // ---------------------------------------------------------------------

  lemma ItemsSingle(arg: string, rest: seq<string>)
    requires !TakesValue(arg)
    ensures Items([arg] + rest) == [Single(arg)] + Items(rest)
  {
    assert ([arg] + rest)[1..] == rest;
  }

  lemma ItemsValued(arg: string, value: string, rest: seq<string>)
    requires TakesValue(arg)
    ensures Items([arg, value] + rest) == [Valued(arg, value)] + Items(rest)
  {
    assert ([arg, value] + rest)[2..] == rest;
  }

  function Includes(dirs: seq<string>): seq<Item> {
    if dirs == [] then [] else [Include(dirs[0])] + Includes(dirs[1..])
  }

  function Defines(names: seq<string>): seq<Item> {
    if names == [] then [] else [Define(names[0])] + Defines(names[1..])
  }

  function Inputs(files: seq<string>): seq<Item> {
    if files == [] then [] else [Input(files[0])] + Inputs(files[1..])
  }

  ghost predicate NoneEmpty(ss: seq<string>) {
    forall i :: 0 <= i < |ss| ==> ss[i] != ""
  }

  lemma PrefixedStep(prefix: string, ss: seq<string>, rest: seq<string>)
    ensures ss == [] ==> Prefixed(prefix, ss) + rest == rest
    ensures ss != [] ==> Prefixed(prefix, ss) + rest == [prefix + ss[0]] + (Prefixed(prefix, ss[1..]) + rest)
  {
  }

  lemma JoinedInclude(dir: string)
    requires dir != ""
    ensures !TakesValue("-I" + dir) && Single("-I" + dir) == Include(dir)
  {
    assert ("-I" + dir)[2..] == dir;
    assert ("-I" + dir)[1] == 'I' && |"-I" + dir| > 2;
    if "-I" + dir == "-march" || "-I" + dir == "-mtune" {
      assert false;
    }
  }

  lemma JoinedDefine(name: string)
    requires name != ""
    ensures !TakesValue("-D" + name) && Single("-D" + name) == Define(name)
  {
    assert ("-D" + name)[2..] == name;
    assert ("-D" + name)[1] == 'D' && |"-D" + name| > 2;
  }

  lemma {:induction false} ItemsIncludes(dirs: seq<string>, rest: seq<string>)
    requires NoneEmpty(dirs)
    ensures Items(Prefixed("-I", dirs) + rest) == Includes(dirs) + Items(rest)
  {
    hide Items, TakesValue, Single, Prefixed;
    PrefixedStep("-I", dirs, rest);
    if dirs == [] {
      assert Includes(dirs) + Items(rest) == Items(rest);
    } else {
      JoinedInclude(dirs[0]);
      ItemsSingle("-I" + dirs[0], Prefixed("-I", dirs[1..]) + rest);
      ItemsIncludes(dirs[1..], rest);
      assert Includes(dirs) + Items(rest) == [Include(dirs[0])] + (Includes(dirs[1..]) + Items(rest));
    }
  }

  lemma {:induction false} ItemsDefines(names: seq<string>, rest: seq<string>)
    requires NoneEmpty(names)
    ensures Items(Prefixed("-D", names) + rest) == Defines(names) + Items(rest)
  {
    hide Items, TakesValue, Single, Prefixed;
    PrefixedStep("-D", names, rest);
    if names == [] {
      assert Defines(names) + Items(rest) == Items(rest);
    } else {
      JoinedDefine(names[0]);
      ItemsSingle("-D" + names[0], Prefixed("-D", names[1..]) + rest);
      ItemsDefines(names[1..], rest);
      assert Defines(names) + Items(rest) == [Define(names[0])] + (Defines(names[1..]) + Items(rest));
    }
  }

  predicate InputArg(arg: string) {
    !TakesValue(arg) && Single(arg) == Input(arg)
  }

  lemma {:induction false} ItemsInputs(files: seq<string>, rest: seq<string>)
    requires forall i :: 0 <= i < |files| ==> InputArg(files[i])
    ensures Items(files + rest) == Inputs(files) + Items(rest)
  {
    hide Items, TakesValue, Single;
    if files == [] {
      assert files + rest == rest && Inputs(files) + Items(rest) == Items(rest);
    } else {
      assert InputArg(files[0]);
      ItemsSingle(files[0], files[1..] + rest);
      ItemsInputs(files[1..], rest);
      assert files + rest == [files[0]] + (files[1..] + rest);
    }
  }

  // ---------------------------------------------------------------------
  // The flags among the items
  // ---------------------------------------------------------------------

  predicate IsFlag(item: Item) {
    item.Flag? || item.FlagValue?
  }

  /** An item that printing as it stands and cutting again gives back. */
  predicate Stable(item: Item) {
    match item
    case Flag(arg) => !TakesValue(arg) && Single(arg) == item
    case FlagValue(arg, value) => TakesValue(arg) && Valued(arg, value) == item
    case Input(file) => InputArg(file)
    case _ => true
  }

  function FlagsOf(items: seq<Item>): seq<Item> {
    if items == [] then [] else (if IsFlag(items[0]) then [items[0]] else []) + FlagsOf(items[1..])
  }

  function Spelled(item: Item): seq<string> {
    match item
    case Flag(arg) => [arg]
    case FlagValue(arg, value) => [arg, value]
    case _ => []
  }

  function Spell(items: seq<Item>): seq<string> {
    if items == [] then [] else Spelled(items[0]) + Spell(items[1..])
  }

  ghost predicate AllStable(items: seq<Item>) {
    forall i :: 0 <= i < |items| ==> Stable(items[i])
  }

  ghost predicate AllFlags(items: seq<Item>) {
    forall i :: 0 <= i < |items| ==> IsFlag(items[i])
  }

  lemma SingleStable(arg: string)
    requires !TakesValue(arg)
    ensures Stable(Single(arg))
  {
  }

  lemma ValuedStable(arg: string, value: string)
    requires TakesValue(arg)
    ensures Stable(Valued(arg, value))
  {
  }

  lemma {:induction false} ItemsStable(args: seq<string>)
    ensures AllStable(Items(args))
  {
    hide TakesValue, Single, Valued, Stable;
    if args != [] {
      if !TakesValue(args[0]) {
        SingleStable(args[0]);
        ItemsStable(args[1..]);
      } else if |args| > 1 {
        ValuedStable(args[0], args[1]);
        ItemsStable(args[2..]);
      }
    }
  }

  lemma {:induction false} FlagsOfStable(items: seq<Item>)
    requires AllStable(items)
    ensures AllStable(FlagsOf(items)) && AllFlags(FlagsOf(items))
  {
    hide Stable;
    if items != [] {
      FlagsOfStable(items[1..]);
    }
  }

  /** Flags, printed one after the other, are cut at the same places again. */
  lemma {:induction false} ItemsSpelled(items: seq<Item>, rest: seq<string>)
    requires AllStable(items) && AllFlags(items)
    ensures Items(Spell(items) + rest) == items + Items(rest)
  {
    hide Items, TakesValue, Single, Valued;
    if items == [] {
      assert Spell(items) + rest == rest && items + Items(rest) == Items(rest);
    } else {
      var item, more := items[0], Spell(items[1..]) + rest;
      assert Stable(item) && IsFlag(item);
      ItemsSpelled(items[1..], rest);
      assert Spell(items) + rest == Spelled(item) + more;
      assert items + Items(rest) == [item] + (items[1..] + Items(rest));
      match item
      case Flag(arg) => ItemsSingle(arg, more);
      case FlagValue(arg, value) => ItemsValued(arg, value, more);
      case _ =>
    }
  }

  // ---------------------------------------------------------------------
  // Folding
  // ---------------------------------------------------------------------

  lemma {:induction false} FoldAppend(p: ParsedArgs, a: seq<Item>, b: seq<Item>)
    ensures Fold(p, a + b) == Fold(Fold(p, a), b)
    decreases |a|
  {
    hide Apply;
    if a == [] {
      assert a + b == b;
    } else {
      assert (a + b)[1..] == a[1..] + b;
      FoldAppend(Apply(p, a[0]), a[1..], b);
    }
  }

  lemma {:induction false} FoldIncludes(p: ParsedArgs, dirs: seq<string>)
    ensures Fold(p, Includes(dirs)) == p.(includeDirs := p.includeDirs + dirs)
    decreases |dirs|
  {
    if dirs == [] {
      assert p.includeDirs + dirs == p.includeDirs;
    } else {
      FoldIncludes(Apply(p, Include(dirs[0])), dirs[1..]);
      assert p.includeDirs + dirs == p.includeDirs + [dirs[0]] + dirs[1..];
    }
  }

  lemma {:induction false} FoldDefines(p: ParsedArgs, names: seq<string>)
    ensures Fold(p, Defines(names)) == p.(defines := p.defines + names)
    decreases |names|
  {
    if names == [] {
      assert p.defines + names == p.defines;
    } else {
      FoldDefines(Apply(p, Define(names[0])), names[1..]);
      assert p.defines + names == p.defines + [names[0]] + names[1..];
    }
  }

  lemma {:induction false} FoldInputs(p: ParsedArgs, files: seq<string>)
    ensures Fold(p, Inputs(files)) == p.(inputFiles := p.inputFiles + files)
    decreases |files|
  {
    if files == [] {
      assert p.inputFiles + files == p.inputFiles;
    } else {
      FoldInputs(Apply(p, Input(files[0])), files[1..]);
      assert p.inputFiles + files == p.inputFiles + [files[0]] + files[1..];
    }
  }

  /** The fields that flags determine, taken from q. */
  function TakeFlags(p: ParsedArgs, q: ParsedArgs): ParsedArgs {
    p.(flags := q.flags, isCompileOnly := q.isCompileOnly, isPreprocess := q.isPreprocess,
       standard := q.standard, targetArch := q.targetArch, optimization := q.optimization)
  }

  lemma FlagsApply(p: ParsedArgs, q: ParsedArgs, item: Item)
    ensures IsFlag(item) ==> TakeFlags(q, Apply(p, item)) == Apply(TakeFlags(q, p), item)
    ensures !IsFlag(item) ==> TakeFlags(q, Apply(p, item)) == TakeFlags(q, p)
  {
  }

  /** The flag fields come from the flags alone, whatever stands between them. */
  lemma {:induction false} FlagsAlone(p: ParsedArgs, q: ParsedArgs, items: seq<Item>)
    ensures TakeFlags(q, Fold(p, items)) == Fold(TakeFlags(q, p), FlagsOf(items))
    decreases |items|
  {
    hide Apply, TakeFlags, IsFlag;
    if items != [] {
      FlagsApply(p, q, items[0]);
      FlagsAlone(Apply(p, items[0]), q, items[1..]);
      FlagsOfFirst(items);
      if IsFlag(items[0]) {
        assert FlagsOf(items)[1..] == FlagsOf(items[1..]);
      }
    }
  }

  lemma FlagsOfFirst(items: seq<Item>)
    requires items != []
    ensures IsFlag(items[0]) ==> FlagsOf(items) != [] && FlagsOf(items)[0] == items[0] && FlagsOf(items)[1..] == FlagsOf(items[1..])
    ensures !IsFlag(items[0]) ==> FlagsOf(items) == FlagsOf(items[1..])
  {
  }

  lemma SpellSplit(items: seq<Item>)
    requires items != []
    ensures Spell(FlagsOf(items)) == Spelled(items[0]) + Spell(FlagsOf(items[1..]))
  {
    FlagsOfFirst(items);
    if !IsFlag(items[0]) {
      assert Spelled(items[0]) == [];
    }
  }

  lemma Regroup(a: seq<string>, b: seq<string>, c: seq<string>)
    ensures (a + b) + c == a + (b + c)
  {
  }

  lemma FlagsSpelledStep(p: ParsedArgs, items: seq<Item>)
    requires items != []
    requires Fold(Apply(p, items[0]), items[1..]).flags == Apply(p, items[0]).flags + Spell(FlagsOf(items[1..]))
    ensures Fold(p, items).flags == p.flags + Spell(FlagsOf(items))
  {
    hide Apply, Spelled, FlagsOf, Spell;
    SpellSplit(items);
    SpellFirst(p, items[0]);
    Regroup(p.flags, Spelled(items[0]), Spell(FlagsOf(items[1..])));
  }

  /** The recorded flags are the flag items as they were spelled. */
  lemma {:induction false} FlagsSpelled(p: ParsedArgs, items: seq<Item>)
    ensures Fold(p, items).flags == p.flags + Spell(FlagsOf(items))
    decreases |items|
  {
    if items == [] {
      assert p.flags + [] == p.flags;
    } else {
      FlagsSpelled(Apply(p, items[0]), items[1..]);
      FlagsSpelledStep(p, items);
    }
  }

  lemma SpellFirst(p: ParsedArgs, item: Item)
    ensures Apply(p, item).flags == p.flags + Spelled(item)
  {
  }

  lemma {:induction false} InputsStable(p: ParsedArgs, items: seq<Item>)
    requires AllStable(items) && forall i :: 0 <= i < |p.inputFiles| ==> InputArg(p.inputFiles[i])
    ensures forall i :: 0 <= i < |Fold(p, items).inputFiles| ==> InputArg(Fold(p, items).inputFiles[i])
    decreases |items|
  {
    hide InputArg, ApplyFlag;
    if items != [] {
      assert Stable(items[0]);
      var q := Apply(p, items[0]);
      ApplyInput(p, items[0]);
      InputsStable(q, items[1..]);
    }
  }

  lemma ApplyInput(p: ParsedArgs, item: Item)
    ensures Apply(p, item).inputFiles == if item.Input? then p.inputFiles + [item.file] else p.inputFiles
    ensures Apply(p, item).isCompileOnly <==> p.isCompileOnly || item == Flag("-c")
  {
  }

  // ---------------------------------------------------------------------
  // The round trip
  // ---------------------------------------------------------------------

  function LanguageItems(p: ParsedArgs): seq<Item> {
    if p.language != "" then [Language(p.language)] else []
  }

  function OutputItems(p: ParsedArgs): seq<Item> {
    if p.outputFile != "" then [Output(p.outputFile)] else []
  }

  /** What is known of every parsed command line: its flags are those items, its inputs are input arguments. */
  ghost predicate Reads(p: ParsedArgs, fs: seq<Item>) {
    && AllStable(fs) && AllFlags(fs) && p.flags == Spell(fs)
    && forall i :: 0 <= i < |p.inputFiles| ==> InputArg(p.inputFiles[i])
  }

  lemma ItemsOutput(p: ParsedArgs)
    ensures Items(OutputArgs(p)) == OutputItems(p)
  {
    if p.outputFile != "" {
      ItemsValued("-o", p.outputFile, []);
      assert ["-o", p.outputFile] + [] == ["-o", p.outputFile];
    }
  }

  lemma ItemsLanguage(p: ParsedArgs, rest: seq<string>)
    ensures Items(LanguageArgs(p) + rest) == LanguageItems(p) + Items(rest)
  {
    if p.language != "" {
      ItemsValued("-x", p.language, rest);
    } else {
      assert LanguageArgs(p) + rest == rest;
    }
  }

  lemma ItemsFromFlags(p: ParsedArgs, fs: seq<Item>)
    requires AllStable(fs) && AllFlags(fs) && forall i :: 0 <= i < |p.inputFiles| ==> InputArg(p.inputFiles[i])
    ensures Items(Spell(fs) + (p.inputFiles + OutputArgs(p))) == fs + (Inputs(p.inputFiles) + OutputItems(p))
  {
    hide *;
    ItemsOutput(p);
    ItemsInputs(p.inputFiles, OutputArgs(p));
    ItemsSpelled(fs, p.inputFiles + OutputArgs(p));
  }

  lemma ItemsTail(p: ParsedArgs, fs: seq<Item>)
    requires Reads(p, fs)
    ensures Items(Tail(p)) == LanguageItems(p) + (fs + (Inputs(p.inputFiles) + OutputItems(p)))
  {
    hide Items, LanguageItems, OutputItems, LanguageArgs, OutputArgs, InputArg, Spell;
    ItemsLanguage(p, p.flags + (p.inputFiles + OutputArgs(p)));
    ItemsFromFlags(p, fs);
  }

  lemma FoldEnd(p: ParsedArgs, q: ParsedArgs)
    requires q.outputFile == "" && q.inputFiles == []
    ensures Fold(q, Inputs(p.inputFiles) + OutputItems(p)) == q.(inputFiles := p.inputFiles, outputFile := p.outputFile)
  {
    FoldAppend(q, Inputs(p.inputFiles), OutputItems(p));
    FoldInputs(q, p.inputFiles);
    assert [] + p.inputFiles == p.inputFiles;
    FoldOne(q.(inputFiles := p.inputFiles), Output(p.outputFile));
  }

  lemma FoldOne(p: ParsedArgs, item: Item)
    ensures Fold(p, [item]) == Apply(p, item) && Fold(p, []) == p
  {
    hide Apply;
    assert [item][1..] == [];
    assert Fold(Apply(p, item), []) == Apply(p, item);
  }

  /** The whole line as the items of a printed command line rebuild it. */
  lemma FoldTail(p: ParsedArgs, raw: ParsedArgs, items: seq<Item>, q: ParsedArgs)
    requires raw == Fold(Blank(p.compiler), items)
    requires q == Blank(p.compiler).(includeDirs := p.includeDirs, defines := p.defines)
    ensures Fold(q, LanguageItems(p) + (FlagsOf(items) + (Inputs(p.inputFiles) + OutputItems(p))))
         == TakeFlags(q.(language := p.language), raw).(inputFiles := p.inputFiles, outputFile := p.outputFile)
  {
    hide Fold, Apply, FlagsOf, Inputs, OutputItems, DetectCompilerType;
    var fs, end := FlagsOf(items), Inputs(p.inputFiles) + OutputItems(p);
    var q1 := q.(language := p.language);
    FoldAppend(q, LanguageItems(p), fs + end);
    FoldLanguage(p, q);
    FoldAppend(q1, fs, end);
    assert TakeFlags(q1, Blank(p.compiler)) == q1;
    FlagsAlone(Blank(p.compiler), q1, items);
    FoldEnd(p, TakeFlags(q1, raw));
  }

  lemma FoldLanguage(p: ParsedArgs, q: ParsedArgs)
    requires q.language == ""
    ensures Fold(q, LanguageItems(p)) == q.(language := p.language)
  {
    FoldOne(q, Language(p.language));
  }

  lemma FoldHead(p: ParsedArgs, rest: seq<Item>)
    ensures Fold(Blank(p.compiler), Includes(p.includeDirs) + (Defines(p.defines) + rest))
         == Fold(Blank(p.compiler).(includeDirs := p.includeDirs, defines := p.defines), rest)
  {
    hide Fold, Apply, Includes, Defines, DetectCompilerType;
    var b := Blank(p.compiler);
    FoldAppend(b, Includes(p.includeDirs), Defines(p.defines) + rest);
    FoldIncludes(b, p.includeDirs);
    assert [] + p.includeDirs == p.includeDirs && [] + p.defines == p.defines;
    var b1 := b.(includeDirs := p.includeDirs);
    FoldAppend(b1, Defines(p.defines), rest);
    FoldDefines(b1, p.defines);
  }

  /** Finishing what was rebuilt from a finished line changes nothing. */
  lemma FinishAgain(raw: ParsedArgs)
    ensures var p := Finish(raw);
            var q := Blank(p.compiler).(includeDirs := p.includeDirs, defines := p.defines);
            p.compilerType == DetectCompilerType(p.compiler) ==>
              Finish(TakeFlags(q.(language := p.language), raw).(inputFiles := p.inputFiles, outputFile := p.outputFile)) == p
  {
    hide DetectCompilerType, DetectLanguage;
  }

  lemma {:induction false} FoldKeepsCompiler(p: ParsedArgs, items: seq<Item>)
    ensures Fold(p, items).compiler == p.compiler && Fold(p, items).compilerType == p.compilerType
    decreases |items|
  {
    if items != [] {
      FoldKeepsCompiler(Apply(p, items[0]), items[1..]);
    }
  }

  lemma ParsedReads(args: seq<string>)
    requires args != []
    ensures Reads(Parsed(args).value, FlagsOf(Items(args[1..])))
  {
    hide DetectCompilerType, DetectLanguage, Stable, InputArg, Items, Fold, Spell, FlagsOf;
    var items := Items(args[1..]);
    ItemsStable(args[1..]);
    FlagsOfStable(items);
    FlagsSpelled(Blank(args[0]), items);
    assert [] + Spell(FlagsOf(items)) == Spell(FlagsOf(items));
    InputsStable(Blank(args[0]), items);
  }

  lemma RoundTripHolds(args: seq<string>)
    requires args != []
    requires NoneEmpty(Parsed(args).value.includeDirs) && NoneEmpty(Parsed(args).value.defines)
    ensures Parsed(Printed(Parsed(args).value)) == Parsed(args)
  {
    hide Items, Fold, FlagsOf, TakeFlags, Includes, Defines, Inputs, LanguageItems, OutputItems, Tail, Prefixed, Reads;
    hide DetectCompilerType, DetectLanguage;
    var items := Items(args[1..]);
    var raw := Fold(Blank(args[0]), items);
    var p := Finish(raw);
    FoldKeepsCompiler(Blank(args[0]), items);
    ParsedReads(args);
    var tail := LanguageItems(p) + (FlagsOf(items) + (Inputs(p.inputFiles) + OutputItems(p)));
    ItemsTail(p, FlagsOf(items));
    ItemsDefines(p.defines, Tail(p));
    ItemsIncludes(p.includeDirs, Prefixed("-D", p.defines) + Tail(p));
    assert Items(Printed(p)[1..]) == Includes(p.includeDirs) + (Defines(p.defines) + tail);
    FoldHead(p, tail);
    FoldTail(p, raw, items, Blank(p.compiler).(includeDirs := p.includeDirs, defines := p.defines));
    FinishAgain(raw);
  }

  // ---------------------------------------------------------------------
  // ... and where it does not
  // ---------------------------------------------------------------------

  lemma {:induction false} FoldGrows(p: ParsedArgs, items: seq<Item>)
    ensures p.includeDirs <= Fold(p, items).includeDirs && p.defines <= Fold(p, items).defines
    decreases |items|
  {
    if items != [] {
      var q := Apply(p, items[0]);
      assert p.includeDirs <= q.includeDirs && p.defines <= q.defines;
      FoldGrows(q, items[1..]);
    }
  }

  /** The rest of a printed line can start with an empty argument only if that is its first flag. */
  lemma EmptyHead(p: ParsedArgs, fs: seq<Item>, dirs: seq<string>, names: seq<string>)
    requires Reads(p, fs)
    requires var rest := Prefixed("-I", dirs) + (Prefixed("-D", names) + Tail(p)); rest != [] && rest[0] == ""
    ensures var rest := Prefixed("-I", dirs) + (Prefixed("-D", names) + Tail(p));
            fs != [] && rest[1..] == Spell(fs[1..]) + (p.inputFiles + OutputArgs(p))
  {
    hide Items, InputArg, Stable, AllStable, OutputArgs, Spell;
    var rest := Prefixed("-I", dirs) + (Prefixed("-D", names) + Tail(p));
    assert dirs == [] && names == [] && LanguageArgs(p) == [];
    assert rest == p.flags + (p.inputFiles + OutputArgs(p));
    EmptyFirstFlag(p, fs);
  }

  lemma EmptyFirstFlag(p: ParsedArgs, fs: seq<Item>)
    requires Reads(p, fs)
    requires var rest := p.flags + (p.inputFiles + OutputArgs(p)); rest != [] && rest[0] == ""
    ensures var end := p.inputFiles + OutputArgs(p); fs != [] && (p.flags + end)[1..] == Spell(fs[1..]) + end
  {
    hide Items, Single, InputArg, OutputArgs;
    var end := p.inputFiles + OutputArgs(p);
    EndNotEmpty(p);
    assert p.flags == [] ==> p.flags + end == end;
    assert fs != [];
    assert Stable(fs[0]) && IsFlag(fs[0]);
    assert p.flags == Spelled(fs[0]) + Spell(fs[1..]);
    assert fs[0] == Flag("");
    assert p.flags + end == [""] + (Spell(fs[1..]) + end);
  }

  lemma EndNotEmpty(p: ParsedArgs)
    requires forall i :: 0 <= i < |p.inputFiles| ==> InputArg(p.inputFiles[i])
    ensures var end := p.inputFiles + OutputArgs(p); end != [] ==> end[0] != ""
  {
    assert Lower(Ext("")) == "";
    if p.inputFiles != [] {
      assert InputArg(p.inputFiles[0]);
    }
  }

  /** Reading on after a value-taking argument has swallowed the empty first flag finds one flag too few. */
  lemma OneFlagShort(p: ParsedArgs, fs: seq<Item>, q: ParsedArgs)
    requires Reads(p, fs) && fs != [] && q.flags == []
    ensures Fold(q, Items(Spell(fs[1..]) + (p.inputFiles + OutputArgs(p)))).flags != p.flags
  {
    hide Items, Stable, InputArg, Fold, OutputArgs;
    var rest := fs[1..];
    ItemsFromFlags(p, rest);
    var end := Inputs(p.inputFiles) + OutputItems(p);
    FlagsSpelled(q, rest + end);
    FlagsOfEnd(p, rest);
    assert [] + Spell(rest) == Spell(rest);
    assert IsFlag(fs[0]) && |p.flags| > |Spell(rest)|;
  }

  lemma {:induction false} FlagsOfEnd(p: ParsedArgs, fs: seq<Item>)
    requires AllFlags(fs)
    ensures FlagsOf(fs + (Inputs(p.inputFiles) + OutputItems(p))) == fs
  {
    var end := Inputs(p.inputFiles) + OutputItems(p);
    if fs == [] {
      NoFlagsAtEnd(p.inputFiles, OutputItems(p));
      assert [] + end == end;
    } else {
      FlagsOfEnd(p, fs[1..]);
      assert (fs + end)[1..] == fs[1..] + end;
    }
  }

  lemma {:induction false} NoFlagsAtEnd(files: seq<string>, out: seq<Item>)
    requires out == [] || (|out| == 1 && out[0].Output?)
    ensures FlagsOf(Inputs(files) + out) == []
  {
    if files == [] {
      assert Inputs(files) + out == out;
      assert out != [] ==> out[1..] == [];
    } else {
      NoFlagsAtEnd(files[1..], out);
      assert (Inputs(files) + out)[1..] == Inputs(files[1..]) + out;
    }
  }

  /** An empty include directory is printed as a bare -I, which swallows what follows it. */
  lemma EmptyIncludeBreaks(p: ParsedArgs, fs: seq<Item>, k: nat)
    requires Reads(p, fs) && k < |p.includeDirs| && p.includeDirs[k] == "" && NoneEmpty(p.includeDirs[..k])
    ensures Parsed(Printed(p)) != Some(p)
  {
    hide Items, Fold, Tail, Reads, DetectCompilerType, DetectLanguage, Includes, Spell;
    var good, more := p.includeDirs[..k], p.includeDirs[k + 1..];
    var rest := Prefixed("-I", more) + (Prefixed("-D", p.defines) + Tail(p));
    assert p.includeDirs == good + ([""] + more);
    PrefixedAppend("-I", good, [""] + more);
    assert Prefixed("-I", [""] + more) == ["-I"] + Prefixed("-I", more) by {
      assert ([""] + more)[1..] == more;
      assert "-I" + "" == "-I";
    }
    assert Printed(p)[1..] == Prefixed("-I", good) + (["-I"] + rest);
    ItemsIncludes(good, ["-I"] + rest);
    var b := Blank(p.compiler);
    FoldAppend(b, Includes(good), Items(["-I"] + rest));
    FoldIncludes(b, good);
    assert [] + good == good;
    var b1 := b.(includeDirs := good);
    SwallowedInclude(p, fs, b1, k, rest);
  }

  lemma SwallowedInclude(p: ParsedArgs, fs: seq<Item>, b: ParsedArgs, k: nat, rest: seq<string>)
    requires Reads(p, fs) && k < |p.includeDirs| && p.includeDirs[k] == "" && b.includeDirs == p.includeDirs[..k] && b.flags == []
    requires rest == Prefixed("-I", p.includeDirs[k + 1..]) + (Prefixed("-D", p.defines) + Tail(p))
    ensures var q := Fold(b, Items(["-I"] + rest)); q.includeDirs != p.includeDirs || q.flags != p.flags
  {
    hide Tail, Reads, Prefixed, Single, Spell;
    if rest != [] {
      var b1 := b.(includeDirs := b.includeDirs + [rest[0]]);
      assert ["-I"] + rest == ["-I", rest[0]] + rest[1..];
      ItemsValued("-I", rest[0], rest[1..]);
      FoldFirst(b, Include(rest[0]), Items(rest[1..]));
      FoldGrows(b1, Items(rest[1..]));
      if rest[0] == "" {
        EmptyHead(p, fs, p.includeDirs[k + 1..], p.defines);
        OneFlagShort(p, fs, b1);
      } else {
        assert b1.includeDirs[k] != p.includeDirs[k];
      }
    }
  }

  lemma FoldFirst(p: ParsedArgs, item: Item, items: seq<Item>)
    ensures Fold(p, [item] + items) == Fold(Apply(p, item), items)
  {
    assert ([item] + items)[1..] == items;
  }

  lemma {:induction false} PrefixedAppend(prefix: string, a: seq<string>, b: seq<string>)
    ensures Prefixed(prefix, a + b) == Prefixed(prefix, a) + Prefixed(prefix, b)
  {
    if a == [] {
      assert a + b == b;
    } else {
      assert (a + b)[1..] == a[1..] + b;
      PrefixedAppend(prefix, a[1..], b);
    }
  }

  lemma EmptyDefineBreaks(p: ParsedArgs, fs: seq<Item>, k: nat)
    requires Reads(p, fs) && NoneEmpty(p.includeDirs)
    requires k < |p.defines| && p.defines[k] == "" && NoneEmpty(p.defines[..k])
    ensures Parsed(Printed(p)) != Some(p)
  {
    hide Items, Fold, Tail, Reads, DetectCompilerType, DetectLanguage, Includes, Defines, Spell;
    var good, more := p.defines[..k], p.defines[k + 1..];
    var rest := Prefixed("-D", more) + Tail(p);
    assert p.defines == good + ([""] + more);
    PrefixedAppend("-D", good, [""] + more);
    assert Prefixed("-D", [""] + more) == ["-D"] + Prefixed("-D", more) by {
      assert ([""] + more)[1..] == more;
      assert "-D" + "" == "-D";
    }
    assert Printed(p)[1..] == Prefixed("-I", p.includeDirs) + (Prefixed("-D", good) + (["-D"] + rest));
    ItemsIncludes(p.includeDirs, Prefixed("-D", good) + (["-D"] + rest));
    ItemsDefines(good, ["-D"] + rest);
    FoldHead(p.(defines := good), Items(["-D"] + rest));
    SwallowedDefine(p, fs, Blank(p.compiler).(includeDirs := p.includeDirs, defines := good), k, rest);
  }

  lemma SwallowedDefine(p: ParsedArgs, fs: seq<Item>, b: ParsedArgs, k: nat, rest: seq<string>)
    requires Reads(p, fs) && k < |p.defines| && p.defines[k] == "" && b.defines == p.defines[..k] && b.flags == []
    requires rest == Prefixed("-D", p.defines[k + 1..]) + Tail(p)
    ensures var q := Fold(b, Items(["-D"] + rest)); q.defines != p.defines || q.flags != p.flags
  {
    hide Tail, Reads, Single, Spell;
    if rest != [] {
      var b1 := b.(defines := b.defines + [rest[0]]);
      assert ["-D"] + rest == ["-D", rest[0]] + rest[1..];
      ItemsValued("-D", rest[0], rest[1..]);
      FoldFirst(b, Define(rest[0]), Items(rest[1..]));
      FoldGrows(b1, Items(rest[1..]));
      if rest[0] == "" {
        assert Prefixed("-I", []) + rest == rest;
        EmptyHead(p, fs, [], p.defines[k + 1..]);
        OneFlagShort(p, fs, b1);
      } else {
        assert b1.defines[k] != p.defines[k];
      }
    }
  }

  lemma {:induction false} FirstEmpty(ss: seq<string>) returns (k: nat)
    requires !NoneEmpty(ss)
    ensures k < |ss| && ss[k] == "" && NoneEmpty(ss[..k])
  {
    if ss[0] == "" {
      k := 0;
    } else {
      var i :| 0 <= i < |ss| && ss[i] == "";
      assert ss[1..][i - 1] == "";
      var j := FirstEmpty(ss[1..]);
      k := j + 1;
      assert forall l :: 0 <= l < k ==> l == 0 || ss[l] == ss[1..][..j][l - 1];
    }
  }

  /** Printing a parsed command line and parsing it again gives it back exactly when no include directory and no define is empty. */
  lemma RoundTripIff(args: seq<string>)
    requires args != []
    ensures var p := Parsed(args).value;
            (Parsed(Printed(p)) == Some(p) <==> NoneEmpty(p.includeDirs) && NoneEmpty(p.defines))
  {
    hide Parsed, Printed, Reads, NoneEmpty;
    assert Parsed(args).Some? by { ParsedSome(args); }
    var p, fs := Parsed(args).value, FlagsOf(Items(args[1..]));
    ParsedReads(args);
    if NoneEmpty(p.includeDirs) && NoneEmpty(p.defines) {
      RoundTripHolds(args);
    } else if !NoneEmpty(p.includeDirs) {
      var k := FirstEmpty(p.includeDirs);
      EmptyIncludeBreaks(p, fs, k);
    } else {
      var k := FirstEmpty(p.defines);
      EmptyDefineBreaks(p, fs, k);
    }
  }

  lemma ParsedSome(args: seq<string>)
    requires args != []
    ensures Parsed(args).Some?
  {
  }

  // ---------------------------------------------------------------------
  // What can be distributed
  // ---------------------------------------------------------------------

  function InputsOf(items: seq<Item>): seq<string> {
    if items == [] then [] else (if items[0].Input? then [items[0].file] else []) + InputsOf(items[1..])
  }

  lemma {:induction false} InputsFolded(p: ParsedArgs, items: seq<Item>)
    ensures Fold(p, items).inputFiles == p.inputFiles + InputsOf(items)
    ensures Fold(p, items).isCompileOnly <==> p.isCompileOnly || Flag("-c") in items
    decreases |items|
  {
    hide Apply;
    if items == [] {
      assert p.inputFiles + [] == p.inputFiles;
    } else {
      var q := Apply(p, items[0]);
      InputsFolded(q, items[1..]);
      ApplyInput(p, items[0]);
      assert items == [items[0]] + items[1..];
      assert q.inputFiles + InputsOf(items[1..]) == p.inputFiles + InputsOf(items);
    }
  }

  /** A command line is distributed exactly when -c stands among its items -- and not as another argument's value --
      and its only input is a source file; such a line is never a link and always has a language. */
  lemma DistributableIff(args: seq<string>)
    requires args != []
    ensures var p, items := Parsed(args).value, Items(args[1..]);
            && (IsDistributable(p) <==> Flag("-c") in items && |InputsOf(items)| == 1 && IsSourceFile(InputsOf(items)[0]))
            && (IsDistributable(p) ==> !p.isLink && p.language != "")
  {
    hide Items, DetectCompilerType, Ext;
    InputsFolded(Blank(args[0]), Items(args[1..]));
    assert [] + InputsOf(Items(args[1..])) == InputsOf(Items(args[1..]));
  }

  // ---------------------------------------------------------------------
  // The loops
  // ---------------------------------------------------------------------

  method Parse(args: seq<string>) returns (r: Option<ParsedArgs>)
    ensures r == Parsed(args)
  {
    hide Items, Fold, DetectLanguage, DetectCompilerType;
    if |args| == 0 {
      return None;
    }
    var p := Blank(args[0]);
    var i := 1;
    while i < |args|
      invariant 1 <= i <= |args|
      invariant Fold(p, Items(args[i..])) == Fold(Blank(args[0]), Items(args[1..]))
    {
      var n;
      p, n := ParseOne(p, args, i);
      i := i + n;
    }
    NothingLeft(p, args);
    p := p.(isLink := !p.isCompileOnly && !p.isPreprocess && |p.inputFiles| > 0);
    if p.language == "" && |p.inputFiles| > 0 {
      p := p.(language := DetectLanguage(p.inputFiles[0]));
    }
    return Some(p);
  }

  lemma NothingLeft(p: ParsedArgs, args: seq<string>)
    ensures Fold(p, Items(args[|args|..])) == p
  {
  }

  /** One round of the loop: the switch on args[i], which may use up args[i + 1] too. */
  method ParseOne(p: ParsedArgs, args: seq<string>, i: nat) returns (q: ParsedArgs, n: nat)
    requires i < |args|
    ensures 1 <= n <= |args| - i
    ensures Fold(q, Items(args[i + n..])) == Fold(p, Items(args[i..]))
  {
    var arg := args[i];
    q, n := p, 1;
    if TakesValue(arg) {
      if i + 1 < |args| {
        n := 2;
        q := StoreValue(p, arg, args[i + 1]);
        assert args[i..] == [arg, args[i + 1]] + args[i + 2..];
        ItemsValued(arg, args[i + 1], args[i + 2..]);
        FoldFirst(p, Valued(arg, args[i + 1]), Items(args[i + 2..]));
      } else {
        Dangling(args, i);
      }
    } else {
      q := StoreSingle(p, arg);
      assert args[i..] == [arg] + args[i + 1..];
      ItemsSingle(arg, args[i + 1..]);
      FoldFirst(p, Single(arg), Items(args[i + 1..]));
    }
  }

  lemma Dangling(args: seq<string>, i: nat)
    requires i + 1 == |args| && TakesValue(args[i])
    ensures Items(args[i..]) == [] && Items(args[i + 1..]) == []
  {
    assert args[i..] == [args[i]];
  }

  /** The cases of the switch that take the next argument. */
  method StoreValue(p: ParsedArgs, arg: string, value: string) returns (q: ParsedArgs)
    requires TakesValue(arg)
    ensures q == Apply(p, Valued(arg, value))
  {
    if arg == "-o" {
      q := p.(outputFile := value);
    } else if arg == "-I" {
      q := p.(includeDirs := p.includeDirs + [value]);
    } else if arg == "-D" {
      q := p.(defines := p.defines + [value]);
    } else if arg == "-x" {
      q := p.(language := value);
    } else {
      q := p.(targetArch := value, flags := p.flags + [arg, value]);
    }
  }

  /** The cases of the switch that stand for themselves, in the order they are tried. */
  method StoreSingle(p: ParsedArgs, arg: string) returns (q: ParsedArgs)
    requires !TakesValue(arg)
    ensures q == Apply(p, Single(arg))
  {
    if arg == "-c" {
      q := p.(isCompileOnly := true, flags := p.flags + [arg]);
    } else if arg == "-E" {
      q := p.(isPreprocess := true, flags := p.flags + [arg]);
    } else if arg == "-S" {
      q := p.(flags := p.flags + [arg]);
    } else if "-o" <= arg {
      q := p.(outputFile := arg[2..]);
    } else if "-I" <= arg {
      q := p.(includeDirs := p.includeDirs + [arg[2..]]);
    } else if "-D" <= arg {
      q := p.(defines := p.defines + [arg[2..]]);
    } else if "-x" <= arg {
      q := p.(language := arg[2..]);
    } else if "-std=" <= arg {
      q := p.(standard := arg[5..], flags := p.flags + [arg]);
    } else if "-march=" <= arg {
      q := p.(targetArch := arg[7..], flags := p.flags + [arg]);
    } else if "-O" <= arg {
      q := p.(optimization := arg[2..], flags := p.flags + [arg]);
    } else if "-" <= arg {
      q := p.(flags := p.flags + [arg]);
    } else if IsSourceFile(arg) || IsObjectFile(arg) {
      q := p.(inputFiles := p.inputFiles + [arg]);
    } else {
      q := p.(flags := p.flags + [arg]);
    }
  }

  method ToArgs(p: ParsedArgs) returns (args: seq<string>)
    ensures args == Printed(p)
  {
    hide Prefixed;
    args := [p.compiler];
    args := AppendPrefixed(args, "-I", p.includeDirs);
    args := AppendPrefixed(args, "-D", p.defines);
    if p.language != "" {
      args := args + ["-x", p.language];
    }
    ghost var head := [p.compiler] + Prefixed("-I", p.includeDirs) + Prefixed("-D", p.defines);
    assert args == head + LanguageArgs(p);
    args := args + p.flags;
    args := args + p.inputFiles;
    if p.outputFile != "" {
      args := args + ["-o", p.outputFile];
    }
    assert args == head + LanguageArgs(p) + p.flags + p.inputFiles + OutputArgs(p);
    hide LanguageArgs, OutputArgs;
    assert args == head + Tail(p);
  }

  method AppendPrefixed(args: seq<string>, prefix: string, ss: seq<string>) returns (r: seq<string>)
    ensures r == args + Prefixed(prefix, ss)
  {
    r := args;
    for i := 0 to |ss|
      invariant r == args + Prefixed(prefix, ss[..i])
    {
      r := r + [prefix + ss[i]];
      assert ss[..i + 1] == ss[..i] + [ss[i]];
      PrefixedAppend(prefix, ss[..i], [ss[i]]);
      assert Prefixed(prefix, [ss[i]]) == [prefix + ss[i]];
    }
    assert ss[..|ss|] == ss;
  }
}
