/**
 What parsing a command line means (internal/compiler/parser.go), said in terms of
 command lines: what each argument at the end of a line adds to the parsed line,
 and nothing else; which language and compiler a line is for.
 */
module CommandLine {
  import opened Common
  import opened CompilerArgs

  // ---------------------------------------------------------------------
  // Lines that can be continued
  // ---------------------------------------------------------------------

  /** The arguments do not end in one that still waits for its value. */
  predicate Complete(args: seq<string>) {
    args == []
    || (if !TakesValue(args[0]) then Complete(args[1..]) else |args| >= 2 && Complete(args[2..]))
  }

  /** A compiler, and arguments of which none is waiting for a value. */
  predicate Line(args: seq<string>) {
    args != [] && Complete(args[1..])
  }

  lemma {:induction false} ItemsContinue(args: seq<string>, more: seq<string>)
    requires Complete(args)
    ensures Items(args + more) == Items(args) + Items(more)
  {
    hide TakesValue, Single, Valued, Items;
    if args == [] {
      NoItems();
      assert args + more == more && [] + Items(more) == Items(more);
    } else if !TakesValue(args[0]) {
      var rest := args[1..];
      ItemsContinue(rest, more);
      ItemsSingle(args[0], rest);
      ItemsSingle(args[0], rest + more);
      assert args == [args[0]] + rest && args + more == [args[0]] + (rest + more);
      Regrouped([Single(args[0])], Items(rest), Items(more));
    } else {
      var rest := args[2..];
      ItemsContinue(rest, more);
      ItemsValued(args[0], args[1], rest);
      ItemsValued(args[0], args[1], rest + more);
      assert args == [args[0], args[1]] + rest && args + more == [args[0], args[1]] + (rest + more);
      Regrouped([Valued(args[0], args[1])], Items(rest), Items(more));
    }
  }

  lemma NoItems()
    ensures Items([]) == []
  {
  }

  lemma Regrouped(a: seq<Item>, b: seq<Item>, c: seq<Item>)
    ensures (a + b) + c == a + (b + c)
  {
  }

  /** What has been read of a line before the final touches. */
  function Read(args: seq<string>): ParsedArgs
    requires args != []
  {
    Fold(Blank(args[0]), Items(args[1..]))
  }

  lemma ParsedIs(args: seq<string>)
    requires args != []
    ensures Parsed(args) == Some(Finish(Read(args)))
  {
  }

  lemma ReadContinues(args: seq<string>, more: seq<string>)
    requires Line(args)
    ensures Read(args + more) == Fold(Read(args), Items(more))
  {
    hide Items, Fold, Complete, DetectCompilerType;
    assert (args + more)[1..] == args[1..] + more;
    ItemsContinue(args[1..], more);
    FoldAppend(Blank(args[0]), Items(args[1..]), Items(more));
  }

  lemma ReadOne(args: seq<string>, arg: string)
    requires Line(args) && !TakesValue(arg)
    ensures Read(args + [arg]) == Apply(Read(args), Single(arg))
  {
    hide Fold, Apply, Complete, Single, TakesValue, DetectCompilerType, Read;
    ReadContinues(args, [arg]);
    ItemsSingle(arg, []);
    assert [arg] + [] == [arg] && [Single(arg)] + Items([]) == [Single(arg)];
    FoldOne(Read(args), Single(arg));
  }

  lemma ReadTwo(args: seq<string>, arg: string, value: string)
    requires Line(args) && TakesValue(arg)
    ensures Read(args + [arg, value]) == Apply(Read(args), Valued(arg, value))
  {
    hide Fold, Apply, Complete, Valued, TakesValue, DetectCompilerType, Read;
    ReadContinues(args, [arg, value]);
    ItemsValued(arg, value, []);
    assert [arg, value] + [] == [arg, value] && [Valued(arg, value)] + Items([]) == [Valued(arg, value)];
    FoldOne(Read(args), Valued(arg, value));
  }

  // ---------------------------------------------------------------------
  // What an argument adds
  // ---------------------------------------------------------------------

  /** An output file, joined or not; the last one counts. */
  lemma OutputAdded(args: seq<string>, file: string)
    requires Line(args)
    ensures var p := Parsed(args).value;
            && Parsed(args + ["-o", file]) == Some(p.(outputFile := file))
            && (file != "" ==> Parsed(args + ["-o" + file]) == Some(p.(outputFile := file)))
  {
    hide Read, Complete, DetectLanguage, DetectCompilerType;
    ParsedIs(args);
    ParsedIs(args + ["-o", file]);
    ParsedIs(args + ["-o" + file]);
    ReadTwo(args, "-o", file);
    if file != "" {
      Joined("-o", file);
      ReadOne(args, "-o" + file);
    }
  }

  /** A short flag with its value joined on is no longer the bare flag. */
  lemma Joined(flag: string, value: string)
    requires |flag| == 2 && flag[0] == '-' && value != "" && flag[1] != 'm'
    ensures !TakesValue(flag + value) && flag <= flag + value && (flag + value)[2..] == value
  {
    var arg := flag + value;
    assert |arg| > 2 && arg[1] == flag[1];
    assert "-march"[1] == 'm' && "-mtune"[1] == 'm';
  }

  /** A language; the last one counts. */
  lemma LanguageAdded(args: seq<string>, name: string)
    requires Line(args) && name != ""
    ensures var p := Parsed(args).value;
            && Parsed(args + ["-x", name]) == Some(p.(language := name))
            && Parsed(args + ["-x" + name]) == Some(p.(language := name))
  {
    hide Read, Complete, DetectLanguage, DetectCompilerType;
    ParsedIs(args);
    ParsedIs(args + ["-x", name]);
    ParsedIs(args + ["-x" + name]);
    ReadTwo(args, "-x", name);
    Joined("-x", name);
    ReadOne(args, "-x" + name);
  }

  /** An include directory, after those before it. */
  lemma IncludeAdded(args: seq<string>, dir: string)
    requires Line(args)
    ensures var p := Parsed(args).value;
            && Parsed(args + ["-I", dir]) == Some(p.(includeDirs := p.includeDirs + [dir]))
            && (dir != "" ==> Parsed(args + ["-I" + dir]) == Some(p.(includeDirs := p.includeDirs + [dir])))
  {
    hide Read, Complete, DetectLanguage, DetectCompilerType;
    ParsedIs(args);
    ParsedIs(args + ["-I", dir]);
    ParsedIs(args + ["-I" + dir]);
    ReadTwo(args, "-I", dir);
    if dir != "" {
      Joined("-I", dir);
      ReadOne(args, "-I" + dir);
    }
  }

  /** A define, after those before it. */
  lemma DefineAdded(args: seq<string>, name: string)
    requires Line(args)
    ensures var p := Parsed(args).value;
            && Parsed(args + ["-D", name]) == Some(p.(defines := p.defines + [name]))
            && (name != "" ==> Parsed(args + ["-D" + name]) == Some(p.(defines := p.defines + [name])))
  {
    hide Read, Complete, DetectLanguage, DetectCompilerType;
    ParsedIs(args);
    ParsedIs(args + ["-D", name]);
    ParsedIs(args + ["-D" + name]);
    ReadTwo(args, "-D", name);
    if name != "" {
      Joined("-D", name);
      ReadOne(args, "-D" + name);
    }
  }

  /** What a flag that stands alone adds, in general. */
  lemma FlagEffect(args: seq<string>, arg: string)
    requires Line(args) && !TakesValue(arg) && Single(arg) == Flag(arg)
    ensures var p := Parsed(args).value;
            Parsed(args + [arg]) ==
            Some(p.(flags := p.flags + [arg],
                    isCompileOnly := p.isCompileOnly || arg == "-c",
                    isPreprocess := p.isPreprocess || arg == "-E",
                    isLink := p.isLink && arg != "-c" && arg != "-E",
                    standard := if "-std=" <= arg then arg[5..] else p.standard,
                    targetArch := if "-march=" <= arg then arg[7..] else p.targetArch,
                    optimization := if "-O" <= arg then arg[2..] else p.optimization))
  {
    hide Read, Complete, DetectLanguage, DetectCompilerType, Single, TakesValue;
    ParsedIs(args);
    ParsedIs(args + [arg]);
    ReadOne(args, arg);
  }

  /** -c makes a line compile only, and no link. */
  lemma CompileOnlyAdded(args: seq<string>)
    requires Line(args)
    ensures var p := Parsed(args).value;
            Parsed(args + ["-c"]) == Some(p.(flags := p.flags + ["-c"], isCompileOnly := true, isLink := false))
  {
    ModesStandAlone();
    assert "-E" != "-c" && !("-O" <= "-c") && !("-std=" <= "-c") && !("-march=" <= "-c");
    hide Parsed, Complete, Single, TakesValue;
    FlagEffect(args, "-c");
  }

  /** -E makes a line preprocess, and no link. */
  lemma PreprocessAdded(args: seq<string>)
    requires Line(args)
    ensures var p := Parsed(args).value;
            Parsed(args + ["-E"]) == Some(p.(flags := p.flags + ["-E"], isPreprocess := true, isLink := false))
  {
    ModesStandAlone();
    assert "-c"[1] == 'c' && "-E"[1] == 'E' && "-S"[1] == 'S' && "-O"[1] == 'O';
    assert "-E" != "-c" && !("-O" <= "-E") && !("-std=" <= "-E") && !("-march=" <= "-E");
    hide Parsed, Complete, Single, TakesValue;
    FlagEffect(args, "-E");
  }

  /** -S is recorded and no more. */
  lemma AssembleAdded(args: seq<string>)
    requires Line(args)
    ensures var p := Parsed(args).value; Parsed(args + ["-S"]) == Some(p.(flags := p.flags + ["-S"]))
  {
    ModesStandAlone();
    assert "-c"[1] == 'c' && "-E"[1] == 'E' && "-S"[1] == 'S' && "-O"[1] == 'O';
    hide Parsed, Complete, Single, TakesValue;
    FlagEffect(args, "-S");
  }

  lemma ModesStandAlone()
    ensures forall arg :: arg in ["-c", "-E", "-S"] ==> !TakesValue(arg) && Single(arg) == Flag(arg)
  {
  }

  lemma FlagSingle(arg: string)
    requires |arg| >= 2 && arg[0] == '-' && arg[1] != 'o' && arg[1] != 'I' && arg[1] != 'D' && arg[1] != 'x'
    ensures Single(arg) == Flag(arg)
  {
  }

  /** The language standard; the last one counts, all are recorded. */
  lemma StandardAdded(args: seq<string>, name: string)
    requires Line(args)
    ensures var p, arg := Parsed(args).value, "-std=" + name;
            Parsed(args + [arg]) == Some(p.(flags := p.flags + [arg], standard := name))
  {
    var arg := "-std=" + name;
    assert arg[1] == 's' && arg[5..] == name && "-std=" <= arg;
    FlagSingle(arg);
    assert !TakesValue(arg);
    hide Parsed, Complete, Single, TakesValue;
    FlagEffect(args, arg);
  }

  /** The optimisation level; the last one counts, all are recorded. */
  lemma OptimizationAdded(args: seq<string>, level: string)
    requires Line(args)
    ensures var p, arg := Parsed(args).value, "-O" + level;
            Parsed(args + [arg]) == Some(p.(flags := p.flags + [arg], optimization := level))
  {
    var arg := "-O" + level;
    assert arg[1] == 'O' && arg[2..] == level && "-O" <= arg;
    FlagSingle(arg);
    assert !TakesValue(arg);
    hide Parsed, Complete, Single, TakesValue;
    FlagEffect(args, arg);
  }

  /** The target architecture, joined; the last one counts, all are recorded. */
  lemma ArchitectureAdded(args: seq<string>, name: string)
    requires Line(args)
    ensures var p, arg := Parsed(args).value, "-march=" + name;
            Parsed(args + [arg]) == Some(p.(flags := p.flags + [arg], targetArch := name))
  {
    var arg := "-march=" + name;
    assert arg[1] == 'm' && arg[7..] == name && "-march=" <= arg && |arg| >= 7;
    FlagSingle(arg);
    assert !TakesValue(arg);
    hide Parsed, Complete, Single, TakesValue;
    FlagEffect(args, arg);
  }

  /** The target architecture as a value of its own; both arguments are recorded. */
  lemma ArchitectureValueAdded(args: seq<string>, flag: string, name: string)
    requires Line(args) && (flag == "-march" || flag == "-mtune")
    ensures var p := Parsed(args).value;
            Parsed(args + [flag, name]) == Some(p.(flags := p.flags + [flag, name], targetArch := name))
  {
    assert TakesValue(flag) && Valued(flag, name) == FlagValue(flag, name);
    hide Read, Complete, DetectLanguage, DetectCompilerType, Single, TakesValue, Valued;
    ParsedIs(args);
    ParsedIs(args + [flag, name]);
    ReadTwo(args, flag, name);
  }

  /** Any other flag is recorded, and changes nothing else. */
  lemma FlagAdded(args: seq<string>, arg: string)
    requires Line(args) && |arg| >= 2 && arg[0] == '-' && arg[1] !in ['o', 'I', 'D', 'x', 'O', 'c', 'E', 's', 'm']
    ensures var p := Parsed(args).value; Parsed(args + [arg]) == Some(p.(flags := p.flags + [arg]))
  {
    FlagSingle(arg);
    assert !TakesValue(arg) && !("-O" <= arg) && !("-std=" <= arg) && !("-march=" <= arg) && arg != "-c" && arg != "-E";
    hide Parsed, Complete, Single, TakesValue;
    FlagEffect(args, arg);
  }

  /** A flag whose value is missing is dropped. */
  lemma DanglingDropped(args: seq<string>, arg: string)
    requires Line(args) && arg in ["-o", "-I", "-D", "-x", "-march", "-mtune"]
    ensures Parsed(args + [arg]) == Parsed(args)
  {
    assert TakesValue(arg);
    hide Read, Complete, DetectLanguage, DetectCompilerType;
    ParsedIs(args);
    ParsedIs(args + [arg]);
    ReadContinues(args, [arg]);
    assert Items([arg]) == [];
  }

  // ---------------------------------------------------------------------
  // Files and languages
  // ---------------------------------------------------------------------

  /** The source languages by extension. */
  predicate Speaks(ext: string, language: string) {
    (ext, language) in [(".c", "c"), (".cc", "c++"), (".cpp", "c++"), (".cxx", "c++"), (".c++", "c++"),
                        (".m", "objective-c"), (".mm", "objective-c++"), (".s", "assembler")]
  }

  /** The same but for the case of letters. */
  ghost predicate SameButCase(suffix: string, ext: string) {
    |suffix| == |ext| && forall i :: 0 <= i < |ext| ==>
      suffix[i] == ext[i] || ('a' <= ext[i] <= 'z' && suffix[i] == ext[i] - 'a' + 'A')
  }

  /** A dot and then neither dots nor slashes. */
  ghost predicate Extension(suffix: string) {
    suffix != "" && suffix[0] == '.' && forall i :: 1 <= i < |suffix| ==> suffix[i] != '.' && suffix[i] != '/'
  }

  lemma {:induction false} ExtOf(stem: string, suffix: string)
    requires Extension(suffix)
    ensures Ext(stem + suffix) == suffix
  {
    var path := stem + suffix;
    if |suffix| == 1 {
      assert path[|path| - 1] == '.' && suffix == ".";
    } else {
      var init := suffix[..|suffix| - 1];
      ExtOf(stem, init);
      assert path[..|path| - 1] == stem + init;
      assert path[|path| - 1] == suffix[|suffix| - 1];
      assert init + [suffix[|suffix| - 1]] == suffix;
    }
  }

  lemma LowerOf(suffix: string, ext: string)
    requires SameButCase(suffix, ext) && forall i :: 0 <= i < |ext| ==> !('A' <= ext[i] <= 'Z')
    ensures Lower(suffix) == ext
  {
    forall i | 0 <= i < |ext|
      ensures Lower(suffix)[i] == ext[i]
    {
    }
  }

  /** An extension of the table, in any case, is an extension, and lower-cases to the table's. */
  lemma TableExtension(stem: string, suffix: string, ext: string)
    requires SameButCase(suffix, ext) && ext in [".c", ".cc", ".cpp", ".cxx", ".c++", ".m", ".mm", ".s", ".o", ".obj"]
    ensures Lower(Ext(stem + suffix)) == ext
  {
    assert forall i :: 1 <= i < |ext| ==> ext[i] in ['c', 'p', 'x', '+', 'm', 's', 'o', 'b', 'j'];
    assert ext[0] == '.';
    assert Extension(suffix) by {
      assert suffix[0] == '.';
      forall i | 1 <= i < |suffix|
        ensures suffix[i] != '.' && suffix[i] != '/'
      {
        assert ext[i] in ['c', 'p', 'x', '+', 'm', 's', 'o', 'b', 'j'];
      }
    }
    ExtOf(stem, suffix);
    LowerOf(suffix, ext);
  }

  lemma SpokenExtension(ext: string, language: string)
    requires Speaks(ext, language)
    ensures ext in [".c", ".cc", ".cpp", ".cxx", ".c++", ".m", ".mm", ".s"]
  {
  }

  /** A file with an extension of the table is a source file of that language. */
  lemma SpokenFile(file: string, ext: string, language: string)
    requires Speaks(ext, language) && Lower(Ext(file)) == ext
    ensures IsSourceFile(file) && DetectLanguage(file) == language
  {
    hide Ext, Lower;
  }

  lemma InputSingle(file: string)
    requires !("-" <= file) && (IsSourceFile(file) || IsObjectFile(file))
    ensures !TakesValue(file) && Single(file) == Input(file)
  {
    hide IsSourceFile, IsObjectFile;
  }

  /** A source file is an input, and gives a line without language and inputs its language. */
  lemma SourceAdded(args: seq<string>, stem: string, suffix: string, ext: string, language: string)
    requires Line(args) && Speaks(ext, language) && SameButCase(suffix, ext) && !("-" <= stem + suffix)
    ensures var p, file := Parsed(args).value, stem + suffix;
            Parsed(args + [file]) ==
            Some(p.(inputFiles := p.inputFiles + [file],
                       isLink := !p.isCompileOnly && !p.isPreprocess,
                       language := if p.language == "" && p.inputFiles == [] then language else p.language))
  {
    hide Parsed, Complete, IsSourceFile, DetectLanguage, Single, TakesValue, Speaks, SameButCase;
    var file := stem + suffix;
    SpokenExtension(ext, language);
    TableExtension(stem, suffix, ext);
    SpokenFile(file, ext, language);
    InputSingle(file);
    InputRead(args, file);
  }

  /** An object file is an input without a language. */
  lemma ObjectAdded(args: seq<string>, stem: string, suffix: string, ext: string)
    requires Line(args) && (ext == ".o" || ext == ".obj") && SameButCase(suffix, ext) && !("-" <= stem + suffix)
    ensures var p, file := Parsed(args).value, stem + suffix;
            Parsed(args + [file]) ==
            Some(p.(inputFiles := p.inputFiles + [file], isLink := !p.isCompileOnly && !p.isPreprocess))
  {
    var file := stem + suffix;
    TableExtension(stem, suffix, ext);
    assert IsObjectFile(file) && DetectLanguage(file) == "";
    InputSingle(file);
    hide Parsed, Complete, Single, TakesValue, Ext, Lower;
    InputRead(args, file);
  }

  lemma InputRead(args: seq<string>, file: string)
    requires Line(args) && !TakesValue(file) && Single(file) == Input(file)
    ensures var p := Parsed(args).value;
            Parsed(args + [file]) ==
            Some(p.(inputFiles := p.inputFiles + [file],
                       isLink := !p.isCompileOnly && !p.isPreprocess,
                       language := if p.language == "" && p.inputFiles == [] then DetectLanguage(file) else p.language))
  {
    hide Read, Complete, DetectLanguage, DetectCompilerType, Single, TakesValue;
    ParsedIs(args);
    ParsedIs(args + [file]);
    ReadOne(args, file);
  }

  /** A bare word without a dot is recorded among the flags. */
  lemma WordAdded(args: seq<string>, word: string)
    requires Line(args) && '.' !in word && !("-" <= word)
    ensures var p := Parsed(args).value; Parsed(args + [word]) == Some(p.(flags := p.flags + [word]))
  {
    NoDotNoExt(word);
    assert Lower("") == "";
    assert !TakesValue(word) && Single(word) == Flag(word);
    assert !("-std=" <= word) && !("-march=" <= word) && !("-O" <= word) && word != "-c" && word != "-E";
    hide Parsed, Complete, Single, TakesValue;
    FlagEffect(args, word);
  }

  lemma {:induction false} NoDotNoExt(word: string)
    requires '.' !in word
    ensures Ext(word) == ""
  {
    if word != "" {
      NoDotNoExt(word[..|word| - 1]);
      assert word[|word| - 1] in word;
    }
  }

  /** Without any -x the language of a line is that of its first input. */
  lemma LanguageOfLine(args: seq<string>, stem: string, suffix: string, ext: string, language: string)
    requires args != [] && (forall i :: 1 <= i < |args| ==> !("-x" <= args[i])) && Speaks(ext, language) && SameButCase(suffix, ext)
    requires var p := Parsed(args).value; p.inputFiles != [] && p.inputFiles[0] == stem + suffix
    ensures Parsed(args).value.language == language
  {
    hide Ext, Lower, Speaks, SameButCase, Items, Fold, DetectLanguage, DetectCompilerType;
    SpokenExtension(ext, language);
    TableExtension(stem, suffix, ext);
    SpokenFile(stem + suffix, ext, language);
    NoLanguageItem(args[1..]);
    NoLanguageFolded(Blank(args[0]), Items(args[1..]));
  }

  lemma {:induction false} NoLanguageItem(args: seq<string>)
    requires forall i :: 0 <= i < |args| ==> !("-x" <= args[i])
    ensures forall k :: 0 <= k < |Items(args)| ==> !Items(args)[k].Language?
  {
    if args != [] {
      NoLanguageItem(args[1..]);
      if |args| >= 2 {
        NoLanguageItem(args[2..]);
      }
      assert !("-x" <= args[0]);
    }
  }

  lemma {:induction false} NoLanguageFolded(p: ParsedArgs, items: seq<Item>)
    requires forall k :: 0 <= k < |items| ==> !items[k].Language?
    ensures Fold(p, items).language == p.language
    decreases |items|
  {
    if items != [] {
      NoLanguageFolded(Apply(p, items[0]), items[1..]);
    }
  }

  // ---------------------------------------------------------------------
  // Compilers
  // ---------------------------------------------------------------------

  /** A directory: nothing, or something ending in a slash. */
  predicate Directory(dir: string) {
    dir == "" || dir[|dir| - 1] == '/'
  }

  lemma {:induction false} AfterSlashOf(dir: string, name: string)
    requires Directory(dir) && '/' !in name
    ensures AfterSlash(dir + name) == name
  {
    if name == "" {
      assert dir + name == dir;
    } else {
      var init, last := name[..|name| - 1], name[|name| - 1];
      AfterSlashOf(dir, init);
      assert (dir + name)[..|dir + name| - 1] == dir + init;
      assert last in name && init + [last] == name;
    }
  }

  lemma BaseOf(dir: string, name: string)
    requires Directory(dir) && '/' !in name && name != ""
    ensures Base(dir + name) == name
  {
    AfterSlashOf(dir, name);
    assert name[|name| - 1] in name;
  }

  lemma ContainsMiddle(a: string, b: string, c: string)
    ensures Contains(a + b + c, b)
  {
    assert (a + b + c)[|a|..] == b + c;
  }

  /** Wherever it is installed, a compiler is known by its name: clang++ before clang, clang before g++, g++ before gcc. */
  lemma CompilerKnown(args: seq<string>, dir: string, name: string)
    requires args != [] && args[0] == dir + name && Directory(dir) && '/' !in name && name != ""
    ensures var t := Parsed(args).value.compilerType;
            && Parsed(args).value.compiler == dir + name
            && (t == CompilerClangPP <==> Contains(name, "clang++"))
            && (t == CompilerClang <==> Contains(name, "clang") && !Contains(name, "clang++"))
            && (t == CompilerGPP <==> Contains(name, "g++") && !Contains(name, "clang"))
            && (t == CompilerGCC <==> Contains(name, "gcc") && !Contains(name, "g++") && !Contains(name, "clang"))
  {
    hide Contains;
    BaseOf(dir, name);
    FoldKeepsCompiler(Blank(args[0]), Items(args[1..]));
    LongerContainsShorter(name);
  }

  lemma LongerContainsShorter(name: string)
    ensures Contains(name, "clang++") ==> Contains(name, "clang")
  {
    if Contains(name, "clang++") {
      var i :| 0 <= i <= |name| && "clang++" <= name[i..];
      assert "clang" <= "clang++";
      assert "clang" <= name[i..];
    }
  }
}
