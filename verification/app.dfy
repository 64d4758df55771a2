/** The command-line front end: how parsed arguments become compile
    options, a shader stage and a sequence of compiles, and the exit code.
    Argument parsing itself is not modelled: `CliArgs` holds what it
    produces. The executable is built with the shaderc backend, the one
    that provides `CompileToFile`. */
module App {
  import opened Wrappers
  import opened RhiSc
  import Container
  import DxcBackend
  import ShadercBackend
  import Options

  /** The parsed command line: `-i`, `-o`, `-t`, `-g`, every `-D`, and the
      five optimization flags. */
  datatype CliArgs = CliArgs(
    inputs: seq<string>,
    outputs: seq<string>,
    target: string,
    embedDebug: bool,
    defines: seq<string>,
    oNone: bool, o1: bool, o2: bool, o3: bool, oFast: bool)

  // ----- optimization flags -----

  /** `GetOptimizationLevel`: the first flag set, tried in the order
      `-ONone`, `-O1`, `-O2`, `-O3`, `-OFast`; no flag means no optimization. */
  function GetOptimizationLevel(a: CliArgs): OptimizationLevel {
    if a.oNone then OptimizationLevel.None
    else if a.o1 then Level1
    else if a.o2 then Level2
    else if a.o3 then Level3
    else if a.oFast then Max
    else OptimizationLevel.None
  }

  /** The flags with the level each selects, highest priority first. */
  function FlagTable(a: CliArgs): seq<(bool, OptimizationLevel)> {
    [(a.oNone, OptimizationLevel.None), (a.o1, Level1), (a.o2, Level2), (a.o3, Level3), (a.oFast, Max)]
  }

  /** The level of the first set flag of a table, or no optimization. */
  function FirstSet(table: seq<(bool, OptimizationLevel)>): (r: OptimizationLevel)
    ensures (forall i :: 0 <= i < |table| ==> !table[i].0) ==> r == OptimizationLevel.None
    ensures forall i :: 0 <= i < |table| && table[i].0 && (forall j :: 0 <= j < i ==> !table[j].0) ==> r == table[i].1
  {
    if table == [] then OptimizationLevel.None
    else if table[0].0 then table[0].1
    else FirstSet(table[1..])
  }

  /** The cascade of `if`s is the first-set-flag rule over the flag table. */
  lemma GetOptimizationLevelIsFirstSet(a: CliArgs)
    ensures GetOptimizationLevel(a) == FirstSet(FlagTable(a))
  {
    var t := FlagTable(a);
    var t1 := t[1..];
    var t2 := t1[1..];
    var t3 := t2[1..];
    var t4 := t3[1..];
    assert t4 == [(a.oFast, Max)] && t4[1..] == [];
    assert FirstSet(t4) == if a.oFast then Max else OptimizationLevel.None;
    assert FirstSet(t3) == if a.o3 then Level3 else FirstSet(t4);
    assert FirstSet(t2) == if a.o2 then Level2 else FirstSet(t3);
    assert FirstSet(t1) == if a.o1 then Level1 else FirstSet(t2);
  }

  /** The five flags form a mutually exclusive group: at most one is set. */
  predicate AtMostOneFlag(a: CliArgs) {
    var flags := [a.oNone, a.o1, a.o2, a.o3, a.oFast];
    forall i, j :: 0 <= i < j < |flags| ==> !(flags[i] && flags[j])
  }

  /** Under the exclusive group each flag selects its own level, `-OFast`
      the same as `-O3`, and no flag the same as `-ONone`. */
  lemma OptimizationFlagSelectsLevel(a: CliArgs)
    requires AtMostOneFlag(a)
    ensures GetOptimizationLevel(a) == Level1 <==> a.o1
    ensures GetOptimizationLevel(a) == Level2 <==> a.o2
    ensures GetOptimizationLevel(a) == Level3 <==> a.o3 || a.oFast
    ensures GetOptimizationLevel(a) == OptimizationLevel.None <==> !(a.o1 || a.o2 || a.o3 || a.oFast)
  {
    var s := [a.oNone, a.o1, a.o2, a.o3, a.oFast];
    assert !(s[0] && s[1]) && !(s[0] && s[2]) && !(s[0] && s[3]) && !(s[0] && s[4]);
    assert !(s[1] && s[2]) && !(s[1] && s[3]) && !(s[1] && s[4]);
    assert !(s[2] && s[3]) && !(s[2] && s[4]);
  }

  // ----- shader stage -----

  /** `std::tolower` in the C locale: only `A`-`Z` change. */
  function ToLower(c: char): char {
    if 'A' <= c <= 'Z' then (c as int + 32) as char else c
  }

  function Lower(s: string): (r: string)
    ensures |r| == |s|
    ensures forall i :: 0 <= i < |s| ==> r[i] == ToLower(s[i])
  {
    seq(|s|, i requires 0 <= i < |s| => ToLower(s[i]))
  }

  /** The name `-t` accepts for a stage, in lower case. */
  function StageName(stage: ShaderStage): string {
    match stage
    case Pixel => "pixel"
    case Vertex => "vertex"
    case Compute => "compute"
    case Hull => "hull"
    case Domain => "domain"
    case Geometry => "geometry"
    case None => ""
  }

  /** `GetShaderStage`: the target lowered, then compared with the six names. */
  function GetShaderStage(target: string): ShaderStage {
    var t := Lower(target);
    if t == "pixel" then Pixel
    else if t == "vertex" then Vertex
    else if t == "compute" then Compute
    else if t == "hull" then Hull
    else if t == "domain" then Domain
    else if t == "geometry" then Geometry
    else ShaderStage.None
  }

  lemma LowerIdempotent(s: string)
    ensures Lower(Lower(s)) == Lower(s)
  {
  }

  /** A target names a stage exactly when its lower-case form is that stage's
      name, so the match ignores case; anything else is no stage. */
  lemma GetShaderStageByName(target: string)
    ensures forall s: ShaderStage :: s != ShaderStage.None ==>
      (GetShaderStage(target) == s <==> Lower(target) == StageName(s))
    ensures GetShaderStage(target) == ShaderStage.None <==>
      forall s: ShaderStage :: s != ShaderStage.None ==> Lower(target) != StageName(s)
  {
    forall s: ShaderStage | s != ShaderStage.None
      ensures GetShaderStage(target) == s <==> Lower(target) == StageName(s)
    {
    }
    var stage := GetShaderStage(target);
    if stage != ShaderStage.None {
      assert Lower(target) == StageName(stage);
    }
  }

  /** Two targets that differ only in letter case name the same stage. */
  lemma GetShaderStageIgnoresCase(t: string, u: string)
    requires Lower(t) == Lower(u)
    ensures GetShaderStage(t) == GetShaderStage(u)
    ensures GetShaderStage(t) == GetShaderStage(Lower(t))
  {
    LowerIdempotent(t);
  }

  // ----- macro definitions -----

  /** The position of the first `c` in `s`, or None if there is none. */
  function FindFirst(s: string, c: char): (r: Option<nat>)
    ensures r.None? <==> c !in s
    ensures r.Some? ==> r.value < |s| && s[r.value] == c
    ensures r.Some? ==> forall j :: 0 <= j < r.value ==> s[j] != c
  {
    if s == [] then Option.None
    else if s[0] == c then Some(0)
    else
      match FindFirst(s[1..], c)
      case None => Option.None
      case Some(i) => Some(i + 1)
  }

  /** How `AddMacroDefns` reads one `-D` string: no `=` makes it a bare
      name; otherwise it splits at the first `=`, the value being everything
      after it (possibly empty, possibly holding more `=`). */
  function SplitMacro(define: string): (r: MacroDefinition)
    ensures '=' !in define ==> r == MacroDefinition(define, Option.None)
    ensures '=' in define ==> r.value.Some? && '=' !in r.name && r.name + "=" + r.value.value == define
  {
    match FindFirst(define, '=')
    case None => MacroDefinition(define, Option.None)
    case Some(i) =>
      assert define == define[..i] + "=" + define[i + 1..];
      assert '=' !in define[..i];
      MacroDefinition(define[..i], Some(define[i + 1..]))
  }

  /** Splitting loses nothing: the argument-string backend's entry for the
      split definition is the original `-D` string. */
  lemma SplitMacroJoin(define: string)
    ensures DxcBackend.MacroEntry(SplitMacro(define).name, SplitMacro(define).value) == define
  {
  }

  /** And a definition whose name has no `=` is recovered from its entry. */
  lemma SplitMacroOfEntry(d: MacroDefinition)
    requires '=' !in d.name
    ensures SplitMacro(DxcBackend.MacroEntry(d.name, d.value)) == d
  {
    match d.value
    case None =>
    case Some(v) =>
      var e := d.name + "=" + v;
      var i := FindFirst(e, '=').value;
      assert e[|d.name|] == '=';
      assert e[..|d.name|] == d.name;
      assert i == |d.name|;
      assert e[..i] == d.name;
      assert e[i + 1..] == v;
  }

  function SplitAll(defines: seq<string>): (r: seq<MacroDefinition>)
    ensures |r| == |defines|
  {
    if defines == [] then [] else [SplitMacro(defines[0])] + SplitAll(defines[1..])
  }

  /** The i-th definition is the split of the i-th `-D` string. */
  lemma {:induction false} SplitAllAt(defines: seq<string>, i: nat)
    requires i < |defines|
    ensures SplitAll(defines)[i] == SplitMacro(defines[i])
  {
    if i > 0 {
      SplitAllAt(defines[1..], i - 1);
    }
  }

  /** `AddMacroDefns`: one `AddMacroDefinition` per `-D`, in command-line
      order, each with the split of that string. */
  function AddMacroDefns(defines: seq<string>, o: Options.CompileOptions): (r: Options.CompileOptions)
    ensures r.Dxc? == o.Dxc?
    ensures Options.MacroCount(r) == Options.MacroCount(o) + |defines|
    decreases |defines|
  {
    if defines == [] then o
    else
      var d := SplitMacro(defines[0]);
      AddMacroDefns(defines[1..], Options.AddMacroDefinition(o, d.name, d.value))
  }

  /** One step of `AddMacroDefns`: the first `-D`, split, then the rest. */
  lemma AddMacroDefnsUnfold(defines: seq<string>, o: Options.CompileOptions)
    requires defines != []
    ensures AddMacroDefns(defines, o) ==
      AddMacroDefns(defines[1..], Options.AddMacroDefinition(o, SplitMacro(defines[0]).name, SplitMacro(defines[0]).value))
  {
  }

  /** On the argument-string backend the new entries are the `-D` strings
      themselves, in order, after the earlier ones; nothing else changes. */
  lemma {:induction false} AddMacroDefnsDxc(defines: seq<string>, d: DxcBackend.DxcOptions)
    ensures AddMacroDefns(defines, Options.Dxc(d)) == Options.Dxc(d.(macros := d.macros + defines))
    decreases |defines|
  {
    if defines != [] {
      var m := SplitMacro(defines[0]);
      var next := d.(macros := d.macros + [defines[0]]);
      AddMacroDefnsUnfold(defines, Options.Dxc(d));
      assert Options.AddMacroDefinition(Options.Dxc(d), m.name, m.value) == Options.Dxc(next) by {
        SplitMacroJoin(defines[0]);
      }
      AddMacroDefnsDxc(defines[1..], next);
      assert next.macros + defines[1..] == d.macros + defines by {
        assert [defines[0]] + defines[1..] == defines;
      }
    }
  }

  /** On the shaderc handle the new definitions are the splits of the `-D`
      strings, in order, after the earlier ones; nothing else changes. */
  lemma {:induction false} AddMacroDefnsShaderc(defines: seq<string>, s: ShadercBackend.ShadercOptions)
    ensures AddMacroDefns(defines, Options.Shaderc(s)) == Options.Shaderc(s.(macros := s.macros + SplitAll(defines)))
    decreases |defines|
  {
    if defines != [] {
      var m := SplitMacro(defines[0]);
      var next := s.(macros := s.macros + [m]);
      AddMacroDefnsUnfold(defines, Options.Shaderc(s));
      assert Options.AddMacroDefinition(Options.Shaderc(s), m.name, m.value) == Options.Shaderc(next);
      AddMacroDefnsShaderc(defines[1..], next);
      assert next.macros + SplitAll(defines[1..]) == s.macros + SplitAll(defines) by {
        assert SplitAll(defines) == [m] + SplitAll(defines[1..]);
      }
    }
  }

  /** The option-building part of `main`: debug symbols if `-g`, then every
      `-D`, then the optimization level the flags select. */
  function BuildOptions(a: CliArgs, o: Options.CompileOptions): (r: Options.CompileOptions)
    ensures r.Dxc? == o.Dxc?
  {
    var withDebug := if a.embedDebug then Options.EnableDebuggingSymbols(o) else o;
    Options.SetOptimizationLevel(AddMacroDefns(a.defines, withDebug), GetOptimizationLevel(a))
  }

  /** From a fresh shaderc handle: debug info is on exactly when `-g` is
      given, the macros are the split `-D` strings in order, the level is the
      native level of the selected flag, and the input language stays HLSL. */
  lemma BuildShadercOptions(a: CliArgs)
    ensures var r := BuildOptions(a, Options.Shaderc(ShadercBackend.NewOptions()));
      && r.Shaderc?
      && (r.shaderc.generateDebugInfo <==> a.embedDebug)
      && r.shaderc.macros == SplitAll(a.defines)
      && r.shaderc.optimization == Some(ShadercBackend.NativeLevel(GetOptimizationLevel(a)))
      && r.shaderc.sourceLanguage == ShadercBackend.Hlsl
  {
    var o := ShadercBackend.NewOptions();
    var withDebug := if a.embedDebug then ShadercBackend.EnableDebuggingSymbols(o) else o;
    AddMacroDefnsShaderc(a.defines, withDebug);
  }

  /** From any argument-string options state: the debug switch is on exactly
      when it was or `-g` is given, the macro entries are the earlier ones
      followed by the `-D` strings unchanged, and the level is the selected one. */
  lemma BuildDxcOptions(a: CliArgs, d: DxcBackend.DxcOptions)
    ensures var r := BuildOptions(a, Options.Dxc(d));
      && r.Dxc?
      && (r.dxc.debug <==> d.debug || a.embedDebug)
      && r.dxc.macros == d.macros + a.defines
      && r.dxc.level == GetOptimizationLevel(a)
  {
    var withDebug := if a.embedDebug then DxcBackend.EnableDebuggingSymbols(d) else d;
    AddMacroDefnsDxc(a.defines, withDebug);
  }

  // ----- the compile loop of main -----

  /** What `main` ends with: the exit code, the file system, and the result
      of every compile it ran, in order. */
  datatype Outcome = Outcome(exitCode: int, fs: FileSystem, results: seq<CompilationResult>)

  predicate AllSucceeded(results: seq<CompilationResult>) {
    forall i :: 0 <= i < |results| ==> results[i].error == CompilationError.None
  }

  /** One compile of `main`'s loop: the input path, with the chosen stage and
      options, to the output path, against the current file system. */
  function CompileStep(native: ShadercBackend.NativeCompiler, host: Container.Endian, stage: ShaderStage,
                       opt: ShadercBackend.ShadercOptions): (string, string, FileSystem) -> ShadercBackend.FileOutcome
  {
    (input, output, fs) => ShadercBackend.CompileToFile(fs, native, host, ShaderSource(Path(input), stage), opt, output)
  }

  /** Compiles input `i` to output `i`, then `i + 1`, and so on, stopping at
      the first result that is not `None`. Each compile sees the file system
      the previous ones left. */
  function CompileFrom(inputs: seq<string>, outputs: seq<string>, i: nat, fs: FileSystem,
                       compile: (string, string, FileSystem) -> ShadercBackend.FileOutcome): (r: Outcome)
    requires |inputs| == |outputs| && i <= |inputs|
    ensures r.exitCode == 0 || r.exitCode == 1
    ensures |r.results| <= |inputs| - i
    ensures forall k :: 0 <= k < |r.results| - 1 ==> r.results[k].error == CompilationError.None
    ensures r.exitCode == 0 ==> |r.results| == |inputs| - i && AllSucceeded(r.results)
    ensures r.exitCode == 1 ==> r.results != [] && r.results[|r.results| - 1].error != CompilationError.None
    ensures i < |inputs| ==> r.results != [] && r.results[0] == compile(inputs[i], outputs[i], fs).result
    decreases |inputs| - i
  {
    if i == |inputs| then Outcome(0, fs, [])
    else
      var step := compile(inputs[i], outputs[i], fs);
      if step.result.error != CompilationError.None then Outcome(1, step.fs, [step.result])
      else
        var rest := CompileFrom(inputs, outputs, i + 1, step.fs, compile);
        var results := [step.result] + rest.results;
        assert forall k :: 1 <= k < |results| ==> results[k] == rest.results[k - 1];
        Outcome(rest.exitCode, rest.fs, results)
  }

  /** The file system after the first `k` compiles from input `i`, each
      seeing the one the previous compile left. */
  function FsBefore(inputs: seq<string>, outputs: seq<string>, i: nat, fs: FileSystem,
                    compile: (string, string, FileSystem) -> ShadercBackend.FileOutcome, k: nat): FileSystem
    requires |inputs| == |outputs| && i + k <= |inputs|
    decreases k
  {
    if k == 0 then fs
    else FsBefore(inputs, outputs, i + 1, compile(inputs[i], outputs[i], fs).fs, compile, k - 1)
  }

  /** Result `k` of the loop is input `i + k` compiled to output `i + k`,
      against the file system the `k` compiles before it left. */
  lemma {:induction false} CompileFromAt(inputs: seq<string>, outputs: seq<string>, i: nat, fs: FileSystem,
                                         compile: (string, string, FileSystem) -> ShadercBackend.FileOutcome, k: nat)
    requires |inputs| == |outputs| && i <= |inputs|
    requires k < |CompileFrom(inputs, outputs, i, fs, compile).results|
    ensures i + k < |inputs|
    ensures CompileFrom(inputs, outputs, i, fs, compile).results[k] ==
      compile(inputs[i + k], outputs[i + k], FsBefore(inputs, outputs, i, fs, compile, k)).result
    decreases k
  {
    if k > 0 {
      var step := compile(inputs[i], outputs[i], fs);
      CompileFromAt(inputs, outputs, i + 1, step.fs, compile, k - 1);
    }
  }

  /** `CompileFromAt` for a loop started at the first pair. */
  lemma CompileFromAtStart(inputs: seq<string>, outputs: seq<string>, fs: FileSystem,
                           compile: (string, string, FileSystem) -> ShadercBackend.FileOutcome, k: nat)
    requires |inputs| == |outputs|
    requires k < |CompileFrom(inputs, outputs, 0, fs, compile).results|
    ensures k < |inputs|
    ensures CompileFrom(inputs, outputs, 0, fs, compile).results[k] ==
      compile(inputs[k], outputs[k], FsBefore(inputs, outputs, 0, fs, compile, k)).result
  {
    CompileFromAt(inputs, outputs, 0, fs, compile, k);
  }

  /** The file system the loop ends with is the one its last compile left:
      nothing is written after the compiles, and nothing is rolled back. */
  lemma {:induction false} CompileFromFs(inputs: seq<string>, outputs: seq<string>, i: nat, fs: FileSystem,
                                         compile: (string, string, FileSystem) -> ShadercBackend.FileOutcome)
    requires |inputs| == |outputs| && i <= |inputs|
    ensures var r := CompileFrom(inputs, outputs, i, fs, compile);
      i + |r.results| <= |inputs| && r.fs == FsBefore(inputs, outputs, i, fs, compile, |r.results|)
    decreases |inputs| - i
  {
    if i < |inputs| {
      var step := compile(inputs[i], outputs[i], fs);
      if step.result.error == CompilationError.None {
        CompileFromFs(inputs, outputs, i + 1, step.fs, compile);
      }
    }
  }

  /** The options `main` builds: a fresh shaderc handle through `BuildOptions`. */
  function MainOptions(a: CliArgs): ShadercBackend.ShadercOptions {
    BuildOptions(a, Options.Shaderc(ShadercBackend.NewOptions())).shaderc
  }

  /** `main` after argument parsing. Mismatched input and output counts
      return 1 before anything is compiled; otherwise the inputs are compiled
      in order with the same options and stage, the first failure returns 1
      and skips the rest, and the exit code is 0 exactly when every compile
      succeeded. */
  function Main(a: CliArgs, fs: FileSystem, native: ShadercBackend.NativeCompiler, host: Container.Endian): (r: Outcome)
    ensures |a.inputs| != |a.outputs| ==> r == Outcome(1, fs, [])
    ensures r.exitCode == 0 || r.exitCode == 1
    ensures r.exitCode == 0 <==> |a.inputs| == |a.outputs| && |r.results| == |a.inputs| && AllSucceeded(r.results)
    ensures r.exitCode == 1 && |a.inputs| == |a.outputs| ==>
      r.results != [] && r.results[|r.results| - 1].error != CompilationError.None
    ensures forall k :: 0 <= k < |r.results| - 1 ==> r.results[k].error == CompilationError.None
    ensures |a.inputs| == |a.outputs| && a.inputs != [] ==>
      var first := ShadercBackend.CompileToFile(fs, native, host,
        ShaderSource(Path(a.inputs[0]), GetShaderStage(a.target)), MainOptions(a), a.outputs[0]);
      r.results != [] && r.results[0] == first.result
  {
    if |a.inputs| != |a.outputs| then Outcome(1, fs, [])
    else CompileFrom(a.inputs, a.outputs, 0, fs, MainCompile(a, native, host))
  }

  /** The compile `main` runs for every pair: the stage named by the
      target and the options built from the arguments. */
  function MainCompile(a: CliArgs, native: ShadercBackend.NativeCompiler, host: Container.Endian)
    : (string, string, FileSystem) -> ShadercBackend.FileOutcome
  {
    CompileStep(native, host, GetShaderStage(a.target), MainOptions(a))
  }

  /** Each compile of `main` is `CompileToFile` of a path source with the
      stage named by the target and the options built from the arguments. */
  lemma MainCompileApplied(a: CliArgs, native: ShadercBackend.NativeCompiler, host: Container.Endian,
                           input: string, output: string, fs: FileSystem)
    ensures MainCompile(a, native, host)(input, output, fs) ==
      ShadercBackend.CompileToFile(fs, native, host, ShaderSource(Path(input), GetShaderStage(a.target)), MainOptions(a), output)
  {
  }

  /** With matching counts, `main` is the compile loop over the pairs. */
  lemma MainIsLoop(a: CliArgs, fs: FileSystem, native: ShadercBackend.NativeCompiler, host: Container.Endian)
    requires |a.inputs| == |a.outputs|
    ensures Main(a, fs, native, host) == CompileFrom(a.inputs, a.outputs, 0, fs, MainCompile(a, native, host))
  {
  }

  /** Every compile `main` runs: result `k` is input `k` compiled to output
      `k` with the same stage and options, against the file system the
      compiles before it left. */
  lemma {:induction false} MainCompilesInOrder(a: CliArgs, fs: FileSystem, native: ShadercBackend.NativeCompiler,
                                               host: Container.Endian, k: nat)
    requires |a.inputs| == |a.outputs|
    requires k < |Main(a, fs, native, host).results|
    ensures k < |a.inputs|
    ensures Main(a, fs, native, host).results[k] ==
      ShadercBackend.CompileToFile(FsBefore(a.inputs, a.outputs, 0, fs, MainCompile(a, native, host), k), native, host,
        ShaderSource(Path(a.inputs[k]), GetShaderStage(a.target)), MainOptions(a), a.outputs[k]).result
  {
    var compile := MainCompile(a, native, host);
    MainIsLoop(a, fs, native, host);
    CompileFromAtStart(a.inputs, a.outputs, fs, compile, k);
    MainCompileApplied(a, native, host, a.inputs[k], a.outputs[k], FsBefore(a.inputs, a.outputs, 0, fs, compile, k));
  }

  /** `main` ends with the file system its last compile left. */
  lemma {:induction false} MainFinalFs(a: CliArgs, fs: FileSystem, native: ShadercBackend.NativeCompiler,
                                       host: Container.Endian)
    requires |a.inputs| == |a.outputs|
    ensures var r := Main(a, fs, native, host);
      |r.results| <= |a.inputs| && r.fs == FsBefore(a.inputs, a.outputs, 0, fs, MainCompile(a, native, host), |r.results|)
  {
    var compile := MainCompile(a, native, host);
    MainIsLoop(a, fs, native, host);
    CompileFromFs(a.inputs, a.outputs, 0, fs, compile);
  }

  /** One turn of the loop: compile input `i`, then stop or go on. */
  lemma CompileFromStep(inputs: seq<string>, outputs: seq<string>, i: nat, fs: FileSystem,
                        compile: (string, string, FileSystem) -> ShadercBackend.FileOutcome)
    requires |inputs| == |outputs| && i < |inputs|
    ensures var step := compile(inputs[i], outputs[i], fs);
      CompileFrom(inputs, outputs, i, fs, compile) ==
        if step.result.error != CompilationError.None then Outcome(1, step.fs, [step.result])
        else Prepend([step.result], CompileFrom(inputs, outputs, i + 1, step.fs, compile))
  {
  }

  /** An outcome with `results` compiled before it. */
  function Prepend(results: seq<CompilationResult>, o: Outcome): Outcome {
    Outcome(o.exitCode, o.fs, results + o.results)
  }

  /** The loop of `main` as written: an index, one compile per turn, and
      an early return on the first failure. It computes what `CompileFrom`
      describes. */
  method CompileLoop(inputs: seq<string>, outputs: seq<string>, fs: FileSystem,
                     compile: (string, string, FileSystem) -> ShadercBackend.FileOutcome)
    returns (exitCode: int, finalFs: FileSystem, results: seq<CompilationResult>)
    requires |inputs| == |outputs|
    ensures Outcome(exitCode, finalFs, results) == CompileFrom(inputs, outputs, 0, fs, compile)
  {
    var current := fs;
    results := [];
    var i := 0;
    while i < |inputs|
      invariant 0 <= i <= |inputs|
      invariant CompileFrom(inputs, outputs, 0, fs, compile) == Prepend(results, CompileFrom(inputs, outputs, i, current, compile))
    {
      var step := compile(inputs[i], outputs[i], current);
      CompileFromStep(inputs, outputs, i, current, compile);
      if step.result.error != CompilationError.None {
        return 1, step.fs, results + [step.result];
      }
      ghost var rest := CompileFrom(inputs, outputs, i + 1, step.fs, compile);
      assert results + ([step.result] + rest.results) == (results + [step.result]) + rest.results;
      results := results + [step.result];
      current := step.fs;
      i := i + 1;
    }
    return 0, current, results;
  }

  /** `main` after argument parsing, as a program: build the options, check
      the counts, run the loop. It computes the same outcome as `Main`. */
  method RunMain(a: CliArgs, fs: FileSystem, native: ShadercBackend.NativeCompiler, host: Container.Endian)
    returns (exitCode: int, finalFs: FileSystem, results: seq<CompilationResult>)
    ensures Outcome(exitCode, finalFs, results) == Main(a, fs, native, host)
  {
    var opt := MainOptions(a);
    if |a.inputs| != |a.outputs| {
      return 1, fs, [];
    }
    var compile := CompileStep(native, host, GetShaderStage(a.target), opt);
    exitCode, finalFs, results := CompileLoop(a.inputs, a.outputs, fs, compile);
  }
}
