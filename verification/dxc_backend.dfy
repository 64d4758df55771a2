/** The argument-string backend (DXC). Its options object keeps the settings
    as plain fields and a list of macro strings, and translates them into
    the flat argument list handed to the native compiler only at the moment
    of compiling. Wide-string conversion is the identity on the ASCII text
    the model works with. */
module DxcBackend {
  import opened Wrappers
  import opened RhiSc

  /** `DXCCompileOptions`. Its constructor leaves `debug` and `level`
      uninitialized, so the model has no default: callers start from an
      explicit state. */
  datatype DxcOptions = DxcOptions(debug: bool, level: OptimizationLevel, macros: seq<string>)

  /** The text of one macro entry: `name`, or `name=value`. */
  function MacroEntry(name: string, value: Option<string>): string {
    match value
    case None => name
    case Some(v) => name + "=" + v
  }

  /** `AddMacroDefinition`: appends exactly one entry, keeps every earlier
      one (no de-duplication) and leaves the other settings alone. */
  function AddMacroDefinition(o: DxcOptions, name: string, value: Option<string>): (r: DxcOptions)
    ensures r.debug == o.debug && r.level == o.level
    ensures |r.macros| == |o.macros| + 1
    ensures r.macros[..|o.macros|] == o.macros
    ensures value.None? ==> r.macros[|o.macros|] == name
    ensures value.Some? ==> r.macros[|o.macros|] == name + "=" + value.value
  {
    o.(macros := o.macros + [MacroEntry(name, value)])
  }

  /** `EnableDebuggingSymbols`: a one-way switch; nothing else changes. */
  function EnableDebuggingSymbols(o: DxcOptions): (r: DxcOptions)
    ensures r.debug
    ensures r.level == o.level && r.macros == o.macros
  {
    o.(debug := true)
  }

  /** `SetOptimizationLevel`: replaces the level; nothing else changes. */
  function SetOptimizationLevel(o: DxcOptions, level: OptimizationLevel): (r: DxcOptions)
    ensures r.level == level
    ensures r.debug == o.debug && r.macros == o.macros
  {
    o.(level := level)
  }

  /** `StageToString`: the shader-model 6.0 target profile of a stage; the
      empty string for a stage with no profile. */
  function StageToString(stage: ShaderStage): (r: string)
    ensures r == "" <==> stage == ShaderStage.None
    ensures r != "" ==> |r| == 6 && r[2..] == "_6_0"
  {
    match stage
    case Vertex => "vs_6_0"
    case Pixel => "ps_6_0"
    case Geometry => "gs_6_0"
    case Domain => "ds_6_0"
    case Hull => "hs_6_0"
    case Compute => "cs_6_0"
    case None => ""
  }

  /** The stage a profile string names, the inverse of `StageToString`. */
  function StageFromProfile(profile: string): Option<ShaderStage> {
    if profile == "vs_6_0" then Some(Vertex)
    else if profile == "ps_6_0" then Some(Pixel)
    else if profile == "gs_6_0" then Some(Geometry)
    else if profile == "ds_6_0" then Some(Domain)
    else if profile == "hs_6_0" then Some(Hull)
    else if profile == "cs_6_0" then Some(Compute)
    else if profile == "" then Some(ShaderStage.None)
    else Option.None
  }

  /** `OptimizationToString`: the optimization flag for a level. */
  function OptimizationToString(level: OptimizationLevel): (r: string)
    ensures |r| == 3 && r[..2] == "-O"
  {
    match level
    case None => "-Od"
    case Level1 => "-O1"
    case Level2 => "-O2"
    case Level3 => "-O3"
  }

  /** The level an optimization flag names, the inverse of `OptimizationToString`. */
  function LevelFromFlag(flag: string): Option<OptimizationLevel> {
    if flag == "-Od" then Some(OptimizationLevel.None)
    else if flag == "-O1" then Some(Level1)
    else if flag == "-O2" then Some(Level2)
    else if flag == "-O3" then Some(Level3)
    else Option.None
  }

  /** Every stage is recovered from its profile, so distinct stages get distinct profiles. */
  lemma StageToStringInjective(s: ShaderStage, t: ShaderStage)
    ensures StageFromProfile(StageToString(s)) == Some(s)
    ensures StageToString(s) == StageToString(t) ==> s == t
  {
  }

  /** Every level is recovered from its flag, so distinct levels get distinct flags. */
  lemma OptimizationToStringInjective(l: OptimizationLevel, m: OptimizationLevel)
    ensures LevelFromFlag(OptimizationToString(l)) == Some(l)
    ensures OptimizationToString(l) == OptimizationToString(m) ==> l == m
  {
  }

  /** The `-D <macro>` pairs, in order. */
  function MacroArgs(macros: seq<string>): (r: seq<string>)
    ensures |r| == 2 * |macros|
  {
    if macros == [] then [] else ["-D", macros[0]] + MacroArgs(macros[1..])
  }

  /** Macro `i` is the pair at positions `2i` and `2i + 1`. */
  lemma {:induction false} MacroArgsAt(macros: seq<string>, i: nat)
    requires i < |macros|
    ensures MacroArgs(macros)[2 * i] == "-D" && MacroArgs(macros)[2 * i + 1] == macros[i]
  {
    if i > 0 {
      MacroArgsAt(macros[1..], i - 1);
      assert MacroArgs(macros) == ["-D", macros[0]] + MacroArgs(macros[1..]);
    }
  }

  /** `AsArgs`: `-T <profile> [-Zi -Qembed_debug] <-Ox> (-D <macro>)*`. */
  function AsArgs(o: DxcOptions, stage: ShaderStage): (r: seq<string>)
    ensures |r| == 3 + (if o.debug then 2 else 0) + 2 * |o.macros|
    ensures r[0] == "-T" && r[1] == StageToString(stage)
    ensures o.debug ==> r[2] == "-Zi" && r[3] == "-Qembed_debug" && r[4] == OptimizationToString(o.level)
    ensures !o.debug ==> r[2] == OptimizationToString(o.level) && "-Zi" !in r[..3] && "-Qembed_debug" !in r[..3]
    ensures r[(if o.debug then 5 else 3)..] == MacroArgs(o.macros)
  {
    var head := ["-T", StageToString(stage)];
    var debug := if o.debug then ["-Zi", "-Qembed_debug"] else [];
    var tail := MacroArgs(o.macros);
    var r := head + debug + [OptimizationToString(o.level)] + tail;
    assert r[|head + debug| + 1..] == tail;
    r
  }

  /** Each stored macro contributes the pair `-D`, macro, in insertion
      order, after the optimization flag. */
  lemma AsArgsMacroAt(o: DxcOptions, stage: ShaderStage, i: nat)
    requires i < |o.macros|
    ensures var k := if o.debug then 5 else 3;
      AsArgs(o, stage)[k + 2 * i] == "-D" && AsArgs(o, stage)[k + 2 * i + 1] == o.macros[i]
  {
    MacroArgsAt(o.macros, i);
  }

  /** What an argument list asks for: the profile string and the options. */
  datatype Invocation = Invocation(profile: string, options: DxcOptions)

  /** Reads `-D <macro>` pairs back; None if the list is not made of such pairs. */
  function ParseMacroArgs(args: seq<string>): Option<seq<string>> {
    if args == [] then Some([])
    else if |args| < 2 || args[0] != "-D" then Option.None
    else
      match ParseMacroArgs(args[2..])
      case None => Option.None
      case Some(rest) => Some([args[1]] + rest)
  }

  /** Reads an argument list of the shape `AsArgs` builds back into the
      settings it came from; None for any other list. */
  function ParseArgs(args: seq<string>): Option<Invocation> {
    if |args| < 3 || args[0] != "-T" then Option.None
    else
      var debug := |args| >= 5 && args[2] == "-Zi" && args[3] == "-Qembed_debug";
      var k := if debug then 4 else 2;
      match LevelFromFlag(args[k])
      case None => Option.None
      case Some(level) =>
        match ParseMacroArgs(args[k + 1..])
        case None => Option.None
        case Some(macros) => Some(Invocation(args[1], DxcOptions(debug, level, macros)))
  }

  lemma {:induction false} ParseMacroArgsRoundTrip(macros: seq<string>)
    ensures ParseMacroArgs(MacroArgs(macros)) == Some(macros)
  {
    if macros != [] {
      ParseMacroArgsRoundTrip(macros[1..]);
      assert MacroArgs(macros)[2..] == MacroArgs(macros[1..]);
      assert [macros[0]] + macros[1..] == macros;
    }
  }

  lemma {:induction false} MacroArgsOfParse(args: seq<string>, macros: seq<string>)
    requires ParseMacroArgs(args) == Some(macros)
    ensures MacroArgs(macros) == args
  {
    if args != [] {
      var rest := ParseMacroArgs(args[2..]).value;
      MacroArgsOfParse(args[2..], rest);
      assert macros == [args[1]] + rest;
      assert macros[1..] == rest;
      assert args == ["-D", args[1]] + args[2..];
    }
  }

  /** The argument list loses nothing: the profile, the debug switch, the
      level and every macro, in order, can be read back from it. */
  lemma AsArgsRoundTrip(o: DxcOptions, stage: ShaderStage)
    ensures ParseArgs(AsArgs(o, stage)) == Some(Invocation(StageToString(stage), o))
  {
    var args := AsArgs(o, stage);
    var k := if o.debug then 4 else 2;
    assert args[k + 1..] == MacroArgs(o.macros);
    ParseMacroArgsRoundTrip(o.macros);
    OptimizationToStringInjective(o.level, o.level);
    if !o.debug {
      assert args[2] != "-Zi";
    }
  }

  /** And conversely, the only lists that read back are the ones `AsArgs` builds. */
  lemma ParseArgsSound(args: seq<string>, stage: ShaderStage)
    requires ParseArgs(args).Some?
    requires ParseArgs(args).value.profile == StageToString(stage)
    ensures AsArgs(ParseArgs(args).value.options, stage) == args
  {
    var debug := |args| >= 5 && args[2] == "-Zi" && args[3] == "-Qembed_debug";
    var k := if debug then 4 else 2;
    var level := LevelFromFlag(args[k]).value;
    var macros := ParseMacroArgs(args[k + 1..]).value;
    var o := DxcOptions(debug, level, macros);
    assert ParseArgs(args).value == Invocation(args[1], o);
    MacroArgsOfParse(args[k + 1..], macros);
    assert OptimizationToString(level) == args[k];
    var r := AsArgs(o, stage);
    assert r[k + 1..] == args[k + 1..];
    assert r[..k + 1] == args[..k + 1];
    assert r == r[..k + 1] + r[k + 1..];
    assert args == args[..k + 1] + args[k + 1..];
  }

  /** The setters touch disjoint parts of the state, so the order in which
      the caller applies them changes nothing. */
  lemma SettersCommute(o: DxcOptions, level: OptimizationLevel, name: string, value: Option<string>)
    ensures EnableDebuggingSymbols(SetOptimizationLevel(o, level)) == SetOptimizationLevel(EnableDebuggingSymbols(o), level)
    ensures AddMacroDefinition(SetOptimizationLevel(o, level), name, value) == SetOptimizationLevel(AddMacroDefinition(o, name, value), level)
    ensures AddMacroDefinition(EnableDebuggingSymbols(o), name, value) == EnableDebuggingSymbols(AddMacroDefinition(o, name, value))
  {
  }

  /** Setting the level twice keeps the last one. */
  lemma SetOptimizationLevelLastWins(o: DxcOptions, first: OptimizationLevel, second: OptimizationLevel)
    ensures SetOptimizationLevel(SetOptimizationLevel(o, first), second) == SetOptimizationLevel(o, second)
  {
  }

  /** Macro `FOO` without a value and then `BAR` with value `1` become two
      distinct definitions, in that order, at the end of the argument list. */
  lemma TwoMacrosInOrder(o: DxcOptions, stage: ShaderStage)
    requires o.macros == [] && !o.debug
    ensures AsArgs(AddMacroDefinition(AddMacroDefinition(o, "FOO", Option.None), "BAR", Some("1")), stage)[3..]
      == ["-D", "FOO", "-D", "BAR=1"]
  {
    var o2 := AddMacroDefinition(AddMacroDefinition(o, "FOO", Option.None), "BAR", Some("1"));
    assert "BAR" + "=" + "1" == "BAR=1";
    assert o2.macros == ["FOO", "BAR=1"];
    assert MacroArgs(["BAR=1"]) == ["-D", "BAR=1"];
    assert MacroArgs(o2.macros) == ["-D", "FOO"] + MacroArgs(["BAR=1"]);
  }
}
