/** `CompileOptions` as the caller sees it: one setter interface over the
    options object of whichever backend is built. The variant is chosen
    once, when the options are created, and the setters never change it. */
module Options {
  import opened Wrappers
  import opened RhiSc
  import DxcBackend
  import ShadercBackend

  datatype CompileOptions =
    | Dxc(dxc: DxcBackend.DxcOptions)
    | Shaderc(shaderc: ShadercBackend.ShadercOptions)

  /** The macro definitions stored so far, in the caller's terms. */
  function MacroCount(o: CompileOptions): nat {
    match o
    case Dxc(d) => |d.macros|
    case Shaderc(s) => |s.macros|
  }

  function AddMacroDefinition(o: CompileOptions, name: string, value: Option<string>): (r: CompileOptions)
    ensures r.Dxc? == o.Dxc?
    ensures MacroCount(r) == MacroCount(o) + 1
    ensures r.Dxc? ==> r.dxc == o.dxc.(macros := o.dxc.macros + [DxcBackend.MacroEntry(name, value)])
    ensures r.Shaderc? ==> r.shaderc == o.shaderc.(macros := o.shaderc.macros + [MacroDefinition(name, value)])
  {
    match o
    case Dxc(d) => Dxc(DxcBackend.AddMacroDefinition(d, name, value))
    case Shaderc(s) => Shaderc(ShadercBackend.AddMacroDefinition(s, name, value))
  }

  function EnableDebuggingSymbols(o: CompileOptions): (r: CompileOptions)
    ensures r.Dxc? == o.Dxc?
    ensures MacroCount(r) == MacroCount(o)
    ensures r.Dxc? ==> r.dxc.debug && r.dxc.level == o.dxc.level && r.dxc.macros == o.dxc.macros
    ensures r.Shaderc? ==>
      && r.shaderc.generateDebugInfo
      && r.shaderc.optimization == o.shaderc.optimization
      && r.shaderc.macros == o.shaderc.macros
      && r.shaderc.sourceLanguage == o.shaderc.sourceLanguage
  {
    match o
    case Dxc(d) => Dxc(DxcBackend.EnableDebuggingSymbols(d))
    case Shaderc(s) => Shaderc(ShadercBackend.EnableDebuggingSymbols(s))
  }

  function SetOptimizationLevel(o: CompileOptions, level: OptimizationLevel): (r: CompileOptions)
    ensures r.Dxc? == o.Dxc?
    ensures MacroCount(r) == MacroCount(o)
    ensures r.Dxc? ==> r.dxc.level == level && r.dxc.debug == o.dxc.debug && r.dxc.macros == o.dxc.macros
    ensures r.Shaderc? ==>
      && r.shaderc.optimization == Some(ShadercBackend.NativeLevel(level))
      && r.shaderc.generateDebugInfo == o.shaderc.generateDebugInfo
      && r.shaderc.macros == o.shaderc.macros
      && r.shaderc.sourceLanguage == o.shaderc.sourceLanguage
  {
    match o
    case Dxc(d) => Dxc(DxcBackend.SetOptimizationLevel(d, level))
    case Shaderc(s) => Shaderc(ShadercBackend.SetOptimizationLevel(s, level))
  }
}
