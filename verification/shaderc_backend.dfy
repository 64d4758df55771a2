/** The native-handle backend (shaderc). Its options object is a handle
    filled field by field as the setters are called; compiling resolves the
    source, makes one call into the native compiler, normalises the native
    status into a `CompilationError`, and hands the SPIR-V words to the
    container encoder.

    The native compiler is not part of this model: it is a parameter, an
    arbitrary function from the request it receives to the status, words and
    error text it answers with. "The compiler is not invoked" is stated as
    "no request is formed, and the outcome is the same whatever the
    compiler would have answered". */
module ShadercBackend {
  import opened Wrappers
  import opened RhiSc
  import opened Container
  import DxcBackend

  datatype SourceLanguage = Glsl | Hlsl

  /** `shaderc_optimization_level`. */
  datatype ShadercLevel = Zero | Size | Performance

  /** How much optimization a native level asks for, least first. */
  function Effort(l: ShadercLevel): nat {
    match l
    case Zero => 0
    case Size => 1
    case Performance => 2
  }

  /** The state of a `shaderc::CompileOptions` handle as far as this layer
      sets it. `optimization` is None until a level is set, in which case
      the library's own default applies. */
  datatype ShadercOptions = ShadercOptions(
    sourceLanguage: SourceLanguage,
    macros: seq<MacroDefinition>,
    generateDebugInfo: bool,
    optimization: Option<ShadercLevel>)

  /** `CompileOptions::New`: a fresh handle switched to HLSL input. */
  function NewOptions(): (r: ShadercOptions)
    ensures r.sourceLanguage == Hlsl
    ensures r.macros == [] && !r.generateDebugInfo && r.optimization.None?
  {
    ShadercOptions(Hlsl, [], false, Option.None)
  }

  /** `AddMacroDefinition`: one more definition at the end, with or without
      a value; earlier ones and the other settings are kept. */
  function AddMacroDefinition(o: ShadercOptions, name: string, value: Option<string>): (r: ShadercOptions)
    ensures |r.macros| == |o.macros| + 1
    ensures r.macros[..|o.macros|] == o.macros
    ensures r.macros[|o.macros|].name == name && r.macros[|o.macros|].value == value
    ensures r.sourceLanguage == o.sourceLanguage && r.generateDebugInfo == o.generateDebugInfo
    ensures r.optimization == o.optimization
  {
    o.(macros := o.macros + [MacroDefinition(name, value)])
  }

  /** `EnableDebuggingSymbols`: turns debug info on; nothing else changes. */
  function EnableDebuggingSymbols(o: ShadercOptions): (r: ShadercOptions)
    ensures r.generateDebugInfo
    ensures r.sourceLanguage == o.sourceLanguage && r.macros == o.macros && r.optimization == o.optimization
  {
    o.(generateDebugInfo := true)
  }

  /** The native level an abstract level is translated to. Levels 1 and 2
      share a native level. */
  function NativeLevel(level: OptimizationLevel): (r: ShadercLevel) {
    match level
    case None => Zero
    case Level1 => Size
    case Level2 => Size
    case Level3 => Performance
  }

  /** `SetOptimizationLevel`: stores the native level of `level`,
      replacing any earlier one; nothing else changes. */
  function SetOptimizationLevel(o: ShadercOptions, level: OptimizationLevel): (r: ShadercOptions)
    ensures r.optimization.Some?
    ensures r.optimization.value == NativeLevel(level)
    ensures r.sourceLanguage == o.sourceLanguage && r.macros == o.macros && r.generateDebugInfo == o.generateDebugInfo
  {
    o.(optimization := Some(NativeLevel(level)))
  }

  /** A higher abstract level never asks for less optimization. */
  lemma NativeLevelMonotone(l: OptimizationLevel, m: OptimizationLevel)
    requires Ordinal(l) <= Ordinal(m)
    ensures Effort(NativeLevel(l)) <= Effort(NativeLevel(m))
  {
  }

  /** The translation is not injective: exactly levels 1 and 2 collide. */
  lemma NativeLevelCollapsesOneAndTwo(l: OptimizationLevel, m: OptimizationLevel)
    ensures NativeLevel(l) == NativeLevel(m) <==> l == m || (l in {Level1, Level2} && m in {Level1, Level2})
  {
  }

  /** `shaderc_shader_kind`, the kinds this backend uses. */
  datatype NativeShaderKind =
    | VertexShader | FragmentShader | GeometryShader
    | TessControlShader | TessEvaluationShader | ComputeShader
    | InferFromSource

  /** `ShaderKind` as the source writes it: Domain goes to tessellation
      control and Hull to tessellation evaluation. A stage without a kind is
      left for the native compiler to infer. */
  function ShaderKindAsWritten(stage: ShaderStage): (r: NativeShaderKind)
    ensures r == InferFromSource <==> stage == ShaderStage.None
    ensures r == TessControlShader <==> stage == Domain
    ensures r == TessEvaluationShader <==> stage == Hull
  {
    match stage
    case Vertex => VertexShader
    case Pixel => FragmentShader
    case Geometry => GeometryShader
    case Domain => TessControlShader
    case Hull => TessEvaluationShader
    case Compute => ComputeShader
    case None => InferFromSource
  }

  /** The native kind of an HLSL shader-model profile, by its two-letter
      prefix: a hull shader runs as the tessellation-control stage and a
      domain shader as the tessellation-evaluation stage. */
  function KindOfProfile(profile: string): Option<NativeShaderKind> {
    if |profile| < 2 then Option.None
    else
      var p := profile[..2];
      if p == "vs" then Some(VertexShader)
      else if p == "ps" then Some(FragmentShader)
      else if p == "gs" then Some(GeometryShader)
      else if p == "hs" then Some(TessControlShader)
      else if p == "ds" then Some(TessEvaluationShader)
      else if p == "cs" then Some(ComputeShader)
      else Option.None
  }

  /** The as-written mapping sends Hull and Domain to each other's kinds:
      neither agrees with the profile the DXC backend gives the same stage. */
  lemma ShaderKindAsWrittenSwapsTessellation()
    ensures Some(ShaderKindAsWritten(Hull)) != KindOfProfile(DxcBackend.StageToString(Hull))
    ensures Some(ShaderKindAsWritten(Domain)) != KindOfProfile(DxcBackend.StageToString(Domain))
    ensures ShaderKindAsWritten(Hull) == ShaderKind(Domain)
    ensures ShaderKindAsWritten(Domain) == ShaderKind(Hull)
  {
    assert DxcBackend.StageToString(Hull)[..2] == "hs";
    assert DxcBackend.StageToString(Domain)[..2] == "ds";
  }

  /** `ShaderKind` with the tessellation stages the right way round: Hull
      goes to tessellation control and Domain to tessellation evaluation,
      as the DXC backend's profiles have them. */
  function ShaderKind(stage: ShaderStage): (r: NativeShaderKind)
    ensures r == InferFromSource <==> stage == ShaderStage.None
    ensures r == TessControlShader <==> stage == Hull
    ensures r == TessEvaluationShader <==> stage == Domain
    ensures stage != Hull && stage != Domain ==> r == ShaderKindAsWritten(stage)
  {
    match stage
    case Vertex => VertexShader
    case Pixel => FragmentShader
    case Geometry => GeometryShader
    case Domain => TessEvaluationShader
    case Hull => TessControlShader
    case Compute => ComputeShader
    case None => InferFromSource
  }

  /** Every stage with a kind gets the kind its DXC profile names, so the
      two backends agree on what each stage is. */
  lemma ShaderKindMatchesProfile(stage: ShaderStage)
    requires stage != ShaderStage.None
    ensures KindOfProfile(DxcBackend.StageToString(stage)) == Some(ShaderKind(stage))
  {
    match stage
    case Vertex => assert DxcBackend.StageToString(stage)[..2] == "vs";
    case Pixel => assert DxcBackend.StageToString(stage)[..2] == "ps";
    case Geometry => assert DxcBackend.StageToString(stage)[..2] == "gs";
    case Domain => assert DxcBackend.StageToString(stage)[..2] == "ds";
    case Hull => assert DxcBackend.StageToString(stage)[..2] == "hs";
    case Compute => assert DxcBackend.StageToString(stage)[..2] == "cs";
  }

  /** The stage a native kind stands for, the inverse of `ShaderKind`. */
  function StageOfKind(kind: NativeShaderKind): ShaderStage {
    match kind
    case VertexShader => Vertex
    case FragmentShader => Pixel
    case GeometryShader => Geometry
    case TessControlShader => Hull
    case TessEvaluationShader => Domain
    case ComputeShader => Compute
    case InferFromSource => ShaderStage.None
  }

  /** `ShaderKind` is a bijection between stages and the kinds this backend
      uses; in particular distinct stages get distinct kinds. */
  lemma ShaderKindInjective(s: ShaderStage, t: ShaderStage, k: NativeShaderKind)
    ensures StageOfKind(ShaderKind(s)) == s
    ensures ShaderKind(StageOfKind(k)) == k
    ensures ShaderKind(s) == ShaderKind(t) ==> s == t
  {
  }

  /** `shaderc_compilation_status`. */
  datatype NativeStatus =
    | StatusSuccess | StatusInvalidStage | StatusCompilationError | StatusInternalError
    | StatusNullResultObject | StatusInvalidAssembly | StatusValidationError
    | StatusTransformationError | StatusConfigurationError

  /** One call of `CompileGlslToSpv`: the source text, the kind, the file
      name used in diagnostics, and the options handle, if one is passed
      (None: the overload without options, which uses the library defaults). */
  datatype NativeRequest = NativeRequest(
    source: seq<byte>,
    kind: NativeShaderKind,
    inputFileName: string,
    options: Option<ShadercOptions>)

  /** What `SpvCompilationResult` answers: status, SPIR-V words, error text. */
  datatype NativeResult = NativeResult(status: NativeStatus, words: seq<u32>, errorMessage: string)

  type NativeCompiler = NativeRequest -> NativeResult

  const FileNotFoundMessage: string := "File passed in was not found"
  const ApiNotAvailableMessage: string := "Only Vulkan API shaders supported"

  /** The native call `Compile` makes, or None when a path source does not
      exist and no call is made. A path source is read whole and passed with
      the caller's options; an in-memory source is passed with its own file
      name and, as written, without the options handle. */
  function Request(fs: FileSystem, source: ShaderSource, opt: ShadercOptions): (r: Option<NativeRequest>)
    ensures r.None? <==> source.source.Path? && !fs.Exists(source.source.path)
    ensures r.Some? ==> r.value.kind == ShaderKindAsWritten(source.stage)
    ensures r.Some? && source.source.Path? ==>
      && r.value.source == fs.files[source.source.path]
      && r.value.inputFileName == source.source.path
      && r.value.options == Some(opt)
    ensures source.source.InMemory? ==>
      && r.Some?
      && r.value.source == source.source.shader
      && r.value.inputFileName == source.source.filename
      && r.value.options.None?
  {
    var kind := ShaderKindAsWritten(source.stage);
    match source.source
    case Path(path) =>
      if !fs.Exists(path) then Option.None
      else Some(NativeRequest(fs.files[path], kind, path, Some(opt)))
    case InMemory(shader, filename) =>
      Some(NativeRequest(shader, kind, filename, Option.None))
  }

  /** The normalised result of `Compile` and the module it returns. */
  datatype Compiled = Compiled(result: CompilationResult, spirv: seq<u32>)

  /** `Compile`: a missing path gives `NonExistentFile` and the fixed message
      without calling the native compiler; otherwise the message is always
      the native error text, and the status is `None` exactly when the native
      status is success and `Error` for every other native status. */
  function Compile(fs: FileSystem, native: NativeCompiler, source: ShaderSource, opt: ShadercOptions): (r: Compiled)
    ensures r.result.warningCount == 0
    ensures r.result.error in {CompilationError.None, NonExistentFile, Error}
    ensures Request(fs, source, opt).None? ==>
      r.result == Report(FileNotFoundMessage, NonExistentFile) && r.spirv == []
    ensures Request(fs, source, opt).Some? ==>
      var answer := native(Request(fs, source, opt).value);
      && r.result.messages == answer.errorMessage
      && (r.result.error == CompilationError.None <==> answer.status == StatusSuccess)
      && (r.result.error != CompilationError.None ==> r.result.error == Error)
      && (r.result.error == CompilationError.None ==> r.spirv == answer.words)
  {
    match Request(fs, source, opt)
    case None => Compiled(Report(FileNotFoundMessage, NonExistentFile), [])
    case Some(request) =>
      var answer := native(request);
      if answer.status != StatusSuccess then Compiled(Report(answer.errorMessage, Error), answer.words)
      else Compiled(Report(answer.errorMessage, CompilationError.None), answer.words)
  }

  /** The result of `CompileToFile` and the file system after it. */
  datatype FileOutcome = FileOutcome(result: CompilationResult, fs: FileSystem)

  /** `Compiler::CompileToFile`: any error from `Compile` is returned before the
      output is opened, so the file system is untouched; on success the output
      file holds exactly the container of the bytecode, 20 bytes longer than
      it, and nothing else changes. The file is the intended container; on a
      little-endian host that is the file the source writes, while on a
      big-endian host the source writes `ContainerFileAsWritten` instead. */
  function CompileToFile(fs: FileSystem, native: NativeCompiler, host: Endian,
                         source: ShaderSource, opt: ShadercOptions, output: string): (r: FileOutcome)
    ensures r.result == Compile(fs, native, source, opt).result
    ensures r.result.warningCount == 0 && r.result.error != InvalidStage
    ensures source.source.Path? && !fs.Exists(source.source.path) ==>
      r.result.error == NonExistentFile && r.fs == fs
    ensures r.result.error != CompilationError.None ==> r.fs == fs
    ensures r.result.error == CompilationError.None ==>
      var spirv := Compile(fs, native, source, opt).spirv;
      && r.fs.files.Keys == fs.files.Keys + {output}
      && (forall p :: p in fs.files && p != output ==> r.fs.files[p] == fs.files[p])
      && Parse(r.fs.files[output]) == Some(Bytecode(spirv, host))
      && |r.fs.files[output]| == |Bytecode(spirv, host)| + 20
      && (host == Little ==> ContainerFileAsWritten(spirv, host) == Some(r.fs.files[output]))
  {
    var compiled := Compile(fs, native, source, opt);
    if compiled.result.error != CompilationError.None then FileOutcome(compiled.result, fs)
    else FileOutcome(compiled.result, FileSystem(fs.files[output := ContainerFile(compiled.spirv, host)]))
  }

  /** The result of `CompileToBuffer` and the caller's output vector after it. */
  datatype BufferOutcome = BufferOutcome(result: CompilationResult, output: seq<byte>)

  /** `Compiler::CompileToBuffer`. A target other than Vulkan is refused
      before anything is compiled; a compile error leaves `output` as it was;
      on success `output` is exactly the raw bytecode. The header declares a
      `memory_repr` flag defaulting to true; this backend ignores it. */
  function CompileToBuffer(api: Api, fs: FileSystem, native: NativeCompiler, host: Endian,
                           source: ShaderSource, opt: ShadercOptions, output: seq<byte>,
                           memoryRepr: bool := true): (r: BufferOutcome)
    ensures r.result.warningCount == 0 && r.result.error != InvalidStage
    ensures api != Vulkan ==>
      r.result == Report(ApiNotAvailableMessage, APINotAvailable) && r.output == output
    ensures api == Vulkan ==> r.result == Compile(fs, native, source, opt).result
    ensures r.result.error != CompilationError.None ==> r.output == output
    ensures r.result.error == CompilationError.None ==>
      var spirv := Compile(fs, native, source, opt).spirv;
      && r.output == Bytecode(spirv, host)
      && (4 * |spirv| < 0x1_0000_0000 ==> r.output == WordBytes(spirv, host))
  {
    if api != Vulkan then BufferOutcome(Report(ApiNotAvailableMessage, APINotAvailable), output)
    else
      var compiled := Compile(fs, native, source, opt);
      if compiled.result.error != CompilationError.None then BufferOutcome(compiled.result, output)
      else BufferOutcome(compiled.result, Bytecode(compiled.spirv, host))
  }

  /** A missing path is reported the same way whatever the native compiler
      would answer: it is never asked. */
  lemma MissingFileSkipsCompiler(fs: FileSystem, native1: NativeCompiler, native2: NativeCompiler,
                                 host: Endian, source: ShaderSource, opt: ShadercOptions, output: string)
    requires source.source.Path? && !fs.Exists(source.source.path)
    ensures CompileToFile(fs, native1, host, source, opt, output) == CompileToFile(fs, native2, host, source, opt, output)
    ensures CompileToFile(fs, native1, host, source, opt, output) == FileOutcome(Report(FileNotFoundMessage, NonExistentFile), fs)
  {
  }

  /** A non-Vulkan target is refused the same way whatever the native
      compiler would answer, and even when the source file is missing. */
  lemma WrongApiSkipsCompiler(api: Api, fs: FileSystem, native1: NativeCompiler, native2: NativeCompiler,
                              host: Endian, source: ShaderSource, opt: ShadercOptions, output: seq<byte>)
    requires api != Vulkan
    ensures CompileToBuffer(api, fs, native1, host, source, opt, output)
         == CompileToBuffer(api, fs, native2, host, source, opt, output)
    ensures CompileToBuffer(api, fs, native1, host, source, opt, output).result.error == APINotAvailable
  {
  }

  /** The `memory_repr` flag changes nothing: the buffer is always raw bytecode. */
  lemma CompileToBufferIgnoresMemoryRepr(api: Api, fs: FileSystem, native: NativeCompiler, host: Endian,
                                         source: ShaderSource, opt: ShadercOptions, output: seq<byte>)
    ensures CompileToBuffer(api, fs, native, host, source, opt, output, false)
         == CompileToBuffer(api, fs, native, host, source, opt, output)
  {
  }

  /** As written, the options handle never reaches the native compiler for an
      in-memory source, so compiling one gives the same outcome whatever
      options the caller set. */
  lemma InMemorySourceIgnoresOptions(fs: FileSystem, native: NativeCompiler, source: ShaderSource,
                                     opt1: ShadercOptions, opt2: ShadercOptions)
    requires source.source.InMemory?
    ensures Compile(fs, native, source, opt1) == Compile(fs, native, source, opt2)
  {
  }

  /** The file written by `CompileToFile` and the buffer filled by
      `CompileToBuffer` for the same compile carry the same bytecode: the
      file is the container of the buffer. On a little-endian host so is the
      file the source writes. */
  lemma FileIsContainerOfBuffer(fs: FileSystem, native: NativeCompiler, host: Endian,
                                source: ShaderSource, opt: ShadercOptions, path: string, output: seq<byte>)
    requires Compile(fs, native, source, opt).result.error == CompilationError.None
    ensures CompileToFile(fs, native, host, source, opt, path).fs.files[path]
         == Frame(CompileToBuffer(Vulkan, fs, native, host, source, opt, output).output)
    ensures host == Little ==>
      ContainerFileAsWritten(Compile(fs, native, source, opt).spirv, host)
        == Some(Frame(CompileToBuffer(Vulkan, fs, native, host, source, opt, output).output))
  {
  }
}
