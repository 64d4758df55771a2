/** The backend-neutral vocabulary of the shader compiler: pipeline stages,
    target APIs, optimization levels, error codes, the compilation result,
    and the description of what to compile. Plus the machine types the
    backends share (bytes, 32-bit words) and the file system the
    compiler reads from and writes to. */
module RhiSc {
  import opened Wrappers

  /** An unsigned 8-bit value; the unit of every file and buffer. */
  newtype byte = x: int | 0 <= x < 0x100

  /** An unsigned 32-bit value (`uint32_t`); a SPIR-V word or a length field. */
  newtype u32 = x: int | 0 <= x < 0x1_0000_0000

  /** The pipeline stage a shader is written for. */
  datatype ShaderStage = None | Vertex | Pixel | Geometry | Domain | Hull | Compute

  /** The graphics API a buffer is meant for. */
  datatype Api = DX12 | Vulkan

  /** The status of one compile call. `None` is the only success value. */
  datatype CompilationError = None | NonExistentFile | Error | APINotAvailable | InvalidStage

  predicate IsSuccess(e: CompilationError) {
    e == CompilationError.None
  }

  /** What a compile call reports back to its caller. */
  datatype CompilationResult = CompilationResult(warningCount: u32, messages: string, error: CompilationError)

  /** A result whose warning count keeps its in-class initializer (no backend ever
      writes it) and whose message and status are the given ones. */
  function Report(messages: string, error: CompilationError): (r: CompilationResult)
    ensures r.warningCount == 0
    ensures r.messages == messages && r.error == error
  {
    CompilationResult(0, messages, error)
  }

  /** The abstract optimization levels, in increasing order. */
  datatype OptimizationLevel = None | Level1 | Level2 | Level3

  /** `Max` names the same enumerator as level 3. */
  const Max: OptimizationLevel := Level3

  /** The position of a level in the declaration order (the enumerator's value). */
  function Ordinal(l: OptimizationLevel): nat {
    match l
    case None => 0
    case Level1 => 1
    case Level2 => 2
    case Level3 => 3
  }

  /** The caller-facing pair passed to `AddMacroDefinition`: a name and an optional value. */
  datatype MacroDefinition = MacroDefinition(name: string, value: Option<string>)

  /** Where the shader text comes from: exactly one of a path to read, or
      text already in memory together with a file name used in diagnostics. */
  datatype SourceForm =
    | Path(path: string)
    | InMemory(shader: seq<byte>, filename: string)

  datatype ShaderSource = ShaderSource(source: SourceForm, stage: ShaderStage)

  /** The files on disk, by path. A path exists exactly when it is a key. */
  datatype FileSystem = FileSystem(files: map<string, seq<byte>>) {

    predicate Exists(path: string) {
      path in files
    }
  }

  /** The declaration order of the optimization levels is a strict order of four
      distinct values, and `Max` is level 3, the greatest of them. */
  lemma OptimizationLevelsOrdered()
    ensures Ordinal(OptimizationLevel.None) < Ordinal(Level1) < Ordinal(Level2) < Ordinal(Level3)
    ensures forall l, m :: Ordinal(l) == Ordinal(m) ==> l == m
    ensures Max == Level3 && forall l :: Ordinal(l) <= Ordinal(Max)
  {
  }

  /** Of the five compilation errors exactly one, `None`, is a success. */
  lemma SuccessIsOnlyNone(e: CompilationError)
    ensures IsSuccess(e) <==> e.None?
    ensures e.None? || e.NonExistentFile? || e.Error? || e.APINotAvailable? || e.InvalidStage?
  {
  }
}
