# rhi_sc shader-compilation layer, modelled in Dafny

This project models the backend-neutral shader-compilation layer of rhi_sc,
the shader compiler for Pistachio's RHI. The layer takes a shader source
(a path on disk, or text in memory with a file name for diagnostics), a
pipeline stage and a set of compile options. It routes them through one of
two backends:

- DXC, which translates the options into a flat argument-string list;
- shaderc, which fills a native options handle and calls the native
  compiler.

It normalises the native status into a `CompilationError`. It then writes
the SPIR-V either to a file, in a length-prefixed container, or to a
caller-supplied buffer, as raw bytes. The command-line front end
(`src/app.cpp`) is modelled too: it turns the parsed arguments into options,
a stage and a sequence of compiles, and chooses the exit code.

Modules, one per source component:

- `RhiSc` (`rhi_sc.dfy`): the header's vocabulary. It defines the stages,
  the APIs, `OptimizationLevel` (with `Max` naming the same value as level
  3), the five-valued `CompilationError`, and `CompilationResult`.
  `ShaderSource` is a sum type, so a source holds exactly one of a path or
  an in-memory (text, file name) pair, always together with a stage. The
  module also defines the `byte` and `u32` machine types, and the file
  system as a map from paths to contents.
- `Container` (`container.dfy`): the byte layouts. It defines the host-order
  memory image of the SPIR-V words, `spvSize` with its `uint32_t`
  wrap-around, and the length field with its explicit byte reversal on a
  big-endian host. It also defines the container layout
  `LE32(N) ++ bytecode ++ 16 zero bytes`, and `Parse`, a reader for that
  layout that is proved to be the exact inverse of it. Next to that
  intended file it defines the file as the source writes it, which differs
  on a big-endian host.
- `DxcBackend` (`dxc_backend.dfy`): `DXCCompileOptions`, its three setters,
  `StageToString`, `OptimizationToString` and `AsArgs`. It also defines
  `ParseArgs`, which reads an argument list back. `AsArgs` is proved
  lossless through it.
- `ShadercBackend` (`shaderc_backend.dfy`): the options handle and its
  setters, the level translation (levels 1 and 2 collapse), and
  `ShaderKind`. It also defines `Compile`, `CompileToFile` and
  `CompileToBuffer`. The native compiler is a parameter: an arbitrary
  function from the request it receives to a status, words and error text.
  "Not invoked" is proved in two ways: no request is formed, and the outcome
  does not depend on that function.
- `Options` (`options.dfy`): `CompileOptions` as a closed variant over the
  two backends' option objects. It is used by the front end.
- `App` (`app.dfy`): `GetOptimizationLevel`, `GetShaderStage` and
  `AddMacroDefns` with the split of `-D` strings at the first `=`. It also
  models the option building and the compile loop of `main`. The loop
  appears twice: as a recursive function, and as a method with an index
  and an early return that is proved to compute the same outcome.

Behaviour worth knowing:

- No live path produces `InvalidStage` (include/rhi_sc.h:15-22). shaderc maps a stage without a kind
  to "infer from source", and DXC maps a stage without a profile to the
  empty string.
- `CompileToBuffer` in the shaderc backend refuses every non-Vulkan API,
  whatever the memory-representation flag says
  (src/backend/shaderc/rhi_sc.cpp:141-146).
- The flag itself, declared with default `true` (include/rhi_sc.h:59), is
  ignored.
  The buffer always holds the raw bytecode, never the container.
- For an in-memory source, `Compile` calls the native overload that takes
  no options handle (src/backend/shaderc/rhi_sc.cpp:105-109). The macros, debug setting, level and HLSL source
  language set by the caller therefore do not reach the native compiler.
  `ShadercBackend.InMemorySourceIgnoresOptions` states this.
- `ShaderKind` maps Domain to tessellation control and Hull to
  tessellation evaluation (src/backend/shaderc/rhi_sc.cpp:79-80), the
  reverse of the DXC backend's `hs_6_0`/`ds_6_0` profiles. The native
  request carries this as-written kind. The corrected mapping and its
  agreement with the DXC profiles are recorded under "## Findings".
- The length field is reversed in place on a big-endian host
  (src/backend/shaderc/rhi_sc.cpp:127-131), and the same variable then
  gives the payload length (:133). On such a host the payload length is
  byte-swapped. The model's `CompileToFile` writes the intended container;
  the as-written file is recorded under "## Findings".
- Both file streams are opened in text mode
  (src/backend/shaderc/rhi_sc.cpp:99 and :125). The model writes and reads
  bytes unchanged, as binary mode would; see "## Findings".

## Model

| member | source | states |
|---|---|---|
| `RhiSc.OptimizationLevelsOrdered` | include/rhi_sc.h:29-32 | the four levels are distinct and ordered None < 1 < 2 < 3, and `Max` is level 3, the greatest |
| `RhiSc.SuccessIsOnlyNone` | include/rhi_sc.h:15-22 | every error is one of the five enumerators, and `None` is the only success value |
| `RhiSc.Report` | include/rhi_sc.h:23-28 | a result built by a backend keeps warning count 0, since no backend writes that field |
| `Container.SizeField` | src/backend/shaderc/rhi_sc.cpp:126-132 | after the conditional reversal, the length field is little-endian and reads back as N on both host byte orders |
| `Container.SpvSize` | src/backend/shaderc/rhi_sc.cpp:126 | the byte length is words × 4 reduced to 32 bits; it equals words × 4 for every module under 4 GiB and never exceeds it |
| `Container.Bytecode` | src/backend/shaderc/rhi_sc.cpp:150-152 | the bytes copied out are exactly `spvSize` long, and they are the whole host-order image of the words when nothing wraps |
| `Container.ContainerFile` | src/backend/shaderc/rhi_sc.cpp:126-135 | the intended file is the container of the bytecode: LE32(N), the N bytes, 16 zero bytes; it is N + 20 long and parses back to exactly the bytecode |
| `Container.ByteSwap` | src/backend/shaderc/rhi_sc.cpp:127-131 | reversing a uint32's bytes in place gives the value whose little-endian image is the reversed image of the original |
| `Container.WrittenLengthReadsSizeField` | src/backend/shaderc/rhi_sc.cpp:127-133 | on a big-endian host the length passed to the payload write is the big-endian reading of the reversed length field, because the reversal goes through a byte view of the length variable itself |
| `Container.ContainerFileAsWritten` | src/backend/shaderc/rhi_sc.cpp:126-135 | the file as the source writes it: the length field, then as many payload bytes as the possibly swapped length says, then the trailer; no file (an out-of-bounds read) when that length exceeds the module; on a little-endian host it is exactly the intended container |
| `Container.AsWrittenIsContainerIff` | src/backend/shaderc/rhi_sc.cpp:126-135 | the written file is the intended container exactly when the written length equals the real one, and otherwise it does not read back as the bytecode |
| `Container.BigEndianCounterexample` | src/backend/shaderc/rhi_sc.cpp:127-133 | a one-word module on a big-endian host has its length 4 swapped to 0x0400_0000, past the end of the module |
| `Container.BigEndianTruncates` | src/backend/shaderc/rhi_sc.cpp:127-133 | a 16 MiB module on a big-endian host has its length swapped to 1: the file is 21 bytes and does not read back |
| `Container.TextModeWrite` | src/backend/shaderc/rhi_sc.cpp:125 | a newline-translating text stream writes the bytes unchanged exactly when there is no line feed among them, and strictly more bytes otherwise |
| `Container.TextModeCorruptsContainer` | src/backend/shaderc/rhi_sc.cpp:125-135 | through such a stream, a container holding a line-feed byte comes out longer and does not read back as the same payload |
| `Container.TextModeCounterexample` | src/backend/shaderc/rhi_sc.cpp:125-135 | the one-word module 10 on a little-endian host is such a container |
| `Container.ParseFrame` | src/backend/shaderc/rhi_sc.cpp:132-135 | decoding a container recovers the payload and its length |
| `Container.FrameParse` | src/backend/shaderc/rhi_sc.cpp:132-135 | every byte sequence that decodes is the container of what it decodes to, so the layout admits no other encodings |
| `Container.FromLEOfLEBytes` | src/backend/shaderc/rhi_sc.cpp:126-132 | reading k little-endian bytes back recovers every value below 256^k |
| `Container.ReverseBEBytes` | src/backend/shaderc/rhi_sc.cpp:128-131 | reversing the big-endian image of a value gives its little-endian image |
| `DxcBackend.AddMacroDefinition` | src/backend/dxc/rhi_sc.cpp:101-111 | exactly one entry is appended (`name`, or `name=value`); earlier entries, debug and level are unchanged; there is no de-duplication |
| `DxcBackend.EnableDebuggingSymbols` | src/backend/dxc/rhi_sc.cpp:112-116 | sets debug and changes nothing else |
| `DxcBackend.SetOptimizationLevel` | src/backend/dxc/rhi_sc.cpp:117-121 | replaces the level and changes nothing else |
| `DxcBackend.SetOptimizationLevelLastWins` | src/backend/dxc/rhi_sc.cpp:117-121 | setting the level twice keeps the last value |
| `DxcBackend.SettersCommute` | src/backend/dxc/rhi_sc.cpp:101-121 | the setters touch disjoint state, so their order does not matter |
| `DxcBackend.StageToString` | src/backend/dxc/rhi_sc.cpp:33-46 | the profile is empty exactly for a stage without one; otherwise it is a six-character `xs_6_0` shader-model 6.0 profile |
| `DxcBackend.StageToStringInjective` | src/backend/dxc/rhi_sc.cpp:33-46 | every stage is recovered from its profile, so distinct stages get distinct profiles |
| `DxcBackend.OptimizationToString` | src/backend/dxc/rhi_sc.cpp:47-57 | every level maps to a three-character `-O` flag |
| `DxcBackend.OptimizationToStringInjective` | src/backend/dxc/rhi_sc.cpp:47-57 | every level is recovered from its flag (`-Od`, `-O1`, `-O2`, `-O3`), so the mapping is injective |
| `DxcBackend.AsArgs` | src/backend/dxc/rhi_sc.cpp:58-75 | the list starts `-T <profile>`; `-Zi -Qembed_debug` follow exactly when debug is set; then the optimization flag; then the macro pairs; the length is 3 + (2 if debug) + 2 × macros |
| `DxcBackend.AsArgsMacroAt` | src/backend/dxc/rhi_sc.cpp:68-74 | macro i contributes `-D`, macro i at the i-th pair position after the optimization flag, in insertion order |
| `DxcBackend.AsArgsRoundTrip` | src/backend/dxc/rhi_sc.cpp:58-75 | the argument list loses nothing: profile, debug, level and every macro in order are read back from it |
| `DxcBackend.ParseArgsSound` | src/backend/dxc/rhi_sc.cpp:58-75 | conversely, every list that reads back is the list built from what it reads back to |
| `DxcBackend.TwoMacrosInOrder` | src/backend/dxc/rhi_sc.cpp:68-74 | `FOO` without a value, then `BAR` with value `1`, end the list as `-D FOO -D BAR=1` |
| `ShadercBackend.NewOptions` | src/backend/shaderc/rhi_sc.cpp:21-24 | a fresh handle takes HLSL input and has no macros, no debug info and no level set |
| `ShadercBackend.AddMacroDefinition` | src/backend/shaderc/rhi_sc.cpp:40-51 | exactly one definition, with or without a value, is appended; everything else is kept |
| `ShadercBackend.EnableDebuggingSymbols` | src/backend/shaderc/rhi_sc.cpp:52-56 | turns debug info on and changes nothing else |
| `ShadercBackend.SetOptimizationLevel` | src/backend/shaderc/rhi_sc.cpp:57-70 | stores the native level of the given level and changes nothing else |
| `ShadercBackend.NativeLevelMonotone` | src/backend/shaderc/rhi_sc.cpp:61-68 | a higher abstract level never asks for less native optimization (zero < size < performance) |
| `ShadercBackend.NativeLevelCollapsesOneAndTwo` | src/backend/shaderc/rhi_sc.cpp:61-68 | two levels share a native level exactly when they are equal or are levels 1 and 2 |
| `ShadercBackend.ShaderKindAsWritten` | src/backend/shaderc/rhi_sc.cpp:71-84 | the mapping as written: "infer from source" exactly for a stage without a kind, tessellation control exactly for Domain, tessellation evaluation exactly for Hull |
| `ShadercBackend.ShaderKindAsWrittenSwapsTessellation` | src/backend/shaderc/rhi_sc.cpp:79-80 | as written, Hull and Domain each get the other's kind, and neither agrees with the kind its DXC profile (`hs_6_0`, `ds_6_0`) names |
| `ShadercBackend.ShaderKind` | src/backend/shaderc/rhi_sc.cpp:71-84 | the corrected mapping: "infer from source" exactly for a stage without a kind, tessellation control exactly for Hull, tessellation evaluation exactly for Domain, and every other stage as written |
| `ShadercBackend.ShaderKindMatchesProfile` | src/backend/dxc/rhi_sc.cpp:34-45 | every stage with a kind gets the kind its DXC profile names, so the two backends agree on each stage |
| `ShadercBackend.ShaderKindInjective` | src/backend/shaderc/rhi_sc.cpp:71-84 | the kind mapping is a bijection with an explicit inverse, so distinct stages get distinct kinds |
| `ShadercBackend.Request` | src/backend/shaderc/rhi_sc.cpp:89-109 | no native call is made exactly when a path source does not exist; a path source is sent whole with its path and the caller's options; an in-memory source is sent with its file name and no options handle; the kind is the as-written `ShaderKindAsWritten` of the stage |
| `ShadercBackend.Compile` | src/backend/shaderc/rhi_sc.cpp:85-118 | a missing path gives `NonExistentFile` with the fixed message; otherwise the message is the native error text, the status is `None` exactly on native success and `Error` otherwise, and `InvalidStage` never occurs |
| `ShadercBackend.CompileToFile` | src/backend/shaderc/rhi_sc.cpp:119-137 | on any error the file system is untouched; on success only the output file changes, and it holds the container of the bytecode, 20 bytes longer than the bytecode; on a little-endian host that file is exactly the one the source writes |
| `ShadercBackend.CompileToBuffer` | src/backend/shaderc/rhi_sc.cpp:138-154 | a non-Vulkan API gives `APINotAvailable` with its message and leaves `output` alone; a compile error leaves `output` alone; success makes `output` exactly the bytecode |
| `ShadercBackend.MissingFileSkipsCompiler` | src/backend/shaderc/rhi_sc.cpp:90-98 | for a missing path the outcome is the same whatever the native compiler would answer, and nothing is written |
| `ShadercBackend.WrongApiSkipsCompiler` | src/backend/shaderc/rhi_sc.cpp:141-146 | for a non-Vulkan API the outcome is the same whatever the native compiler would answer, and the API check takes precedence over a missing file |
| `ShadercBackend.CompileToBufferIgnoresMemoryRepr` | include/rhi_sc.h:59 | the `memory_repr` flag, defaulting to true, does not change the outcome |
| `ShadercBackend.InMemorySourceIgnoresOptions` | src/backend/shaderc/rhi_sc.cpp:105-109 | for an in-memory source the outcome does not depend on the options the caller set |
| `ShadercBackend.FileIsContainerOfBuffer` | src/backend/shaderc/rhi_sc.cpp:119-154 | for the same successful compile, the file written is the container of the buffer filled, and on a little-endian host so is the file the source writes |
| `Options.AddMacroDefinition` | include/rhi_sc.h:38 | the backend variant is kept; on DXC exactly the entry `name` or `name=value` is appended, on shaderc exactly the (name, value) definition; every other field is kept |
| `Options.EnableDebuggingSymbols` | include/rhi_sc.h:40 | on either backend debug information is turned on, and the level, the macros and (for shaderc) the source language are kept |
| `Options.SetOptimizationLevel` | include/rhi_sc.h:39 | on DXC the level becomes the given one; on shaderc the handle holds the native level of the given one; debug and macros are kept |
| `App.GetOptimizationLevelIsFirstSet` | src/app.cpp:9-32 | the level is that of the first set flag in the order `-ONone`, `-O1`, `-O2`, `-O3`, `-OFast`, or none |
| `App.FirstSet` | src/app.cpp:9-32 | with no flag set the level is none; otherwise it is the level of the first flag that is set |
| `App.OptimizationFlagSelectsLevel` | src/app.cpp:9-32 | under the mutually exclusive group, each flag selects its own level, `-OFast` gives `Max` (= level 3), and no flag gives none |
| `App.GetShaderStageByName` | src/app.cpp:33-52 | a target names a stage exactly when its lower-cased form is that stage's name; anything else gives `None` |
| `App.GetShaderStageIgnoresCase` | src/app.cpp:35-37 | targets that differ only in letter case name the same stage |
| `App.FindFirst` | src/app.cpp:58 | finds the first `=`, or reports that there is none |
| `App.SplitMacro` | src/app.cpp:58-68 | no `=` gives the whole string as a name without a value; otherwise the name is the prefix before the first `=` (itself `=`-free) and the value is the rest, and `name=value` is the original |
| `App.SplitMacroJoin` | src/app.cpp:58-68 | joining the split back as the DXC backend does reproduces the `-D` string |
| `App.SplitMacroOfEntry` | src/app.cpp:64-68 | a definition whose name has no `=` is recovered by splitting its `name=value` text |
| `App.SplitAllAt` | src/app.cpp:55-69 | definition i is the split of `-D` string i |
| `App.AddMacroDefns` | src/app.cpp:53-70 | one macro is added per `-D`, and the backend variant is kept |
| `App.AddMacroDefnsDxc` | src/app.cpp:53-70 | on the DXC backend the new entries are the `-D` strings themselves, in command-line order |
| `App.AddMacroDefnsShaderc` | src/app.cpp:53-70 | on the shaderc backend the new definitions are the splits of the `-D` strings, in command-line order |
| `App.BuildShadercOptions` | src/app.cpp:99-105 | the options `main` builds have debug info exactly when `-g` is given, the split macros in order, the selected level, and HLSL input |
| `App.BuildDxcOptions` | src/app.cpp:99-105 | from DXC options, debug is on exactly when it already was or `-g` is given; the macros are extended by the `-D` strings; the level is the selected one |
| `App.CompileFrom` | src/app.cpp:113-126 | the compiles run in order and stop at the first failure; exit 0 means every remaining pair compiled with `None`; exit 1 means the last compile run failed and all earlier ones succeeded |
| `App.CompileFromAt` | src/app.cpp:113-126 | result k of the loop is input i + k compiled to output i + k against the file system the k compiles before it left |
| `App.CompileFromFs` | src/app.cpp:113-126 | the loop ends with the file system its last compile left |
| `App.MainCompilesInOrder` | src/app.cpp:106-128 | every compile `main` runs is input k to output k with the built options and stage, against the file system left by the compiles before it |
| `App.MainFinalFs` | src/app.cpp:113-128 | `main` ends with the file system its last compile left |
| `App.Main` | src/app.cpp:106-128 | different input and output counts give 1 with nothing compiled; otherwise the exit code is 0 exactly when every pair compiled with `None`, the first compile is input 0 to output 0 with the built options and stage, and a failure ends the run |
| `App.CompileLoop` | src/app.cpp:113-126 | the indexed loop with early return computes the same outcome as `CompileFrom` |
| `App.RunMain` | src/app.cpp:99-128 | the program-shaped `main` computes the same outcome as `Main` |

## Left out

- The native compilers (`CompileGlslToSpv`, `IDxcCompiler3`, `DxcCreateInstance`) are a function parameter. Their front ends, optimizers and code generation are not modelled.
- File-system I/O is a map from paths to bytes. `std::filesystem::exists` is key membership, and reading a path yields its whole entry. Failures to open, read or write a stream are not modelled. The source does not check them either.
- The DXC backend has no live compile path. The commented-out block after `SetOptimizationLevel` in the DXC source is dead code and is not modelled. `DXCCompiler`'s constructor only acquires a native handle.
- `AsRawArgs` and the wide-string conversions (`to_wstring`, `mbstowcs`) are not modelled. Text is ASCII `string`, and the conversions are the identity on it.
- `DXCCompileOptions` leaves `debug` and `level` uninitialized. The model has no default state for it: every lemma takes an arbitrary starting state.
- `Compiler::New` and `CompileOptions::New` pick the backend at build time. The model represents that as the `Options` variant, and `main` always uses shaderc, the only backend with a live `CompileToFile`.
- The C-style downcasts and the header/implementation signature mismatches (`unique_ptr<CompileOptions>` vs `CompileOptions&`, and the missing `memory_repr` parameter) are C++ plumbing. They are not modelled beyond the default-parameter lemma.
- `ShaderStage` and `RHI::API` come from RHI headers (`FormatsAndTypes.h`, `Core.h`) that are not part of this model. The model uses the seven stages the layer switches on, and the two APIs DX12 and Vulkan.
- Argument parsing, its exceptions on bad input, and console output (`std::cout`, `std::cerr`) are not modelled. `CliArgs` holds the parsed values.
- Host byte order is little- or big-endian only. The source reverses the length field for any non-little host; mixed-endian hosts are not modelled.
- `Container.ContainerFile`: this is the intended file. On a big-endian host the source writes `Container.ContainerFileAsWritten` instead. That file has a byte-swapped payload length, or reads past the module, which is undefined behaviour and is modelled only as "no file". See "## Findings".
- `ShadercBackend.CompileToFile`: its output file is the intended container on both byte orders. That agrees with the source on a little-endian host only, as its contract states; the big-endian write is the "## Findings" row for src/backend/shaderc/rhi_sc.cpp:127-133.
- `ShadercBackend.FileIsContainerOfBuffer`: relates the intended file to the buffer on both byte orders. For the file the source writes, this holds on a little-endian host only.
- The shaderc library's handling of duplicate macro definitions is not modelled. This layer appends and never de-duplicates, and that is what the model states.
- `App.Main`: its own contract pins down only the first compile. `App.MainCompilesInOrder` states every later compile and `App.MainFinalFs` the final file system, through `App.CompileFromAt` and `App.CompileFromFs`; `App.CompileLoop` proves the indexed loop equal to `App.CompileFrom`.
- `ShadercBackend.CompileToFile`: the byte-exact container it promises assumes a stream that writes bytes unchanged, which the text-mode `std::ofstream` (src/backend/shaderc/rhi_sc.cpp:125) does only on a host without newline translation, such as a POSIX one. On a translating host the file is `Container.TextModeWrite` of the container; see "## Findings".
- `ShadercBackend.Request`: a path source is read byte for byte. The text-mode `std::ifstream` (src/backend/shaderc/rhi_sc.cpp:99) on a translating host would turn each carriage return, line feed into a line feed; that translation is not modelled.
- `RhiSc.FileSystem` holds regular files only. A path naming a directory passes `std::filesystem::exists` (src/backend/shaderc/rhi_sc.cpp:93), after which `std::filesystem::file_size` (:101) throws `filesystem_error`. Nothing catches it, so `main` terminates instead of returning 1. That exception path is not modelled.

## Findings

| source | as written | input that shows it | evidently intended | confidence | as-written member | corrected member |
|---|---|---|---|---|---|---|
| src/backend/shaderc/rhi_sc.cpp:79-80 | Domain maps to `shaderc_tess_control_shader` and Hull to `shaderc_tess_evaluation_shader` | stage Hull: the kind is tessellation evaluation, while the DXC backend compiles the same stage as `hs_6_0`, a tessellation-control (hull) shader | Hull maps to tessellation control and Domain to tessellation evaluation, as the DXC profiles do | high, not executed | `ShadercBackend.ShaderKindAsWrittenSwapsTessellation` | `ShadercBackend.ShaderKindMatchesProfile` |
| src/backend/shaderc/rhi_sc.cpp:125-135 | the container is written through `std::ofstream file(output)`, a text-mode stream | a one-word module whose word is 10, on a little-endian host that translates newlines (hypothetical for the code as written: such hosts are Windows ones, where passing `path.c_str()`, a `const wchar_t*`, as a `const char*` at src/backend/shaderc/rhi_sc.cpp:103 does not build): byte 4 of the container is a line feed, so the file gets an extra carriage return and no longer parses | the stream is opened with `std::ios::binary`, so the file is exactly the container | medium, not executed | `Container.TextModeCounterexample` | `Container.ContainerFile` |
| src/backend/shaderc/rhi_sc.cpp:127-133 | the length field is reversed through `std::as_writable_bytes(std::span(&spvSize, 1))`, a view of `spvSize` itself, and `spvSize` is then used as the payload length | a one-word module on a big-endian host: the payload length becomes 0x0400_0000 and the write reads 64 MiB from a 4-byte module; a 16 MiB module writes a single payload byte | reverse a copy of the length for the field and write the real length of payload bytes | high, not executed | `Container.BigEndianCounterexample` | `Container.ContainerFile` |
