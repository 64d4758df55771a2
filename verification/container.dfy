/** The byte layouts the shaderc backend produces from a compiled module.

    A module is a sequence of 32-bit SPIR-V words. The backend copies the
    words out of memory as they lie there, so the bytecode bytes are in the
    host's byte order. The container written by `CompileToFile` is

      offset 0     : uint32, little-endian = N (byte length of the bytecode)
      offset 4     : N bytes               = the bytecode
      offset 4 + N : 16 bytes, all zero    = reserved trailer

    and the raw buffer of `CompileToBuffer` is the N bytecode bytes alone.
    On a little-endian host `CompileToFile` writes exactly this container.
    On a big-endian host the byte reversal of the length field is done in
    place on the length variable itself, so the payload write that follows
    uses the byte-swapped length; `ContainerFileAsWritten` models that write
    and `ContainerFile` the intended one. */
module Container {
  import opened RhiSc
  import opened Wrappers

  /** The byte order of the machine the compiler runs on. */
  datatype Endian = Little | Big

  /** Size of the all-zero trailer, four zero uint32 words. */
  const TrailerSize: nat := 16

  const Trailer: seq<byte> := [0, 0, 0, 0, 0, 0, 0, 0, 0, 0, 0, 0, 0, 0, 0, 0]

  function Pow256(k: nat): (r: nat)
    ensures r > 0
  {
    if k == 0 then 1 else 256 * Pow256(k - 1)
  }

  /** The low `k` bytes of `n`, least significant first. */
  function LEBytes(n: nat, k: nat): (r: seq<byte>)
    ensures |r| == k
  {
    if k == 0 then [] else [(n % 256) as byte] + LEBytes(n / 256, k - 1)
  }

  /** The low `k` bytes of `n`, most significant first. */
  function BEBytes(n: nat, k: nat): (r: seq<byte>)
    ensures |r| == k
  {
    if k == 0 then [] else BEBytes(n / 256, k - 1) + [(n % 256) as byte]
  }

  /** The number whose little-endian bytes are `b`. */
  function FromLE(b: seq<byte>): nat {
    if |b| == 0 then 0 else b[0] as nat + 256 * FromLE(b[1..])
  }

  function Reverse<T>(s: seq<T>): (r: seq<T>)
    ensures |r| == |s|
    ensures forall i :: 0 <= i < |s| ==> r[i] == s[|s| - 1 - i]
  {
    if s == [] then [] else Reverse(s[1..]) + [s[0]]
  }

  lemma {:induction false} FromLEBound(b: seq<byte>)
    ensures FromLE(b) < Pow256(|b|)
  {
    if |b| > 0 {
      FromLEBound(b[1..]);
    }
  }

  /** Reading back `k` little-endian bytes recovers any number that fits in them. */
  lemma {:induction false} FromLEOfLEBytes(n: nat, k: nat)
    requires n < Pow256(k)
    ensures FromLE(LEBytes(n, k)) == n
  {
    if k > 0 {
      FromLEOfLEBytes(n / 256, k - 1);
      assert LEBytes(n, k)[1..] == LEBytes(n / 256, k - 1);
    }
  }

  /** Every sequence of bytes is the little-endian encoding of the number it denotes. */
  lemma {:induction false} LEBytesOfFromLE(b: seq<byte>)
    ensures LEBytes(FromLE(b), |b|) == b
  {
    if |b| > 0 {
      LEBytesOfFromLE(b[1..]);
      assert FromLE(b) % 256 == b[0] as nat;
      assert FromLE(b) / 256 == FromLE(b[1..]);
    }
  }

  /** Big-endian bytes are little-endian bytes read backwards. */
  lemma {:induction false} ReverseBEBytes(n: nat, k: nat)
    ensures Reverse(BEBytes(n, k)) == LEBytes(n, k)
  {
    if k > 0 {
      ReverseBEBytes(n / 256, k - 1);
      var be := BEBytes(n, k);
      assert be == BEBytes(n / 256, k - 1) + [(n % 256) as byte];
      assert Reverse(be) == [(n % 256) as byte] + Reverse(BEBytes(n / 256, k - 1));
    }
  }

  /** How a uint32 lies in the host's memory. */
  function HostBytes(n: u32, host: Endian): (r: seq<byte>)
    ensures |r| == 4
  {
    match host
    case Little => LEBytes(n as nat, 4)
    case Big => BEBytes(n as nat, 4)
  }

  /** The length field as `CompileToFile` writes it: the host bytes of the
      value, reversed when the host is not little-endian. Whatever the host,
      the field is little-endian and reads back as `n`. */
  function SizeField(n: u32, host: Endian): (r: seq<byte>)
    ensures r == LEBytes(n as nat, 4)
    ensures FromLE(r) == n as nat
  {
    FromLEOfLEBytes(n as nat, 4);
    if host != Little then
      ReverseBEBytes(n as nat, 4);
      Reverse(HostBytes(n, host))
    else
      HostBytes(n, host)
  }

  /** The bytes of a word sequence as it lies in host memory. */
  function WordBytes(words: seq<u32>, host: Endian): (r: seq<byte>)
    ensures |r| == 4 * |words|
  {
    if words == [] then [] else HostBytes(words[0], host) + WordBytes(words[1..], host)
  }

  /** `spvSize`: the byte length of the module, computed as words times four
      and stored in a `uint32_t`, so it wraps modulo 2^32. */
  function SpvSize(words: seq<u32>): (r: u32)
    ensures 4 * |words| < 0x1_0000_0000 ==> r as nat == 4 * |words|
    ensures r as nat <= 4 * |words|
  {
    ((4 * |words|) % 0x1_0000_0000) as u32
  }

  /** The bytecode bytes copied out of the module: the first `spvSize` bytes
      of its memory image. For any module under 4 GiB that is all of it. */
  function Bytecode(words: seq<u32>, host: Endian): (r: seq<byte>)
    ensures |r| == SpvSize(words) as nat
    ensures 4 * |words| < 0x1_0000_0000 ==> r == WordBytes(words, host)
  {
    WordBytes(words, host)[..SpvSize(words)]
  }

  /** The container layout of a payload: little-endian length, payload, zero trailer. */
  function Frame(payload: seq<byte>): (r: seq<byte>)
    requires |payload| < 0x1_0000_0000
    ensures |r| == |payload| + 4 + TrailerSize
  {
    LEBytes(|payload|, 4) + payload + Trailer
  }

  /** Reads a container back: the payload, or None when the bytes are not a
      well-formed container (too short, length field disagreeing with the size,
      or a non-zero trailer). */
  function Parse(c: seq<byte>): (r: Option<seq<byte>>)
    ensures r.Some? ==> |c| == |r.value| + 4 + TrailerSize
  {
    if |c| < 4 + TrailerSize then Option.None
    else
      var n := FromLE(c[..4]);
      if |c| != n + 4 + TrailerSize then Option.None
      else if c[n + 4..] != Trailer then Option.None
      else Some(c[4..n + 4])
  }

  /** Parsing a framed payload gives the payload back. */
  lemma ParseFrame(payload: seq<byte>)
    requires |payload| < 0x1_0000_0000
    ensures Parse(Frame(payload)) == Some(payload)
  {
    var c := Frame(payload);
    assert c[..4] == LEBytes(|payload|, 4);
    assert Pow256(4) == 0x1_0000_0000;
    FromLEOfLEBytes(|payload|, 4);
    assert c[|payload| + 4..] == Trailer;
    assert c[4..|payload| + 4] == payload;
  }

  /** A container that parses is exactly the frame of what it parses to:
      the layout has no other valid byte sequences. */
  lemma FrameParse(c: seq<byte>, payload: seq<byte>)
    requires Parse(c) == Some(payload)
    ensures |payload| < 0x1_0000_0000
    ensures Frame(payload) == c
  {
    var n := FromLE(c[..4]);
    FromLEBound(c[..4]);
    assert Pow256(4) == 0x1_0000_0000;
    LEBytesOfFromLE(c[..4]);
    assert c == c[..4] + c[4..n + 4] + c[n + 4..];
  }

  /** The intended file for a module: the length field after the host-order
      fix-up, the `spvSize` bytecode bytes, four zero words. It is the
      container of the bytecode, so it reads back as exactly the bytecode,
      and it is 20 bytes longer than the bytecode. On a little-endian host
      it is what the source writes (`ContainerFileAsWritten`). */
  function ContainerFile(words: seq<u32>, host: Endian): (r: seq<byte>)
    ensures r == Frame(Bytecode(words, host))
    ensures |r| == SpvSize(words) as nat + 20
    ensures Parse(r) == Some(Bytecode(words, host))
  {
    var spvSize := SpvSize(words);
    var out := SizeField(spvSize, host) + Bytecode(words, host) + Trailer;
    ParseFrame(Bytecode(words, host));
    out
  }

  lemma ReverseReverse<T>(s: seq<T>)
    ensures Reverse(Reverse(s)) == s
  {
  }

  /** The value of a uint32 whose four bytes have been reversed in place. */
  function ByteSwap(n: u32): (r: u32)
    ensures LEBytes(r as nat, 4) == Reverse(LEBytes(n as nat, 4))
  {
    var b := Reverse(LEBytes(n as nat, 4));
    FromLEBound(b);
    assert Pow256(4) == 0x1_0000_0000;
    LEBytesOfFromLE(b);
    FromLE(b) as u32
  }

  /** The length `CompileToFile` passes to the payload write. The reversal
      goes through a byte view of the length variable itself, so on a
      big-endian host the variable afterwards holds the byte-swapped value. */
  function WrittenLength(n: u32, host: Endian): u32 {
    if host == Little then n else ByteSwap(n)
  }

  /** On a big-endian host the written length is the big-endian reading of
      the bytes the length field holds after the reversal. */
  lemma WrittenLengthReadsSizeField(n: u32)
    ensures BEBytes(WrittenLength(n, Big) as nat, 4) == SizeField(n, Big)
  {
    var r := WrittenLength(n, Big);
    ReverseBEBytes(r as nat, 4);
    ReverseReverse(BEBytes(r as nat, 4));
    ReverseReverse(LEBytes(n as nat, 4));
  }

  /** The bytes `CompileToFile` writes as the source is written: the length
      field, `WrittenLength` bytes of the module's memory image, four zero
      words. None when that length runs past the end of the module, where
      the write reads memory it does not own. */
  function ContainerFileAsWritten(words: seq<u32>, host: Endian): (r: Option<seq<byte>>)
    ensures r.None? <==> WrittenLength(SpvSize(words), host) as nat > 4 * |words|
    ensures r.Some? ==> |r.value| == WrittenLength(SpvSize(words), host) as nat + 20
    ensures host == Little ==> r == Some(ContainerFile(words, host))
  {
    var n := SpvSize(words);
    var m := WrittenLength(n, host);
    if m as nat > 4 * |words| then Option.None
    else Some(SizeField(n, host) + WordBytes(words, host)[..m] + Trailer)
  }

  /** The as-written file is the intended container exactly when the written
      length is the real one; otherwise, when it is written at all, it does
      not read back as the bytecode. */
  lemma AsWrittenIsContainerIff(words: seq<u32>, host: Endian)
    ensures ContainerFileAsWritten(words, host) == Some(ContainerFile(words, host))
      <==> WrittenLength(SpvSize(words), host) == SpvSize(words)
    ensures var r := ContainerFileAsWritten(words, host);
      r.Some? && WrittenLength(SpvSize(words), host) != SpvSize(words) ==>
        Parse(r.value) != Some(Bytecode(words, host))
  {
  }

  /** A one-word module on a big-endian host: the length 4 is swapped to
      0x0400_0000, and the payload write reads 64 MiB from a 4-byte module. */
  lemma {:induction false} BigEndianCounterexample()
    ensures WrittenLength(SpvSize([0]), Big) == 0x0400_0000
    ensures ContainerFileAsWritten([0], Big).None?
  {
    assert SpvSize([0]) == 4;
    assert LEBytes(4, 4) == [4, 0, 0, 0];
    assert Reverse([4 as byte, 0, 0, 0]) == [0, 0, 0, 4];
    assert FromLE([0 as byte, 0, 0, 4]) == 0x0400_0000;
  }

  /** A 16 MiB module on a big-endian host: the length 0x0100_0000 is
      swapped to 1, so the file holds one payload byte and does not read
      back as the bytecode. */
  lemma {:induction false} BigEndianTruncates(words: seq<u32>)
    requires |words| == 0x40_0000
    ensures WrittenLength(SpvSize(words), Big) == 1
    ensures ContainerFileAsWritten(words, Big).Some?
    ensures |ContainerFileAsWritten(words, Big).value| == 21
    ensures Parse(ContainerFileAsWritten(words, Big).value) != Some(Bytecode(words, Big))
  {
    assert SpvSize(words) == 0x0100_0000;
    assert LEBytes(0x0100_0000, 4) == [0, 0, 0, 1];
    assert Reverse([0 as byte, 0, 0, 1]) == [1, 0, 0, 0];
    assert FromLE([1 as byte, 0, 0, 0]) == 1;
    AsWrittenIsContainerIff(words, Big);
  }

  /** What a text-mode output stream writes for `b` on a host that
      translates newlines: every line feed becomes carriage return, line
      feed. The output stream of `CompileToFile` is opened in text mode. */
  function TextModeWrite(b: seq<byte>): (r: seq<byte>)
    ensures |r| >= |b|
    ensures 0x0A in b ==> |r| > |b|
    ensures r == b <==> 0x0A !in b
  {
    if b == [] then []
    else if b[0] == 0x0A then [0x0D, 0x0A] + TextModeWrite(b[1..])
    else [b[0]] + TextModeWrite(b[1..])
  }

  /** Written through such a stream, a container holding a line-feed byte
      anywhere (in the length field or in the payload) comes out longer than
      the container, so it no longer reads back as the same payload. */
  lemma TextModeCorruptsContainer(c: seq<byte>)
    requires 0x0A in c
    ensures |TextModeWrite(c)| > |c|
    ensures Parse(c).Some? ==> Parse(TextModeWrite(c)) != Parse(c)
  {
  }

  /** A one-word module whose word is 10 is such a module on a little-endian
      host: its first bytecode byte is a line feed. */
  lemma {:induction false} TextModeCounterexample()
    ensures 0x0A in ContainerFile([10], Little)
    ensures Parse(TextModeWrite(ContainerFile([10], Little))) != Some(Bytecode([10], Little))
  {
    assert LEBytes(10, 4)[0] == 0x0A;
    assert WordBytes([10], Little)[0] == 0x0A;
    assert ContainerFile([10], Little)[4] == 0x0A;
    TextModeCorruptsContainer(ContainerFile([10], Little));
  }
}
