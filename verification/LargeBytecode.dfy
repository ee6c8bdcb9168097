/** `generateLargeBytecode`: creation code for a contract of a given size, and what running it
    deploys. */
module LargeBytecode {
  import opened Common
  import opened MiniEvm

  function ZeroBytes(n: nat): (z: seq<byte>)
    ensures |z| == n
  {
    seq<byte>(n, _ => 0)
  }

  function Bytes1(x: nat): seq<byte> {
    [x % 256]
  }

  function Bytes2(x: nat): seq<byte> {
    [x / 256 % 256, x % 256]
  }

  function Bytes3(x: nat): seq<byte> {
    [x / 256 / 256 % 256, x / 256 % 256, x % 256]
  }

  /** PUSH opcode, encoded size and declared creation length, chosen by the magnitude of the size. */
  datatype SizeEncoding = SizeEncoding(pushOp: byte, sizeBytes: seq<byte>, creationLen: byte)

  function EncodeSize(targetSize: nat): SizeEncoding {
    if targetSize <= 0xff then SizeEncoding(0x60, Bytes1(targetSize), 11)
    else if targetSize <= 0xffff then SizeEncoding(0x61, Bytes2(targetSize), 12)
    else SizeEncoding(0x62, Bytes3(targetSize), 13)
  }

  /** PUSH size, DUP1, PUSH1 creationLen, PUSH1 0, CODECOPY, PUSH size, PUSH1 0, RETURN. */
  function CreationCode(e: SizeEncoding): seq<byte> {
    [e.pushOp] + e.sizeBytes + [0x80, 0x60, e.creationLen, 0x60, 0x00, 0x39]
    + [e.pushOp] + e.sizeBytes + [0x60, 0x00, 0xf3]
  }

  /** None: writing the first runtime byte of an empty runtime panics. */
  function GenerateLargeBytecode(targetSize: nat): Option<seq<byte>> {
    var runtime := ZeroBytes(targetSize);
    if targetSize == 0 then None
    else Some(CreationCode(EncodeSize(targetSize)) + runtime[0 := 0])
  }

  // ---------------------------------------------------------------- running the creation code

  lemma RunStep(code: seq<byte>, m: Machine, m': Machine, fuel: nat)
    requires fuel >= 1 && Step(code, m) == Next(m')
    ensures Run(code, m, fuel) == Run(code, m', fuel - 1)
  {
  }

  lemma WindowIsSlice(bytes: seq<byte>, from: nat, size: nat)
    requires from + size <= |bytes|
    ensures Window(bytes, from, size) == bytes[from..from + size]
  {
    forall k | 0 <= k < size ensures Window(bytes, from, size)[k] == bytes[from..from + size][k] {
      assert ByteAt(bytes, from + k) == bytes[from + k];
    }
  }

  lemma PushDispatches(code: seq<byte>, m: Machine, op: byte)
    requires m.pc < |code| && code[m.pc] == op && PUSH1 <= op <= PUSH32
    ensures Step(code, m) == StepPush(code, m, op - PUSH1 + 1)
  {
    hide StepPush, StepDup, StepCodeCopy, StepReturn;
  }

  lemma PushesWindow(code: seq<byte>, m: Machine, op: byte, bytes: seq<byte>)
    requires 1 <= |bytes| <= 32 && op == PUSH1 + |bytes| - 1
    requires m.pc + 1 + |bytes| <= |code| && code[m.pc] == op && code[m.pc + 1..m.pc + 1 + |bytes|] == bytes
    ensures Step(code, m) == Next(Machine(m.pc + 1 + |bytes|, [BigEndian(bytes)] + m.stack, m.memory))
  {
    PushDispatches(code, m, op);
    hide BigEndian, Window, Step;
    WindowIsSlice(code, m.pc + 1, |bytes|);
    assert op - PUSH1 + 1 == |bytes|;
  }

  lemma PushesByte(code: seq<byte>, m: Machine, value: byte)
    requires m.pc + 2 <= |code| && code[m.pc] == PUSH1 && code[m.pc + 1] == value
    ensures Step(code, m) == Next(Machine(m.pc + 2, [value as nat] + m.stack, m.memory))
  {
    assert code[m.pc + 1..m.pc + 2] == [value];
    assert BigEndian([value]) == value by {
      assert [value][..0] == [];
    }
    PushesWindow(code, m, PUSH1, [value]);
  }

  ghost predicate WellEncoded(e: SizeEncoding) {
    1 <= |e.sizeBytes| <= 32 && e.pushOp == PUSH1 + |e.sizeBytes| - 1
  }

  /** The bytes of a code that starts with creation code, by position. */
  lemma CreationCodeLayout(e: SizeEncoding, rest: seq<byte>)
    requires WellEncoded(e)
    ensures var code, n := CreationCode(e) + rest, |e.sizeBytes|;
            && |code| == 11 + 2 * n + |rest|
            && code[0] == e.pushOp && code[1..1 + n] == e.sizeBytes
            && code[1 + n] == DUP1
            && code[2 + n] == PUSH1 && code[3 + n] == e.creationLen
            && code[4 + n] == PUSH1 && code[5 + n] == 0
            && code[6 + n] == CODECOPY
            && code[7 + n] == e.pushOp && code[8 + n..8 + 2 * n] == e.sizeBytes
            && code[8 + 2 * n] == PUSH1 && code[9 + 2 * n] == 0
            && code[10 + 2 * n] == RETURN
  {
  }

  /** The first half of creation code: its size on the stack, the code window in memory. */
  lemma CreationCodeCopiesWindow(e: SizeEncoding, rest: seq<byte>)
    requires WellEncoded(e)
    ensures var code, n, size := CreationCode(e) + rest, |e.sizeBytes|, BigEndian(e.sizeBytes);
            Run(code, INITIAL, 8) == Run(code, Machine(7 + n, [size], Window(code, e.creationLen, size)), 3)
  {
    CreationCodeLayout(e, rest);
    hide CreationCode, BigEndian, Run, Step, Window;
    var code, n, size := CreationCode(e) + rest, |e.sizeBytes|, BigEndian(e.sizeBytes);
    var image := Window(code, e.creationLen, size);
    var m1 := Machine(1 + n, [size], []);
    var m2 := Machine(2 + n, [size, size], []);
    var m3 := Machine(4 + n, [e.creationLen as nat, size, size], []);
    var m4 := Machine(6 + n, [0, e.creationLen as nat, size, size], []);
    PushesWindow(code, INITIAL, e.pushOp, e.sizeBytes);
    Duplicates(code, m1);
    PushesByte(code, m2, e.creationLen);
    PushesByte(code, m3, 0);
    RunStep(code, INITIAL, m1, 8);
    RunStep(code, m1, m2, 7);
    RunStep(code, m2, m3, 6);
    RunStep(code, m3, m4, 5);
    CopiesToEmptyMemory(code, m4);
    RunStep(code, m4, Machine(7 + n, [size], image), 4);
  }

  lemma CopiesToEmptyMemory(code: seq<byte>, m: Machine)
    requires m.pc < |code| && code[m.pc] == CODECOPY && |m.stack| >= 3 && m.stack[0] == 0 && m.memory == []
    ensures Step(code, m) == Next(Machine(m.pc + 1, m.stack[3..], Window(code, m.stack[1], m.stack[2])))
  {
    var image := Window(code, m.stack[1], m.stack[2]);
    assert Written([], 0, image) == image;
  }

  lemma Duplicates(code: seq<byte>, m: Machine)
    requires m.pc < |code| && code[m.pc] == DUP1 && m.stack != []
    ensures Step(code, m) == Next(Machine(m.pc + 1, [m.stack[0]] + m.stack, m.memory))
  {
  }

  lemma ReturnsMemory(code: seq<byte>, m: Machine)
    requires m.pc < |code| && code[m.pc] == RETURN && |m.stack| >= 2 && m.stack[0] == 0 && m.stack[1] == |m.memory|
    ensures Step(code, m) == Halted(Returned(m.memory))
  {
    WindowIsSlice(m.memory, 0, |m.memory|);
    assert m.memory[0..0 + |m.memory|] == m.memory;
  }

  /** Running creation code returns the code window that starts at the declared creation length. */
  lemma CreationCodeReturnsWindow(e: SizeEncoding, rest: seq<byte>)
    requires WellEncoded(e)
    ensures var code := CreationCode(e) + rest;
            Run(code, INITIAL, 8) == Some(Returned(Window(code, e.creationLen, BigEndian(e.sizeBytes))))
  {
    CreationCodeCopiesWindow(e, rest);
    hide CreationCode, BigEndian, Run, Window;
    CreationCodeReturnsCopy(e, rest, Window(CreationCode(e) + rest, e.creationLen, BigEndian(e.sizeBytes)));
  }

  /** The second half: it returns what the first half has put into memory. */
  lemma CreationCodeReturnsCopy(e: SizeEncoding, rest: seq<byte>, image: seq<byte>)
    requires WellEncoded(e) && |image| == BigEndian(e.sizeBytes)
    ensures Run(CreationCode(e) + rest, Machine(7 + |e.sizeBytes|, [BigEndian(e.sizeBytes)], image), 3) == Some(Returned(image))
  {
    CreationCodeLayout(e, rest);
    hide CreationCode, BigEndian, Run, Step, Window;
    var code, n, size := CreationCode(e) + rest, |e.sizeBytes|, BigEndian(e.sizeBytes);
    var m5 := Machine(7 + n, [size], image);
    var m6 := Machine(8 + 2 * n, [size, size], image);
    var m7 := Machine(10 + 2 * n, [0, size, size], image);
    PushesWindow(code, m5, e.pushOp, e.sizeBytes);
    PushesByte(code, m6, 0);
    RunStep(code, m5, m6, 3);
    RunStep(code, m6, m7, 2);
    ReturnsMemory(code, m7);
    RunHalts(code, m7, Returned(image), 1);
  }

  lemma RunHalts(code: seq<byte>, m: Machine, halt: Halt, fuel: nat)
    requires fuel >= 1 && Step(code, m) == Halted(halt)
    ensures Run(code, m, fuel) == Some(halt)
  {
  }

  /** The size that survives the encoding: uint24 drops everything above 24 bits. */
  function EncodedSize(targetSize: nat): nat {
    if targetSize <= 0xffff then targetSize else targetSize % 0x100_0000
  }

  lemma BigEndianAppends(bytes: seq<byte>, last: byte)
    ensures BigEndian(bytes + [last]) == 256 * BigEndian(bytes) + last
  {
    assert (bytes + [last])[..|bytes|] == bytes;
  }

  lemma BigEndianOfTwo(hi: byte, lo: byte)
    ensures BigEndian([hi, lo]) == 256 * hi + lo
  {
    BigEndianAppends([], hi);
    BigEndianAppends([hi], lo);
    assert [] + [hi] == [hi] && [hi] + [lo] == [hi, lo];
  }

  lemma BigEndianOfThree(hi: byte, mid: byte, lo: byte)
    ensures BigEndian([hi, mid, lo]) == 256 * (256 * hi + mid) + lo
  {
    BigEndianOfTwo(hi, mid);
    BigEndianAppends([hi, mid], lo);
    assert [hi, mid] + [lo] == [hi, mid, lo];
  }

  lemma Remainder24(x: nat, w: nat, r: nat)
    requires x == 0x100_0000 * w + r && r < 0x100_0000
    ensures x % 0x100_0000 == r
  {
  }

  lemma Bytes3Value(x: nat)
    ensures BigEndian(Bytes3(x)) == x % 0x100_0000
  {
    var y := x / 256;
    var z := y / 256;
    var hi, mid, lo := z % 256, y % 256, x % 256;
    BigEndianOfThree(hi, mid, lo);
    hide BigEndian;
    assert z == 256 * (z / 256) + hi;
    assert y == 256 * z + mid;
    assert x == 256 * y + lo;
    Remainder24(x, z / 256, 256 * (256 * hi + mid) + lo);
  }

  lemma Bytes2Value(x: nat)
    requires x <= 0xffff
    ensures BigEndian(Bytes2(x)) == x
  {
    BigEndianOfTwo(x / 256 % 256, x % 256);
    hide BigEndian;
    assert x / 256 % 256 == x / 256;
  }

  lemma Bytes1Value(x: nat)
    requires x <= 0xff
    ensures BigEndian(Bytes1(x)) == x
  {
    BigEndianAppends([], x);
    hide BigEndian;
    assert [] + [x] == Bytes1(x);
  }

  lemma EncodingIsBigEndian(targetSize: nat)
    ensures WellEncoded(EncodeSize(targetSize))
    ensures BigEndian(EncodeSize(targetSize).sizeBytes) == EncodedSize(targetSize)
  {
    Bytes3Value(targetSize);
    if targetSize <= 0xff {
      Bytes1Value(targetSize);
    } else if targetSize <= 0xffff {
      Bytes2Value(targetSize);
    }
    hide BigEndian;
  }

  // ---------------------------------------------------------------- what gets deployed

  /** The header length that the creation code really has. */
  function HeaderEnd(targetSize: nat): nat {
    11 + 2 * |EncodeSize(targetSize).sizeBytes|
  }

  /** The bytes at the start of the image: the tail of the header that lies behind the declared
      creation length. */
  function HeaderTail(targetSize: nat): seq<byte> {
    if targetSize <= 0xff then [0x00, 0xf3]
    else if targetSize <= 0xffff then [0x60, 0x00, 0xf3]
    else [targetSize % 256, 0x60, 0x00, 0xf3]
  }

  lemma HeaderTailIsCreationCode(targetSize: nat)
    ensures var e := EncodeSize(targetSize);
            && e.creationLen + |HeaderTail(targetSize)| == HeaderEnd(targetSize) == |CreationCode(e)|
            && CreationCode(e)[e.creationLen..] == HeaderTail(targetSize)
  {
  }

  lemma WindowBehindHeader(code: seq<byte>, header: seq<byte>, zeros: seq<byte>, from: nat, size: nat)
    requires code == header + zeros && from <= |header| && from + size <= |code|
    requires forall k :: 0 <= k < |zeros| ==> zeros[k] == 0
    ensures forall k :: 0 <= k < size ==>
      Window(code, from, size)[k] == if k < |header| - from then header[from..][k] else 0
  {
    WindowIsSlice(code, from, size);
  }

  lemma GeneratedCode(targetSize: nat) returns (header: seq<byte>, zeros: seq<byte>)
    requires targetSize >= 1
    ensures GenerateLargeBytecode(targetSize) == Some(header + zeros)
    ensures header == CreationCode(EncodeSize(targetSize))
    ensures |zeros| == targetSize && forall k :: 0 <= k < |zeros| ==> zeros[k] == 0
  {
    header, zeros := CreationCode(EncodeSize(targetSize)), ZeroBytes(targetSize)[0 := 0];
  }

  /** Deployment: for every target size, running the generated code halts with RETURN of exactly the
      encoded size, without reading past the code; the image starts with the 2, 3 or 4 header bytes
      behind the declared creation length, and every byte after them is zero. */
  lemma DeployedImage(targetSize: nat) returns (image: seq<byte>)
    requires targetSize >= 1
    ensures GenerateLargeBytecode(targetSize).Some?
    ensures Run(GenerateLargeBytecode(targetSize).value, INITIAL, 8) == Some(Returned(image))
    ensures EncodeSize(targetSize).creationLen + EncodedSize(targetSize) <= |GenerateLargeBytecode(targetSize).value|
    ensures |image| == EncodedSize(targetSize)
    ensures forall k :: 0 <= k < |image| ==>
      image[k] == if k < |HeaderTail(targetSize)| then HeaderTail(targetSize)[k] else 0
  {
    hide GenerateLargeBytecode, CreationCode, HeaderTail, EncodeSize, Run, BigEndian, Window;
    var e, size := EncodeSize(targetSize), EncodedSize(targetSize);
    var header, zeros := GeneratedCode(targetSize);
    EncodingIsBigEndian(targetSize);
    CreationCodeReturnsWindow(e, zeros);
    HeaderTailIsCreationCode(targetSize);
    image := Window(header + zeros, e.creationLen, size);
    WindowBehindHeader(header + zeros, header, zeros, e.creationLen, size);
  }

  /** Only the empty runtime has no creation code. */
  lemma NoCodeForEmptyRuntime(targetSize: nat)
    ensures GenerateLargeBytecode(targetSize).None? <==> targetSize == 0
  {
  }

  /** The deployed size is the target size exactly below 2^24; above, uint24 truncates it. */
  lemma SizeIsExactIff(targetSize: nat)
    ensures EncodedSize(targetSize) == targetSize <==> targetSize < 0x100_0000
  {
  }

  ghost predicate Deploys(targetSize: nat, image: seq<byte>) {
    GenerateLargeBytecode(targetSize).Some?
    && Run(GenerateLargeBytecode(targetSize).value, INITIAL, 8) == Some(Returned(image))
  }

  /** The runtime is meant to begin with STOP. It does exactly for sizes of at most 255 and for
      three-byte sizes divisible by 256; otherwise the image begins with a header byte. */
  lemma BeginsWithStopIff(targetSize: nat, image: seq<byte>)
    requires Deploys(targetSize, image) && image != []
    ensures image[0] == STOP <==> targetSize <= 0xff || (targetSize > 0xffff && targetSize % 256 == 0)
  {
    var deployed := DeployedImage(targetSize);
  }

  /** For every two-byte size the deployed code pushes one word and returns: calling it underflows
      the stack instead of stopping. */
  lemma TwoByteSizesUnderflow(targetSize: nat, image: seq<byte>)
    requires 0xff < targetSize <= 0xffff && Deploys(targetSize, image)
    ensures Run(image, INITIAL, 2) == Some(StackUnderflow)
  {
    var deployed := DeployedImage(targetSize);
    PushesByte(image, INITIAL, 0);
    RunStep(image, INITIAL, Machine(2, [0], []), 2);
    RunHalts(image, Machine(2, [0], []), StackUnderflow, 1);
  }
}
