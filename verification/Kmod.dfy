/**
 Kernel modules: the compiler's second image format and the loader that places it on pages of its own. The
 same bytes are placed at whatever address the pages have.
 */
module Kmod {
  import opened Words
  import opened Image

  const KMOD_MAGIC: u64 := 0x31444f4d4b45524f
  const KMOD_HEADER: nat := 120
  const KMOD_MAX: nat := 128 * 1024

  datatype KHeader = KHeader(
    magic: u64, version: int, headerSize: int, abi: int, flags: int, entry: u64, textSize: u64, dataSize: u64,
      bssSize: u64,
    relocs: u64, imports: u64, exports: u64, command: u64)

  predicate KOk(h: KHeader) {
    0 <= h.version < TWO32 && 0 <= h.headerSize < TWO32 && 0 <= h.abi < TWO32 && 0 <= h.flags < TWO32
  }

  function KBytes(h: KHeader, name: seq<byte>): (r: seq<byte>)
    requires |name| == 32
    ensures |r| == KMOD_HEADER
  {
    Le(h.magic, 8) + Le(h.version, 4) + Le(h.headerSize, 4) + Le(h.abi, 4) + Le(h.flags, 4) + Le(h.entry, 8)
      + Le(h.textSize, 8)
    + Le(h.dataSize, 8) + Le(h.bssSize, 8) + Le(h.relocs, 8) + Le(h.imports, 8) + Le(h.exports, 8) + Le(h.command, 8)
      + name
  }

  function KRead(b: seq<byte>): KHeader
    requires |b| >= KMOD_HEADER
  {
    KHeader(Rd64(b[..8]), Rd32(b[8..12]), Rd32(b[12..16]), Rd32(b[16..20]), Rd32(b[20..24]), Rd64(b[24..32]),
      Rd64(b[32..40]),
            Rd64(b[40..48]), Rd64(b[48..56]), Rd64(b[56..64]), Rd64(b[64..72]), Rd64(b[72..80]), Rd64(b[80..88]))
  }

  lemma KSlices(h: KHeader, name: seq<byte>, rest: seq<byte>)
    requires |name| == 32
    ensures var b := KBytes(h, name) + rest;
      && b[..8] == Le(h.magic, 8) && b[8..12] == Le(h.version, 4) && b[12..16] == Le(h.headerSize, 4)
      && b[16..20] == Le(h.abi, 4) && b[20..24] == Le(h.flags, 4) && b[24..32] == Le(h.entry, 8)
         && b[32..40] == Le(h.textSize, 8)
  {
    hide Le;
  }

  lemma KSlicesHigh(h: KHeader, name: seq<byte>, rest: seq<byte>)
    requires |name| == 32
    ensures var b := KBytes(h, name) + rest;
      && b[40..48] == Le(h.dataSize, 8) && b[48..56] == Le(h.bssSize, 8) && b[56..64] == Le(h.relocs, 8)
      && b[64..72] == Le(h.imports, 8) && b[72..80] == Le(h.exports, 8) && b[80..88] == Le(h.command, 8)
  {
    hide Le;
  }

  /** Reading a written module header gives it back, whatever follows. */
  lemma KRoundTrip(h: KHeader, name: seq<byte>, rest: seq<byte>)
    requires KOk(h) && |name| == 32
    ensures KRead(KBytes(h, name) + rest) == h
  {
    hide KBytes, Le, Rd;
    KSlices(h, name, rest);
    KSlicesHigh(h, name, rest);
    Le64RoundTrip(h.magic);
    Rd32RoundTrip(h.version);
    Rd32RoundTrip(h.headerSize);
    Rd32RoundTrip(h.abi);
    Rd32RoundTrip(h.flags);
    Le64RoundTrip(h.entry);
    Le64RoundTrip(h.textSize);
    Le64RoundTrip(h.dataSize);
    Le64RoundTrip(h.bssSize);
    Le64RoundTrip(h.relocs);
    Le64RoundTrip(h.imports);
    Le64RoundTrip(h.exports);
    Le64RoundTrip(h.command);
  }

  /** The header and layout checks of okmod_load_one, in 64-bit arithmetic. */
  predicate KAccepts(file: seq<byte>) {
    && KMOD_HEADER <= |file| <= KMOD_MAX
    && var h := KRead(file);
       && h.magic == KMOD_MAGIC && h.version == 1 && h.abi == 1 && h.headerSize >= KMOD_HEADER
       && h.relocs == 0 && h.imports == 0 && h.exports == 0
       && h.textSize != 0 && h.entry < h.textSize && U(U(h.headerSize + h.textSize) + h.dataSize) <= |file|
       && U(U(h.textSize + h.dataSize) + h.bssSize) <= KMOD_MAX
  }

  /** The sections lie inside the file and fit, without wrap-around. */
  predicate Plain(file: seq<byte>) {
    KMOD_HEADER <= |file| && var h := KRead(file);
      h.headerSize + h.textSize + h.dataSize <= |file| && h.textSize + h.dataSize + h.bssSize <= KMOD_MAX
  }

  lemma NoWrap(head: int, text: u64, data: u64, bss: u64, n: nat)
    requires 0 <= head < TWO32 && n <= KMOD_MAX && U(U(head + text) + data) <= n && U(U(text + data) + bss) <= KMOD_MAX
    ensures head + text + data <= n && text + data + bss <= KMOD_MAX <==>
      text <= KMOD_MAX && data <= KMOD_MAX && bss <= KMOD_MAX
  {
    if text <= KMOD_MAX && data <= KMOD_MAX && bss <= KMOD_MAX {
      assert U(head + text) == head + text && U(text + data) == text + data;
    }
  }

  /** The three sizes a caller can look at to know that the sums of the layout check do not wrap around. */
  predicate Modest(file: seq<byte>) {
    KMOD_HEADER <= |file| && var h := KRead(file);
      h.textSize <= KMOD_MAX && h.dataSize <= KMOD_MAX && h.bssSize <= KMOD_MAX
  }

  lemma HeadRange(file: seq<byte>)
    requires KMOD_HEADER <= |file|
    ensures 0 <= KRead(file).headerSize < TWO32
  {
  }

  /** An accepted file is laid out inside itself and its pages exactly when no size is larger than the limit. */
  lemma AcceptedPlain(file: seq<byte>)
    requires KAccepts(file)
    ensures Plain(file) <==> Modest(file)
  {
    HeadRange(file);
    hide KRead;
    var h := KRead(file);
    NoWrap(h.headerSize, h.textSize, h.dataSize, h.bssSize, |file|);
  }

  /** The first eight bytes, as text. */
  const KMOD_BYTES: seq<byte> := [0x4f, 0x52, 0x45, 0x4b, 0x4d, 0x4f, 0x44, 0x31]

  /** What a module must be, in exact arithmetic. */
  predicate KWellFormed(file: seq<byte>) {
    && 120 <= |file| <= 0x2_0000 && file[..8] == KMOD_BYTES
    && var h := KRead(file);
       && h.version == 1 && h.abi == 1 && h.headerSize >= 120 && h.relocs == 0 && h.imports == 0 && h.exports == 0
       && 1 <= h.textSize && h.entry < h.textSize && h.headerSize + h.textSize + h.dataSize <= |file|
       && h.textSize + h.dataSize + h.bssSize <= 0x2_0000
  }

  /** Among the files with modest sizes exactly the well-formed ones are accepted; every well-formed file is modest. */
  lemma KAcceptsIff(file: seq<byte>)
    ensures KWellFormed(file) <==> KAccepts(file) && Modest(file)
  {
    hide KRead, U;
    if KAccepts(file) && Modest(file) { KGood(file); }
    if KWellFormed(file) { KTaken(file); }
  }

  lemma KGood(file: seq<byte>)
    requires KAccepts(file) && Modest(file)
    ensures KWellFormed(file)
  {
    KMagic(file);
    HeadRange(file);
    hide KRead, U;
    var h := KRead(file);
    NoWrap(h.headerSize, h.textSize, h.dataSize, h.bssSize, |file|);
  }

  lemma KTaken(file: seq<byte>)
    requires KWellFormed(file)
    ensures KAccepts(file) && Modest(file)
  {
    KMagic(file);
    HeadRange(file);
    hide KRead, U;
    var h := KRead(file);
    KSums(h.headerSize, h.textSize, h.dataSize, h.bssSize);
  }

  lemma KSums(head: nat, text: nat, data: nat, bss: nat)
    requires head + text + data <= KMOD_MAX && text + data + bss <= KMOD_MAX
    ensures U(U(head + text) + data) == head + text + data && U(U(text + data) + bss) == text + data + bss
  {
  }

  lemma KMagic(file: seq<byte>)
    requires |file| >= KMOD_HEADER
    ensures KRead(file).magic == KMOD_MAGIC <==> file[..8] == KMOD_BYTES
  {
    KMagicWritten();
    hide Le, Rd;
    Le64RoundTrip(KMOD_MAGIC);
    RdInjective(file[..8], KMOD_BYTES);
  }

  lemma KMagicWritten()
    ensures Le(KMOD_MAGIC, 8) == KMOD_BYTES
  {
    hide Le;
    LeStep(0x31444f4d4b45524f, 7, 0x4f, 0x31444f4d4b4552);
    LeStep(0x31444f4d4b4552, 6, 0x52, 0x31444f4d4b45);
    LeStep(0x31444f4d4b45, 5, 0x45, 0x31444f4d4b);
    LeStep(0x31444f4d4b, 4, 0x4b, 0x31444f4d);
    LeStep(0x31444f4d, 3, 0x4d, 0x31444f);
    LeStep(0x31444f, 2, 0x4f, 0x3144);
    LeStep(0x3144, 1, 0x44, 0x31);
    LeStep(0x31, 0, 0x31, 0x0);
    LeNone(0);
  }

  /** The header of a module whose text size is close to 2^64. */
  predicate Wrapping(h: KHeader) {
    && h.magic == KMOD_MAGIC && h.version == 1 && h.headerSize == KMOD_HEADER && h.abi == 1 && h.flags == 0
       && h.entry == 0
    && h.textSize == 0xffff_ffff_ffff_f000 && h.dataSize == 8192 && h.bssSize == 0
    && h.relocs == 0 && h.imports == 0 && h.exports == 0
  }

  /** With 4096 bytes behind such a header both checks pass, although the sections do not fit the file. */
  lemma WrappedAccepted(h: KHeader, name: seq<byte>, rest: seq<byte>)
    requires Wrapping(h) && |name| == 32 && |rest| == 4096
    ensures KAccepts(KBytes(h, name) + rest) && !Plain(KBytes(h, name) + rest)
  {
    hide KBytes, KRead;
    KRoundTrip(h, name, rest);
    KSize(h, name);
    assert U(U(h.headerSize + h.textSize) + h.dataSize) == KMOD_HEADER + 4096;
    assert U(U(h.textSize + h.dataSize) + h.bssSize) == 4096;
  }

  lemma KSize(h: KHeader, name: seq<byte>)
    requires |name| == 32
    ensures |KBytes(h, name)| == KMOD_HEADER
  {
  }

  function KHeaderFor(text: seq<byte>, data: seq<byte>, entry: u64, command: u64): KHeader
    requires |text| < TWO32 && |data| < TWO32
  {
    KHeader(KMOD_MAGIC, 1, KMOD_HEADER, 1, 0, entry, AlignUp(|text|), |data|, 0, 0, 0, 0, command)
  }

  /** build_kmod_image */
  function KImageOf(text: seq<byte>, data: seq<byte>, entry: u64, command: u64, name: seq<byte>): seq<byte>
    requires |text| < TWO32 && |data| < TWO32 && |name| == 32
  {
    KBytes(KHeaderFor(text, data, entry, command), name) + Padded(text) + data
  }

  /** What the module's pages hold, from their start: text, data, then zeros. */
  function KMemory(file: seq<byte>, bytes: nat): seq<byte>
    requires Plain(file) && KRead(file).textSize + KRead(file).dataSize <= bytes
  {
    var h := KRead(file);
    file[h.headerSize..h.headerSize + h.textSize + h.dataSize] + Zeros(bytes - h.textSize - h.dataSize)
  }

  /**
   Every module the compiler builds is accepted, and at any load address its data stands right behind its padded text.
   */
  lemma KBuiltLoads(text: seq<byte>, data: seq<byte>, entry: u64, command: u64, name: seq<byte>, bytes: nat)
    requires 0 < |text| <= 0x8000 && |data| <= 0x8000 && entry < |text| && |name| == 32
      && bytes >= AlignUp(|text|) + |data|
    ensures var file := KImageOf(text, data, entry, command, name);
      && KAccepts(file) && Plain(file) && KRead(file) == KHeaderFor(text, data, entry, command)
      && KMemory(file, bytes) == Padded(text) + data + Zeros(bytes - AlignUp(|text|) - |data|)
  {
    hide KBytes, KRead, Padded;
    var h := KHeaderFor(text, data, entry, command);
    var file := KImageOf(text, data, entry, command, name);
    KSizes(|text|);
    assert |Padded(text)| == AlignUp(|text|) by { PaddedSize(text); }
    assert file == KBytes(h, name) + (Padded(text) + data);
    KRoundTrip(h, name, Padded(text) + data);
    assert file[KMOD_HEADER..] == Padded(text) + data;
    assert file[KMOD_HEADER..KMOD_HEADER + AlignUp(|text|) + |data|] == file[KMOD_HEADER..];
  }

  lemma PaddedSize(text: seq<byte>)
    ensures |Padded(text)| == AlignUp(|text|)
  {
  }

  lemma KSizes(n: nat)
    requires 0 < n <= 0x8000
    ensures n <= AlignUp(n) <= 0x8000
  {
  }

  /** Pages for the sections, as the loader computes them. */
  function PageBytes(h: KHeader): nat { AlignUp(U(U(h.textSize + h.dataSize) + h.bssSize)) }

  /**
   The placement: clear the pages, copy text, copy data, clear what follows. The source copies without looking
   at the end of the file or of the pages; inside says whether every access stayed in them, and that is
   exactly when the header's sizes are modest.
   */
  method Place(file: seq<byte>, mem: array<byte>) returns (inside: bool)
    requires KAccepts(file) && mem.Length == PageBytes(KRead(file))
    modifies mem
    ensures inside <==> Modest(file)
    ensures inside ==>
      Plain(file) && KRead(file).textSize + KRead(file).dataSize <= mem.Length && mem[..] == KMemory(file, mem.Length)
  {
    assert KMOD_HEADER <= |file|;
    HeadRange(file);
    hide KRead, KAccepts, PageBytes, KMemory;
    var h := KRead(file);
    inside := PlaceParts(file, h.headerSize, h.textSize, h.dataSize, h.bssSize, mem);
    PlaceFits(file, mem.Length);
  }

  /** The three copies and what they need, from the loader's two checks. */
  lemma PlaceFits(file: seq<byte>, bytes: nat)
    requires KAccepts(file) && bytes == PageBytes(KRead(file))
    ensures var h := KRead(file);
      Modest(file) <==> AllInside(|file|, h.headerSize, h.textSize, h.dataSize, h.bssSize, bytes)
    ensures Modest(file) ==> Plain(file) && KRead(file).textSize + KRead(file).dataSize <= bytes
    ensures Modest(file) ==>
      KMemory(file, bytes) == PartsIn(file, KRead(file).headerSize, KRead(file).textSize + KRead(file).dataSize, bytes)
  {
    AcceptedPlain(file);
    HeadRange(file);
    hide KRead;
    var h := KRead(file);
    PageRoom(h.textSize, h.dataSize, h.bssSize);
  }

  /** Whether every access of the copies stays in the file and in the pages; a copy of nothing makes none. */
  predicate AllInside(size: nat, head: nat, text: nat, data: nat, bss: nat, bytes: nat) {
    && (text == 0 || (head + text <= size && text <= bytes))
    && (data == 0 || (head + text + data <= size && text + data <= bytes))
    && (bss == 0 || text + data + bss <= bytes)
  }

  function PartsIn(file: seq<byte>, head: nat, n: nat, bytes: nat): seq<byte>
    requires head + n <= |file| && n <= bytes
  {
    file[head..head + n] + Zeros(bytes - n)
  }

  method PlaceParts(file: seq<byte>, head: nat, text: nat, data: nat, bss: nat, mem: array<byte>) returns (inside: bool)
    modifies mem
    ensures inside <==> AllInside(|file|, head, text, data, bss, mem.Length)
    ensures inside && head + text + data <= |file| && text + data <= mem.Length ==>
              mem[..] == PartsIn(file, head, text + data, mem.Length)
  {
    inside := Clear(mem, 0, mem.Length);
    inside := CopyIn(file, head, mem, 0, text);
    if !inside { return; }
    inside := CopyIn(file, head + text, mem, text, data);
    if !inside { return; }
    inside := Clear(mem, text + data, bss);
  }

  /** mem_copy_okmod */
  method CopyIn(file: seq<byte>, from: nat, mem: array<byte>, at: nat, n: nat) returns (inside: bool)
    modifies mem
    ensures inside <==> n == 0 || (from + n <= |file| && at + n <= mem.Length)
    ensures inside ==> forall k :: 0 <= k < mem.Length ==>
      mem[k] == if at <= k < at + n then file[from + k - at] else old(mem[k])
  {
    inside := true;
    for i := 0 to n
      invariant inside <==> i == 0 || (from + i <= |file| && at + i <= mem.Length)
      invariant inside ==> forall k :: 0 <= k < mem.Length ==>
        mem[k] == if at <= k < at + i then file[from + k - at] else old(mem[k])
    {
      if from + i < |file| && at + i < mem.Length {
        mem[at + i] := file[from + i];
      } else {
        inside := false;
      }
    }
  }

  /** mem_zero_okmod behind the sections. */
  method Clear(mem: array<byte>, at: nat, n: nat) returns (inside: bool)
    modifies mem
    ensures inside <==> n == 0 || at + n <= mem.Length
    ensures inside ==> forall k :: 0 <= k < mem.Length ==> mem[k] == if at <= k < at + n then 0 else old(mem[k])
  {
    inside := true;
    for i := 0 to n
      invariant inside <==> i == 0 || at + i <= mem.Length
      invariant inside ==> forall k :: 0 <= k < mem.Length ==> mem[k] == if at <= k < at + i then 0 else old(mem[k])
    {
      if at + i < mem.Length {
        mem[at + i] := 0;
      } else {
        inside := false;
      }
    }
  }

  lemma PageRoom(text: u64, data: u64, bss: u64)
    requires U(U(text + data) + bss) <= KMOD_MAX
    ensures AlignUp(U(U(text + data) + bss)) <= KMOD_MAX
    ensures text + data + bss <= KMOD_MAX ==> text + data + bss <= AlignUp(U(U(text + data) + bss))
  {
    if text + data + bss <= KMOD_MAX {
      assert U(text + data) == text + data && U(text + data + bss) == text + data + bss;
    }
  }
}
