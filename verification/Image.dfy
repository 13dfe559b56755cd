/** The OreImage file format: header, page-padded text, data. */
module Image {
  import opened Words

  const IMAGE_MAGIC: u64 := 0x31474d4945524f
  const IMAGE_VERSION := 1
  const HEADER_SIZE: nat := 56
  const PAGE: nat := 4096

  datatype Header = Header(
    magic: u64, version: int, headerSize: int, entry: u64, textSize: u64, dataSize: u64, bssSize: u64, relocCount: u64)

  predicate HeaderOk(h: Header) { 0 <= h.version < TWO32 && 0 <= h.headerSize < TWO32 }

  function HeaderBytes(h: Header): (r: seq<byte>)
    ensures |r| == HEADER_SIZE
  {
    Le(h.magic, 8) + Le(h.version, 4) + Le(h.headerSize, 4) + Le(h.entry, 8)
    + Le(h.textSize, 8) + Le(h.dataSize, 8) + Le(h.bssSize, 8) + Le(h.relocCount, 8)
  }

  function ReadHeader(b: seq<byte>): Header
    requires |b| >= HEADER_SIZE
  {
    Header(Rd64(b[..8]), Rd32(b[8..12]), Rd32(b[12..16]), Rd64(b[16..24]),
           Rd64(b[24..32]), Rd64(b[32..40]), Rd64(b[40..48]), Rd64(b[48..56]))
  }

  lemma Rd32RoundTrip(v: int)
    requires 0 <= v < TWO32
    ensures Rd32(Le(v, 4)) == v
  {
    LeRoundTrip(v, 4);
    Pow256Values();
  }

  lemma HeaderSlices(h: Header, rest: seq<byte>)
    ensures var b := HeaderBytes(h) + rest;
            && b[..8] == Le(h.magic, 8) && b[8..12] == Le(h.version, 4) && b[12..16] == Le(h.headerSize, 4)
            && b[16..24] == Le(h.entry, 8) && b[24..32] == Le(h.textSize, 8) && b[32..40] == Le(h.dataSize, 8)
            && b[40..48] == Le(h.bssSize, 8) && b[48..56] == Le(h.relocCount, 8)
  {
    hide Le;
  }

  /** Reading a written header gives it back, whatever follows. */
  lemma HeaderRoundTrip(h: Header, rest: seq<byte>)
    requires HeaderOk(h)
    ensures ReadHeader(HeaderBytes(h) + rest) == h
  {
    hide HeaderBytes, Le, Rd;
    HeaderSlices(h, rest);
    Le64RoundTrip(h.magic);
    Rd32RoundTrip(h.version);
    Rd32RoundTrip(h.headerSize);
    Le64RoundTrip(h.entry);
    Le64RoundTrip(h.textSize);
    Le64RoundTrip(h.dataSize);
    Le64RoundTrip(h.bssSize);
    Le64RoundTrip(h.relocCount);
  }

  function AlignUp(n: nat): (r: nat)
    ensures n <= r < n + PAGE && r % PAGE == 0
  {
    (n + 4095) / 4096 * 4096
  }

  function Zeros(n: nat): (r: seq<byte>)
    ensures |r| == n && forall i :: 0 <= i < n ==> r[i] == 0
  {
    seq(n, _ => 0)
  }

  function Padded(text: seq<byte>): (r: seq<byte>)
    ensures |r| == AlignUp(|text|)
  {
    text + Zeros(AlignUp(|text|) - |text|)
  }

  function HeaderFor(text: seq<byte>, data: seq<byte>): Header
    requires |text| < TWO32 && |data| < TWO32
  {
    Header(IMAGE_MAGIC, IMAGE_VERSION, HEADER_SIZE, 0, AlignUp(|text|), |data|, 0, 0)
  }

  /** The image of a linked text and its data. */
  function ImageOf(text: seq<byte>, data: seq<byte>): seq<byte>
    requires |text| < TWO32 && |data| < TWO32
  {
    HeaderBytes(HeaderFor(text, data)) + Padded(text) + data
  }

  const SECTION_MAX := 256 * 1024

  /** The loader's checks, in 64-bit arithmetic. */
  predicate Accepts(image: seq<byte>) {
    |image| >= HEADER_SIZE
    && var h := ReadHeader(image);
       && h.magic == IMAGE_MAGIC && h.version == IMAGE_VERSION
       && HEADER_SIZE <= h.headerSize <= 4096
       && 0 < h.textSize <= SECTION_MAX && h.dataSize <= SECTION_MAX && h.bssSize <= SECTION_MAX
       && (var textOff := U(h.headerSize + U(h.relocCount as int * 24));
           var dataOff := U(textOff + h.textSize);
           h.relocCount <= 256 && textOff >= h.headerSize && dataOff >= textOff && U(dataOff + h.dataSize) <= |image|)
       && h.entry < h.textSize
  }

  /** The first eight bytes, as text and a zero. */
  const MAGIC_BYTES: seq<byte> := [0x4f, 0x52, 0x45, 0x49, 0x4d, 0x47, 0x31, 0]

  /** What an image must be, in exact arithmetic: magic, version 1, sizes in range, everything inside the file. */
  predicate WellFormed(image: seq<byte>) {
    |image| >= HEADER_SIZE && image[..8] == MAGIC_BYTES
    && var h := ReadHeader(image);
       && h.version == 1 && 56 <= h.headerSize <= 4096 && h.relocCount <= 256
       && 1 <= h.textSize <= 0x40000 && h.dataSize <= 0x40000 && h.bssSize <= 0x40000 && h.entry < h.textSize
       && h.headerSize + 24 * h.relocCount + h.textSize + h.dataSize <= |image|
  }

  /** The loader accepts exactly the well-formed images: its 64-bit sums never wrap where it matters. */
  lemma AcceptsIff(image: seq<byte>)
    ensures Accepts(image) <==> WellFormed(image)
  {
    if |image| >= HEADER_SIZE {
      MagicRead(image[..8]);
      HeaderMagic(image);
      hide ReadHeader, Rd64, Rd, U;
      var h := ReadHeader(image);
      if HEADER_SIZE <= h.headerSize <= 4096 && h.textSize <= SECTION_MAX && h.dataSize <= SECTION_MAX {
        ExactSums(h.headerSize, h.relocCount, h.textSize, h.dataSize, |image|);
      }
    }
  }

  lemma ExactSums(head: nat, relocs: u64, text: nat, data: nat, size: nat)
    requires head <= 4096 && text <= SECTION_MAX && data <= SECTION_MAX
    ensures var textOff := U(head + U(relocs as int * 24)); var dataOff := U(textOff + text);
      relocs <= 256 && textOff >= head && dataOff >= textOff && U(dataOff + data) <= size
      <==> relocs <= 256 && head + 24 * relocs + text + data <= size
  {
    if relocs <= 256 {
      Fits64(relocs * 24);
      Fits64(head + relocs * 24);
      Fits64(head + relocs * 24 + text);
      Fits64(head + relocs * 24 + text + data);
    }
  }

  lemma Fits64(x: nat)
    requires x < 0x1_0000_0000
    ensures U(x) == x
  {
  }

  lemma HeaderMagic(image: seq<byte>)
    requires |image| >= HEADER_SIZE
    ensures ReadHeader(image).magic == Rd64(image[..8])
  {
    hide Rd64;
  }

  lemma MagicWritten()
    ensures Le(IMAGE_MAGIC, 8) == MAGIC_BYTES
  {
    hide Le;
    LeStep(0x31474d4945524f, 7, 0x4f, 0x31474d494552);
    LeStep(0x31474d494552, 6, 0x52, 0x31474d4945);
    LeStep(0x31474d4945, 5, 0x45, 0x31474d49);
    LeStep(0x31474d49, 4, 0x49, 0x31474d);
    LeStep(0x31474d, 3, 0x4d, 0x3147);
    LeStep(0x3147, 2, 0x47, 0x31);
    LeStep(0x31, 1, 0x31, 0x0);
    LeStep(0x0, 0, 0x0, 0x0);
    LeNone(0);
  }

  lemma MagicRead(b: seq<byte>)
    requires |b| == 8
    ensures Rd64(b) == IMAGE_MAGIC <==> b == MAGIC_BYTES
  {
    MagicWritten();
    hide Le, Rd;
    Le64RoundTrip(IMAGE_MAGIC);
    RdInjective(b, MAGIC_BYTES);
  }

  /** The sections of an accepted image without relocations lie inside it. */
  lemma AcceptsBounds(image: seq<byte>)
    requires Accepts(image) && ReadHeader(image).relocCount == 0
    ensures var h := ReadHeader(image);
      0 < h.headerSize <= 4096 && 0 < h.textSize <= SECTION_MAX && h.headerSize + h.textSize + h.dataSize <= |image|
  {
    hide ReadHeader;
  }

  /** Every image the compiler builds is accepted, and its sections are where the loader looks for them. */
  lemma BuiltAccepted(text: seq<byte>, data: seq<byte>)
    requires 0 < |text| <= 0x8000 && |data| <= 0x8000
    ensures var image := ImageOf(text, data);
            && Accepts(image) && ReadHeader(image) == HeaderFor(text, data)
            && image[HEADER_SIZE..HEADER_SIZE + AlignUp(|text|)] == Padded(text)
            && |image| == HEADER_SIZE + AlignUp(|text|) + |data| && image[HEADER_SIZE + AlignUp(|text|)..] == data
  {
    hide HeaderBytes, ReadHeader, Padded;
    var h := HeaderFor(text, data);
    assert HeaderBytes(h) + Padded(text) + data == HeaderBytes(h) + (Padded(text) + data);
    HeaderRoundTrip(h, Padded(text) + data);
  }

  const IMAGE_MAX: nat := 0x10000

  /** A full text and nearly full data do not fit the compiler's image buffer; everything else does. */
  lemma ImageFits(head: nat, textLen: nat, dataLen: nat)
    requires 0 < head <= PAGE && textLen <= 0x8000 && dataLen <= 0x8000
    ensures head + AlignUp(textLen) + dataLen <= IMAGE_MAX <==> textLen <= 0x7000 || dataLen <= 0x8000 - head
  {
    if textLen <= 0x7000 { assert AlignUp(textLen) <= 0x7000; } else { assert AlignUp(textLen) == 0x8000; }
  }
}
