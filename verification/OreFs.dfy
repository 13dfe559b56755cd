/**
 OreFS: the image that the builder writes and what the kernel reads back from it. A disk is a plain sequence
 of bytes read by sectors of 512.
 */
module OreFs {
  import opened Words
  import opened Image

  const SECTOR: nat := 512
  const ENTRY: nat := 128
  const NAME_MAX: nat := 96
  const MAX_ENTRIES: nat := 128
  const FILE_KIND: nat := 1
  const DISK_MIN: nat := 0x100_0000

  /** The disk driver reads no sector from number 0x0fffffff on. */
  const DISK_MAX: nat := 0x0fff_ffff * SECTOR

  datatype File = File(name: seq<byte>, content: seq<byte>)

  /** Names that the builder accepts and that a path can spell: no zero byte, not empty, no leading slash. */
  predicate NameOk(name: seq<byte>) {
    0 < |name| < NAME_MAX && name[0] != 47 && forall i :: 0 <= i < |name| ==> name[i] != 0
  }

  ghost predicate FilesOk(fs: seq<File>) {
    && |fs| <= MAX_ENTRIES && (forall i :: 0 <= i < |fs| ==> NameOk(fs[i].name))
    && (forall i, j :: 0 <= i < j < |fs| ==> fs[i].name != fs[j].name)
    && DataStart(|fs|) + |Data(fs)| <= DISK_MAX
  }

  // ----- the builder -----

  function Slack(n: nat): nat { if n % SECTOR == 0 then 0 else SECTOR - n % SECTOR }

  function Pad(content: seq<byte>): seq<byte> { content + Zeros(Slack(|content|)) }

  /** All contents, each padded to whole sectors. */
  function Data(fs: seq<File>): seq<byte> {
    if fs == [] then [] else Data(fs[..|fs| - 1]) + Pad(fs[|fs| - 1].content)
  }

  /** The first byte of the data area, in bytes: behind header and table, and not before sector 8. */
  function DataStart(n: nat): nat {
    var sectors := (n * ENTRY + SECTOR - 1) / SECTOR;
    (if 1 + sectors > 8 then 1 + sectors else 8) * SECTOR
  }

  function EntryBytes(f: File, offset: nat): (r: seq<byte>)
    requires |f.name| < NAME_MAX
    ensures |r| == ENTRY
  {
    f.name + Zeros(NAME_MAX - |f.name|) + Le(offset, 8) + Le(|f.content|, 8) + Le(FILE_KIND, 4) + Le(0, 4) + Zeros(8)
  }

  function Table(fs: seq<File>, base: nat): (r: seq<byte>)
    requires forall i :: 0 <= i < |fs| ==> |fs[i].name| < NAME_MAX
    ensures |r| == |fs| * ENTRY
  {
    if fs == [] then []
    else
      var front := fs[..|fs| - 1];
      Table(front, base) + EntryBytes(fs[|fs| - 1], base + |Data(front)|)
  }

  const MAGIC: seq<byte> := [79, 82, 69, 70, 83, 49, 0, 0]

  function HeaderSector(n: nat): (r: seq<byte>)
    ensures |r| == SECTOR
  {
    MAGIC + Le(1, 4) + Le(n, 4) + Zeros(SECTOR - 16)
  }

  function DiskImage(fs: seq<File>): seq<byte>
    requires forall i :: 0 <= i < |fs| ==> |fs[i].name| < NAME_MAX
  {
    var start := DataStart(|fs|);
    var body := HeaderSector(|fs|) + Table(fs, start) + Zeros(start - SECTOR - |fs| * ENTRY) + Data(fs);
    body + Zeros(if |body| < DISK_MIN then DISK_MIN - |body| else 0)
  }

  lemma {:induction false} DataWhole(fs: seq<File>)
    ensures |Data(fs)| % SECTOR == 0
    decreases |fs|
  {
    if fs != [] {
      DataWhole(fs[..|fs| - 1]);
      PadWhole(|Data(fs[..|fs| - 1])|, |fs[|fs| - 1].content|);
    }
  }

  lemma PadWhole(a: nat, n: nat)
    requires a % SECTOR == 0
    ensures (a + (n + Slack(n))) % SECTOR == 0
  {
  }

  /** The content of file i stands at its place in the data area. */
  lemma {:induction false} DataAt(fs: seq<File>, i: nat)
    requires i < |fs|
    ensures |Data(fs[..i])| + |fs[i].content| <= |Data(fs)|
    ensures Data(fs)[|Data(fs[..i])|..|Data(fs[..i])| + |fs[i].content|] == fs[i].content
    decreases |fs|
  {
    var front, last := fs[..|fs| - 1], fs[|fs| - 1];
    if i < |fs| - 1 {
      DataAt(front, i);
      assert front[..i] == fs[..i];
      var at := |Data(fs[..i])|;
      assert Data(fs)[at..at + |fs[i].content|] == Data(front)[at..at + |fs[i].content|];
    }
  }

  lemma {:induction false} TableAt(fs: seq<File>, base: nat, i: nat)
    requires (forall k :: 0 <= k < |fs| ==> |fs[k].name| < NAME_MAX) && i < |fs|
    ensures Table(fs, base)[i * ENTRY..(i + 1) * ENTRY] == EntryBytes(fs[i], base + |Data(fs[..i])|)
    decreases |fs|
  {
    hide EntryBytes;
    var front := fs[..|fs| - 1];
    if i < |fs| - 1 {
      TableAt(front, base, i);
      assert front[..i] == fs[..i];
      assert Table(fs, base)[i * ENTRY..(i + 1) * ENTRY] == Table(front, base)[i * ENTRY..(i + 1) * ENTRY];
    }
  }

  // ----- the reader -----

  datatype Entry = Entry(name: seq<byte>, offset: u64, size: u64, kind: int)

  /** block_root_read: whole sectors that exist; a read of none fails. */
  function ReadSectors(disk: seq<byte>, lba: nat, n: nat): Option<seq<byte>> {
    if n == 0 || (lba + n) * SECTOR > |disk| then None else Some(disk[lba * SECTOR..(lba + n) * SECTOR])
  }

  /** A name up to its first zero byte. */
  function CStr(s: seq<byte>): seq<byte> {
    if s == [] || s[0] == 0 then [] else [s[0]] + CStr(s[1..])
  }

  function ParseEntry(b: seq<byte>): Entry
    requires |b| == ENTRY
  {
    Entry(b[..96], Rd64(b[96..104]), Rd64(b[104..112]), Rd32(b[112..116]))
  }

  /** mount_disk: the entries, if the disk holds a file system. */
  function Mount(disk: seq<byte>): Option<seq<Entry>> {
    var h := ReadSectors(disk, 0, 1);
    if h.None? || h.value[..6] != MAGIC[..6] then None
    else
      var count := Rd32(h.value[12..16]);
      if count > MAX_ENTRIES then None
      else if count == 0 then Some([])
      else
        var sectors := (count * ENTRY + 511) / 512;
        var t := ReadSectors(disk, 1, sectors);
        if t.None? then None else Some(ParseTable(t.value, count))
  }

  function ParseTable(t: seq<byte>, count: nat): (r: seq<Entry>)
    requires count * ENTRY <= |t|
    ensures |r| == count && forall i :: 0 <= i < count ==> r[i] == ParseEntry(t[i * ENTRY..(i + 1) * ENTRY])
  {
    seq(count, i requires 0 <= i < count => ParseEntry(t[i * ENTRY..(i + 1) * ENTRY]))
  }

  /** disk_lookup for a relative path that does not start with a slash. */
  function Lookup(es: seq<Entry>, rel: seq<byte>): Option<nat> {
    if es == [] then None
    else
      var r := Lookup(es[..|es| - 1], rel);
      if r.Some? then r else if CStr(es[|es| - 1].name) == rel then Some(|es| - 1) else None
  }

  /** The bytes that a read of an entry copies; None is the error result -1. */
  function ReadEntry(disk: seq<byte>, e: Entry, offset: nat, size: nat): Option<seq<byte>> {
    if e.kind != FILE_KIND then None
    else if offset >= e.size then Some([])
    else
      var n := if e.size - offset < size then e.size - offset else size;
      var at := e.offset + offset;
      var sectors := (at % SECTOR + n + 511) / SECTOR;
      var t := ReadSectors(disk, at / SECTOR, sectors);
      if t.None? then None else Some(t.value[at % SECTOR..at % SECTOR + n])
  }

  // ----- building and reading are inverse -----

  function NameField(name: seq<byte>): (r: seq<byte>)
    requires |name| < NAME_MAX
    ensures |r| == NAME_MAX
  {
    name + Zeros(NAME_MAX - |name|)
  }

  lemma {:induction false} CStrField(name: seq<byte>, z: seq<byte>)
    requires (forall i :: 0 <= i < |name| ==> name[i] != 0) && z != [] && z[0] == 0
    ensures CStr(name + z) == name
    decreases |name|
  {
    if name == [] {
      assert name + z == z;
    } else {
      assert (name + z)[1..] == name[1..] + z;
      CStrField(name[1..], z);
    }
  }

  lemma EntrySlices(f: File, offset: nat)
    requires |f.name| < NAME_MAX
    ensures var b := EntryBytes(f, offset);
      b[..96] == NameField(f.name) && b[96..104] == Le(offset, 8) && b[104..112] == Le(|f.content|, 8)
        && b[112..116] == Le(FILE_KIND, 4)
  {
    hide Le;
    var b := EntryBytes(f, offset);
    assert b[..96] == NameField(f.name);
  }

  lemma EntryRoundTrip(f: File, offset: u64)
    requires |f.name| < NAME_MAX && |f.content| < TWO64
    ensures ParseEntry(EntryBytes(f, offset)) == Entry(NameField(f.name), offset, |f.content|, FILE_KIND)
  {
    hide EntryBytes, Le, Rd;
    EntrySlices(f, offset);
    Le64RoundTrip(offset);
    Le64RoundTrip(|f.content|);
    Rd32RoundTrip(FILE_KIND);
  }

  lemma StartBounds(n: nat)
    requires n <= MAX_ENTRIES
    ensures SECTOR + n * ENTRY <= DataStart(n) && DataStart(n) % SECTOR == 0
      && (1 + (n * ENTRY + 511) / 512) * SECTOR <= DataStart(n)
  {
  }

  lemma EntryForOk(fs: seq<File>, i: nat)
    requires FilesOk(fs) && i < |fs|
    ensures |fs[i].name| < NAME_MAX && DataStart(|fs|) + |Data(fs[..i])| < TWO64 && |fs[i].content| < TWO64
    ensures DataStart(|fs|) + |Data(fs[..i])| + |fs[i].content| <= DataStart(|fs|) + |Data(fs)|
  {
    DataAt(fs, i);
    assert NameOk(fs[i].name);
  }

  /** Where the parts of an image are. */
  lemma ImageParts(fs: seq<File>)
    requires FilesOk(fs)
    ensures var d := DiskImage(fs); var start := DataStart(|fs|);
      && |d| >= start + |Data(fs)| && d[..SECTOR] == HeaderSector(|fs|)
      && d[SECTOR..SECTOR + |fs| * ENTRY] == Table(fs, start) && d[start..start + |Data(fs)|] == Data(fs)
  {
    hide Table, Data, DataStart, HeaderSector;
    StartBounds(|fs|);
    var start := DataStart(|fs|);
    var h, t, z, b := HeaderSector(|fs|), Table(fs, start), Zeros(start - SECTOR - |fs| * ENTRY), Data(fs);
    Slices4(h, t, z, b, DiskImage(fs)[|h + t + z + b|..]);
  }

  lemma Slices4(h: seq<byte>, t: seq<byte>, z: seq<byte>, b: seq<byte>, e: seq<byte>)
    ensures var d := h + t + z + b + e;
      d[..|h|] == h && d[|h|..|h| + |t|] == t && d[|h| + |t| + |z|..|h| + |t| + |z| + |b|] == b
  {
  }

  lemma HeaderRead(n: nat, h: seq<byte>)
    requires n <= MAX_ENTRIES && h == HeaderSector(n)
    ensures h[..6] == MAGIC[..6] && Rd32(h[12..16]) == n
  {
    hide Le, Rd;
    assert h[12..16] == Le(n, 4);
    Rd32RoundTrip(n);
  }

  lemma SubSub(d: seq<byte>, a: nat, b: nat, i: nat, j: nat)
    requires a <= b <= |d| && i <= j <= b - a
    ensures d[a..b][i..j] == d[a + i..a + j]
  {
    var s, t := d[a..b][i..j], d[a + i..a + j];
    assert |s| == |t| && forall k :: 0 <= k < j - i ==> s[k] == d[a + i + k] == t[k];
  }

  lemma EntryInTable(n: nat, i: nat)
    requires i < n <= MAX_ENTRIES
    ensures i * ENTRY <= (i + 1) * ENTRY <= n * ENTRY <= (n * ENTRY + 511) / 512 * SECTOR
  {
  }

  lemma MountEntry(fs: seq<File>, i: nat)
    requires FilesOk(fs) && i < |fs|
    ensures var d := DiskImage(fs); var sectors := (|fs| * ENTRY + 511) / 512;
      && (1 + sectors) * SECTOR <= |d| && (i + 1) * ENTRY <= sectors * SECTOR
      && BuiltEntry(fs, ParseEntry(d[1 * SECTOR..(1 + sectors) * SECTOR][i * ENTRY..(i + 1) * ENTRY]), i)
  {
    hide DiskImage, HeaderSector, Data, Table, EntryBytes, ParseEntry, DataStart;
    var d, n := DiskImage(fs), |fs|;
    var sectors := (n * ENTRY + 511) / 512;
    ImageParts(fs);
    StartBounds(n);
    EntryInTable(n, i);
    TableAt(fs, DataStart(n), i);
    SubSub(d, SECTOR, (1 + sectors) * SECTOR, i * ENTRY, (i + 1) * ENTRY);
    SubSub(d, SECTOR, SECTOR + n * ENTRY, i * ENTRY, (i + 1) * ENTRY);
    EntryForOk(fs, i);
    EntryRoundTrip(fs[i], DataStart(n) + |Data(fs[..i])|);
  }

  /** What a disk must hold to be mounted: the magic, at most 128 entries, and whole sectors with all of them. */
  predicate Mountable(disk: seq<byte>) {
    && |disk| >= 512 && disk[..6] == [79, 82, 69, 70, 83, 49]
    && var n := Rd32(disk[12..16]); n <= 128 && 512 + (n * 128 + 511) / 512 * 512 <= |disk|
  }

  /** Exactly those disks are mounted, with as many entries as the header says. */
  lemma MountIff(disk: seq<byte>)
    ensures Mount(disk).Some? <==> Mountable(disk)
    ensures Mountable(disk) ==> |Mount(disk).value| == Rd32(disk[12..16])
  {
    hide Rd32, ParseEntry;
    MagicIs();
    if |disk| >= 512 { HeaderOf(disk); }
  }

  /** Entry i of a mounted disk is read from the 128 bytes at 512 + 128 i. */
  lemma MountedEntry(disk: seq<byte>, i: nat)
    requires Mountable(disk) && i < Rd32(disk[12..16])
    ensures Mount(disk).Some? && |Mount(disk).value| == Rd32(disk[12..16])
    ensures 512 + i * 128 + 128 <= |disk|
    ensures Mount(disk).value[i] == ParseEntry(disk[512 + i * 128..512 + i * 128 + 128])
  {
    hide Rd32, ParseEntry, Mountable, Mount;
    MountIff(disk);
    MountTable(disk);
    var end := (1 + (Rd32(disk[12..16]) * 128 + 511) / 512) * 512;
    EntryInTable(Rd32(disk[12..16]), i);
    SubSub(disk, 512, end, i * 128, (i + 1) * 128);
  }

  lemma MountTable(disk: seq<byte>)
    requires Mountable(disk) && Rd32(disk[12..16]) > 0
    ensures var n := Rd32(disk[12..16]);
      var end := (1 + (n * 128 + 511) / 512) * 512;
      n <= 128 && end <= |disk| && n * 128 <= end - 512 && Mount(disk) == Some(ParseTable(disk[512..end], n))
  {
    hide Rd32, ParseEntry;
    MagicIs();
    HeaderOf(disk);
  }

  lemma MagicIs()
    ensures MAGIC[..6] == [79, 82, 69, 70, 83, 49]
  {
  }

  lemma HeaderOf(disk: seq<byte>)
    requires |disk| >= 512
    ensures var h := disk[0 * SECTOR..(0 + 1) * SECTOR]; h[..6] == disk[..6] && h[12..16] == disk[12..16]
  {
    assert disk[0 * SECTOR..(0 + 1) * SECTOR] == disk[..512];
  }

  /** Mounting a built image gives one entry per file. */
  lemma MountBuilt(fs: seq<File>)
    requires FilesOk(fs)
    ensures var m := Mount(DiskImage(fs));
      m.Some? && |m.value| == |fs| && forall i :: 0 <= i < |fs| ==> BuiltEntry(fs, m.value[i], i)
  {
    hide DiskImage, HeaderSector, Data, Table, ParseEntry, Rd, DataStart, BuiltEntry;
    var d, n := DiskImage(fs), |fs|;
    ImageParts(fs);
    StartBounds(n);
    HeaderRead(n, d[..SECTOR]);
    assert d[0 * SECTOR..(0 + 1) * SECTOR] == d[..SECTOR];
    if n > 0 {
      MountEntry(fs, 0);
      var t := d[1 * SECTOR..(1 + (n * ENTRY + 511) / 512) * SECTOR];
      assert Mount(d) == Some(ParseTable(t, n));
      forall i | 0 <= i < n ensures BuiltEntry(fs, Mount(d).value[i], i) {
        MountEntry(fs, i);
        assert Mount(d).value[i] == ParseEntry(t[i * ENTRY..(i + 1) * ENTRY]);
      }
    }
  }

  ghost predicate BuiltEntry(fs: seq<File>, e: Entry, i: nat) {
    i < |fs| && |fs[i].name| < NAME_MAX && e.name == NameField(fs[i].name) &&
    e.offset == DataStart(|fs|) + |Data(fs[..i])| && e.size == |fs[i].content| && e.kind == FILE_KIND
  }

  /** The first entry of a name is found, and nothing else. */
  lemma {:induction false} LookupIs(es: seq<Entry>, rel: seq<byte>)
    ensures var r := Lookup(es, rel);
      && (r.Some? ==> r.value < |es| && CStr(es[r.value].name) == rel && forall j :: 0 <= j < r.value ==>
         CStr(es[j].name) != rel)
      && (r.None? ==> forall j :: 0 <= j < |es| ==> CStr(es[j].name) != rel)
    decreases |es|
  {
    if es != [] {
      var front := es[..|es| - 1];
      LookupIs(front, rel);
      assert forall j :: 0 <= j < |front| ==> front[j] == es[j];
    }
  }

  lemma LookupBuilt(fs: seq<File>, es: seq<Entry>, i: nat)
    requires FilesOk(fs) && |es| == |fs| && (forall k :: 0 <= k < |fs| ==> BuiltEntry(fs, es[k], k)) && i < |fs|
    ensures Lookup(es, fs[i].name) == Some(i)
  {
    hide Lookup, CStr, Data, DataStart;
    LookupIs(es, fs[i].name);
    forall k | 0 <= k < |fs| ensures CStr(es[k].name) == fs[k].name {
      assert BuiltEntry(fs, es[k], k) && NameOk(fs[k].name);
      CStrField(fs[k].name, Zeros(NAME_MAX - |fs[k].name|));
    }
  }

  /** The part of a content that a read of the given size at an offset delivers. */
  function Portion(content: seq<byte>, offset: nat, size: nat): seq<byte> {
    if offset >= |content| then []
    else if |content| - offset < size then content[offset..] else content[offset..offset + size]
  }

  /** A read inside a whole number of sectors delivers the bytes at its place on the disk. */
  lemma ReadEntryIs(d: seq<byte>, e: Entry, offset: nat, size: nat, limit: nat)
    requires e.kind == FILE_KIND && offset < e.size && size > 0 && e.offset + e.size <= limit <= |d|
      && limit % SECTOR == 0
    ensures var n := if e.size - offset < size then e.size - offset else size;
      ReadEntry(d, e, offset, size) == Some(d[e.offset + offset..e.offset + offset + n])
  {
    var n := if e.size - offset < size then e.size - offset else size;
    SectorsInside(e.offset + offset, n, limit);
    SectorSlice(d, e.offset + offset, n);
  }

  lemma ReadBuilt(fs: seq<File>, e: Entry, i: nat, offset: nat, size: nat)
    requires FilesOk(fs) && BuiltEntry(fs, e, i) && size > 0
    ensures ReadEntry(DiskImage(fs), e, offset, size) == Some(Portion(fs[i].content, offset, size))
  {
    hide DiskImage, HeaderSector, Table, Data, DataStart, ReadEntry, Portion, NameField, FilesOk;
    Few(fs);
    var d, c, start := DiskImage(fs), fs[i].content, DataStart(|fs|);
    ImageParts(fs);
    DataAt(fs, i);
    LimitWhole(fs);
    if offset < |c| {
      var n := if |c| - offset < size then |c| - offset else size;
      var at := |Data(fs[..i])|;
      ReadEntryIs(d, e, offset, size, start + |Data(fs)|);
      SubSub(d, start, start + |Data(fs)|, at, at + |c|);
      SubSub(d, start + at, start + at + |c|, offset, offset + n);
      PortionIs(c, offset, size);
    } else {
      ReadPast(d, e, offset, size);
      PortionIs(c, offset, size);
    }
  }

  lemma Few(fs: seq<File>)
    requires FilesOk(fs)
    ensures |fs| <= MAX_ENTRIES && forall i :: 0 <= i < |fs| ==> |fs[i].name| < NAME_MAX
  {
    forall i | 0 <= i < |fs| ensures |fs[i].name| < NAME_MAX { assert NameOk(fs[i].name); }
  }

  lemma ReadPast(d: seq<byte>, e: Entry, offset: nat, size: nat)
    requires e.kind == FILE_KIND && offset >= e.size
    ensures ReadEntry(d, e, offset, size) == Some([])
  {
  }

  lemma PortionIs(c: seq<byte>, offset: nat, size: nat)
    ensures offset >= |c| ==> Portion(c, offset, size) == []
    ensures offset < |c| ==>
      Portion(c, offset, size) == c[offset..offset + if |c| - offset < size then |c| - offset else size]
  {
  }

  /** A read of no bytes fails exactly when it starts on a sector boundary. */
  lemma ZeroRead(d: seq<byte>, e: Entry, offset: nat, limit: nat)
    requires e.kind == FILE_KIND && offset < e.size && e.offset + e.size <= limit <= |d| && limit % SECTOR == 0
    ensures ReadEntry(d, e, offset, 0).None? <==> (e.offset + offset) % SECTOR == 0
  {
    SectorsInside(e.offset + offset, 1, limit);
  }

  lemma LimitWhole(fs: seq<File>)
    requires |fs| <= MAX_ENTRIES
    ensures (DataStart(|fs|) + |Data(fs)|) % SECTOR == 0
  {
    hide Data, DataStart;
    DataWhole(fs);
    StartBounds(|fs|);
    PadWhole(DataStart(|fs|), |Data(fs)|);
  }

  lemma SectorsInside(at: nat, n: nat, limit: nat)
    requires 0 < n && at + n <= limit && limit % SECTOR == 0
    ensures var sectors := (at % SECTOR + n + 511) / SECTOR; sectors > 0 && (at / SECTOR + sectors) * SECTOR <= limit
  {
  }

  lemma SectorSlice(d: seq<byte>, at: nat, n: nat)
    requires var sectors := (at % SECTOR + n + 511) / SECTOR; (at / SECTOR + sectors) * SECTOR <= |d|
    ensures var sectors := (at % SECTOR + n + 511) / SECTOR;
      at + n <= |d| && d[at / SECTOR * SECTOR..(at / SECTOR + sectors) * SECTOR][at % SECTOR..at % SECTOR + n] ==
        d[at..at + n]
  {
  }

  // ----- paths -----

  const DISK: seq<byte> := [47, 100, 105, 115, 107]

  /** disk_path: what follows /disk/, nothing for /disk itself. */
  function DiskPath(path: seq<byte>): Option<seq<byte>> {
    if path == DISK then Some([])
    else if |path| >= 6 && path[..6] == DISK + [47] then Some(path[6..])
    else None
  }

  /** disk_lookup */
  function LookupPath(es: seq<Entry>, path: seq<byte>): Option<nat> {
    var p := DiskPath(path);
    var rel := if p.Some? then p.value else path;
    Lookup(es, if rel != [] && rel[0] == 47 then rel[1..] else rel)
  }

  /** vfs_read_file_at for a path on the disk. */
  function ReadAt(disk: seq<byte>, es: seq<Entry>, path: seq<byte>, offset: nat, size: nat): Option<seq<byte>> {
    var rel := DiskPath(path);
    if rel.None? then None
    else
      var i := LookupPath(es, rel.value);
      if i.None? || i.value >= |es| then None else ReadEntry(disk, es[i.value], offset, size)
  }

  /**
   The round trip: whatever files an image was built from, mounting it and reading a file by its path, at any
   offset and with any positive size, delivers exactly that part of its content.
   */
  lemma RoundTrip(fs: seq<File>, i: nat, offset: nat, size: nat)
    requires FilesOk(fs) && i < |fs| && size > 0
    ensures var d := DiskImage(fs); var m := Mount(d);
      m.Some? && ReadAt(d, m.value, DISK + [47] + fs[i].name, offset, size) ==
        Some(Portion(fs[i].content, offset, size))
  {
    hide DiskImage, Mount, Lookup, ReadEntry, Portion;
    MountBuilt(fs);
    var d := DiskImage(fs);
    var es := Mount(d).value;
    var name := fs[i].name;
    assert NameOk(name);
    var path := DISK + [47] + name;
    assert path[..6] == DISK + [47] && path[6..] == name;
    LookupBuilt(fs, es, i);
    assert BuiltEntry(fs, es[i], i);
    ReadBuilt(fs, es[i], i, offset, size);
  }

  /** A file name that is not on the disk is not found. */
  lemma MissingFile(fs: seq<File>, rel: seq<byte>, offset: nat, size: nat)
    requires FilesOk(fs) && NameOk(rel) && forall i :: 0 <= i < |fs| ==> fs[i].name != rel
    ensures var m := Mount(DiskImage(fs));
      m.Some? && ReadAt(DiskImage(fs), m.value, DISK + [47] + rel, offset, size).None?
  {
    hide DiskImage, Mount, Lookup, ReadEntry, CStr, Data, DataStart;
    MountBuilt(fs);
    var es := Mount(DiskImage(fs)).value;
    var path := DISK + [47] + rel;
    assert path[..6] == DISK + [47] && path[6..] == rel;
    LookupIs(es, rel);
    forall k | 0 <= k < |fs| ensures CStr(es[k].name) == fs[k].name {
      assert BuiltEntry(fs, es[k], k) && NameOk(fs[k].name);
      CStrField(fs[k].name, Zeros(NAME_MAX - |fs[k].name|));
    }
  }

  // ----- reading through a handle -----

  function Sum(sizes: seq<nat>): nat {
    if sizes == [] then 0 else sizes[0] + Sum(sizes[1..])
  }

  lemma PortionSplit(c: seq<byte>, offset: nat, a: nat, b: nat)
    requires offset <= |c|
    ensures var got := Portion(c, offset, a); got + Portion(c, offset + |got|, b) == Portion(c, offset, a + b)
  {
  }

  /** The same through the file system: reads from an open file, or None as soon as one fails. */
  function HandleReads(disk: seq<byte>, es: seq<Entry>, path: seq<byte>, offset: nat,
      sizes: seq<nat>): Option<seq<byte>>
    decreases |sizes|
  {
    if sizes == [] then Some([])
    else
      var got := ReadAt(disk, es, path, offset, sizes[0]);
      if got.None? then None
      else
        var rest := HandleReads(disk, es, path, offset + |got.value|, sizes[1..]);
        if rest.None? then None else Some(got.value + rest.value)
  }

  /** Reads with positive sizes from a built image deliver the file from its start, and nothing more after its end. */
  lemma {:induction false} HandleReadsFile(fs: seq<File>, i: nat, offset: nat, sizes: seq<nat>)
    requires FilesOk(fs) && i < |fs| && offset <= |fs[i].content| && forall k :: 0 <= k < |sizes| ==> sizes[k] > 0
    ensures var d := DiskImage(fs); var m := Mount(d);
      m.Some? && HandleReads(d, m.value, DISK + [47] + fs[i].name, offset, sizes) ==
        Some(Portion(fs[i].content, offset, Sum(sizes)))
    decreases |sizes|
  {
    hide DiskImage, Mount, ReadAt, Portion;
    var c := fs[i].content;
    PortionIs(c, offset, 0);
    MountBuilt(fs);
    if sizes != [] {
      RoundTrip(fs, i, offset, sizes[0]);
      PortionIs(c, offset, sizes[0]);
      HandleReadsFile(fs, i, offset + |Portion(c, offset, sizes[0])|, sizes[1..]);
      PortionSplit(c, offset, sizes[0], Sum(sizes[1..]));
    }
  }

  // ----- the builder and the reader as they run -----

  lemma {:induction false} DataStep(fs: seq<File>, i: nat)
    requires i < |fs|
    ensures Data(fs[..i + 1]) == Data(fs[..i]) + Pad(fs[i].content)
  {
    assert fs[..i + 1][..i] == fs[..i];
  }

  lemma {:induction false} TableStep(fs: seq<File>, base: nat, i: nat)
    requires i < |fs| && forall k :: 0 <= k <= i ==> |fs[k].name| < NAME_MAX
    ensures Table(fs[..i + 1], base) == Table(fs[..i], base) + EntryBytes(fs[i], base + |Data(fs[..i])|)
  {
    assert fs[..i + 1][..i] == fs[..i];
  }

  /** The image builder; None when a name is too long. */
  method BuildDisk(fs: seq<File>) returns (image: Option<seq<byte>>)
    ensures image.None? <==> exists i :: 0 <= i < |fs| && |fs[i].name| >= NAME_MAX
    ensures image.Some? ==> image.value == DiskImage(fs)
  {
    hide Data, Table, EntryBytes, HeaderSector, DataStart;
    StartRoom(|fs|);
    var start := DataStart(|fs|);
    var data: seq<byte>, table: seq<byte> := [], [];
    EmptyParts(start);
    assert fs[..0] == [];
    for i := 0 to |fs|
      invariant forall k :: 0 <= k < i ==> |fs[k].name| < NAME_MAX
      invariant data == Data(fs[..i]) && table == Table(fs[..i], start)
    {
      if |fs[i].name| >= NAME_MAX { return None; }
      DataStep(fs, i);
      TableStep(fs, start, i);
      table := table + EntryBytes(fs[i], start + |data|);
      data := AppendPadded(data, fs[i].content);
      PaddedTo(fs, i);
    }
    assert fs[..|fs|] == fs;
    var body := HeaderSector(|fs|) + table + Zeros(start - SECTOR - |fs| * ENTRY) + data;
    image := Some(body + Zeros(if |body| < DISK_MIN then DISK_MIN - |body| else 0));
  }

  lemma StartRoom(n: nat)
    ensures SECTOR + n * ENTRY <= DataStart(n)
  {
  }

  lemma EmptyParts(base: nat)
    ensures Data([]) == [] && Table([], base) == []
  {
  }

  lemma PaddedTo(fs: seq<File>, i: nat)
    requires i < |fs|
    ensures |Data(fs[..i])| % SECTOR == 0
  {
    DataWhole(fs[..i]);
  }

  lemma SlackStep(len: nat, n: nat)
    requires n <= Slack(len)
    ensures (len + n) % SECTOR == 0 <==> n == Slack(len)
  {
  }

  lemma SlackShift(a: nat, n: nat)
    requires a % SECTOR == 0
    ensures Slack(a + n) == Slack(n)
  {
  }

  /** Append a content and zeros up to a whole sector. */
  method AppendPadded(data: seq<byte>, content: seq<byte>) returns (r: seq<byte>)
    ensures |data| % SECTOR == 0 ==> r == data + Pad(content)
  {
    hide Slack;
    r := data + content;
    var n := 0;
    SlackStep(|r|, 0);
    assert r == data + content + Zeros(0);
    while |r| % SECTOR != 0
      invariant n <= Slack(|data + content|) && r == data + content + Zeros(n)
      invariant |r| % SECTOR == 0 <==> n == Slack(|data + content|)
      decreases Slack(|data + content|) - n
    {
      r := r + [0];
      n := n + 1;
      assert Zeros(n) == Zeros(n - 1) + [0];
      SlackStep(|data + content|, n);
    }
    if |data| % SECTOR == 0 {
      SlackShift(|data|, |content|);
      assert data + content + Zeros(n) == data + (content + Zeros(n));
    }
  }

  /** The copy loop of the reader. */
  method CopyIn(buffer: array<byte>, bytes: seq<byte>)
    requires |bytes| <= buffer.Length
    modifies buffer
    ensures buffer[..|bytes|] == bytes && buffer[|bytes|..] == old(buffer[|bytes|..])
  {
    for k := 0 to |bytes|
      invariant forall j :: 0 <= j < k ==> buffer[j] == bytes[j]
      invariant forall j :: k <= j < buffer.Length ==> buffer[j] == old(buffer[j])
    {
      buffer[k] := bytes[k];
    }
  }

  class Vfs {
    const disk: seq<byte>
    var entries: seq<Entry>
    var mounted: bool

    constructor (d: seq<byte>)
      ensures disk == d && entries == [] && !mounted
    {
      disk, entries, mounted := d, [], false;
    }

    /** mount_disk */
    method MountDisk() returns (ok: bool)
      modifies this
      ensures ok <==> Mount(disk).Some?
      ensures ok ==> mounted && entries == Mount(disk).value
      ensures !ok ==> entries == old(entries) && mounted == old(mounted)
    {
      var h := ReadSectors(disk, 0, 1);
      if h.None? || h.value[..6] != MAGIC[..6] { return false; }
      var count := Rd32(h.value[12..16]);
      if count > MAX_ENTRIES { return false; }
      var es: seq<Entry> := [];
      if count > 0 {
        var t := ReadSectors(disk, 1, (count * ENTRY + 511) / 512);
        if t.None? { return false; }
        for i := 0 to count
          invariant |es| == i && forall k :: 0 <= k < i ==> es[k] == ParseEntry(t.value[k * ENTRY..(k + 1) * ENTRY])
        {
          es := es + [ParseEntry(t.value[i * ENTRY..(i + 1) * ENTRY])];
        }
        assert es == ParseTable(t.value, count);
      }
      entries, mounted := es, true;
      return true;
    }

    /** The search of disk_lookup. */
    method FindEntry(rel: seq<byte>) returns (r: Option<nat>)
      ensures r == Lookup(entries, rel)
    {
      hide Lookup, CStr;
      LookupIs(entries, rel);
      for i := 0 to |entries|
        invariant forall j :: 0 <= j < i ==> CStr(entries[j].name) != rel
      {
        if CStr(entries[i].name) == rel { return Some(i); }
      }
      return None;
    }

    /** disk_lookup */
    method FindPath(path: seq<byte>) returns (r: Option<nat>)
      ensures r == LookupPath(entries, path) && (r.Some? ==> r.value < |entries|)
    {
      hide Lookup;
      var again := DiskPath(path);
      var p := if again.Some? then again.value else path;
      if p != [] && p[0] == 47 { p := p[1..]; }
      LookupIs(entries, p);
      r := FindEntry(p);
    }

    /** vfs_read_file_at for a path on the disk: the number of bytes copied to the buffer, or -1. */
    method ReadFileAt(path: seq<byte>, offset: nat, buffer: array<byte>, size: nat) returns (n: int)
      requires size <= buffer.Length
      modifies buffer
      ensures n == -1 <==> ReadAt(disk, entries, path, offset, size).None?
      ensures n != -1 ==> 0 <= n <= size && buffer[..n] == ReadAt(disk, entries, path, offset, size).value
      ensures forall j :: (if n < 0 then 0 else n) <= j < buffer.Length ==> buffer[j] == old(buffer[j])
    {
      hide LookupPath, DiskPath, ReadSectors;
      var rel := DiskPath(path);
      if rel.None? { return -1; }
      var i := FindPath(rel.value);
      if i.None? { return -1; }
      var e := entries[i.value];
      if e.kind != FILE_KIND { return -1; }
      if offset >= e.size { return 0; }
      var count := if e.size - offset < size then e.size - offset else size;
      var at := e.offset + offset;
      var sectors := (at % SECTOR + count + 511) / SECTOR;
      SectorsRead(disk, at / SECTOR, sectors);
      EnoughSectors(at, count);
      var t := ReadSectors(disk, at / SECTOR, sectors);
      if t.None? { return -1; }
      CopyIn(buffer, t.value[at % SECTOR..at % SECTOR + count]);
      return count;
    }
  }

  lemma SectorsRead(d: seq<byte>, lba: nat, n: nat)
    ensures ReadSectors(d, lba, n).Some? ==> |ReadSectors(d, lba, n).value| == n * SECTOR
  {
  }

  lemma EnoughSectors(at: nat, n: nat)
    ensures at % SECTOR + n <= (at % SECTOR + n + 511) / SECTOR * SECTOR
  {
  }
}
