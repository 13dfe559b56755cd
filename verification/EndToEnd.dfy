/**
 From source tokens to a running process: what the compiler builds, the loader accepts and places, and the
 machine then does what the source program says.
 */
module EndToEnd {
  import opened Words
  import opened X86
  import opened Machine
  import opened OreLang
  import opened Codegen
  import opened Relink
  import opened Frames
  import opened Parser
  import opened EmissionP
  import opened Image
  import Emission
  import C = Compiler
  import Whole
  import DR = DataRefs
  import SS = SourceSize
  import ParseWf
  import PageTables
  import Ownership
  import UM = UserMemory
  import Loader

  /** The linked text: calls to the functions' addresses, data right behind the padded text. */
  function Linked(p: Program, main: nat): seq<byte>
    requires main < |p|
  {
    CodeP(UserImage(main), p, Links(Addrs(START_SIZE, p), AlignUp(Addr(START_SIZE, p, |p|))))
  }

  lemma LinkedSize(p: Program, main: nat, k: Links)
    requires main < |p|
    ensures |CodeP(UserImage(main), p, k)| == Addr(START_SIZE, p, |p|) && 0 < Addr(START_SIZE, p, |p|)
  {
    hide StartCode, CodeFrom;
    LenFrom(START_SIZE, p, 0, k);
  }

  predicate Source(fs: seq<Decl>) { forall d :: d in fs ==> |d.params| <= MAX_PARAMS }

  /** The image of a source that parses, has a main function and fits the compiler's tables. */
  ghost predicate ImageFor(fs: seq<Decl>, bytes: seq<byte>)
    requires Source(fs) && FindFunc(fs, "main").Some? && ParseFrom(fs, 0, []).Some?
  {
    var (p, data) := ParseFrom(fs, 0, []).value;
    var main := FindFunc(fs, "main").value;
    && main < |p| && |data| <= DATA_MAX && Fits(START_SIZE, p) && |Linked(p, main)| <= Emission.TEXT_MAX
    && bytes == ImageOf(Linked(p, main), data)
  }

  /** The program and data of a source that parses. */
  function ProgramOf(fs: seq<Decl>): Program
    requires Source(fs) && ParseFrom(fs, 0, []).Some?
  {
    ParseFrom(fs, 0, []).value.0
  }

  function DataOf(fs: seq<Decl>): seq<byte>
    requires Source(fs) && ParseFrom(fs, 0, []).Some?
  {
    ParseFrom(fs, 0, []).value.1
  }

  /** The image of a source fits the compiler's buffer unless both its text and its data are nearly full. */
  predicate FitsBuffer(fs: seq<Decl>)
    requires Source(fs) && ParseFrom(fs, 0, []).Some?
  {
    Addr(START_SIZE, ProgramOf(fs), |ProgramOf(fs)|) <= 0x7000 || |DataOf(fs)| <= 0x8000 - HEADER_SIZE
  }

  /**
   Compile a source and write its image, as the compiler's main routine does. The writes stay inside the
   buffer if and only if the image fits, and then the buffer holds the image of the source. They always do when
   the bodies are separate parts of a text that fits the source buffer, even if a table overflows. A source that fits
   the tables is patched inside its text only.
   */
  method Build(fs: seq<Decl>, image: array<byte>) returns (ok: bool, len: nat, inside: bool, safe: bool)
    requires Source(fs) && image.Length == IMAGE_MAX
    modifies image
    ensures ok <==> FindFunc(fs, "main").Some? && ParseFrom(fs, 0, []).Some?
    ensures ok && Fits(START_SIZE, ProgramOf(fs)) ==> (inside <==> FitsBuffer(fs))
    ensures ok && SS.Separate(fs) ==> inside
    ensures ok && Fits(START_SIZE, ProgramOf(fs)) ==> safe
    ensures ok && inside ==> len <= image.Length && (Fits(START_SIZE, ProgramOf(fs)) ==> ImageFor(fs, image[..len]))
  {
    hide ParseFrom, FindFunc, Fits, ImageOf, Linked, CodeP, Addrs, SitesFrom, PatchSites, AlignUp, SS.Separate;
    var c := new C.Orec(fs);
    var main;
    ok, main := c.CompileSource(false);
    len, inside, safe := 0, true, true;
    if !ok { return; }
    ghost var text, refs := c.Text(), c.refs;
    assert C.Compiled(false, fs, ok, main, text, c.data, c.addrs, refs);
    RefsInside(fs, main, text, c.data, c.addrs, refs);
    len, inside := c.BuildImage(image);
    safe := c.safe;
    ImageFits(HEADER_SIZE, c.textLen, |c.data|);
    CompiledSize(fs, main, text, c.data, c.addrs, refs);
    if SS.Separate(fs) { SS.DataFits(fs); }
    if inside { BuiltImage(fs, main, text, c.data, c.addrs, refs, c.Text(), image[..len]); }
  }

  lemma CompiledSize(fs: seq<Decl>, main: nat, text: seq<byte>, data: seq<byte>, addrs: seq<nat>, refs: seq<Site>)
    requires Source(fs) && C.Compiled(false, fs, true, main, text, data, addrs, refs)
    ensures data == DataOf(fs) && (Fits(START_SIZE, ProgramOf(fs)) ==>
      |text| == Addr(START_SIZE, ProgramOf(fs), |ProgramOf(fs)|))
  {
    hide ParseFrom, FindFunc, Fits, CodeP, Addrs, SitesFrom;
    var p := ProgramOf(fs);
    if Fits(START_SIZE, p) { LinkedSize(p, main, Links(Addrs(START_SIZE, p), -1)); }
  }

  /** The data references of a source that fits lie inside its text. */
  lemma RefsInside(fs: seq<Decl>, main: nat, text: seq<byte>, data: seq<byte>, addrs: seq<nat>, refs: seq<Site>)
    requires Source(fs) && C.Compiled(false, fs, true, main, text, data, addrs, refs)
    ensures Fits(START_SIZE, ProgramOf(fs)) ==> Inside(refs, 0, |text|)
  {
    hide ParseFrom, FindFunc, Fits, CodeP, Addrs, SitesFrom, PatchSites;
    if Fits(START_SIZE, ProgramOf(fs)) { SitesInside(UserImage(main), ProgramOf(fs)); }
  }

  lemma SitesInside(g: Form, p: Program)
    ensures Inside(SitesFrom(StartSize(g), p, 0, KData), 0, |CodeP(g, p, Links(Addrs(StartSize(g), p), -1))|)
  {
    hide CodeP, Addrs, SitesFrom, PatchSites, Inside, StartSize;
    var k, sites := Links(Addrs(StartSize(g), p), -1), SitesFrom(StartSize(g), p, 0, KData);
    var t := CodeP(g, p, k);
    LinkData(g, p, 0, if Inside(sites, 0, |t|) then PatchSites(t, 0, sites, KData, Ctx(-1, false, k.(data := 0)))
      else t);
  }

  lemma Room(textLen: nat)
    requires textLen <= Emission.TEXT_MAX
    ensures AlignUp(textLen) <= Emission.TEXT_MAX
  {
  }

  lemma BuiltImage(fs: seq<Decl>, main: nat, t0: seq<byte>, data: seq<byte>, addrs: seq<nat>, refs: seq<Site>,
      t: seq<byte>, bytes: seq<byte>)
    requires Source(fs) && C.Compiled(false, fs, true, main, t0, data, addrs, refs)
      && |t0| == |t| <= Emission.TEXT_MAX && |data| <= DATA_MAX
    requires Inside(refs, 0, |t0|) ==> t == PatchSites(t0, 0, refs, KData, Ctx(-1, false, Links(addrs, AlignUp(|t0|))))
    requires bytes == ImageOf(t, data)
    ensures Fits(START_SIZE, ParseFrom(fs, 0, []).value.0) ==> ImageFor(fs, bytes)
  {
    hide ParseFrom, FindFunc, Fits, ImageOf, CodeP, Addrs, SitesFrom, PatchSites, AlignUp;
    var p := ParseFrom(fs, 0, []).value.0;
    if Fits(START_SIZE, p) {
      LinkedSize(p, main, Links(Addrs(START_SIZE, p), -1));
      LinkData(UserImage(main), p, AlignUp(|t0|), t);
    }
  }

  // ----- the loaded program -----

  /** The first n bytes that a process sees from USER_BASE on. */
  function TextSeen(ts: PageTables.Tables, ram: Ownership.Ram, root: nat, n: nat): seq<byte> {
    seq<byte>(n, i requires 0 <= i < n => ByteSeen(ts, ram, root, UM.USER_BASE + i))
  }

  function ByteSeen(ts: PageTables.Tables, ram: Ownership.Ram, root: nat, v: nat): byte {
    match Ownership.Seen(ts, ram, root, v) { case Some(b) => b case None => 0 }
  }

  /** The machine that runs a loaded process: its text is what the process sees, its stack the eight stack pages. */
  function MachineOf(ts: PageTables.Tables, ram: Ownership.Ram, root: nat, n: nat): Config {
    Config(UM.USER_BASE, TextSeen(ts, ram, root, n), Loader.STACK_TOP - Loader.STACK_PAGES * 4096, Loader.STACK_TOP)
  }

  function WorldOf(ts: PageTables.Tables, ram: Ownership.Ram, root: nat, p: Program, data: seq<byte>,
      room: nat): World {
    var n := AlignUp(Addr(START_SIZE, p, |p|));
    World(MachineOf(ts, ram, root, n), p, Links(Addrs(START_SIZE, p), n), |data|, room)
  }

  /** A process that runs the image of a text and data sees the padded text at USER_BASE and the data behind it. */
  lemma SeenImage(ts: PageTables.Tables, ram: Ownership.Ram, proc: UM.Proc, text: seq<byte>, data: seq<byte>)
    requires 0 < |text| <= 0x8000 && |data| <= 0x8000 && Loader.Runs(ts, ram, proc, ImageOf(text, data))
    ensures proc.entry == UM.USER_BASE && proc.stack == Loader.STACK_TOP - 16
    ensures forall i: nat :: i < AlignUp(|text|) ==>
      Ownership.Seen(ts, ram, proc.root, UM.USER_BASE + i) == Some(Padded(text)[i])
    ensures forall i: nat :: i < |data| ==>
      Ownership.Seen(ts, ram, proc.root, UM.USER_BASE + AlignUp(|text|) + i) == Some(data[i])
  {
    hide Ownership.Seen, Accepts, ReadHeader, Padded, ImageOf, Loader.Protected, PageTables.UserPage;
    BuiltAccepted(text, data);
    var image := ImageOf(text, data);
    var h := HeaderFor(text, data);
    Sizes(text, data);
    forall i: nat | i < AlignUp(|text|)
      ensures Ownership.Seen(ts, ram, proc.root, UM.USER_BASE + i) == Some(Padded(text)[i])
    {
      UM.UserRange((UM.USER_BASE + i) / 4096);
    }
    var a := HEADER_SIZE + AlignUp(|text|);
    assert |image[a..]| == |data| && image[a..a + |data|] == image[a..];
    forall i: nat | i < |data|
      ensures Ownership.Seen(ts, ram, proc.root, UM.USER_BASE + AlignUp(|text|) + i) == Some(data[i])
    {
      UM.UserRange((UM.USER_BASE + AlignUp(|text|) + i) / 4096);
    }
  }

  lemma Sizes(text: seq<byte>, data: seq<byte>)
    requires 0 < |text| <= 0x8000 && |data| <= 0x8000
    ensures var h := HeaderFor(text, data);
      && Loader.Mid(h) * 4096 == UM.USER_BASE + AlignUp(|text|) && AlignUp(|text|) <= 0x8000
      && Loader.Mid(h) * 4096 + |data| <= Loader.End(h) * 4096 <= UM.USER_BASE + 0x20000
  {
  }

  lemma TextSeenIs(ts: PageTables.Tables, ram: Ownership.Ram, root: nat, text: seq<byte>)
    requires forall i: nat :: i < AlignUp(|text|) ==>
      Ownership.Seen(ts, ram, root, UM.USER_BASE + i) == Some(Padded(text)[i])
    ensures TextSeen(ts, ram, root, AlignUp(|text|)) == Padded(text) && Has(Padded(text), 0, text)
  {
    hide Ownership.Seen, Padded;
    var t := TextSeen(ts, ram, root, AlignUp(|text|));
    forall i | 0 <= i < |t| ensures t[i] == Padded(text)[i] {
      assert t[i] == ByteSeen(ts, ram, root, UM.USER_BASE + i);
    }
    PaddedHas(text);
  }

  lemma PaddedHas(text: seq<byte>)
    ensures Has(Padded(text), 0, text)
  {
  }

  lemma LoadedBoots(fs: seq<Decl>, image: seq<byte>, ts: PageTables.Tables, ram: Ownership.Ram, proc: UM.Proc,
      m: State, room: nat, depth: nat)
    requires Source(fs) && FindFunc(fs, "main").Some? && ParseFrom(fs, 0, []).Some? && ImageFor(fs, image)
    requires Loader.Runs(ts, ram, proc, image) && m.rip == proc.entry && m.rsp == proc.stack
    requires forall f :: f in ParseFrom(fs, 0, []).value.0 ==> Need(f) <= room
    requires Reserve(room, depth) + room <= Loader.STACK_PAGES * 4096 - 16
    ensures var (p, data) := ParseFrom(fs, 0, []).value;
      Whole.Booted(WorldOf(ts, ram, proc.root, p, data, room), FindFunc(fs, "main").value, m, depth)
    ensures var (p, data) := ParseFrom(fs, 0, []).value;
      forall i: nat :: i < |data| ==>
        Ownership.Seen(ts, ram, proc.root, UM.USER_BASE + AlignUp(Addr(START_SIZE, p, |p|)) + i) == Some(data[i])
  {
    hide ParseFrom, FindFunc, Fits, ImageOf, CodeP, Addrs, Addr, Padded, AlignUp, Ownership.Seen, Loader.Runs,
         TextSeen, WfP, WfF, Need, Reserve;
    var (p, data) := ParseFrom(fs, 0, []).value;
    var main := FindFunc(fs, "main").value;
    LinkedSize(p, main, Links(Addrs(START_SIZE, p), AlignUp(Addr(START_SIZE, p, |p|))));
    SeenImage(ts, ram, proc, Linked(p, main), data);
    TextSeenIs(ts, ram, proc.root, Linked(p, main));
    ParseWf.ParsedWf(fs);
    Room(|Linked(p, main)|);
    var w := WorldOf(ts, ram, proc.root, p, data, room);
    assert w.Base();
  }

  /**
   The compiler, the image format, the loader and the machine together. A process that runs the image built
   from a source sees every data item where the compiled code expects it, and does exactly what the source
   program does, provided the program never reads an unset variable nor nests too deep for its stack.
   */
  lemma CompileLoadRun(fs: seq<Decl>, image: seq<byte>, ts: PageTables.Tables, ram: Ownership.Ram, proc: UM.Proc,
                       m: State, room: nat, depth: nat)
    requires Source(fs) && FindFunc(fs, "main").Some? && ParseFrom(fs, 0, []).Some? && ImageFor(fs, image)
    requires Loader.Runs(ts, ram, proc, image) && m.rip == proc.entry && m.rsp == proc.stack
    requires forall f :: f in ParseFrom(fs, 0, []).value.0 ==> Need(f) <= room
    requires Reserve(room, depth) + room <= Loader.STACK_PAGES * 4096 - 16
    ensures var (p, data) := ParseFrom(fs, 0, []).value; var main := FindFunc(fs, "main").value;
      var w := WorldOf(ts, ram, proc.root, p, data, room);
      && w.Base() && p[main].isMain && WfF(p, |data|, p[main])
      && (forall i: nat :: i < |data| ==> Ownership.Seen(ts, ram, proc.root, w.DataBase() + i) == Some(data[i]))
      && (Whole.Sound(w, main, Whole.InitialArgs(m, p[main].argc), depth) ==> Whole.Preserved(w, main, m, depth))
  {
    hide ParseFrom, FindFunc, Fits, ImageFor, CodeP, Addrs, Addr, AlignUp, Ownership.Seen, Loader.Runs, TextSeen, WfP,
         WfF, Need, Reserve, Has, Whole.Preserved, Whole.Sound, Whole.InitialArgs;
    var (p, data) := ParseFrom(fs, 0, []).value;
    var main := FindFunc(fs, "main").value;
    var w := WorldOf(ts, ram, proc.root, p, data, room);
    LoadedBoots(fs, image, ts, ram, proc, m, room, depth);
    Whole.WfAt(p, |data|, main);
    if Whole.Sound(w, main, Whole.InitialArgs(m, p[main].argc), depth) {
      Whole.SemanticPreservation(w, main, m, depth);
    }
  }

  /** A lea of site s leaves in rax the address at which the process sees the site's data item. */
  ghost predicate LeaSees(ts: PageTables.Tables, ram: Ownership.Ram, root: nat, c: Config, base: nat, data: seq<byte>,
      s: Site, m: State) {
    && s.arg <= |data| && c.base + base + s.arg < 0x1_0000_0000_0000_0000
    && (forall j :: s.arg <= j < |data| ==> Ownership.Seen(ts, ram, root, c.base + base + j) == Some(data[j]))
    && (m.rip == c.base + s.patch - 3 ==> Reach(c, m, 1, m.(rax := c.base + base + s.arg, rip := U(m.rip + 7)), 1))
  }

  /** In a process that runs a compiled image, every lea yields the loaded address of its own data item. */
  lemma UserLea(fs: seq<Decl>, image: seq<byte>, ts: PageTables.Tables, ram: Ownership.Ram, proc: UM.Proc, i: nat,
      m: State)
    requires Source(fs) && FindFunc(fs, "main").Some? && ParseFrom(fs, 0, []).Some? && ImageFor(fs, image)
    requires Loader.Runs(ts, ram, proc, image)
    ensures var p, data := ProgramOf(fs), DataOf(fs); var sites := SitesFrom(START_SIZE, p, 0, KData);
      i < |sites| ==>
        LeaSees(ts, ram, proc.root, WorldOf(ts, ram, proc.root, p, data, 0).c, AlignUp(Addr(START_SIZE, p, |p|)),
          data, sites[i], m)
  {
    hide ParseFrom, FindFunc, Fits, ImageOf, CodeP, Addrs, Addr, Padded, AlignUp, Ownership.Seen, Loader.Runs,
         TextSeen, WfP, DR.Leas, DR.LeaAt, SitesFrom, Reach, Has;
    var p, data, main := ProgramOf(fs), DataOf(fs), FindFunc(fs, "main").value;
    var sites, n := SitesFrom(START_SIZE, p, 0, KData), AlignUp(Addr(START_SIZE, p, |p|));
    var k := Links(Addrs(START_SIZE, p), n);
    LinkedSize(p, main, k);
    SeenImage(ts, ram, proc, Linked(p, main), data);
    TextSeenIs(ts, ram, proc.root, Linked(p, main));
    Room(|Linked(p, main)|);
    ParseWf.ParsedWf(fs);
    DR.RefersFrom(START_SIZE, p, 0, |data|);
    DR.LeasP(UserImage(main), p, k);
    if i < |sites| {
      var c := WorldOf(ts, ram, proc.root, p, data, 0).c;
      DR.LeaInText(Linked(p, main), c.text, sites, i, k);
      DR.LeaInside(c.text, sites[i], k);
      if m.rip == c.base + sites[i].patch - 3 { DR.LeaRuns(c, sites[i], k, m); }
      forall j | sites[i].arg <= j < |data| ensures Ownership.Seen(ts, ram, proc.root, c.base + n + j) ==
        Some(data[j]) {}
    }
  }
}
