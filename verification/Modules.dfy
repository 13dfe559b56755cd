/**
 From source tokens to a loaded kernel module: what the compiler builds, the module loader accepts and places
 on whatever pages it gets, and every function then does there what the source says.
 */
module Modules {
  import opened Words
  import opened X86
  import opened Machine
  import opened OreLang
  import opened Codegen
  import opened Relink
  import opened Frames
  import opened SimExpr
  import opened Simulation
  import opened Parser
  import opened EmissionP
  import opened Image
  import opened Kmod
  import opened DataRefs
  import Emission
  import Whole
  import ParseWf
  import C = Compiler
  import E = EndToEnd
  import SS = SourceSize

  /** A module's functions stand at the start of its text, its data right behind the padded text. */
  function ModuleLinks(p: Program): Links { Links(Addrs(0, p), AlignUp(Addr(0, p, |p|))) }

  function ModuleText(p: Program): seq<byte> { CodeP(KernelModule, p, ModuleLinks(p)) }

  ghost predicate InText(p: Program) { forall i :: 0 <= i < |p| ==> Addrs(0, p)[i] <= Emission.TEXT_MAX }

  /** The module file of a source that parses, has its entry and fits the compiler's tables. */
  ghost predicate ModuleFor(fs: seq<Decl>, name: seq<byte>, file: seq<byte>)
    requires E.Source(fs) && C.KernelTarget(fs) && ParseFrom(fs, 0, []).Some? && |name| == 32
  {
    var p, data, init := E.ProgramOf(fs), E.DataOf(fs), FindFunc(fs, "module_init").value;
    && |data| <= DATA_MAX && Fits(0, p) && InText(p) && |ModuleText(p)| == Addr(0, p, |p|)
    && file == KImageOf(ModuleText(p), data, Addrs(0, p)[init], C.CommandAddr(fs, Addrs(0, p)), name)
  }

  /**
   Compile a module source and write its file; the writes stay inside the buffer if and only if the file fits, and
   always do when the bodies are separate parts of a text that fits the source buffer.
   */
  method BuildModule(fs: seq<Decl>, name: seq<byte>, image: array<byte>)
    returns (ok: bool, len: nat, inside: bool, safe: bool)
    requires E.Source(fs) && |name| == 32 && image.Length == IMAGE_MAX
    modifies image
    ensures ok == (C.KernelTarget(fs) && ParseFrom(fs, 0, []).Some?)
    ensures ok && Fits(0, E.ProgramOf(fs)) ==>
              (inside <==> Addr(0, E.ProgramOf(fs), |fs|) <= 0x7000 || |E.DataOf(fs)| <= 0x8000 - KMOD_HEADER)
    ensures ok && SS.Separate(fs) ==> inside
    ensures ok && Fits(0, E.ProgramOf(fs)) ==> safe
    ensures ok && inside ==> len <= image.Length && (Fits(0, E.ProgramOf(fs)) ==> ModuleFor(fs, name, image[..len]))
  {
    hide ParseFrom, FindFunc, Fits, KImageOf, CodeP, Addrs, Addr, SitesFrom, PatchSites, AlignUp, C.CommandAddr,
         SS.Separate;
    var c := new C.Orec(fs);
    var entry;
    ok, entry := c.CompileSource(true);
    len, inside, safe := 0, true, true;
    if !ok { return; }
    ghost var text, refs := c.Text(), c.refs;
    ghost var p := E.ProgramOf(fs);
    if Fits(0, p) {
      TextSize(p, Links(Addrs(0, p), -1));
      E.SitesInside(KernelModule, p);
    }
    len, inside := c.BuildModule(image, entry, name);
    safe := c.safe;
    ImageFits(KMOD_HEADER, c.textLen, |c.data|);
    if SS.Separate(fs) { SS.DataFits(fs); }
    if Fits(0, p) {
      TextSize(p, ModuleLinks(p));
      LinkData(KernelModule, p, AlignUp(|text|), c.Text());
    }
  }

  lemma TextSize(p: Program, k: Links)
    ensures |CodeP(KernelModule, p, k)| == Addr(0, p, |p|)
  {
    hide CodeFrom;
    LenFrom(0, p, 0, k);
  }

  lemma {:induction false} AddrBelow(p: Program, i: nat, j: nat)
    requires i < j <= |p|
    ensures Addr(0, p, i) < Addr(0, p, j)
    decreases j
  {
    hide SizeF;
    Nonempty(p[j - 1]);
    if i < j - 1 { AddrBelow(p, i, j - 1); }
  }

  lemma Nonempty(f: Func)
    ensures SizeF(f) > 0
  {
    PrologueLen(FrameSize(f));
  }

  /** The loader accepts the file of a module, reads back its entry and command, and its sections do not wrap. */
  lemma ModuleAccepted(fs: seq<Decl>, name: seq<byte>, file: seq<byte>)
    requires E.Source(fs) && C.KernelTarget(fs) && ParseFrom(fs, 0, []).Some? && |name| == 32
      && ModuleFor(fs, name, file)
    ensures KAccepts(file) && Plain(file) && Modest(file)
    ensures var p, h := E.ProgramOf(fs), KRead(file);
      && h.entry == Addr(0, p, FindFunc(fs, "module_init").value) && h.textSize == AlignUp(Addr(0, p, |p|))
         && h.bssSize == 0
      && h.dataSize == |E.DataOf(fs)|
      && h.command == var c := FindFunc(fs, "command_main");
         if c.Some? then Addr(0, p, c.value) else 0xffff_ffff_ffff_ffff
  {
    hide ParseFrom, FindFunc, KImageOf, CodeP, Addr, SitesFrom, AlignUp, KRead, KAccepts, Plain, KMemory, Padded,
         Zeros, Modest;
    var p, data, init := E.ProgramOf(fs), E.DataOf(fs), FindFunc(fs, "module_init").value;
    AddrBelow(p, init, |p|);
    KBuiltLoads(ModuleText(p), data, Addr(0, p, init), C.CommandAddr(fs, Addrs(0, p)), name,
      AlignUp(Addr(0, p, |p|)) + |data|);
    AcceptedPlain(file);
  }

  /** Placed on pages, the module's text is followed by zeros up to a page border, then by its data, then by zeros. */
  lemma ModulePlaced(fs: seq<Decl>, name: seq<byte>, file: seq<byte>, bytes: nat)
    requires E.Source(fs) && C.KernelTarget(fs) && ParseFrom(fs, 0, []).Some? && |name| == 32
      && ModuleFor(fs, name, file)
    requires Plain(file) && KRead(file).textSize + KRead(file).dataSize <= bytes
    ensures var p, data := E.ProgramOf(fs), E.DataOf(fs);
      && AlignUp(Addr(0, p, |p|)) + |data| <= bytes
      && KMemory(file, bytes) == Padded(ModuleText(p)) + data + Zeros(bytes - AlignUp(Addr(0, p, |p|)) - |data|)
  {
    hide ParseFrom, FindFunc, KImageOf, CodeP, Addr, SitesFrom, AlignUp, KRead, KAccepts, Plain, KMemory, Padded,
         Zeros, Modest;
    ModuleAccepted(fs, name, file);
    var p, data, init := E.ProgramOf(fs), E.DataOf(fs), FindFunc(fs, "module_init").value;
    AddrBelow(p, init, |p|);
    KBuiltLoads(ModuleText(p), data, Addr(0, p, init), C.CommandAddr(fs, Addrs(0, p)), name, bytes);
  }

  /** The module has been placed in mem, which the kernel sees from c.base on, and runs on the stack of c. */
  ghost predicate LoadedAt(fs: seq<Decl>, name: seq<byte>, file: seq<byte>, mem: seq<byte>, c: Config)
    requires E.Source(fs) && C.KernelTarget(fs) && ParseFrom(fs, 0, []).Some? && |name| == 32
  {
    && ModuleFor(fs, name, file) && Plain(file) && KRead(file).textSize + KRead(file).dataSize <= |mem|
    && mem == KMemory(file, |mem|) && c.Valid() && c.base + |mem| < 0x1_0000_0000_0000_0000
    && KRead(file).textSize <= |mem| && c.text == mem[..KRead(file).textSize]
  }

  function ModuleWorld(fs: seq<Decl>, c: Config, room: nat): World
    requires E.Source(fs) && ParseFrom(fs, 0, []).Some?
  {
    World(c, E.ProgramOf(fs), ModuleLinks(E.ProgramOf(fs)), |E.DataOf(fs)|, room)
  }

  /** Wherever it is loaded, a module has its linked text at the base and its data behind the padded text. */
  lemma LoadedParts(fs: seq<Decl>, name: seq<byte>, file: seq<byte>, mem: seq<byte>, c: Config)
    requires E.Source(fs) && C.KernelTarget(fs) && ParseFrom(fs, 0, []).Some? && |name| == 32
      && LoadedAt(fs, name, file, mem, c)
    ensures var p, data := E.ProgramOf(fs), E.DataOf(fs); var d := AlignUp(Addr(0, p, |p|));
      && d + |data| <= |mem| && |data| <= DATA_MAX && d <= Emission.TEXT_MAX && Has(c.text, 0, ModuleText(p))
      && mem[d..d + |data|] == data
  {
    hide ParseFrom, FindFunc, KImageOf, CodeP, Addr, SitesFrom, KRead, KAccepts, Plain, KMemory, Padded, Zeros, Modest;
    ModuleAccepted(fs, name, file);
    ModulePlaced(fs, name, file, |mem|);
    var p, data := E.ProgramOf(fs), E.DataOf(fs);
    var d := AlignUp(Addr(0, p, |p|));
    PaddedSize(ModuleText(p));
    assert c.text == Padded(ModuleText(p));
    E.PaddedHas(ModuleText(p));
  }

  /**
   At every load address, each lea of the module leaves in rax the address its data item has there, and the
   bytes found there are the item's.
   */
  lemma ModuleLea(fs: seq<Decl>, name: seq<byte>, file: seq<byte>, mem: seq<byte>, c: Config, i: nat, m: State)
    requires E.Source(fs) && C.KernelTarget(fs) && ParseFrom(fs, 0, []).Some? && |name| == 32
      && LoadedAt(fs, name, file, mem, c)
    ensures var p := E.ProgramOf(fs); var sites := SitesFrom(0, p, 0, KData);
      i < |sites| ==> LeaLoads(c, mem, AlignUp(Addr(0, p, |p|)), E.DataOf(fs), sites[i], m)
  {
    hide ParseFrom, FindFunc, CodeP, Addr, SitesFrom, Leas, Has, LoadedAt, AlignUp, WfP, LeaAt;
    var p, data := E.ProgramOf(fs), E.DataOf(fs);
    var sites, k := SitesFrom(0, p, 0, KData), ModuleLinks(p);
    LoadedParts(fs, name, file, mem, c);
    LoadedValid(fs, name, file, mem, c);
    ParseWf.ParsedWf(fs);
    RefersFrom(0, p, 0, |data|);
    LeasP(KernelModule, p, k);
    if i < |sites| {
      LeaInText(ModuleText(p), c.text, sites, i, k);
      LeaResult(c, mem, data, sites[i], k, m);
    }
  }

  lemma LoadedValid(fs: seq<Decl>, name: seq<byte>, file: seq<byte>, mem: seq<byte>, c: Config)
    requires E.Source(fs) && C.KernelTarget(fs) && ParseFrom(fs, 0, []).Some? && |name| == 32
      && LoadedAt(fs, name, file, mem, c)
    ensures c.Valid() && c.base + |mem| < 0x1_0000_0000_0000_0000
  {
  }

  /** Every function of a loaded module stands at its address. */
  lemma ModuleOk(fs: seq<Decl>, name: seq<byte>, file: seq<byte>, mem: seq<byte>, c: Config, room: nat)
    requires E.Source(fs) && C.KernelTarget(fs) && ParseFrom(fs, 0, []).Some? && |name| == 32
      && LoadedAt(fs, name, file, mem, c)
    requires forall f :: f in E.ProgramOf(fs) ==> Need(f) <= room
    ensures ModuleWorld(fs, c, room).Ok()
  {
    hide ParseFrom, FindFunc, CodeF, CodeFrom, Has, LoadedAt, AlignUp, WfF, Need, SizeF;
    var w := ModuleWorld(fs, c, room);
    LoadedParts(fs, name, file, mem, c);
    LoadedValid(fs, name, file, mem, c);
    ParseWf.ParsedWf(fs);
    assert [] + CodeFrom(0, w.p, 0, w.k) == CodeFrom(0, w.p, 0, w.k);
    forall i | 0 <= i < |w.p|
      ensures w.Placed(i)
    {
      Whole.PlacedFrom(0, w.p, w.k, w.c.text, 0, i);
      assert w.p[i] in w.p;
    }
  }

  /**
   The kernel's call of a loaded module at the entry its header names runs the source function module_init
   on the argument in rdi: it returns that function's value with the caller's registers and stack restored,
   or stops as the function does.
   */
  lemma ModuleInit(fs: seq<Decl>, name: seq<byte>, file: seq<byte>, mem: seq<byte>, c: Config, room: nat, api: i64,
      m: State,
                   depth: nat, clock: nat) returns (n: nat, m': State)
    requires E.Source(fs) && C.KernelTarget(fs) && ParseFrom(fs, 0, []).Some? && |name| == 32
      && LoadedAt(fs, name, file, mem, c)
    requires forall f :: f in E.ProgramOf(fs) ==> Need(f) <= room
    requires m.rip == c.base + KRead(file).entry && m.rdi == U(api) && m.rsp % 8 == 0 && m.rsp + 8 <= c.high
    requires c.low + Reserve(room, depth) + room <= m.rsp + 8
    ensures var w, f := ModuleWorld(fs, c, room), E.ProgramOf(fs)[FindFunc(fs, "module_init").value];
      && w.Ok() && f.argc == 1 <= |f.sizes|
      && PostCall(w, m, n, m', Finish(f, ExecStmt(w.p, w.DataBase(), f.body, Bind([api], f.sizes), depth, clock)),
         clock)
  {
    hide ParseFrom, FindFunc, Has, LoadedAt, AlignUp, Need, KRead, World.Ok, ExecStmt, Bind, Reserve, Finish, PostCall,
         WfS, WfP;
    ModuleOk(fs, name, file, mem, c, room);
    LoadedEntry(fs, name, file, mem, c);
    ParseWf.ParsedWf(fs);
    var w, init := ModuleWorld(fs, c, room), FindFunc(fs, "module_init").value;
    n, m' := SimF(w, init, [api], m, depth, clock);
  }

  lemma LoadedEntry(fs: seq<Decl>, name: seq<byte>, file: seq<byte>, mem: seq<byte>, c: Config)
    requires E.Source(fs) && C.KernelTarget(fs) && ParseFrom(fs, 0, []).Some? && |name| == 32
      && LoadedAt(fs, name, file, mem, c)
    ensures KRead(file).entry == Addr(0, E.ProgramOf(fs), FindFunc(fs, "module_init").value)
  {
    hide ParseFrom, FindFunc, KRead, Addr, KAccepts, Plain, Modest;
    ModuleAccepted(fs, name, file);
  }
}
