/**
 Data references in linked text: where each rip-relative lea stands, and what it computes wherever the text is loaded.
 */
module DataRefs {
  import opened Words
  import opened X86
  import opened Machine
  import opened OreLang
  import opened Codegen
  import opened Relink
  import opened Frames
  import opened SimExpr
  import E = Emission
  import EP = EmissionP

  /** The field of a site belongs to a lea that refers to the site's data offset. */
  ghost predicate LeaAt(code: seq<byte>, base: int, s: Site, k: Links) {
    Has(code, s.patch - 3 - base, Encode(LeaRip(DataRel(k, s.arg, s.patch))))
  }

  ghost predicate Leas(code: seq<byte>, base: int, sites: seq<Site>, k: Links) {
    forall i :: 0 <= i < |sites| ==> LeaAt(code, base, sites[i], k)
  }

  lemma HasMore(a: seq<byte>, b: seq<byte>, at: int, x: seq<byte>)
    requires Has(b, at, x)
    ensures Has(a + b, |a| + at, x)
  {
    var s := a + b;
    assert s[|a| + at..|a| + at + |x|] == b[at..at + |x|];
  }

  lemma HasBefore(a: seq<byte>, b: seq<byte>, at: int, x: seq<byte>)
    requires Has(a, at, x)
    ensures Has(a + b, at, x)
  {
    var s := a + b;
    assert s[at..at + |x|] == a[at..at + |x|];
  }

  /** Two pieces of code and their sites, one after the other. */
  lemma LeasConcat(a: seq<byte>, b: seq<byte>, base: int, x: seq<Site>, y: seq<Site>, k: Links)
    requires Leas(a, base, x, k) && Leas(b, base + |a|, y, k)
    ensures Leas(a + b, base, x + y, k)
  {
    hide Has, Encode, DataRel;
    forall i | 0 <= i < |x + y|
      ensures LeaAt(a + b, base, (x + y)[i], k)
    {
      var s := (x + y)[i];
      var lea := Encode(LeaRip(DataRel(k, s.arg, s.patch)));
      if i < |x| {
        assert LeaAt(a, base, x[i], k);
        HasBefore(a, b, s.patch - 3 - base, lea);
      } else {
        assert LeaAt(b, base + |a|, y[i - |x|], k);
        HasMore(a, b, s.patch - 3 - base - |a|, lea);
      }
    }
  }

  lemma LeasAfter(a: seq<byte>, b: seq<byte>, base: int, y: seq<Site>, k: Links)
    requires Leas(b, base + |a|, y, k)
    ensures Leas(a + b, base, y, k)
  {
    hide LeaAt;
    LeasConcat(a, b, base, [], y, k);
    assert [] + y == y;
  }

  lemma LeasBefore(a: seq<byte>, b: seq<byte>, base: int, x: seq<Site>, k: Links)
    requires Leas(a, base, x, k)
    ensures Leas(a + b, base, x, k)
  {
    hide LeaAt;
    LeasConcat(a, b, base, x, [], k);
    assert x + [] == x;
  }

  lemma {:induction false} LeasE(e: Expr, at: nat, k: Links)
    ensures Leas(CodeE(e, at, k), at, SitesE(e, at, KData), k)
    decreases e
  {
    hide LeaAt, Leas, Encode, Bytes, UnAsm, BinAsm, PopArgs, LoadVar, AsmLen;
    match e
    case Data(off) => LeaItself(off, at, k);
    case Un(op, a) =>
      LeasE(a, at, k);
      LeasBefore(CodeE(a, at, k), Bytes(UnAsm(op)), at, SitesE(a, at, KData), k);
    case Bin(op, a, b) =>
      LeasBin(op, a, b, at, k);
    case Call(fn, args) =>
      LeasA(args, at, k);
      var pops := PopArgs(ArgCount(args));
      var rest := Bytes(pops) + Encode(CallNear(CallRel(k, fn, at + SizeA(args) + AsmLen(pops) + 1)));
      LeasBefore(CodeA(args, at, k), rest, at, SitesA(args, at, KData), k);
      assert SitesA(args, at, KData) + [] == SitesA(args, at, KData);
    case _ => LeasNone(CodeE(e, at, k), at, k);
  }

  lemma LeaItself(off: nat, at: nat, k: Links)
    ensures Leas(CodeE(Data(off), at, k), at, [Site(at + 3, off)], k)
  {
    hide Encode;
    var x := Encode(LeaRip(DataRel(k, off, at + 3)));
    assert x[0..|x|] == x;
    assert LeaAt(x, at, Site(at + 3, off), k);
  }

  lemma LeasNone(code: seq<byte>, at: int, k: Links)
    ensures Leas(code, at, [], k)
  {
  }

  lemma {:induction false} LeasBin(op: BinOp, a: Expr, b: Expr, at: nat, k: Links)
    ensures Leas(CodeE(Bin(op, a, b), at, k), at, SitesE(Bin(op, a, b), at, KData), k)
    decreases Bin(op, a, b), 0
  {
    hide LeaAt, Leas, Encode, Bytes, BinAsm, CodeE, SitesE, SizeE;
    var at1 := at + SizeE(a) + 1;
    E.BinCode(op, a, b, at, k);
    E.BinSites(op, a, b, at, KData);
    LeasE(a, at, k);
    LeasE(b, at1, k);
    LenE(a, at, k);
    PushLen();
    var ca, cb, y := CodeE(a, at, k), CodeE(b, at1, k), SitesE(b, at1, KData);
    LeasBefore(cb, Bytes(BinAsm(op)), at1, y, k);
    LeasAfter(Encode(Push(RAX)), cb + Bytes(BinAsm(op)), at + |ca|, y, k);
    LeasConcat(ca, Encode(Push(RAX)) + (cb + Bytes(BinAsm(op))), at, SitesE(a, at, KData), y, k);
  }

  lemma PushLen()
    ensures |Encode(Push(RAX))| == 1
  {
  }

  lemma {:induction false} LeasA(args: Args, at: nat, k: Links)
    ensures Leas(CodeA(args, at, k), at, SitesA(args, at, KData), k)
    decreases args
  {
    hide LeaAt, Leas, Encode, CodeE, SitesE;
    match args
    case NoArgs => LeasNone([], at, k);
    case Arg(e, tl) =>
      var at1 := at + SizeE(e) + 1;
      LeasE(e, at, k);
      LeasA(tl, at1, k);
      LenE(e, at, k);
      PushLen();
      var ce, ct, y := CodeE(e, at, k), CodeA(tl, at1, k), SitesA(tl, at1, KData);
      LeasAfter(Encode(Push(RAX)), ct, at + |ce|, y, k);
      LeasConcat(ce, Encode(Push(RAX)) + ct, at, SitesE(e, at, KData), y, k);
  }

  lemma {:induction false} LeasS(s: Stmt, at: nat, c: Ctx)
    ensures Leas(CodeS(s, at, c), at, SitesS(s, at, c.main, KData), c.k)
    decreases s
  {
    hide LeaAt, Leas, Encode, Bytes, CodeE, SitesE, SizeE, ReturnRax, StoreVar, ZeroCode, JmpCode, IfCode, IfElseCode,
         WhileCode, SizeS;
    match s
    case Seq(a, b) => LeasSeq(a, b, at, c);
    case Assign(slot, size, e) =>
      LeasE(e, at, c.k);
      LeasBefore(CodeE(e, at, c.k), Encode(StoreVar(slot, size)), at, SitesE(e, at, KData), c.k);
    case If(e, t) => LeasThen(e, t, at, c);
    case IfElse(e, t, f) => LeasIfElse(e, t, f, at, c);
    case While(e, b) => LeasLoop(e, b, at, c);
    case Return(e) =>
      LeasE(e, at, c.k);
      LeasBefore(CodeE(e, at, c.k), Bytes(ReturnRax(c.main)), at, SitesE(e, at, KData), c.k);
    case Do(e) => LeasE(e, at, c.k);
    case _ => LeasNone(CodeS(s, at, c), at, c.k);
  }

  lemma {:induction false} LeasSeq(a: Stmt, b: Stmt, at: nat, c: Ctx)
    ensures Leas(CodeS(Seq(a, b), at, c), at, SitesS(Seq(a, b), at, c.main, KData), c.k)
    decreases Seq(a, b), 0
  {
    hide LeaAt, Leas, SizeS, CodeS, SitesS;
    var at1 := at + SizeS(a, c.main);
    SeqBytes(a, b, at, c);
    SeqSites(a, b, at, c.main, KData);
    LeasS(a, at, c);
    LeasS(b, at1, c);
    LenS(a, at, c);
    LeasConcat(CodeS(a, at, c), CodeS(b, at1, c), at, SitesS(a, at, c.main, KData), SitesS(b, at1, c.main, KData), c.k);
  }

  lemma {:induction false} LeasThen(e: Expr, t: Stmt, at: nat, c: Ctx)
    ensures Leas(CodeS(If(e, t), at, c), at, SitesS(If(e, t), at, c.main, KData), c.k)
    decreases If(e, t), 0
  {
    hide LeaAt, Leas, CodeE, SitesE, SizeE, IfCode, SizeS, CodeS, SitesS;
    var at1 := at + SizeE(e) + 10;
    IfBytes(e, t, at, c);
    IfSites(e, t, at, c.main, KData);
    LeasE(e, at, c.k);
    LeasS(t, at1, c);
    LenE(e, at, c.k);
    LeasIf(CodeE(e, at, c.k), CodeS(t, at1, c), at, SitesE(e, at, KData), SitesS(t, at1, c.main, KData), c.k);
  }

  lemma {:induction false} LeasLoop(e: Expr, b: Stmt, at: nat, c: Ctx)
    ensures Leas(CodeS(While(e, b), at, c), at, SitesS(While(e, b), at, c.main, KData), c.k)
    decreases While(e, b), 0
  {
    hide LeaAt, Leas, CodeE, SitesE, SizeE, WhileCode, SizeS, CodeS, SitesS;
    var at1, c1 := at + SizeE(e) + 10, c.(brk := at + SizeS(While(e, b), c.main));
    WhileBytes(e, b, at, c);
    WhileSites(e, b, at, c.main, KData);
    LeasE(e, at, c.k);
    LeasS(b, at1, c1);
    LenE(e, at, c.k);
    LeasWhile(CodeE(e, at, c.k), CodeS(b, at1, c1), at, SitesE(e, at, KData), SitesS(b, at1, c.main, KData), c.k);
  }

  lemma LeasIf(ce: seq<byte>, ct: seq<byte>, at: int, x: seq<Site>, y: seq<Site>, k: Links)
    requires Leas(ce, at, x, k) && Leas(ct, at + |ce| + 10, y, k)
    ensures Leas(IfCode(ce, ct), at, x + y, k)
  {
    hide LeaAt, Leas, TestCode;
    TestLen(|ct|);
    LeasAfter(TestCode(|ct|), ct, at + |ce|, y, k);
    LeasConcat(ce, TestCode(|ct|) + ct, at, x, y, k);
  }

  lemma TestLen(rel: int)
    ensures |TestCode(rel)| == 10 && |JmpCode(rel)| == 5
  {
  }

  lemma LeasWhile(ce: seq<byte>, cb: seq<byte>, at: int, x: seq<Site>, y: seq<Site>, k: Links)
    requires Leas(ce, at, x, k) && Leas(cb, at + |ce| + 10, y, k)
    ensures Leas(WhileCode(ce, cb), at, x + y, k)
  {
    hide LeaAt, Leas, TestCode, JmpCode;
    var back := -15 - |ce| - |cb|;
    TestLen(|cb| + 5);
    TestLen(back);
    LeasBefore(cb, JmpCode(back), at + |ce| + 10, y, k);
    LeasAfter(TestCode(|cb| + 5), cb + JmpCode(back), at + |ce|, y, k);
    LeasConcat(ce, TestCode(|cb| + 5) + (cb + JmpCode(back)), at, x, y, k);
  }

  lemma LeasBranches(ce: seq<byte>, ct: seq<byte>, cf: seq<byte>, at: int, x: seq<Site>, y: seq<Site>, z: seq<Site>,
      k: Links)
    requires Leas(ce, at, x, k) && Leas(ct, at + |ce| + 10, y, k) && Leas(cf, at + |ce| + 10 + |ct| + 5, z, k)
    ensures Leas(IfElseCode(ce, ct, cf), at, x + (y + z), k)
  {
    hide LeaAt, Leas, TestCode, JmpCode;
    TestLen(|ct| + 5);
    TestLen(|cf|);
    LeasAfter(JmpCode(|cf|), cf, at + |ce| + 10 + |ct|, z, k);
    LeasConcat(ct, JmpCode(|cf|) + cf, at + |ce| + 10, y, z, k);
    LeasAfter(TestCode(|ct| + 5), ct + (JmpCode(|cf|) + cf), at + |ce|, y + z, k);
    LeasConcat(ce, TestCode(|ct| + 5) + (ct + (JmpCode(|cf|) + cf)), at, x, y + z, k);
  }

  lemma {:induction false} LeasIfElse(e: Expr, t: Stmt, f: Stmt, at: nat, c: Ctx)
    ensures Leas(CodeS(IfElse(e, t, f), at, c), at, SitesS(IfElse(e, t, f), at, c.main, KData), c.k)
    decreases IfElse(e, t, f), 0
  {
    hide LeaAt, Leas, CodeE, SitesE, SizeE, IfElseCode, SizeS, CodeS, SitesS;
    IfElseBytes(e, t, f, at, c);
    IfElseSites(e, t, f, at, c.main, KData);
    var t0 := at + SizeE(e) + 10;
    var f0 := t0 + SizeS(t, c.main) + 5;
    LeasE(e, at, c.k);
    LeasS(t, t0, c);
    LeasS(f, f0, c);
    LenE(e, at, c.k);
    LenS(t, t0, c);
    LeasBranches(CodeE(e, at, c.k), CodeS(t, t0, c), CodeS(f, f0, c), at, SitesE(e, at, KData),
      SitesS(t, t0, c.main, KData),
                 SitesS(f, f0, c.main, KData), c.k);
  }

  lemma LeasF(f: Func, at: nat, k: Links)
    ensures Leas(CodeF(f, at, k), at, SitesF(f, at, KData), k)
  {
    hide LeaAt, Leas, CodeS, SitesS, HeadF, HeadSize, Bytes, FallOff;
    var c, at1 := Ctx(-1, f.isMain, k), at + HeadSize(f);
    var y := SitesF(f, at, KData);
    LeasS(f.body, at1, c);
    HeadLen(f);
    LeasBefore(CodeS(f.body, at1, c), Bytes(FallOff(f.isMain)), at1, y, k);
    LeasAfter(HeadF(f), CodeS(f.body, at1, c) + Bytes(FallOff(f.isMain)), at, y, k);
  }

  lemma HeadLen(f: Func)
    ensures |HeadF(f)| == HeadSize(f)
  {
  }

  lemma {:induction false} LeasFrom(start: nat, p: Program, i: nat, k: Links)
    requires i <= |p|
    ensures Leas(CodeFrom(start, p, i, k), Addr(start, p, i), SitesFrom(start, p, i, KData), k)
    decreases |p| - i
  {
    hide LeaAt, Leas, CodeF, SitesF, SizeF;
    if i == |p| {
      LeasNone([], Addr(start, p, i), k);
    } else {
      LeasF(p[i], Addr(start, p, i), k);
      LenF(p[i], Addr(start, p, i), k);
      LeasFrom(start, p, i + 1, k);
      LeasConcat(CodeF(p[i], Addr(start, p, i), k), CodeFrom(start, p, i + 1, k), Addr(start, p, i),
                 SitesF(p[i], Addr(start, p, i), KData), SitesFrom(start, p, i + 1, KData), k);
    }
  }

  /** Every site of the data-reference table is the field of a lea in the linked text. */
  lemma LeasP(g: Form, p: Program, k: Links)
    ensures Leas(CodeP(g, p, k), 0, SitesFrom(StartSize(g), p, 0, KData), k)
  {
    hide LeaAt, Leas, CodeFrom, SitesFrom, StartCode, StartSize;
    LeasFrom(StartSize(g), p, 0, k);
    EP.StartLen(g, k);
    EP.AddrStart(StartSize(g), p);
    LeasAfter(StartCode(g, k), CodeFrom(StartSize(g), p, 0, k), 0, SitesFrom(StartSize(g), p, 0, KData), k);
  }

  /** Executed at any load address, the lea of a site leaves the loaded address of the site's data in rax. */
  lemma LeaRuns(c: Config, s: Site, k: Links, m: State)
    requires c.Valid() && LeaAt(c.text, 0, s, k) && m.rip == c.base + s.patch - 3 && 0 <= k.data
    requires k.data + s.arg < 0x4000_0000 && c.base + k.data + s.arg < 0x1_0000_0000_0000_0000
    ensures Reach(c, m, 1, m.(rax := c.base + k.data + s.arg, rip := m.rip + 7), 1)
  {
    hide Encode, Run, Has;
    LeaInside(c.text, s, k);
    OneStep(c, m, LeaRip(DataRel(k, s.arg, s.patch)), s.patch - 3,
      m.(rax := c.base + k.data + s.arg, rip := m.rip + 7));
  }

  /**
   In memory that c.base is the start of, data stands at base, and the lea of a site yields the address of its item.
   */
  ghost predicate LeaLoads(c: Config, mem: seq<byte>, base: nat, data: seq<byte>, s: Site, m: State) {
    && s.arg <= |data| && base + |data| <= |mem| && c.base + base + s.arg < 0x1_0000_0000_0000_0000
    && mem[base + s.arg..base + |data|] == data[s.arg..]
    && (m.rip == c.base + s.patch - 3 ==> Reach(c, m, 1, m.(rax := c.base + base + s.arg, rip := U(m.rip + 7)), 1))
  }

  lemma LeaResult(c: Config, mem: seq<byte>, data: seq<byte>, s: Site, k: Links, m: State)
    requires c.Valid() && LeaAt(c.text, 0, s, k) && 0 <= k.data && k.data + |data| <= |mem| && s.arg <= |data|
    requires k.data + |data| < 0x4000_0000 && c.base + |mem| < 0x1_0000_0000_0000_0000
      && mem[k.data..k.data + |data|] == data
    ensures LeaLoads(c, mem, k.data, data, s, m)
  {
    hide Encode, Run, Has, LeaAt, Reach;
    assert mem[k.data + s.arg..k.data + |data|] == mem[k.data..k.data + |data|][s.arg..];
    LeaInside(c.text, s, k);
    if m.rip == c.base + s.patch - 3 { LeaRuns(c, s, k, m); }
  }

  lemma LeaInText(code: seq<byte>, text: seq<byte>, sites: seq<Site>, i: nat, k: Links)
    requires Leas(code, 0, sites, k) && i < |sites| && Has(text, 0, code)
    ensures LeaAt(text, 0, sites[i], k)
  {
    assert LeaAt(code, 0, sites[i], k);
    var x := Encode(LeaRip(DataRel(k, sites[i].arg, sites[i].patch)));
    hide Encode;
    HasBefore(code, text[|code|..], sites[i].patch - 3, x);
    assert text == code + text[|code|..];
  }

  lemma LeaInside(text: seq<byte>, s: Site, k: Links)
    requires LeaAt(text, 0, s, k)
    ensures 3 <= s.patch && s.patch + 4 <= |text|
  {
  }

  // ----- what the sites refer to -----

  /** Every reference is to an offset of the data section. */
  ghost predicate Refers(sites: seq<Site>, dataLen: nat) { forall i :: 0 <= i < |sites| ==> sites[i].arg <= dataLen }

  lemma {:induction false} RefersE(p: Program, d: nat, sizes: seq<Size>, e: Expr, at: nat)
    requires WfE(p, d, sizes, e)
    ensures Refers(SitesE(e, at, KData), d)
    decreases e
  {
    match e
    case Un(_, a) => RefersE(p, d, sizes, a, at);
    case Bin(_, a, b) =>
      RefersE(p, d, sizes, a, at);
      RefersE(p, d, sizes, b, at + SizeE(a) + 1);
    case Call(_, args) => RefersA(p, d, sizes, args, at);
    case _ =>
  }

  lemma {:induction false} RefersA(p: Program, d: nat, sizes: seq<Size>, args: Args, at: nat)
    requires WfA(p, d, sizes, args)
    ensures Refers(SitesA(args, at, KData), d)
    decreases args
  {
    match args
    case NoArgs =>
    case Arg(e, tl) =>
      RefersE(p, d, sizes, e, at);
      RefersA(p, d, sizes, tl, at + SizeE(e) + 1);
  }

  lemma {:induction false} RefersS(p: Program, d: nat, sizes: seq<Size>, s: Stmt, inLoop: bool, at: nat, main: bool)
    requires WfS(p, d, sizes, s, inLoop)
    ensures Refers(SitesS(s, at, main, KData), d)
    decreases s
  {
    hide SitesE, WfE, SizeE, SizeS;
    match s
    case Seq(a, b) =>
      RefersS(p, d, sizes, a, inLoop, at, main);
      RefersS(p, d, sizes, b, inLoop, at + SizeS(a, main), main);
    case Assign(_, _, e) => RefersE(p, d, sizes, e, at);
    case If(e, t) =>
      RefersE(p, d, sizes, e, at);
      RefersS(p, d, sizes, t, inLoop, at + SizeE(e) + 10, main);
    case IfElse(e, t, f) =>
      RefersE(p, d, sizes, e, at);
      RefersS(p, d, sizes, t, inLoop, at + SizeE(e) + 10, main);
      RefersS(p, d, sizes, f, inLoop, at + SizeE(e) + 10 + SizeS(t, main) + 5, main);
    case While(e, b) =>
      RefersE(p, d, sizes, e, at);
      RefersS(p, d, sizes, b, true, at + SizeE(e) + 10, main);
    case Return(e) => RefersE(p, d, sizes, e, at);
    case Do(e) => RefersE(p, d, sizes, e, at);
    case _ =>
  }

  lemma {:induction false} RefersFrom(start: nat, p: Program, i: nat, d: nat)
    requires i <= |p| && WfP(p, d)
    ensures Refers(SitesFrom(start, p, i, KData), d)
    decreases |p| - i
  {
    hide SitesS, WfS, Addr;
    if i < |p| {
      assert WfF(p, d, p[i]);
      RefersS(p, d, p[i].sizes, p[i].body, false, Addr(start, p, i) + HeadSize(p[i]), p[i].isMain);
      RefersFrom(start, p, i + 1, d);
    }
  }
}
