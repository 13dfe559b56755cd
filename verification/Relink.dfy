/**
 Back-patching.  The single pass leaves calls, data references and breaks at zero and remembers where
 they are; filling those fields in afterwards gives the same bytes as knowing the targets from the start.
 */
module Relink {
  import opened Words
  import opened X86
  import opened OreLang
  import opened Codegen

  /** Which table a field belongs to: the call table, the data references, or the breaks of a loop. */
  datatype Kind = KCall | KData | KBreak

  /** A rel32 field at offset patch; arg is the callee or the data offset. */
  datatype Site = Site(patch: nat, arg: nat)

  function SitesE(e: Expr, at: nat, kind: Kind): seq<Site> {
    match e
    case Data(off) => if kind.KData? then [Site(at + 3, off)] else []
    case Un(_, a) => SitesE(a, at, kind)
    case Bin(_, a, b) => SitesE(a, at, kind) + SitesE(b, at + SizeE(a) + 1, kind)
    case Call(fn, args) =>
      SitesA(args, at, kind)
      + (if kind.KCall? then [Site(at + SizeA(args) + AsmLen(PopArgs(ArgCount(args))) + 1, fn)] else [])
    case _ => []
  }

  function SitesA(args: Args, at: nat, kind: Kind): seq<Site> {
    match args
    case NoArgs => []
    case Arg(e, tl) => SitesE(e, at, kind) + SitesA(tl, at + SizeE(e) + 1, kind)
  }

  /** In the order of emission; a loop's own breaks do not escape it. */
  function SitesS(s: Stmt, at: nat, main: bool, kind: Kind): seq<Site> {
    match s
    case Skip => []
    case Seq(a, b) => SitesS(a, at, main, kind) + SitesS(b, at + SizeS(a, main), main, kind)
    case Assign(_, _, e) => SitesE(e, at, kind)
    case Zero(_) => []
    case If(e, t) => SitesE(e, at, kind) + SitesS(t, at + SizeE(e) + 10, main, kind)
    case IfElse(e, t, f) =>
      var t0 := at + SizeE(e) + 10;
      SitesE(e, at, kind) + (SitesS(t, t0, main, kind) + SitesS(f, t0 + SizeS(t, main) + 5, main, kind))
    case While(e, b) =>
      SitesE(e, at, kind) + (if kind.KBreak? then [] else SitesS(b, at + SizeE(e) + 10, main, kind))
    case Break => if kind.KBreak? then [Site(at + 1, 0)] else []
    case Return(e) => SitesE(e, at, kind)
    case Do(e) => SitesE(e, at, kind)
  }

  function SitesF(f: Func, at: nat, kind: Kind): seq<Site> {
    SitesS(f.body, at + HeadSize(f), f.isMain, kind)
  }

  function SitesFrom(start: nat, p: Program, i: nat, kind: Kind): seq<Site>
    requires i <= |p|
    decreases |p| - i
  {
    if i == |p| then [] else SitesF(p[i], Addr(start, p, i), kind) + SitesFrom(start, p, i + 1, kind)
  }

  function Target(kind: Kind, site: Site, c: Ctx): int {
    match kind
    case KCall => CallRel(c.k, site.arg, site.patch)
    case KData => DataRel(c.k, site.arg, site.patch)
    case KBreak => BreakRel(c.brk, site.patch)
  }

  /** Overwriting a 32-bit field. */
  function Write32(s: seq<byte>, at: int, v: int): (r: seq<byte>)
    requires 0 <= at && at + 4 <= |s|
    ensures |r| == |s|
  {
    s[..at] + Le(v, 4) + s[at + 4..]
  }

  ghost predicate Inside(sites: seq<Site>, base: int, len: int) {
    forall x :: x in sites ==> base <= x.patch && x.patch + 4 <= base + len
  }

  /** Fill in every field of the list, first to last; base is the offset of s in the text. */
  function PatchSites(s: seq<byte>, base: int, sites: seq<Site>, kind: Kind, c: Ctx): (r: seq<byte>)
    requires Inside(sites, base, |s|)
    ensures |r| == |s|
    decreases |sites|
  {
    if sites == [] then s
    else
      assert sites[0] in sites;
      PatchSites(Write32(s, sites[0].patch - base, Target(kind, sites[0], c)), base, sites[1..], kind, c)
  }

  lemma WriteLeft(a: seq<byte>, b: seq<byte>, at: int, v: int)
    requires 0 <= at && at + 4 <= |a|
    ensures Write32(a + b, at, v) == Write32(a, at, v) + b
  {
    hide Le;
    assert (a + b)[..at] == a[..at];
    assert (a + b)[at + 4..] == a[at + 4..] + b;
  }

  lemma WriteRight(a: seq<byte>, b: seq<byte>, at: int, v: int)
    requires |a| <= at && at + 4 <= |a| + |b|
    ensures Write32(a + b, at, v) == a + Write32(b, at - |a|, v)
  {
    hide Le;
    assert (a + b)[..at] == a + b[..at - |a|];
    assert (a + b)[at + 4..] == b[at + 4 - |a|..];
  }

  lemma {:induction false} PatchLeft(a: seq<byte>, b: seq<byte>, base: int, sites: seq<Site>, kind: Kind, c: Ctx)
    requires Inside(sites, base, |a|)
    ensures Inside(sites, base, |a + b|)
    ensures PatchSites(a + b, base, sites, kind, c) == PatchSites(a, base, sites, kind, c) + b
    decreases |sites|
  {
    if sites != [] {
      assert sites[0] in sites;
      var at, v := sites[0].patch - base, Target(kind, sites[0], c);
      WriteLeft(a, b, at, v);
      PatchLeft(Write32(a, at, v), b, base, sites[1..], kind, c);
    }
  }

  lemma {:induction false} PatchRight(a: seq<byte>, b: seq<byte>, base: int, sites: seq<Site>, kind: Kind, c: Ctx)
    requires Inside(sites, base + |a|, |b|)
    ensures Inside(sites, base, |a + b|)
    ensures PatchSites(a + b, base, sites, kind, c) == a + PatchSites(b, base + |a|, sites, kind, c)
    decreases |sites|
  {
    if sites != [] {
      assert sites[0] in sites;
      var at, v := sites[0].patch - base, Target(kind, sites[0], c);
      WriteRight(a, b, at, v);
      PatchRight(a, Write32(b, at - |a|, v), base, sites[1..], kind, c);
    }
  }

  lemma {:induction false} PatchBoth(s: seq<byte>, base: int, x: seq<Site>, y: seq<Site>, kind: Kind, c: Ctx)
    requires Inside(x, base, |s|) && Inside(y, base, |s|)
    ensures Inside(x + y, base, |s|)
    ensures PatchSites(s, base, x + y, kind, c) == PatchSites(PatchSites(s, base, x, kind, c), base, y, kind, c)
    decreases |x|
  {
    if x == [] {
      assert x + y == y;
    } else {
      assert x[0] in x && (x + y)[1..] == x[1..] + y;
      PatchBoth(Write32(s, x[0].patch - base, Target(kind, x[0], c)), base, x[1..], y, kind, c);
    }
  }

  /** Two adjacent pieces of code, each with its own fields. */
  lemma PatchConcat(a: seq<byte>, b: seq<byte>, base: int, x: seq<Site>, y: seq<Site>, kind: Kind, c: Ctx)
    requires Inside(x, base, |a|) && Inside(y, base + |a|, |b|)
    ensures Inside(x + y, base, |a + b|)
    ensures PatchSites(a + b, base, x + y, kind, c)
         == PatchSites(a, base, x, kind, c) + PatchSites(b, base + |a|, y, kind, c)
  {
    PatchLeft(a, b, base, x, kind, c);
    PatchRight(PatchSites(a, base, x, kind, c), b, base, y, kind, c);
    PatchRight(a, b, base, y, kind, c);
    PatchBoth(a + b, base, x, y, kind, c);
  }

  /** c and c' know the same targets except those of the given kind. */
  ghost predicate SameBut(c: Ctx, c': Ctx, kind: Kind) {
    && c.main == c'.main && (!kind.KCall? ==> c.k.addrs == c'.k.addrs)
    && (!kind.KData? ==> c.k.data == c'.k.data) && (!kind.KBreak? ==> c.brk == c'.brk)
  }

  /** s becomes s' when the fields of the given sites are filled in. */
  ghost predicate Becomes(s: seq<byte>, s': seq<byte>, base: int, sites: seq<Site>, kind: Kind, c: Ctx) {
    Inside(sites, base, |s|) && PatchSites(s, base, sites, kind, c) == s'
  }

  lemma BecomesConcat(a: seq<byte>, a': seq<byte>, b: seq<byte>, b': seq<byte>, base: int, x: seq<Site>, y: seq<Site>,
                      kind: Kind, c: Ctx)
    requires Becomes(a, a', base, x, kind, c) && Becomes(b, b', base + |a|, y, kind, c)
    ensures Becomes(a + b, a' + b', base, x + y, kind, c)
  {
    hide PatchSites;
    PatchConcat(a, b, base, x, y, kind, c);
  }

  lemma BecomesSame(a: seq<byte>, base: int, kind: Kind, c: Ctx)
    ensures Becomes(a, a, base, [], kind, c)
  {
  }

  /** Code without fields in front of or behind code with fields. */
  lemma BecomesAfter(a: seq<byte>, b: seq<byte>, b': seq<byte>, base: int, y: seq<Site>, kind: Kind, c: Ctx)
    requires Becomes(b, b', base + |a|, y, kind, c)
    ensures Becomes(a + b, a + b', base, y, kind, c)
  {
    hide Becomes;
    BecomesSame(a, base, kind, c);
    BecomesConcat(a, a, b, b', base, [], y, kind, c);
    assert [] + y == y;
  }

  lemma BecomesBefore(a: seq<byte>, a': seq<byte>, b: seq<byte>, base: int, x: seq<Site>, kind: Kind, c: Ctx)
    requires Becomes(a, a', base, x, kind, c)
    ensures Becomes(a + b, a' + b, base, x, kind, c)
  {
    hide Becomes;
    BecomesSame(b, base + |a|, kind, c);
    BecomesConcat(a, a', b, b, base, x, [], kind, c);
    assert x + [] == x;
  }

  /** A single instruction whose last four bytes are the field. */
  lemma BecomesField(head: seq<byte>, v: int, base: nat, site: Site, kind: Kind, c: Ctx)
    requires site.patch == base + |head|
    ensures Becomes(head + Le(v, 4), head + Le(Target(kind, site, c), 4), base, [site], kind, c)
  {
    var s := head + Le(v, 4);
    assert Write32(s, |head|, Target(kind, site, c)) == head + Le(Target(kind, site, c), 4);
    assert PatchSites(s, base, [site], kind, c) ==
      PatchSites(Write32(s, |head|, Target(kind, site, c)), base, [], kind, c);
  }

  lemma {:induction false} RelinkE(e: Expr, at: nat, c: Ctx, c': Ctx, kind: Kind)
    requires SameBut(c, c', kind)
    ensures Becomes(CodeE(e, at, c.k), CodeE(e, at, c'.k), at, SitesE(e, at, kind), kind, c')
    decreases e
  {
    hide Becomes, Encode, Bytes, AsmLen, UnAsm, BinAsm, PopArgs, LoadVar;
    LenE(e, at, c.k);
    match e
    case Data(off) =>
      DataBytes(DataRel(c.k, off, at + 3));
      DataBytes(DataRel(c'.k, off, at + 3));
      if kind.KData? {
        BecomesField([0x48, 0x8D, 0x05], DataRel(c.k, off, at + 3), at, Site(at + 3, off), kind, c');
      } else {
        BecomesSame(CodeE(e, at, c.k), at, kind, c');
      }
    case Un(op, a) =>
      RelinkE(a, at, c, c', kind);
      BecomesBefore(CodeE(a, at, c.k), CodeE(a, at, c'.k), Bytes(UnAsm(op)), at, SitesE(a, at, kind), kind, c');
    case Bin(op, a, b) => RelinkBin(op, a, b, at, c, c', kind);
    case Call(fn, args) => RelinkCall(fn, args, at, c, c', kind);
    case _ => BecomesSame(CodeE(e, at, c.k), at, kind, c');
  }

  lemma DataBytes(d: int)
    ensures Encode(LeaRip(d)) == [0x48, 0x8D, 0x05] + Le(d, 4)
  {
  }

  lemma CallBytes(d: int)
    ensures Encode(CallNear(d)) == [0xE8] + Le(d, 4)
  {
  }

  lemma JmpBytes(d: int)
    ensures JmpCode(d) == [0xE9] + Le(d, 4)
  {
  }

  lemma RelinkBin(op: BinOp, a: Expr, b: Expr, at: nat, c: Ctx, c': Ctx, kind: Kind)
    requires SameBut(c, c', kind)
    ensures Becomes(CodeE(Bin(op, a, b), at, c.k), CodeE(Bin(op, a, b), at, c'.k), at,
      SitesE(Bin(op, a, b), at, kind), kind, c')
    decreases Bin(op, a, b), 0
  {
    hide Becomes, Encode, Bytes, BinAsm;
    var at1 := at + SizeE(a);
    LenE(a, at, c.k);
    RelinkE(a, at, c, c', kind);
    RelinkE(b, at1 + 1, c, c', kind);
    var b0, b1, tail := CodeE(b, at1 + 1, c.k), CodeE(b, at1 + 1, c'.k), Bytes(BinAsm(op));
    var y := SitesE(b, at1 + 1, kind);
    BecomesBefore(b0, b1, tail, at1 + 1, y, kind, c');
    BecomesAfter(Encode(Push(RAX)), b0 + tail, b1 + tail, at1, y, kind, c');
    BecomesConcat(CodeE(a, at, c.k), CodeE(a, at, c'.k), Encode(Push(RAX)) + (b0 + tail),
      Encode(Push(RAX)) + (b1 + tail),
                  at, SitesE(a, at, kind), y, kind, c');
  }

  lemma RelinkCall(fn: nat, args: Args, at: nat, c: Ctx, c': Ctx, kind: Kind)
    requires SameBut(c, c', kind)
    ensures Becomes(CodeE(Call(fn, args), at, c.k), CodeE(Call(fn, args), at, c'.k), at,
      SitesE(Call(fn, args), at, kind), kind, c')
    decreases Call(fn, args), 0
  {
    hide Becomes, Encode, Bytes, PopArgs, AsmLen;
    var pops := PopArgs(ArgCount(args));
    var at1 := at + SizeA(args);
    var at2 := at1 + AsmLen(pops);
    LenA(args, at, c.k);
    RelinkA(args, at, c, c', kind);
    var d, d' := CallRel(c.k, fn, at2 + 1), CallRel(c'.k, fn, at2 + 1);
    CallBytes(d);
    CallBytes(d');
    var y := if kind.KCall? then [Site(at2 + 1, fn)] else [];
    if kind.KCall? {
      BecomesField([0xE8], d, at2, Site(at2 + 1, fn), kind, c');
    } else {
      BecomesSame(Encode(CallNear(d)), at2, kind, c');
    }
    BecomesAfter(Bytes(pops), Encode(CallNear(d)), Encode(CallNear(d')), at1, y, kind, c');
    BecomesConcat(CodeA(args, at, c.k), CodeA(args, at, c'.k), Bytes(pops) + Encode(CallNear(d)),
                  Bytes(pops) + Encode(CallNear(d')), at, SitesA(args, at, kind), y, kind, c');
  }

  lemma {:induction false} RelinkA(args: Args, at: nat, c: Ctx, c': Ctx, kind: Kind)
    requires SameBut(c, c', kind)
    ensures Becomes(CodeA(args, at, c.k), CodeA(args, at, c'.k), at, SitesA(args, at, kind), kind, c')
    decreases args
  {
    hide Becomes, Encode, CodeE, SizeE, SitesE;
    match args
    case NoArgs => BecomesSame([], at, kind, c');
    case Arg(e, tl) =>
      var at1 := at + SizeE(e);
      LenE(e, at, c.k);
      RelinkE(e, at, c, c', kind);
      RelinkA(tl, at1 + 1, c, c', kind);
      var y := SitesA(tl, at1 + 1, kind);
      BecomesAfter(Encode(Push(RAX)), CodeA(tl, at1 + 1, c.k), CodeA(tl, at1 + 1, c'.k), at1, y, kind, c');
      BecomesConcat(CodeE(e, at, c.k), CodeE(e, at, c'.k), Encode(Push(RAX)) + CodeA(tl, at1 + 1, c.k),
                    Encode(Push(RAX)) + CodeA(tl, at1 + 1, c'.k), at, SitesE(e, at, kind), y, kind, c');
  }

  /** Statements: filling in the fields of one kind gives the code compiled with those targets known. */
  lemma {:induction false} RelinkS(s: Stmt, at: nat, c: Ctx, c': Ctx, kind: Kind)
    requires SameBut(c, c', kind)
    ensures Becomes(CodeS(s, at, c), CodeS(s, at, c'), at, SitesS(s, at, c.main, kind), kind, c')
    decreases s
  {
    hide Becomes, Encode, Len, Bytes, AsmLen, ReturnRax, StoreVar, CodeE, SizeE, SitesE, JmpCode, ZeroCode;
    match s
    case Skip => BecomesSame([], at, kind, c');
    case Seq(a, b) => RelinkSeq(a, b, at, c, c', kind);
    case Assign(slot, size, e) =>
      RelinkE(e, at, c, c', kind);
      BecomesBefore(CodeE(e, at, c.k), CodeE(e, at, c'.k), Encode(StoreVar(slot, size)), at, SitesE(e, at, kind),
        kind, c');
    case Zero(slot) => BecomesSame(ZeroCode(slot), at, kind, c');
    case If(e, t) => RelinkIf(e, t, at, c, c', kind);
    case IfElse(e, t, f) => RelinkIfElse(e, t, f, at, c, c', kind);
    case While(e, b) => RelinkWhile(e, b, at, c, c', kind);
    case Break => RelinkBreak(at, c, c', kind);
    case Return(e) =>
      RelinkE(e, at, c, c', kind);
      BecomesBefore(CodeE(e, at, c.k), CodeE(e, at, c'.k), Bytes(ReturnRax(c.main)), at, SitesE(e, at, kind), kind, c');
    case Do(e) => RelinkE(e, at, c, c', kind);
  }

  lemma {:induction false} RelinkSeq(a: Stmt, b: Stmt, at: nat, c: Ctx, c': Ctx, kind: Kind)
    requires SameBut(c, c', kind)
    ensures Becomes(CodeS(Seq(a, b), at, c), CodeS(Seq(a, b), at, c'), at, SitesS(Seq(a, b), at, c.main, kind), kind,
      c')
    decreases Seq(a, b), 0
  {
    hide Becomes, CodeS, SitesS, SizeS;
    var at1 := at + SizeS(a, c.main);
    SeqBytes(a, b, at, c);
    SeqBytes(a, b, at, c');
    SeqSites(a, b, at, c.main, kind);
    LenS(a, at, c);
    RelinkS(a, at, c, c', kind);
    RelinkS(b, at1, c, c', kind);
    BecomesConcat(CodeS(a, at, c), CodeS(a, at, c'), CodeS(b, at1, c), CodeS(b, at1, c'), at,
                  SitesS(a, at, c.main, kind), SitesS(b, at1, c.main, kind), kind, c');
  }

  lemma SeqSites(a: Stmt, b: Stmt, at: nat, main: bool, kind: Kind)
    ensures SitesS(Seq(a, b), at, main, kind) == SitesS(a, at, main, kind) + SitesS(b, at + SizeS(a, main), main, kind)
  {
    hide SizeS, SitesE, SizeE;
  }

  lemma RelinkBreak(at: nat, c: Ctx, c': Ctx, kind: Kind)
    requires SameBut(c, c', kind)
    ensures Becomes(CodeS(Break, at, c), CodeS(Break, at, c'), at, SitesS(Break, at, c.main, kind), kind, c')
  {
    hide Becomes, JmpCode;
    JmpBytes(BreakRel(c.brk, at + 1));
    JmpBytes(BreakRel(c'.brk, at + 1));
    if kind.KBreak? {
      BecomesField([0xE9], BreakRel(c.brk, at + 1), at, Site(at + 1, 0), kind, c');
    } else {
      BecomesSame(JmpCode(BreakRel(c.brk, at + 1)), at, kind, c');
    }
  }

  lemma RelinkIf(e: Expr, t: Stmt, at: nat, c: Ctx, c': Ctx, kind: Kind)
    requires SameBut(c, c', kind)
    ensures Becomes(CodeS(If(e, t), at, c), CodeS(If(e, t), at, c'), at, SitesS(If(e, t), at, c.main, kind), kind, c')
    decreases If(e, t), 0
  {
    hide Becomes, CodeE, SizeE, SitesE, TestCode, CodeS, SitesS, SizeS;
    var at1 := at + SizeE(e) + 10;
    TestSize();
    IfBytes(e, t, at, c);
    IfBytes(e, t, at, c');
    IfSites(e, t, at, c.main, kind);
    LenE(e, at, c.k);
    LenE(e, at, c'.k);
    LenS(t, at1, c);
    LenS(t, at1, c');
    RelinkE(e, at, c, c', kind);
    RelinkS(t, at1, c, c', kind);
    var t0, t1 := CodeS(t, at1, c), CodeS(t, at1, c');
    var y := SitesS(t, at1, c.main, kind);
    BecomesAfter(TestCode(|t0|), t0, t1, at1 - 10, y, kind, c');
    BecomesConcat(CodeE(e, at, c.k), CodeE(e, at, c'.k), TestCode(|t0|) + t0, TestCode(|t0|) + t1, at,
                  SitesE(e, at, kind), y, kind, c');
  }

  lemma TestSize()
    ensures forall rel: int :: |TestCode(rel)| == 10
  {
  }

  lemma UnfoldIfElse(e: Expr, t: Stmt, f: Stmt, at: nat, c: Ctx, kind: Kind)
    ensures SizeS(IfElse(e, t, f), c.main) == SizeE(e) + 10 + SizeS(t, c.main) + 5 + SizeS(f, c.main)
    ensures var at1 := at + SizeE(e) + 10;
            var at2 := at1 + SizeS(t, c.main) + 5;
            && CodeS(IfElse(e, t, f), at, c) == IfElseCode(CodeE(e, at, c.k), CodeS(t, at1, c), CodeS(f, at2, c))
            && SitesS(IfElse(e, t, f), at, c.main, kind)
               == SitesE(e, at, kind) + (SitesS(t, at1, c.main, kind) + SitesS(f, at2, c.main, kind))
  {
    IfElseSize(e, t, f, c.main);
    IfElseBytes(e, t, f, at, c);
    IfElseSites(e, t, f, at, c.main, kind);
    hide *;
  }

  lemma IfSites(e: Expr, t: Stmt, at: nat, main: bool, kind: Kind)
    ensures SitesS(If(e, t), at, main, kind) == SitesE(e, at, kind) + SitesS(t, at + SizeE(e) + 10, main, kind)
  {
    hide SitesE, SizeE, SizeS;
  }

  lemma IfElseSites(e: Expr, t: Stmt, f: Stmt, at: nat, main: bool, kind: Kind)
    ensures var at1 := at + SizeE(e) + 10;
            SitesS(IfElse(e, t, f), at, main, kind)
            == SitesE(e, at, kind) + (SitesS(t, at1, main, kind) + SitesS(f, at1 + SizeS(t, main) + 5, main, kind))
  {
    hide SitesE, SizeE, SizeS;
  }

  lemma UnfoldWhile(e: Expr, b: Stmt, at: nat, c: Ctx, kind: Kind)
    ensures SizeS(While(e, b), c.main) == SizeE(e) + 10 + SizeS(b, c.main) + 5
    ensures var at1, end := at + SizeE(e) + 10, at + SizeS(While(e, b), c.main);
            && CodeS(While(e, b), at, c) == WhileCode(CodeE(e, at, c.k), CodeS(b, at1, c.(brk := end)))
            && SitesS(While(e, b), at, c.main, kind)
               == SitesE(e, at, kind) + (if kind.KBreak? then [] else SitesS(b, at1, c.main, kind))
  {
    WhileSize(e, b, c.main);
    WhileBytes(e, b, at, c);
    WhileSites(e, b, at, c.main, kind);
    hide *;
  }

  lemma WhileSites(e: Expr, b: Stmt, at: nat, main: bool, kind: Kind)
    ensures SitesS(While(e, b), at, main, kind)
            == SitesE(e, at, kind) + (if kind.KBreak? then [] else SitesS(b, at + SizeE(e) + 10, main, kind))
  {
    hide SitesE, SizeE, SizeS;
  }

  lemma BecomesIfElse(a: seq<byte>, a': seq<byte>, t: seq<byte>, t': seq<byte>, f: seq<byte>, f': seq<byte>, base: int,
                      x: seq<Site>, y: seq<Site>, z: seq<Site>, kind: Kind, c: Ctx)
    requires |t| == |t'| && |f| == |f'|
    requires Becomes(a, a', base, x, kind, c) && Becomes(t, t', base + |a| + 10, y, kind, c)
    requires Becomes(f, f', base + |a| + 10 + |t| + 5, z, kind, c)
    ensures Becomes(IfElseCode(a, t, f), IfElseCode(a', t', f'), base, x + (y + z), kind, c)
  {
    hide Becomes, TestCode, JmpCode;
    var jmp, test := JmpCode(|f|), TestCode(|t| + 5);
    BecomesAfter(jmp, f, f', base + |a| + 10 + |t|, z, kind, c);
    BecomesConcat(t, t', jmp + f, jmp + f', base + |a| + 10, y, z, kind, c);
    BecomesAfter(test, t + (jmp + f), t' + (jmp + f'), base + |a|, y + z, kind, c);
    BecomesConcat(a, a', test + (t + (jmp + f)), test + (t' + (jmp + f')), base, x, y + z, kind, c);
  }

  lemma RelinkIfElse(e: Expr, t: Stmt, f: Stmt, at: nat, c: Ctx, c': Ctx, kind: Kind)
    requires SameBut(c, c', kind)
    ensures Becomes(CodeS(IfElse(e, t, f), at, c), CodeS(IfElse(e, t, f), at, c'), at,
                    SitesS(IfElse(e, t, f), at, c.main, kind), kind, c')
    decreases IfElse(e, t, f), 0
  {
    hide Becomes, CodeE, SizeE, SitesE, IfElseCode, CodeS, SizeS, SitesS;
    UnfoldIfElse(e, t, f, at, c, kind);
    UnfoldIfElse(e, t, f, at, c', kind);
    var at1 := at + SizeE(e) + 10;
    var at2 := at1 + SizeS(t, c.main) + 5;
    LenE(e, at, c.k);
    LenS(t, at1, c);
    LenS(t, at1, c');
    LenS(f, at2, c);
    LenS(f, at2, c');
    RelinkE(e, at, c, c', kind);
    RelinkS(t, at1, c, c', kind);
    RelinkS(f, at2, c, c', kind);
    BecomesIfElse(CodeE(e, at, c.k), CodeE(e, at, c'.k), CodeS(t, at1, c), CodeS(t, at1, c'), CodeS(f, at2, c),
      CodeS(f, at2, c'),
                  at, SitesE(e, at, kind), SitesS(t, at1, c.main, kind), SitesS(f, at2, c.main, kind), kind, c');
  }

  lemma BecomesWhile(a: seq<byte>, a': seq<byte>, b: seq<byte>, b': seq<byte>, base: int, x: seq<Site>, y: seq<Site>,
                     kind: Kind, c: Ctx)
    requires |a| == |a'| && |b| == |b'|
    requires Becomes(a, a', base, x, kind, c) && Becomes(b, b', base + |a| + 10, y, kind, c)
    ensures Becomes(WhileCode(a, b), WhileCode(a', b'), base, x + y, kind, c)
  {
    hide Becomes, TestCode, JmpCode;
    var jmp, test := JmpCode(-15 - |a| - |b|), TestCode(|b| + 5);
    BecomesBefore(b, b', jmp, base + |a| + 10, y, kind, c);
    BecomesAfter(test, b + jmp, b' + jmp, base + |a|, y, kind, c);
    BecomesConcat(a, a', test + (b + jmp), test + (b' + jmp), base, x, y, kind, c);
  }

  lemma RelinkWhile(e: Expr, b: Stmt, at: nat, c: Ctx, c': Ctx, kind: Kind)
    requires SameBut(c, c', kind)
    ensures Becomes(CodeS(While(e, b), at, c), CodeS(While(e, b), at, c'), at,
                    SitesS(While(e, b), at, c.main, kind), kind, c')
    decreases While(e, b), 0
  {
    hide Becomes, CodeE, SizeE, SitesE, WhileCode, CodeS, SizeS, SitesS;
    UnfoldWhile(e, b, at, c, kind);
    UnfoldWhile(e, b, at, c', kind);
    var at1 := at + SizeE(e) + 10;
    var end := at + SizeS(While(e, b), c.main);
    var d, d' := c.(brk := end), c'.(brk := end);
    LenE(e, at, c.k);
    LenE(e, at, c'.k);
    LenS(b, at1, d);
    LenS(b, at1, d');
    RelinkE(e, at, c, c', kind);
    var b0, b1 := CodeS(b, at1, d), CodeS(b, at1, d');
    var y := if kind.KBreak? then [] else SitesS(b, at1, c.main, kind);
    if kind.KBreak? {
      assert d == d';
      BecomesSame(b0, at1, kind, c');
    } else {
      RelinkS(b, at1, d, d', kind);
      BecomesCtx(b0, b1, at1, y, kind, d', c');
    }
    BecomesWhile(CodeE(e, at, c.k), CodeE(e, at, c'.k), b0, b1, at, SitesE(e, at, kind), y, kind, c');
  }

  /** Only the links matter to calls and data references, and only the break target to breaks. */
  lemma {:induction false} BecomesCtx(s: seq<byte>, s': seq<byte>, base: int, sites: seq<Site>, kind: Kind, c: Ctx,
      c': Ctx)
    requires Becomes(s, s', base, sites, kind, c) && c.k == c'.k && (kind.KBreak? ==> c.brk == c'.brk)
    ensures Becomes(s, s', base, sites, kind, c')
    decreases |sites|
  {
    if sites != [] {
      assert sites[0] in sites;
      BecomesCtx(Write32(s, sites[0].patch - base, Target(kind, sites[0], c)), s', base, sites[1..], kind, c, c');
    }
  }

  lemma RelinkF(f: Func, at: nat, k: Links, k': Links, kind: Kind)
    requires SameBut(Ctx(-1, f.isMain, k), Ctx(-1, f.isMain, k'), kind) && !kind.KBreak?
    ensures Becomes(CodeF(f, at, k), CodeF(f, at, k'), at, SitesF(f, at, kind), kind, Ctx(-1, false, k'))
  {
    hide Becomes, Bytes, FallOff, HeadF, CodeS, SitesS;
    var c, c' := Ctx(-1, f.isMain, k), Ctx(-1, f.isMain, k');
    var at1 := at + HeadSize(f);
    RelinkS(f.body, at1, c, c', kind);
    var b0, b1 := CodeS(f.body, at1, c), CodeS(f.body, at1, c');
    var y, c1 := SitesF(f, at, kind), Ctx(-1, false, k');
    BecomesCtx(b0, b1, at1, y, kind, c', c1);
    BecomesBefore(b0, b1, Bytes(FallOff(f.isMain)), at1, y, kind, c1);
    BecomesAfter(HeadF(f), b0 + Bytes(FallOff(f.isMain)), b1 + Bytes(FallOff(f.isMain)), at, y, kind, c1);
  }

  /** Whole programs: patching the call table, then the data references, links the text. */
  lemma {:induction false} RelinkFrom(start: nat, p: Program, i: nat, k: Links, k': Links, kind: Kind)
    requires i <= |p| && SameBut(Ctx(-1, false, k), Ctx(-1, false, k'), kind) && !kind.KBreak?
    ensures Becomes(CodeFrom(start, p, i, k), CodeFrom(start, p, i, k'), Addr(start, p, i),
      SitesFrom(start, p, i, kind), kind, Ctx(-1, false, k'))
    decreases |p| - i
  {
    hide Becomes, CodeF, SitesF, SizeF;
    var c1 := Ctx(-1, false, k');
    if i == |p| {
      BecomesSame([], Addr(start, p, i), kind, c1);
    } else {
      LenF(p[i], Addr(start, p, i), k);
      RelinkF(p[i], Addr(start, p, i), k, k', kind);
      RelinkFrom(start, p, i + 1, k, k', kind);
      BecomesConcat(CodeF(p[i], Addr(start, p, i), k), CodeF(p[i], Addr(start, p, i), k'),
        CodeFrom(start, p, i + 1, k), CodeFrom(start, p, i + 1, k'),
                    Addr(start, p, i), SitesF(p[i], Addr(start, p, i), kind), SitesFrom(start, p, i + 1, kind), kind,
                      c1);
    }
  }
}
