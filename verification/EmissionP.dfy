/** Emission of functions and whole programs, and the final linking of the text. */
module EmissionP {
  import opened Words
  import opened X86
  import opened OreLang
  import opened Codegen
  import opened Relink
  import opened Emission
  import opened EmissionS

  function DeltaF(f: Func, at: nat): Out {
    Out(CodeF(f, at, UNLINKED), SitesF(f, at, KCall), SitesF(f, at, KData), [], true)
  }

  /** The prologue while the frame size is unknown, up to its field and behind it. */
  lemma PrologueBytes(frame: int)
    ensures Bytes(Prologue(frame))
         == (Encode(Push(RBP)) + Encode(MovRR(RBP, RSP)) + [0x48, 0x81, 0xEC]) + Le(frame, 4) + Encode(Store(RBX, -8))
    ensures |Encode(Push(RBP)) + Encode(MovRR(RBP, RSP)) + [0x48, 0x81, 0xEC]| == 7
  {
    SubBytes(frame);
    hide Encode;
    var a, b, c, d := Encode(Push(RBP)), Encode(MovRR(RBP, RSP)), Encode(SubRsp(frame)), Encode(Store(RBX, -8));
    var t2 := Then(Store(RBX, -8), End);
    var t1 := Then(SubRsp(frame), t2);
    assert Bytes(t2) == d + [];
    assert Bytes(t1) == c + Bytes(t2);
    assert Bytes(Then(MovRR(RBP, RSP), t1)) == b + Bytes(t1);
    assert Bytes(Prologue(frame)) == a + (b + (c + (d + [])));
    assert a + (b + (c + (d + []))) == (a + b + [0x48, 0x81, 0xEC]) + Le(frame, 4) + d;
  }

  lemma SubBytes(frame: int)
    ensures Encode(SubRsp(frame)) == [0x48, 0x81, 0xEC] + Le(frame, 4)
  {
  }

  /** The code of a function whose frame size is still zero. */
  function OpenF(f: Func, at: nat): Out {
    var head := Bytes(Prologue(0)) + Bytes(StoreParams(0, f.argc));
    DeltaF(f, at).(text := head + (CodeS(f.body, at + HeadSize(f), Ctx(-1, f.isMain, UNLINKED))
      + Bytes(FallOff(f.isMain))))
  }

  lemma OpenClosed(f: Func, at: nat)
    ensures |OpenF(f, at).text| == |CodeF(f, at, UNLINKED)| && 11 <= |OpenF(f, at).text|
    ensures Write32(OpenF(f, at).text, 7, FrameSize(f)) == CodeF(f, at, UNLINKED)
  {
    hide CodeS, FallOff, StoreParams, Prologue, Bytes, AsmLen, HeadSize, SitesF, FrameSize;
    PrologueWrite(FrameSize(f), Bytes(StoreParams(0, f.argc)),
                  CodeS(f.body, at + HeadSize(f), Ctx(-1, f.isMain, UNLINKED)) + Bytes(FallOff(f.isMain)));
  }

  lemma PrologueWrite(frame: int, params: seq<byte>, body: seq<byte>)
    ensures var s := (Bytes(Prologue(0)) + params) + body;
            11 <= |s| && Write32(s, 7, frame) == (Bytes(Prologue(frame)) + params) + body
  {
    hide Encode, Prologue, Bytes;
    PrologueBytes(0);
    PrologueBytes(frame);
    WriteFirst(Encode(Push(RBP)) + Encode(MovRR(RBP, RSP)) + [0x48, 0x81, 0xEC], Encode(Store(RBX, -8)), params, body,
      frame);
  }

  lemma WriteFirst(a: seq<byte>, d: seq<byte>, params: seq<byte>, body: seq<byte>, v: int)
    ensures Write32(((a + Le(0, 4) + d) + params) + body, |a|, v) == ((a + Le(v, 4) + d) + params) + body
  {
    var s := ((a + Le(0, 4) + d) + params) + body;
    assert s[..|a|] == a;
    assert s[|a| + 4..] == (d + params) + body;
    assert ((a + Le(v, 4) + d) + params) + body == a + Le(v, 4) + ((d + params) + body);
  }

  /** Head, parameters, body, fall-off, and the frame size patched in at the end. */
  lemma AddsF(o: Out, o1: Out, o2: Out, o3: Out, o4: Out, o5: Out, patch: int, f: Func)
    requires AddsBytes(o, o1, Bytes(Prologue(0)))
      && (Within(Plus(o, OfBytes(Bytes(Prologue(0))))) ==> patch == |o.text| + 7)
    requires AddsBytes(o1, o2, Bytes(StoreParams(0, f.argc))) && AddsS(o2, o3, f.body, f.isMain)
    requires AddsBytes(o3, o4, Bytes(FallOff(f.isMain))) && Patched(o4, o5, patch, FrameSize(f))
    requires o.breaks == [] && o3.breaks == []
    ensures Adds(o, o5, DeltaF(f, |o.text|))
  {
    hide Within, CodeS, SitesS, Bytes, Prologue, StoreParams, FallOff, FrameSize, CodeF, AsmLen;
    var at := |o.text|;
    var dp, da, db, dt := OfBytes(Bytes(Prologue(0))), OfBytes(Bytes(StoreParams(0, f.argc))),
      DeltaS(f.body, at + HeadSize(f), f.isMain), OfBytes(Bytes(FallOff(f.isMain)));
    PrologueLen(FrameSize(f));
    AddsTwice(o, o1, o2, dp, da, Plus(dp, da));
    AddsTwice(o, o2, o3, Plus(dp, da), db, Plus(Plus(dp, da), db));
    BodyBreaks(o, o3, Plus(dp, da), db);
    AddsNoBreaks(o, o3, Plus(Plus(dp, da), db));
    var d3 := NoBreaks(Plus(Plus(dp, da), db));
    AddsTwice(o, o3, o4, d3, dt, Plus(d3, dt));
    OpenClosed(f, at);
    WithinPrefix(o, d3, dt);
    WithinNoBreaks(o, Plus(Plus(dp, da), db));
    WithinPrefix(o, Plus(dp, da), db);
    WithinPrefix(o, dp, da);
    var head := Bytes(Prologue(0)) + Bytes(StoreParams(0, f.argc));
    assert (head + db.text) + dt.text == head + (db.text + dt.text);
    assert Plus(d3, dt) == OpenF(f, at);
    AddsPatched(o, o4, o5, OpenF(f, at), DeltaF(f, at), patch, FrameSize(f));
  }

  lemma PrologueLen(frame: int)
    ensures AsmLen(Prologue(frame)) == 18 && AsmLen(Prologue(0)) == 18
  {
    assert AsmLen(Then(SubRsp(frame), Then(Store(RBX, -8), End))) == 14;
    assert AsmLen(Then(SubRsp(0), Then(Store(RBX, -8), End))) == 14;
  }

  lemma BodyBreaks(o: Out, o3: Out, d: Out, db: Out)
    requires Adds(o, o3, Plus(d, db)) && o.breaks == [] && o3.breaks == []
    ensures Within(Plus(o, Plus(d, db))) ==> db.breaks == []
  {
  }

  lemma WithinNoBreaks(o: Out, d: Out)
    ensures Within(Plus(o, NoBreaks(d))) == Within(Plus(o, d))
  {
  }

  // ----- programs -----

  function DeltaP(g: Form, p: Program): Out {
    Out(CodeP(g, p, UNLINKED), SitesFrom(StartSize(g), p, 0, KCall), SitesFrom(StartSize(g), p, 0, KData), [], true)
  }

  lemma {:induction false} AddrPrefix(start: nat, p: Program, f: Func, i: nat)
    requires i <= |p|
    ensures Addr(start, p + [f], i) == Addr(start, p, i)
    decreases i
  {
    hide SizeF;
    if i > 0 { AddrPrefix(start, p, f, i - 1); }
  }

  lemma {:induction false} CodeAppend(start: nat, p: Program, f: Func, i: nat)
    requires i <= |p|
    ensures CodeFrom(start, p + [f], i, UNLINKED) ==
      CodeFrom(start, p, i, UNLINKED) + CodeF(f, Addr(start, p, |p|), UNLINKED)
    decreases |p| - i
  {
    hide CodeF, Addr;
    var q := p + [f];
    AddrPrefix(start, p, f, i);
    if i == |p| {
      assert CodeFrom(start, q, i + 1, UNLINKED) == [];
    } else {
      CodeAppend(start, p, f, i + 1);
      assert q[i] == p[i];
    }
  }

  lemma {:induction false} SitesAppend(start: nat, p: Program, f: Func, i: nat, kind: Kind)
    requires i <= |p|
    ensures SitesFrom(start, p + [f], i, kind) == SitesFrom(start, p, i, kind) + SitesF(f, Addr(start, p, |p|), kind)
    decreases |p| - i
  {
    hide SitesF, Addr;
    var q := p + [f];
    AddrPrefix(start, p, f, i);
    if i == |p| {
      assert SitesFrom(start, q, i + 1, kind) == [];
    } else {
      SitesAppend(start, p, f, i + 1, kind);
      assert q[i] == p[i];
    }
  }

  /** One more function. */
  lemma AddsFunc(g: Form, p: Program, f: Func, o: Out, o1: Out, o2: Out)
    requires o.text == [] && Adds(o, o1, DeltaP(g, p)) && Adds(o1, o2, DeltaF(f, |o1.text|))
    ensures Adds(o, o2, DeltaP(g, p + [f]))
    ensures Within(Plus(o, DeltaP(g, p))) ==> |o1.text| == Addr(StartSize(g), p, |p|)
  {
    hide Within, DeltaP, DeltaF, Addr;
    DeltaAppend(g, p, f);
    AddsTwice(o, o1, o2, DeltaP(g, p), DeltaF(f, Addr(StartSize(g), p, |p|)), DeltaP(g, p + [f]));
  }

  lemma DeltaAppend(g: Form, p: Program, f: Func)
    ensures DeltaP(g, p + [f]) == Plus(DeltaP(g, p), DeltaF(f, Addr(StartSize(g), p, |p|)))
    ensures |DeltaP(g, p).text| == Addr(StartSize(g), p, |p|)
  {
    hide CodeF, SitesF, CodeFrom, SitesFrom, StartCode, Addr, StartSize;
    var start := StartSize(g);
    StartLen(g, UNLINKED);
    LenFrom(start, p, 0, UNLINKED);
    AddrStart(start, p);
    CodeAppend(start, p, f, 0);
    SitesAppend(start, p, f, 0, KCall);
    SitesAppend(start, p, f, 0, KData);
    var s, c, d := StartCode(g, UNLINKED), CodeFrom(start, p, 0, UNLINKED), CodeF(f, Addr(start, p, |p|), UNLINKED);
    assert s + (c + d) == (s + c) + d;
  }

  lemma StartLen(g: Form, k: Links)
    ensures |StartCode(g, k)| == StartSize(g)
  {
  }

  lemma StartBytes(main: nat, k: Links)
    ensures StartCode(UserImage(main), k) == [0xE8] + Le(CallRel(k, main, 1), 4) + Bytes(ExitRax())
  {
    hide Bytes;
    CallBytes(CallRel(k, main, 1));
  }

  /** The program is within the text, call and data-reference tables. */
  predicate Fits(start: nat, p: Program) {
    && Addr(start, p, |p|) <= TEXT_MAX
    && |SitesFrom(start, p, 0, KCall)| <= MAX_CALLS && |SitesFrom(start, p, 0, KData)| <= MAX_DATA_REFS
  }

  lemma FitsWithin(g: Form, p: Program)
    requires Fits(StartSize(g), p)
    ensures Within(Plus(Out([], [], [], [], true), DeltaP(g, p)))
  {
    hide CodeFrom, SitesFrom, StartCode, Addr, StartSize;
    StartLen(g, UNLINKED);
    LenFrom(StartSize(g), p, 0, UNLINKED);
    AddrStart(StartSize(g), p);
  }

  lemma AddrStart(start: nat, p: Program)
    ensures Addr(start, p, 0) == start
  {
  }

  /** The start sequence with its call resolved, then the functions as they were emitted. */
  function Started(g: Form, p: Program): seq<byte> {
    StartCode(g, Links(Addrs(StartSize(g), p), -1)) + CodeFrom(StartSize(g), p, 0, UNLINKED)
  }

  /** Patching the call of main resolves the start sequence. */
  lemma LinkMain(main: nat, p: Program, t: seq<byte>)
    requires main < |p| && t == CodeP(UserImage(main), p, UNLINKED)
    ensures 5 <= |t| && Write32(t, 1, CallRel(Links(Addrs(START_SIZE, p), -1), main, 1)) == Started(UserImage(main), p)
  {
    hide CodeFrom, Addrs, StartCode;
    StartLen(UserImage(main), UNLINKED);
    StartWrite(main, Links(Addrs(START_SIZE, p), -1), CodeFrom(START_SIZE, p, 0, UNLINKED));
  }

  /** Patching the call table resolves every other call. */
  lemma LinkCalls(g: Form, p: Program, t: seq<byte>)
    requires var t1 := Started(g, p); var k := Links(Addrs(StartSize(g), p), -1);
      var sites := SitesFrom(StartSize(g), p, 0, KCall);
             Inside(sites, 0, |t1|) ==> t == PatchSites(t1, 0, sites, KCall, Ctx(-1, false, k))
    ensures t == CodeP(g, p, Links(Addrs(StartSize(g), p), -1))
    ensures Inside(SitesFrom(StartSize(g), p, 0, KCall), 0, |Started(g, p)|)
  {
    hide CodeFrom, SitesFrom, Addrs, PatchSites, StartCode, Addr, Becomes, StartSize;
    var k := Links(Addrs(StartSize(g), p), -1);
    StartLen(g, k);
    LinkKind(StartSize(g), p, StartCode(g, k), Started(g, p), t, UNLINKED, k, KCall);
  }

  lemma StartWrite(main: nat, k: Links, rest: seq<byte>)
    requires main < |k.addrs|
    ensures var s := StartCode(UserImage(main), UNLINKED) + rest; var v := CallRel(k, main, 1);
            5 <= |s| && Write32(s, 1, v) == StartCode(UserImage(main), k) + rest
  {
    StartBytes(main, UNLINKED);
    StartBytes(main, k);
    hide Bytes, ExitRax, StartCode;
    WriteSecond([0xE8], Bytes(ExitRax()), rest, CallRel(k, main, 1));
  }

  lemma WriteSecond(a: seq<byte>, x: seq<byte>, rest: seq<byte>, v: int)
    ensures Write32((a + Le(0, 4) + x) + rest, |a|, v) == (a + Le(v, 4) + x) + rest
  {
    hide Le;
    var s := (a + Le(0, 4) + x) + rest;
    assert s[..|a|] == a;
    assert s[|a| + 4..] == x + rest;
    assert (a + Le(v, 4) + x) + rest == a + Le(v, 4) + (x + rest);
  }

  /** A start sequence and the functions, whose fields of one kind are filled in. */
  lemma LinkKind(start: nat, p: Program, head: seq<byte>, t1: seq<byte>, t2: seq<byte>, k: Links, k': Links, kind: Kind)
    requires |head| == start && t1 == head + CodeFrom(start, p, 0, k) && !kind.KBreak?
    requires SameBut(Ctx(-1, false, k), Ctx(-1, false, k'), kind)
    requires var sites := SitesFrom(start, p, 0, kind);
             Inside(sites, 0, |t1|) ==> t2 == PatchSites(t1, 0, sites, kind, Ctx(-1, false, k'))
    ensures t2 == head + CodeFrom(start, p, 0, k') && Inside(SitesFrom(start, p, 0, kind), 0, |t1|)
  {
    hide CodeFrom, SitesFrom, PatchSites;
    AddrStart(start, p);
    RelinkFrom(start, p, 0, k, k', kind);
    PatchRight(head, CodeFrom(start, p, 0, k), 0, SitesFrom(start, p, 0, kind), kind, Ctx(-1, false, k'));
  }

  /** Patching the data references resolves the rest. */
  lemma LinkData(g: Form, p: Program, data: nat, t: seq<byte>)
    requires var t0 := CodeP(g, p, Links(Addrs(StartSize(g), p), -1));
      var sites := SitesFrom(StartSize(g), p, 0, KData);
             Inside(sites, 0, |t0|) ==>
               t == PatchSites(t0, 0, sites, KData, Ctx(-1, false, Links(Addrs(StartSize(g), p), data)))
    ensures t == CodeP(g, p, Links(Addrs(StartSize(g), p), data))
    ensures Inside(SitesFrom(StartSize(g), p, 0, KData), 0, |CodeP(g, p, Links(Addrs(StartSize(g), p), -1))|)
  {
    hide CodeFrom, SitesFrom, Addrs, StartCode, PatchSites, Addr, Becomes, StartSize;
    var k, k' := Links(Addrs(StartSize(g), p), -1), Links(Addrs(StartSize(g), p), data);
    StartSame(g, k, k');
    StartLen(g, k);
    LinkKind(StartSize(g), p, StartCode(g, k), CodeP(g, p, k), t, k, k', KData);
  }

  /** The start sequence refers to no data. */
  lemma StartSame(g: Form, k: Links, k': Links)
    requires k.addrs == k'.addrs
    ensures StartCode(g, k) == StartCode(g, k')
  {
    hide Encode, Bytes;
  }
}
