/** The x86-64 subset that orec emits: byte encodings, a decoder over raw text, and a machine. */
module X86 {
  import opened Words

  /** The system call number of exit. */
  const SYS_EXIT: u64 := 3

  datatype Reg = RAX | RCX | RDX | RBX | RSP | RBP | RSI | RDI | R8 | R9

  datatype Cond = CE | CNE | CL | CGE | CLE | CG

  datatype AluOp = AAdd | AOr | AAnd | ASub | ACmp

  /** Displacements are signed; [rbp+disp] is the only memory operand besides the stack. */
  datatype Instr =
    | Push(r: Reg)
    | Pop(r: Reg)
    | MovRR(dst: Reg, src: Reg)
    | Alu(op: AluOp, dst: Reg, src: Reg)
    | Load(dst: Reg, disp: int)
    | Store(src: Reg, disp: int)
    | LoadByte(disp: int)              // movzx eax, byte [rbp+disp]
    | LoadDword(disp: int)             // mov eax, [rbp+disp]
    | StoreByte(disp: int)             // mov [rbp+disp], al
    | StoreDword(disp: int)            // mov [rbp+disp], eax
    | MovImm(dst: Reg, imm: u64)
    | LeaRip(disp: int)                // lea rax, [rip+disp]
    | SubRsp(amount: int)
    | CmpRaxZero
    | SetAl(c: Cond)
    | MovzxRaxAl
    | NotRax
    | NegRax
    | Cqo
    | IdivRbx
    | ImulRaxRcx
    | ShlRaxCl
    | SarRaxCl
    | CallNear(rel: int)
    | Jmp(rel: int)
    | Je(rel: int)
    | RetNear
    | Syscall

  // ----- encoding -----

  function Num(r: Reg): (n: nat)
    ensures n < 10
  {
    match r
    case RAX => 0 case RCX => 1 case RDX => 2 case RBX => 3 case RSP => 4
    case RBP => 5 case RSI => 6 case RDI => 7 case R8 => 8 case R9 => 9
  }

  function CondByte(c: Cond): byte {
    match c
    case CE => 0x94 case CNE => 0x95 case CL => 0x9C
    case CGE => 0x9D case CLE => 0x9E case CG => 0x9F
  }

  function AluByte(op: AluOp): byte {
    match op
    case AAdd => 0x01 case AOr => 0x09 case AAnd => 0x21 case ASub => 0x29 case ACmp => 0x39
  }

  predicate Low(r: Reg) { Num(r) < 8 }

  predicate Disp32(d: int) { -0x8000_0000 <= d < 0x8000_0000 }

  /** The operands that the emitter produces and the encoding covers. */
  predicate Encodable(i: Instr) {
    match i
    case MovRR(d, s) => Low(d) && Low(s)
    case Alu(_, d, s) => Low(d) && Low(s)
    case Load(d, disp) => Low(d) && Disp32(disp)
    case Store(_, disp) => Disp32(disp)
    case LoadByte(d) => Disp32(d)
    case LoadDword(d) => Disp32(d)
    case StoreByte(d) => Disp32(d)
    case StoreDword(d) => Disp32(d)
    case MovImm(d, _) => Low(d)
    case LeaRip(d) => Disp32(d)
    case SubRsp(v) => Disp32(v)
    case CallNear(d) => Disp32(d)
    case Jmp(d) => Disp32(d)
    case Je(d) => Disp32(d)
    case _ => true
  }

  /** REX prefix for a register in the reg field of ModRM. */
  function RexR(r: Reg): byte { if Low(r) then 0x48 else 0x4C }

  /** ModRM bytes: two registers, and a register with [rbp+disp32]. */
  function RegRegByte(d: Reg, s: Reg): byte { 0xC0 + Num(s) % 8 * 8 + Num(d) % 8 }

  function FrameByte(r: Reg): byte { 0x85 + Num(r) % 8 * 8 }

  /** Instruction lengths in bytes. */
  function Len(i: Instr): (n: nat)
    ensures 1 <= n <= 10
  {
    match i
    case Push(r) => if Low(r) then 1 else 2
    case Pop(r) => if Low(r) then 1 else 2
    case Load(_, _) => 7
    case Store(_, _) => 7
    case LoadByte(_) => 7
    case LoadDword(_) => 6
    case StoreByte(_) => 6
    case StoreDword(_) => 6
    case MovImm(_, _) => 10
    case LeaRip(_) => 7
    case SubRsp(_) => 7
    case CmpRaxZero => 4
    case MovzxRaxAl => 4
    case Cqo => 2
    case ImulRaxRcx => 4
    case CallNear(_) => 5
    case Jmp(_) => 5
    case Je(_) => 6
    case RetNear => 1
    case Syscall => 2
    case _ => 3
  }

  /** Instructions that end in a displacement or an immediate. */
  predicate HasImm(i: Instr) {
    i.Load? || i.Store? || i.LoadByte? || i.LoadDword? || i.StoreByte? || i.StoreDword? || i.MovImm?
    || i.LeaRip? || i.SubRsp? || i.CallNear? || i.Jmp? || i.Je?
  }

  function EncodeImm(i: Instr): (s: seq<byte>)
    requires HasImm(i)
    ensures |s| == Len(i)
  {
    match i
    case Load(d, disp) => [0x48, 0x8B, FrameByte(d)] + Le(disp, 4)
    case Store(s, disp) => [RexR(s), 0x89, FrameByte(s)] + Le(disp, 4)
    case LoadByte(disp) => [0x0F, 0xB6, 0x85] + Le(disp, 4)
    case LoadDword(disp) => [0x8B, 0x85] + Le(disp, 4)
    case StoreByte(disp) => [0x88, 0x85] + Le(disp, 4)
    case StoreDword(disp) => [0x89, 0x85] + Le(disp, 4)
    case MovImm(d, v) => [0x48, 0xB8 + Num(d) % 8] + Le(v, 8)
    case LeaRip(disp) => [0x48, 0x8D, 0x05] + Le(disp, 4)
    case SubRsp(v) => [0x48, 0x81, 0xEC] + Le(v, 4)
    case CallNear(rel) => [0xE8] + Le(rel, 4)
    case Jmp(rel) => [0xE9] + Le(rel, 4)
    case Je(rel) => [0x0F, 0x84] + Le(rel, 4)
  }

  function EncodeFixed(i: Instr): (s: seq<byte>)
    requires !HasImm(i)
    ensures |s| == Len(i)
  {
    match i
    case Push(r) => if Low(r) then [0x50 + Num(r)] else [0x41, 0x50 + Num(r) - 8]
    case Pop(r) => if Low(r) then [0x58 + Num(r)] else [0x41, 0x58 + Num(r) - 8]
    case MovRR(d, s) => [0x48, 0x89, RegRegByte(d, s)]
    case Alu(op, d, s) => [0x48, AluByte(op), RegRegByte(d, s)]
    case CmpRaxZero => [0x48, 0x83, 0xF8, 0x00]
    case SetAl(c) => [0x0F, CondByte(c), 0xC0]
    case MovzxRaxAl => [0x48, 0x0F, 0xB6, 0xC0]
    case NotRax => [0x48, 0xF7, 0xD0]
    case NegRax => [0x48, 0xF7, 0xD8]
    case Cqo => [0x48, 0x99]
    case IdivRbx => [0x48, 0xF7, 0xFB]
    case ImulRaxRcx => [0x48, 0x0F, 0xAF, 0xC1]
    case ShlRaxCl => [0x48, 0xD3, 0xE0]
    case SarRaxCl => [0x48, 0xD3, 0xF8]
    case RetNear => [0xC3]
    case Syscall => [0x0F, 0x05]
  }

  function Encode(i: Instr): (s: seq<byte>)
    ensures |s| == Len(i)
  {
    if HasImm(i) then EncodeImm(i) else EncodeFixed(i)
  }

  // ----- decoding -----

  /** An instruction together with its length in bytes. */
  datatype Decoded = Decoded(instr: Instr, len: nat)

  function RegOf(n: int): (r: Reg)
    requires 0 <= n < 10
    ensures Num(r) == n
  {
    if n == 0 then RAX else if n == 1 then RCX else if n == 2 then RDX else if n == 3 then RBX
    else if n == 4 then RSP else if n == 5 then RBP else if n == 6 then RSI else if n == 7 then RDI
    else if n == 8 then R8 else R9
  }

  function CondOf(b: int): Option<Cond> {
    if b == 0x94 then Some(CE) else if b == 0x95 then Some(CNE) else if b == 0x9C then Some(CL)
    else if b == 0x9D then Some(CGE) else if b == 0x9E then Some(CLE) else if b == 0x9F then Some(CG)
    else None
  }

  function AluOf(b: int): Option<AluOp> {
    if b == 0x01 then Some(AAdd) else if b == 0x09 then Some(AOr) else if b == 0x21 then Some(AAnd)
    else if b == 0x29 then Some(ASub) else if b == 0x39 then Some(ACmp) else None
  }

  function Disp(s: seq<byte>, at: nat): int
    requires at + 4 <= |s|
  {
    Sx32(Rd32(s[at..at + 4]))
  }

  /** One instruction at the head of s; None when the bytes are outside the subset. */
  function Decode(s: seq<byte>): Option<Decoded> {
    if |s| == 0 then None
    else if 0x50 <= s[0] < 0x58 then Some(Decoded(Push(RegOf(s[0] as int - 0x50)), 1))
    else if 0x58 <= s[0] < 0x60 then Some(Decoded(Pop(RegOf(s[0] as int - 0x58)), 1))
    else if s[0] == 0xC3 then Some(Decoded(RetNear, 1))
    else if |s| < 2 then None
    else if s[0] == 0x41 then
      (if 0x50 <= s[1] < 0x52 then Some(Decoded(Push(RegOf(s[1] as int - 0x48)), 2))
       else if 0x58 <= s[1] < 0x5A then Some(Decoded(Pop(RegOf(s[1] as int - 0x50)), 2))
       else None)
    else if s[0] == 0x48 || s[0] == 0x4C then DecodeRex(s)
    else if s[0] == 0x0F then Decode0F(s)
    else DecodePlain(s)
  }

  function DecodePlain(s: seq<byte>): Option<Decoded>
    requires |s| >= 2
  {
    if s[0] == 0xE8 && |s| >= 5 then Some(Decoded(CallNear(Disp(s, 1)), 5))
    else if s[0] == 0xE9 && |s| >= 5 then Some(Decoded(Jmp(Disp(s, 1)), 5))
    else if |s| < 6 || s[1] != 0x85 then None
    else if s[0] == 0x8B then Some(Decoded(LoadDword(Disp(s, 2)), 6))
    else if s[0] == 0x88 then Some(Decoded(StoreByte(Disp(s, 2)), 6))
    else if s[0] == 0x89 then Some(Decoded(StoreDword(Disp(s, 2)), 6))
    else None
  }

  function Decode0F(s: seq<byte>): Option<Decoded>
    requires |s| >= 2
  {
    if s[1] == 0x05 then Some(Decoded(Syscall, 2))
    else if s[1] == 0x84 && |s| >= 6 then Some(Decoded(Je(Disp(s, 2)), 6))
    else if s[1] == 0xB6 && |s| >= 7 && s[2] == 0x85 then Some(Decoded(LoadByte(Disp(s, 3)), 7))
    else if |s| >= 3 && s[2] == 0xC0 && CondOf(s[1]).Some? then Some(Decoded(SetAl(CondOf(s[1]).value), 3))
    else None
  }

  function DecodeRex(s: seq<byte>): Option<Decoded>
    requires |s| >= 2
  {
    if s[1] == 0x99 then Some(Decoded(Cqo, 2))
    else if 0xB8 <= s[1] < 0xC0 && |s| >= 10 then
      Some(Decoded(MovImm(RegOf(s[1] as int - 0xB8), Rd64(s[2..10])), 10))
    else if |s| < 3 then None
    else if s[2] >= 0xC0 then DecodeRegReg(s)
    else DecodeRexMem(s)
  }

  /** REX.W forms whose ModRM byte names two registers (mod = 3). */
  function DecodeRegReg(s: seq<byte>): Option<Decoded>
    requires |s| >= 3 && s[2] >= 0xC0
  {
    var reg, rm := (s[2] as int - 0xC0) / 8, (s[2] as int - 0xC0) % 8;
    if s[1] == 0x89 then Some(Decoded(MovRR(RegOf(rm), RegOf(reg)), 3))
    else if AluOf(s[1]).Some? then Some(Decoded(Alu(AluOf(s[1]).value, RegOf(rm), RegOf(reg)), 3))
    else if s[1] == 0xF7 && s[2] == 0xD0 then Some(Decoded(NotRax, 3))
    else if s[1] == 0xF7 && s[2] == 0xD8 then Some(Decoded(NegRax, 3))
    else if s[1] == 0xF7 && s[2] == 0xFB then Some(Decoded(IdivRbx, 3))
    else if s[1] == 0xD3 && s[2] == 0xE0 then Some(Decoded(ShlRaxCl, 3))
    else if s[1] == 0xD3 && s[2] == 0xF8 then Some(Decoded(SarRaxCl, 3))
    else if s[1] == 0x83 && s[2] == 0xF8 && |s| >= 4 && s[3] == 0x00 then Some(Decoded(CmpRaxZero, 4))
    else if s[1] == 0x81 && s[2] == 0xEC && |s| >= 7 then Some(Decoded(SubRsp(Disp(s, 3)), 7))
    else None
  }

  /** REX.W forms with a memory operand, and the two-byte opcodes behind 0F. */
  function DecodeRexMem(s: seq<byte>): Option<Decoded>
    requires |s| >= 3 && s[2] < 0xC0
  {
    if s[1] == 0x0F && |s| >= 4 && s[2] == 0xB6 && s[3] == 0xC0 then Some(Decoded(MovzxRaxAl, 4))
    else if s[1] == 0x0F && |s| >= 4 && s[2] == 0xAF && s[3] == 0xC1 then Some(Decoded(ImulRaxRcx, 4))
    else if |s| < 7 then None
    else if s[1] == 0x8D && s[2] == 0x05 then Some(Decoded(LeaRip(Disp(s, 3)), 7))
    else if s[2] % 8 != 5 || s[2] < 0x85 then None
    else
      var reg := (s[2] as int - 0x85) / 8 + (if s[0] == 0x4C then 8 else 0);
      if reg >= 10 then None
      else if s[1] == 0x8B then Some(Decoded(Load(RegOf(reg), Disp(s, 3)), 7))
      else if s[1] == 0x89 then Some(Decoded(Store(RegOf(reg), Disp(s, 3)), 7))
      else None
  }

  /** The decoder inverts the encoder, whatever bytes follow. */
  lemma DecodeEncode(i: Instr, rest: seq<byte>)
    requires Encodable(i)
    ensures Decode(Encode(i) + rest) == Some(Decoded(i, |Encode(i)|))
  {
    match i
    case Push(_) => DecodeStack(i, rest);
    case Pop(_) => DecodeStack(i, rest);
    case MovRR(d, t) => DecodeRegs(i, d, t, rest);
    case Alu(_, d, t) => DecodeRegs(i, d, t, rest);
    case Load(d, _) => DecodeFrame(i, rest);
    case Store(r, _) => DecodeFrame(i, rest);
    case LeaRip(_) => DecodeFrame(i, rest);
    case SubRsp(_) => DecodeFrame(i, rest);
    case LoadByte(_) => DecodeNarrow(i, rest);
    case LoadDword(_) => DecodeNarrow(i, rest);
    case StoreByte(_) => DecodeNarrow(i, rest);
    case StoreDword(_) => DecodeNarrow(i, rest);
    case CallNear(_) => DecodeJump(i, rest);
    case Jmp(_) => DecodeJump(i, rest);
    case Je(_) => DecodeJump(i, rest);
    case MovImm(d, v) =>
      Le64RoundTrip(v);
      assert (Encode(i) + rest)[2..10] == Le(v, 8);
    case _ => DecodeFixed(i, rest);
  }

  lemma DecodeStack(i: Instr, rest: seq<byte>)
    requires i.Push? || i.Pop?
    ensures Decode(Encode(i) + rest) == Some(Decoded(i, |Encode(i)|))
  {
  }

  lemma DecodeRegs(i: Instr, d: Reg, t: Reg, rest: seq<byte>)
    requires Encodable(i) && (i == MovRR(d, t) || (i.Alu? && i.dst == d && i.src == t))
    ensures Decode(Encode(i) + rest) == Some(Decoded(i, |Encode(i)|))
  {
    var s := Encode(i) + rest;
    RegRegModRm(d, t);
    assert s[0] == 0x48 && s[2] == RegRegByte(d, t);
    assert s[1] == 0x89 || AluOf(s[1]).Some?;
    assert Decode(s) == DecodeRegReg(s);
  }

  lemma RegRegModRm(d: Reg, t: Reg)
    requires Low(d) && Low(t)
    ensures var modrm := 0xC0 + Num(t) % 8 * 8 + Num(d) % 8;
            0xC0 <= modrm < 0x100
            && RegOf((modrm - 0xC0) / 8) == t && RegOf((modrm - 0xC0) % 8) == d
  {
    var x, y := Num(t), Num(d);
    assert (x * 8 + y) / 8 == x && (x * 8 + y) % 8 == y;
    NumInjective(RegOf(x), t);
    NumInjective(RegOf(y), d);
  }

  lemma NumInjective(r: Reg, t: Reg)
    requires Num(r) == Num(t)
    ensures r == t
  {
  }

  lemma DecodeFrame(i: Instr, rest: seq<byte>)
    requires Encodable(i) && (i.Load? || i.Store? || i.LeaRip? || i.SubRsp?)
    ensures Decode(Encode(i) + rest) == Some(Decoded(i, |Encode(i)|))
  {
    var s := Encode(i) + rest;
    var d := if i.SubRsp? then i.amount else i.disp;
    DispAt(s, Encode(i)[..3], d, rest);
    if i.Load? || i.Store? {
      var r := if i.Load? then i.dst else i.src;
      FrameModRm(r);
      assert Decode(s) == DecodeRexMem(s);
    } else if i.SubRsp? {
      assert Decode(s) == DecodeRegReg(s);
    } else {
      assert Decode(s) == DecodeRexMem(s);
    }
  }

  lemma FrameModRm(r: Reg)
    ensures var modrm := 0x85 + Num(r) % 8 * 8;
            modrm < 0xC0 && modrm % 8 == 5 && (modrm - 0x85) / 8 == Num(r) % 8
    ensures RegOf(Num(r)) == r
  {
  }

  lemma DecodeNarrow(i: Instr, rest: seq<byte>)
    requires Encodable(i) && (i.LoadByte? || i.LoadDword? || i.StoreByte? || i.StoreDword?)
    ensures Decode(Encode(i) + rest) == Some(Decoded(i, |Encode(i)|))
  {
    DispAt(Encode(i) + rest, Encode(i)[..|Encode(i)| - 4], i.disp, rest);
  }

  lemma DecodeJump(i: Instr, rest: seq<byte>)
    requires Encodable(i) && (i.CallNear? || i.Jmp? || i.Je?)
    ensures Decode(Encode(i) + rest) == Some(Decoded(i, |Encode(i)|))
  {
    DispAt(Encode(i) + rest, Encode(i)[..|Encode(i)| - 4], i.rel, rest);
  }

  lemma DecodeFixed(i: Instr, rest: seq<byte>)
    requires i.CmpRaxZero? || i.SetAl? || i.MovzxRaxAl? || i.NotRax? || i.NegRax? || i.Cqo? || i.IdivRbx?
             || i.ImulRaxRcx? || i.ShlRaxCl? || i.SarRaxCl? || i.RetNear? || i.Syscall?
    ensures Decode(Encode(i) + rest) == Some(Decoded(i, |Encode(i)|))
  {
    var s := Encode(i) + rest;
    if i.CmpRaxZero? || i.NotRax? || i.NegRax? || i.IdivRbx? || i.ShlRaxCl? || i.SarRaxCl? {
      assert Decode(s) == DecodeRegReg(s);
    } else if i.MovzxRaxAl? || i.ImulRaxRcx? {
      assert Decode(s) == DecodeRexMem(s);
    }
  }

  lemma DispAt(s: seq<byte>, head: seq<byte>, d: int, rest: seq<byte>)
    requires Disp32(d) && s == head + Le(d, 4) + rest
    ensures |s| >= |head| + 4 && Disp(s, |head|) == d
    ensures forall k :: 0 <= k < |head| ==> s[k] == head[k]
  {
    DispRoundTrip(d);
    assert s[|head|..|head| + 4] == Le(d, 4);
  }
}
