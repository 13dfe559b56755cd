/**
 A small-step machine for the emitted subset.  Code is fetched from the text bytes at rip - base;
 the only data memory is the stack region [low, high), accessed in aligned 8-byte slots (byte and
 dword accesses touch the low end of a slot).  Anything else faults.
 */
module Machine {
  import opened Words
  import opened X86

  /** lt is SF != OF: the signed "less" outcome of the last comparison. */
  datatype Flags = Flags(zf: bool, lt: bool)

  datatype State = State(
    rip: u64, rax: u64, rcx: u64, rdx: u64, rbx: u64, rsp: u64, rbp: u64,
    rsi: u64, rdi: u64, r8: u64, r9: u64, flags: Option<Flags>, mem: map<int, u64>)

  datatype Config = Config(base: u64, text: seq<byte>, low: int, high: int) {
    ghost predicate Valid() {
      && 0 <= low <= high < 0x8000_0000_0000_0000 && low % 8 == 0 && high % 8 == 0
      && base + |text| < 0x1_0000_0000_0000_0000
      && |text| < 0x4000_0000
    }

    predicate Mapped(a: int) { low <= a && a + 8 <= high && a % 8 == 0 }
  }

  datatype Outcome =
    | Go(s: State)
    | Exited(code: u64)
    | DivideError
    | PageFault
    | BadCode
    | OtherSyscall

  function Get(m: State, r: Reg): u64 {
    match r
    case RAX => m.rax case RCX => m.rcx case RDX => m.rdx case RBX => m.rbx case RSP => m.rsp
    case RBP => m.rbp case RSI => m.rsi case RDI => m.rdi case R8 => m.r8 case R9 => m.r9
  }

  function Set(m: State, r: Reg, v: u64): State {
    match r
    case RAX => m.(rax := v) case RCX => m.(rcx := v) case RDX => m.(rdx := v) case RBX => m.(rbx := v)
    case RSP => m.(rsp := v) case RBP => m.(rbp := v) case RSI => m.(rsi := v) case RDI => m.(rdi := v)
    case R8 => m.(r8 := v) case R9 => m.(r9 := v)
  }

  /** The contents of an aligned slot; never-written slots read as 0. */
  function Cell(mem: map<int, u64>, a: int): u64 {
    if a in mem then mem[a] else 0
  }

  function Put(m: State, a: int, v: u64): State {
    m.(mem := m.mem[a := v])
  }

  predicate Holds(c: Cond, f: Flags) {
    match c
    case CE => f.zf case CNE => !f.zf case CL => f.lt
    case CGE => !f.lt case CLE => f.zf || f.lt case CG => !f.zf && !f.lt
  }

  function Compare(x: u64, y: u64): Option<Flags> {
    Some(Flags(x == y, S(x) < S(y)))
  }

  function ExecAlu(op: AluOp, d: Reg, m: State, x: u64, y: u64): State {
    match op
    case AAdd => Set(m, d, U(x + y)).(flags := None)
    case ASub => Set(m, d, U(x - y)).(flags := None)
    case AAnd => Set(m, d, And64(x, y)).(flags := None)
    case AOr => Set(m, d, Or64(x, y)).(flags := None)
    case ACmp => m.(flags := Compare(x, y))
  }

  /** idiv rbx: the 128-bit dividend rdx:rax over rbx, faulting when the quotient does not exist or fit. */
  function ExecIdiv(m: State): Outcome {
    var n, d := S(m.rdx) as int * 0x1_0000_0000_0000_0000 + m.rax, S(m.rbx) as int;
    if d == 0 then DivideError
    else if !(-0x8000_0000_0000_0000 <= TruncDiv(n, d) < 0x8000_0000_0000_0000) then DivideError
    else Go(m.(rax := U(TruncDiv(n, d)), rdx := U(TruncMod(n, d)), flags := None))
  }

  function ExecPush(c: Config, m: State, v: u64): Outcome {
    if c.Mapped(m.rsp - 8) then Go(Put(m, m.rsp - 8, v).(rsp := U(m.rsp - 8))) else PageFault
  }

  /** Effect of one instruction; m.rip already points behind it. */
  function Exec(c: Config, i: Instr, m: State): Outcome {
    match i
    case Push(r) => ExecPush(c, m, Get(m, r))
    case Pop(r) =>
      if c.Mapped(m.rsp) then Go(Set(m.(rsp := U(m.rsp + 8)), r, Cell(m.mem, m.rsp))) else PageFault
    case MovRR(d, s) => Go(Set(m, d, Get(m, s)))
    case Alu(op, d, s) => Go(ExecAlu(op, d, m, Get(m, d), Get(m, s)))
    case Load(d, disp) =>
      if c.Mapped(m.rbp + disp) then Go(Set(m, d, Cell(m.mem, m.rbp + disp))) else PageFault
    case Store(s, disp) =>
      if c.Mapped(m.rbp + disp) then Go(Put(m, m.rbp + disp, Get(m, s))) else PageFault
    case LoadByte(disp) =>
      if c.Mapped(m.rbp + disp) then Go(m.(rax := Cell(m.mem, m.rbp + disp) % 0x100)) else PageFault
    case LoadDword(disp) =>
      if c.Mapped(m.rbp + disp) then Go(m.(rax := Cell(m.mem, m.rbp + disp) % 0x1_0000_0000)) else PageFault
    case StoreByte(disp) =>
      if c.Mapped(m.rbp + disp) then
        var was := Cell(m.mem, m.rbp + disp);
        Go(Put(m, m.rbp + disp, was - was % 0x100 + m.rax % 0x100))
      else PageFault
    case StoreDword(disp) =>
      if c.Mapped(m.rbp + disp) then
        var was := Cell(m.mem, m.rbp + disp);
        Go(Put(m, m.rbp + disp, was - was % 0x1_0000_0000 + m.rax % 0x1_0000_0000))
      else PageFault
    case MovImm(d, v) => Go(Set(m, d, v))
    case LeaRip(disp) => Go(m.(rax := U(m.rip + disp)))
    case SubRsp(v) => Go(m.(rsp := U(m.rsp - v), flags := None))
    case CmpRaxZero => Go(m.(flags := Compare(m.rax, 0)))
    case SetAl(cc) =>
      if m.flags.None? then BadCode
      else Go(m.(rax := m.rax - m.rax % 0x100 + (if Holds(cc, m.flags.value) then 1 else 0)))
    case MovzxRaxAl => Go(m.(rax := m.rax % 0x100))
    case NotRax => Go(m.(rax := 0xFFFF_FFFF_FFFF_FFFF - m.rax))
    case NegRax => Go(m.(rax := U(0 - m.rax as int), flags := None))
    case Cqo => Go(m.(rdx := if S(m.rax) < 0 then 0xFFFF_FFFF_FFFF_FFFF else 0))
    case IdivRbx => ExecIdiv(m)
    case ImulRaxRcx => Go(m.(rax := U(m.rax as int * m.rcx), flags := None))
    case ShlRaxCl => Go(m.(rax := U(m.rax as int * Pow2(m.rcx % 64)), flags := None))
    case SarRaxCl => Go(m.(rax := U(S(m.rax) / Pow2(m.rcx % 64)), flags := None))
    case CallNear(rel) =>
      var o := ExecPush(c, m, m.rip);
      if o.Go? then Go(o.s.(rip := U(m.rip + rel))) else o
    case Jmp(rel) => Go(m.(rip := U(m.rip + rel)))
    case Je(rel) =>
      if m.flags.None? then BadCode
      else Go(if m.flags.value.zf then m.(rip := U(m.rip + rel)) else m)
    case RetNear =>
      if c.Mapped(m.rsp) then Go(m.(rip := Cell(m.mem, m.rsp), rsp := U(m.rsp + 8))) else PageFault
    case Syscall => if m.rax == SYS_EXIT then Exited(m.rdi) else OtherSyscall
  }

  /** Fetch, decode and execute one instruction. */
  function Step(c: Config, m: State): Outcome {
    var off := m.rip - c.base;
    if !(0 <= off < |c.text|) then BadCode
    else
      var d := Decode(c.text[off..]);
      if d.None? then BadCode else Exec(c, d.value.instr, m.(rip := U(m.rip + d.value.len)))
  }

  /** n steps; a machine that has stopped stays stopped. */
  function Run(c: Config, m: State, n: nat): Outcome
    decreases n
  {
    if n == 0 then Go(m)
    else
      var o := Step(c, m);
      if o.Go? then Run(c, o.s, n - 1) else o
  }

  lemma {:induction false} RunAdd(c: Config, m: State, a: nat, b: nat)
    ensures Run(c, m, a + b) == (var o := Run(c, m, a); if o.Go? then Run(c, o.s, b) else o)
    decreases a
  {
    hide Step;
    if a > 0 {
      var o := Step(c, m);
      if o.Go? {
        RunAdd(c, o.s, a - 1, b);
      }
    }
  }

  // ----- code placement -----

  /** The bytes b stand at offset at of the text. */
  ghost predicate Has(text: seq<byte>, at: int, b: seq<byte>) {
    0 <= at && at + |b| <= |text| && text[at..at + |b|] == b
  }

  lemma HasSplit(text: seq<byte>, at: int, a: seq<byte>, b: seq<byte>)
    requires Has(text, at, a + b)
    ensures Has(text, at, a) && Has(text, at + |a|, b)
    ensures at + |a| + |b| <= |text|
  {
    var s := text[at..at + |a + b|];
    assert s[..|a|] == a && s[|a|..] == b;
  }

  /** Executing at a place where the encoding of i stands executes i. */
  lemma StepAt(c: Config, m: State, i: Instr, at: int)
    requires c.Valid() && Encodable(i) && Has(c.text, at, Encode(i)) && m.rip == c.base + at
    ensures Step(c, m) == Exec(c, i, m.(rip := m.rip + |Encode(i)|))
  {
    hide Encode, Decode, Exec, Encodable;
    var rest := c.text[at + |Encode(i)|..];
    assert c.text[at..] == Encode(i) + rest;
    DecodeEncode(i, rest);
  }
}
