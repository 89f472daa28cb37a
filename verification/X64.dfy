/** The subset of the x64 instruction set the thunk is written in, as a small-step semantics.
    An access that would run past the top of the address space, and a conditional jump on a flag
    the architecture leaves undefined, are faults: a faulting state has no successor. */
module X64 {
  import opened Words

  datatype Reg =
    | RAX | RCX | RDX | RBX | RSP | RBP | RSI | RDI
    | R8 | R9 | R10 | R11 | R12 | R13 | R14 | R15

  datatype Regs = Regs(
    rax: u64, rcx: u64, rdx: u64, rbx: u64, rsp: u64, rbp: u64, rsi: u64, rdi: u64,
    r8: u64, r9: u64, r10: u64, r11: u64, r12: u64, r13: u64, r14: u64, r15: u64)

  function Get(g: Regs, r: Reg): u64 {
    match r
    case RAX => g.rax
    case RCX => g.rcx
    case RDX => g.rdx
    case RBX => g.rbx
    case RSP => g.rsp
    case RBP => g.rbp
    case RSI => g.rsi
    case RDI => g.rdi
    case R8 => g.r8
    case R9 => g.r9
    case R10 => g.r10
    case R11 => g.r11
    case R12 => g.r12
    case R13 => g.r13
    case R14 => g.r14
    case R15 => g.r15
  }

  function Set(g: Regs, r: Reg, v: u64): Regs {
    match r
    case RAX => g.(rax := v)
    case RCX => g.(rcx := v)
    case RDX => g.(rdx := v)
    case RBX => g.(rbx := v)
    case RSP => g.(rsp := v)
    case RBP => g.(rbp := v)
    case RSI => g.(rsi := v)
    case RDI => g.(rdi := v)
    case R8 => g.(r8 := v)
    case R9 => g.(r9 := v)
    case R10 => g.(r10 := v)
    case R11 => g.(r11 := v)
    case R12 => g.(r12 := v)
    case R13 => g.(r13 := v)
    case R14 => g.(r14 := v)
    case R15 => g.(r15 := v)
  }

  // ----- Memory -----

  /** The flat 64-bit address space, one byte per address. */
  type Memory = u64 -> byte

  const DWORD: nat := 4
  const QWORD: nat := 8

  predicate InSpace(a: int, size: nat) {
    0 <= a && a + size <= 0x1_0000_0000_0000_0000
  }

  /** The little-endian value of `k` bytes. */
  function Load(m: Memory, a: int, k: nat): nat
    requires InSpace(a, k)
    decreases k
  {
    if k == 0 then 0 else m(a) + 0x100 * Load(m, a + 1, k - 1)
  }

  lemma {:induction false} LoadBound(m: Memory, a: int, k: nat)
    requires InSpace(a, k)
    ensures Load(m, a, k) < Pow2(8 * k)
    decreases k
  {
    if k > 0 {
      LoadBound(m, a + 1, k - 1);
      Pow2Byte(k - 1);
    }
  }

  function Read32(m: Memory, a: int): u32
    requires InSpace(a, 4)
  {
    LoadBound(m, a, 4);
    WordSizes();
    Load(m, a, DWORD)
  }

  function Read64(m: Memory, a: int): u64
    requires InSpace(a, 8)
  {
    LoadBound(m, a, 8);
    WordSizes();
    Load(m, a, QWORD)
  }

  function Write64(m: Memory, a: int, v: u64): Memory
    requires InSpace(a, 8)
  {
    (x: u64) => if a <= x < a + 8 then ByteAt(v, x - a) else m(x)
  }

  // ----- Processor state -----

  /** A flag is `Undefined` where the architecture does not say what an instruction leaves in it. */
  datatype Flag = Off | On | Undefined

  datatype Flags = Flags(zf: Flag, sf: Flag, of: Flag)

  function AsFlag(b: bool): Flag {
    if b then On else Off
  }

  /** Control is either at an instruction of the listing or at a code address outside it. */
  datatype Pc = Line(i: nat) | Outside(addr: u64)

  datatype Access = Access(write: bool, stack: bool, addr: int, size: nat)

  /** `log` lists the memory accesses of the run so far; `stack` marks those made through rsp. */
  datatype State = State(regs: Regs, flags: Flags, pc: Pc, mem: Memory, log: seq<Access>)

  datatype Outcome = Next(st: State) | Fault

  // ----- Instructions -----

  datatype Width = W32 | W64

  datatype Operand = Reg(r: Reg) | Imm(i: int) | Mem(base: Reg, disp: int)

  datatype AluOp = ADD | SUB | CMP | TEST

  datatype Cond = NotLess | Equal

  datatype Instr =
    | Push(o: Operand)
    | Pop(d: Reg)
    | Mov(w: Width, d: Reg, o: Operand)
    | Lea(w: Width, d: Reg, base: Reg, disp: int)
    | Alu(op: AluOp, w: Width, d: Reg, o: Operand)
    | Inc(w: Width, d: Reg)
    | Dec(w: Width, d: Reg)
    | Shl(w: Width, d: Reg, count: nat)  // by more than one position
    | Jcc(cond: Cond, target: nat)
    | Jmp(target: nat)
    | Call(d: Reg)
    | Ret

  function Trunc(w: Width, x: int): u64 {
    match w
    case W32 => Wrap32(x)
    case W64 => Wrap64(x)
  }

  function Bytes(w: Width): nat {
    match w
    case W32 => 4
    case W64 => 8
  }

  function SignedOf(w: Width, x: u64): int
    requires w == W32 ==> x < 0x1_0000_0000
  {
    match w
    case W32 => Signed32(x)
    case W64 => Signed64(x)
  }

  function EffAddr(g: Regs, base: Reg, disp: int): u64 {
    Wrap64(Get(g, base) + disp)
  }

  predicate Readable(g: Regs, w: Width, o: Operand) {
    o.Mem? ==> InSpace(EffAddr(g, o.base, o.disp), Bytes(w))
  }

  /** A register operand narrower than the register is its low part. */
  function Value(g: Regs, m: Memory, w: Width, o: Operand): u64
    requires Readable(g, w, o)
  {
    match o
    case Reg(r) => Trunc(w, Get(g, r))
    case Imm(i) => Trunc(w, i)
    case Mem(b, d) =>
      match w
      case W32 => Read32(m, EffAddr(g, b, d))
      case W64 => Read64(m, EffAddr(g, b, d))
  }

  function Touched(g: Regs, w: Width, o: Operand): seq<Access> {
    match o
    case Mem(b, d) => [Access(false, b == RSP, EffAddr(g, b, d), Bytes(w))]
    case _ => []
  }

  /** The flags an arithmetic instruction leaves: `exact` is the signed result before truncation. */
  function ArithFlags(w: Width, exact: int, r: u64): Flags
    requires w == W32 ==> r < 0x1_0000_0000
  {
    Flags(AsFlag(r == 0), AsFlag(SignedOf(w, r) < 0), AsFlag(SignedOf(w, r) != exact))
  }

  function AluResult(op: AluOp, w: Width, a: u64, b: u64): u64 {
    match op
    case ADD => Trunc(w, a + b)
    case SUB => Trunc(w, a - b)
    case CMP => Trunc(w, a - b)
    case TEST => Trunc(w, And(a, b))
  }

  function AluFlags(op: AluOp, w: Width, a: u64, b: u64): Flags
    requires w == W32 ==> a < 0x1_0000_0000 && b < 0x1_0000_0000
  {
    var r := AluResult(op, w, a, b);
    var exact := match op
      case ADD => SignedOf(w, a) + SignedOf(w, b)
      case SUB => SignedOf(w, a) - SignedOf(w, b)
      case CMP => SignedOf(w, a) - SignedOf(w, b)
      case TEST => SignedOf(w, r);
    ArithFlags(w, exact, r)
  }

  /** `jnl` tests SF = OF, `je` and `jz` test ZF; a test of an undefined flag has no answer. */
  predicate Testable(f: Flags, c: Cond) {
    match c
    case NotLess => f.sf != Undefined && f.of != Undefined
    case Equal => f.zf != Undefined
  }

  predicate Holds(f: Flags, c: Cond) {
    match c
    case NotLess => f.sf == f.of
    case Equal => f.zf == On
  }

  /** The flags a comparison leaves answer both tests as comparisons of the operands: `je` holds for
      equal ones and `jnl` for signed order, whatever the width and even if the subtraction overflows. */
  lemma ComparisonFlags(w: Width, a: u64, b: u64)
    requires w == W32 ==> a < 0x1_0000_0000 && b < 0x1_0000_0000
    ensures var f := AluFlags(CMP, w, a, b);
            && Testable(f, NotLess) && Testable(f, Equal)
            && (Holds(f, NotLess) <==> SignedOf(w, a) >= SignedOf(w, b))
            && (Holds(f, Equal) <==> a == b)
  {
    hide And;
    if w == W32 {
      assert -0x1_0000_0000 < a - b < 0x1_0000_0000;
    }
  }

  /** Writing 32 bits of a register clears its upper half, because `v` is stored zero-extended. */
  function Assign(st: State, d: Reg, v: u64, f: Flags, accesses: seq<Access>, next: Pc): Outcome {
    Next(st.(regs := Set(st.regs, d, v), flags := f, log := st.log + accesses, pc := next))
  }

  function PushValue(st: State, v: u64, accesses: seq<Access>, next: Pc): Outcome {
    var a := Wrap64(st.regs.rsp - 8);
    if !InSpace(a, 8) then Fault
    else Next(st.(regs := st.regs.(rsp := a), mem := Write64(st.mem, a, v),
                  log := st.log + accesses + [Access(true, true, a, 8)], pc := next))
  }

  /** The code addresses that control can come back to: the thunk's entry and its return site. */
  datatype Image = Image(entry: u64, site: u64)

  /** Executes `ins`, fetched from index `i` of the listing. */
  function Exec(img: Image, ins: Instr, i: nat, st: State): Outcome {
    var g, next := st.regs, Line(i + 1);
    match ins
    case Push(o) =>
      if !Readable(g, W64, o) then Fault
      else PushValue(st, Value(g, st.mem, W64, o), Touched(g, W64, o), next)
    case Pop(d) =>
      if !InSpace(g.rsp, 8) then Fault
      else
        var st' := st.(regs := g.(rsp := Wrap64(g.rsp + 8)));
        Assign(st', d, Read64(st.mem, g.rsp), st.flags, [Access(false, true, g.rsp, 8)], next)
    case Mov(w, d, o) =>
      if !Readable(g, w, o) then Fault
      else Assign(st, d, Value(g, st.mem, w, o), st.flags, Touched(g, w, o), next)
    case Lea(w, d, b, disp) =>
      Assign(st, d, Trunc(w, Get(g, b) + disp), st.flags, [], next)
    case Alu(op, w, d, o) =>
      if !Readable(g, w, o) then Fault
      else
        var a, b := Trunc(w, Get(g, d)), Value(g, st.mem, w, o);
        var f := AluFlags(op, w, a, b);
        if op == CMP || op == TEST then
          Next(st.(flags := f, log := st.log + Touched(g, w, o), pc := next))
        else
          Assign(st, d, AluResult(op, w, a, b), f, Touched(g, w, o), next)
    case Inc(w, d) =>
      var a := Trunc(w, Get(g, d));
      Assign(st, d, Trunc(w, a + 1), AluFlags(ADD, w, a, 1), [], next)
    case Dec(w, d) =>
      var a := Trunc(w, Get(g, d));
      Assign(st, d, Trunc(w, a - 1), AluFlags(SUB, w, a, 1), [], next)
    case Shl(w, d, count) =>
      var r := Trunc(w, Trunc(w, Get(g, d)) * Pow2(count));
      var f := Flags(AsFlag(r == 0), AsFlag(SignedOf(w, r) < 0), Undefined);
      Assign(st, d, r, f, [], next)
    case Jcc(c, target) =>
      if !Testable(st.flags, c) then Fault
      else Next(st.(pc := if Holds(st.flags, c) then Line(target) else next))
    case Jmp(target) =>
      Next(st.(pc := Line(target)))
    case Call(d) =>
      PushValue(st, img.site, [], Outside(Get(g, d)))
    case Ret =>
      if !InSpace(g.rsp, 8) then Fault
      else
        Next(st.(regs := g.(rsp := Wrap64(g.rsp + 8)), pc := Outside(Read64(st.mem, g.rsp)),
                 log := st.log + [Access(false, true, g.rsp, 8)]))
  }

  // ----- Runs -----

  /** One instruction of `code`; outside the code there is nothing to execute. */
  function Step(code: seq<Instr>, img: Image, st: State): Outcome {
    match st.pc
    case Outside(_) => Fault
    case Line(i) => if i < |code| then Exec(img, code[i], i, st) else Fault
  }

  /** Exactly `k` instructions of `code`. */
  function Run(code: seq<Instr>, img: Image, st: State, k: nat): Outcome
    decreases k
  {
    if k == 0 then Next(st)
    else
      match Step(code, img, st)
      case Fault => Fault
      case Next(st') => Run(code, img, st', k - 1)
  }

  /** A run of `j` instructions followed by one of `k` is a run of `j + k`. */
  lemma {:induction false} RunAdd(code: seq<Instr>, img: Image, st: State, j: nat, k: nat)
    requires Run(code, img, st, j).Next?
    ensures Run(code, img, st, j + k) == Run(code, img, Run(code, img, st, j).st, k)
    decreases j
  {
    hide Exec;
    if j > 0 {
      RunAdd(code, img, Step(code, img, st).st, j - 1, k);
    }
  }
}
