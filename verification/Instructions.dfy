/** The instruction set against the architecture: results, flags and faults of every instruction in
    terms of its operands alone. */
module InstructionLaws {
  import opened Words
  import opened X64

  // ----- Registers -----

  /** Writing a register changes that register and no other. */
  lemma SetThenGet(g: Regs, r: Reg, v: u64, q: Reg)
    ensures Get(Set(g, r, v), q) == if q == r then v else Get(g, q)
  {
  }

  /** Truncation to a width keeps the remainder modulo 2^32 or 2^64. */
  lemma TruncValue(w: Width, x: int)
    ensures Trunc(w, x) == x % (if w == W32 then 0x1_0000_0000 else 0x1_0000_0000_0000_0000)
  {
    Truncation(x);
  }

  // ----- What arithmetic leaves -----

  /** `r` is the result of `op` on the low 32 or all 64 bits of its operands. */
  ghost predicate ResultOf(op: AluOp, w: Width, a: u64, b: u64, r: int) {
    var size := if w == W32 then 0x1_0000_0000 else 0x1_0000_0000_0000_0000;
    match op
    case ADD => r == (a + b) % size
    case SUB => r == (a - b) % size
    case CMP => r == (a - b) % size
    case TEST => r == And(a, b) % size
  }

  /** `f` is what `op` leaves for the operands `a` and `b` and the result `r`: ZF tells whether the result
      is 0, SF whether its top bit is set, OF whether signed addition of operands of one sign, or
      subtraction of operands of different signs, gave a result of the wrong sign. */
  ghost predicate FlagsOf(op: AluOp, w: Width, a: u64, b: u64, r: int, f: Flags) {
    var half := if w == W32 then 0x8000_0000 else 0x8000_0000_0000_0000;
    && (f.zf == if r == 0 then On else Off)
    && (f.sf == if r >= half then On else Off)
    && match op
       case ADD => f.of == if (a < half) == (b < half) && (r < half) != (a < half) then On else Off
       case SUB => f.of == if (a < half) != (b < half) && (r < half) != (a < half) then On else Off
       case CMP => f.of == if (a < half) != (b < half) && (r < half) != (a < half) then On else Off
       case TEST => f.of == Off
  }

  lemma Results(op: AluOp, w: Width, a: u64, b: u64)
    ensures ResultOf(op, w, a, b, AluResult(op, w, a, b))
  {
    hide And;
  }

  lemma DwordFlags(op: AluOp, a: u32, b: u32)
    ensures FlagsOf(op, W32, a, b, AluResult(op, W32, a, b), AluFlags(op, W32, a, b))
  {
    hide And;
  }

  lemma QwordFlags(op: AluOp, a: u64, b: u64)
    ensures FlagsOf(op, W64, a, b, AluResult(op, W64, a, b), AluFlags(op, W64, a, b))
  {
    hide And;
  }

  lemma FlagValues(op: AluOp, w: Width, a: u64, b: u64)
    requires w == W32 ==> a < 0x1_0000_0000 && b < 0x1_0000_0000
    ensures FlagsOf(op, w, a, b, AluResult(op, w, a, b), AluFlags(op, w, a, b))
  {
    hide AluFlags;
    hide AluResult;
    hide FlagsOf;
    match w
    case W32 => DwordFlags(op, a, b);
    case W64 => QwordFlags(op, a, b);
  }

  /** A comparison of either width answers `je` as equality and `jnl` as signed order, the order of the
      words themselves when both or neither have the top bit set. */
  lemma ComparisonOrder(w: Width, a: u64, b: u64)
    requires w == W32 ==> a < 0x1_0000_0000 && b < 0x1_0000_0000
    ensures var f, half := AluFlags(CMP, w, a, b), if w == W32 then 0x8000_0000 else 0x8000_0000_0000_0000;
            && (Holds(f, Equal) <==> a == b)
            && (Holds(f, NotLess) <==> if (a < half) == (b < half) then a >= b else a < half)
  {
    hide AluFlags;
    hide SignedOf;
    FlagValues(CMP, w, a, b);
    Results(CMP, w, a, b);
  }

  // ----- Operands -----

  /** `v` is the operand: the low part of a register, a truncated immediate, or memory at the truncated sum
      of base and displacement. */
  ghost predicate OperandIs(g: Regs, m: Memory, w: Width, o: Operand, v: u64) {
    match o
    case Reg(r) => v == Get(g, r) % (if w == W32 then 0x1_0000_0000 else 0x1_0000_0000_0000_0000)
    case Imm(i) => v == i % (if w == W32 then 0x1_0000_0000 else 0x1_0000_0000_0000_0000)
    case Mem(b, d) =>
      var a := (Get(g, b) + d) % 0x1_0000_0000_0000_0000;
      if w == W32 then InSpace(a, 4) && v == Read32(m, a) else InSpace(a, 8) && v == Read64(m, a)
  }

  lemma OperandValue(g: Regs, m: Memory, w: Width, o: Operand)
    requires Readable(g, w, o)
    ensures OperandIs(g, m, w, o, Value(g, m, w, o))
  {
    hide Get;
    hide Read32;
    hide Read64;
  }

  /** An operand cannot be read exactly when it runs past the top of the address space. */
  lemma ReadableIff(g: Regs, w: Width, b: Reg, d: int)
    ensures Readable(g, w, Mem(b, d)) <==>
            (Get(g, b) + d) % 0x1_0000_0000_0000_0000 + (if w == W32 then 4 else 8) <= 0x1_0000_0000_0000_0000
  {
    hide Get;
  }

  lemma ValueFits(g: Regs, m: Memory, o: Operand)
    requires Readable(g, W32, o)
    ensures Value(g, m, W32, o) < 0x1_0000_0000
  {
    hide Get;
    hide Read32;
  }

  // ----- Whole instructions -----

  /** `t` differs from `s` only in register `d`, the flags, the log, and in standing at instruction `i + 1`. */
  ghost predicate Writes(s: State, d: Reg, t: State, i: nat) {
    && t.mem == s.mem && t.pc == Line(i + 1)
    && forall q :: q != d ==> Get(t.regs, q) == Get(s.regs, q)
  }

  lemma AssignWrites(s: State, d: Reg, v: u64, f: Flags, accesses: seq<Access>, i: nat)
    ensures var t := Assign(s, d, v, f, accesses, Line(i + 1)).st;
            Writes(s, d, t, i) && Get(t.regs, d) == v && t.flags == f
  {
    hide Get;
    hide Set;
    forall q ensures Get(Set(s.regs, d, v), q) == if q == d then v else Get(s.regs, q) {
      SetThenGet(s.regs, d, v, q);
    }
  }

  /** ADD, SUB, CMP and TEST fault exactly when their operand cannot be read. Otherwise ADD and SUB put
      their result in the register, CMP and TEST leave all registers alone, and all leave their flags. */
  lemma AluEffect(img: Image, op: AluOp, w: Width, d: Reg, o: Operand, i: nat, s: State)
    ensures var x := Exec(img, Alu(op, w, d, o), i, s);
            && (x.Fault? <==> !Readable(s.regs, w, o))
            && (x.Next? ==>
                  var a, b := Trunc(w, Get(s.regs, d)), Value(s.regs, s.mem, w, o);
                  exists r ::
                    && ResultOf(op, w, a, b, r) && FlagsOf(op, w, a, b, r, x.st.flags) && Writes(s, d, x.st, i)
                    && Get(x.st.regs, d) == (if op == ADD || op == SUB then r else Get(s.regs, d)))
  {
    hide Get;
    hide Set;
    hide Readable;
    hide Value;
    hide AluFlags;
    hide AluResult;
    hide ResultOf;
    hide FlagsOf;
    if Readable(s.regs, w, o) {
      if w == W32 {
        ValueFits(s.regs, s.mem, o);
      }
      var a, b := Trunc(w, Get(s.regs, d)), Value(s.regs, s.mem, w, o);
      var r, f := AluResult(op, w, a, b), AluFlags(op, w, a, b);
      Results(op, w, a, b);
      FlagValues(op, w, a, b);
      AssignWrites(s, d, r, f, Touched(s.regs, w, o), i);
      assert ResultOf(op, w, a, b, r);
    }
  }

  /** INC never faults and is an ADD of 1. */
  lemma IncEffect(img: Image, w: Width, d: Reg, i: nat, s: State)
    ensures var x, a := Exec(img, Inc(w, d), i, s), Trunc(w, Get(s.regs, d));
            && x.Next? && Writes(s, d, x.st, i)
            && ResultOf(ADD, w, a, 1, Get(x.st.regs, d)) && FlagsOf(ADD, w, a, 1, Get(x.st.regs, d), x.st.flags)
  {
    hide Get;
    hide Set;
    hide Writes;
    hide AluFlags;
    hide ResultOf;
    hide FlagsOf;
    var a: int := Trunc(w, Get(s.regs, d));
    Results(ADD, w, a, 1);
    FlagValues(ADD, w, a, 1);
    AssignWrites(s, d, Trunc(w, a + 1), AluFlags(ADD, w, a, 1), [], i);
    hide Trunc;
  }

  /** DEC never faults and is a SUB of 1. */
  lemma DecEffect(img: Image, w: Width, d: Reg, i: nat, s: State)
    ensures var x, a := Exec(img, Dec(w, d), i, s), Trunc(w, Get(s.regs, d));
            && x.Next? && Writes(s, d, x.st, i)
            && ResultOf(SUB, w, a, 1, Get(x.st.regs, d)) && FlagsOf(SUB, w, a, 1, Get(x.st.regs, d), x.st.flags)
  {
    hide Get;
    hide Set;
    hide Writes;
    hide AluFlags;
    hide ResultOf;
    hide FlagsOf;
    var a: int := Trunc(w, Get(s.regs, d));
    Results(SUB, w, a, 1);
    FlagValues(SUB, w, a, 1);
    AssignWrites(s, d, Trunc(w, a - 1), AluFlags(SUB, w, a, 1), [], i);
    hide Trunc;
  }

  /** A shift by more than one position multiplies by a power of two, sets ZF and SF from the result and
      leaves OF undefined. */
  lemma ShiftEffect(img: Image, w: Width, d: Reg, count: nat, i: nat, s: State)
    ensures var x, r := Exec(img, Shl(w, d, count), i, s), Trunc(w, Trunc(w, Get(s.regs, d)) * Pow2(count));
            && x.Next? && Writes(s, d, x.st, i) && Get(x.st.regs, d) == r
            && x.st.flags.zf == (if r == 0 then On else Off)
            && x.st.flags.sf == (if r >= (if w == W32 then 0x8000_0000 else 0x8000_0000_0000_0000) then On else Off)
            && x.st.flags.of == Undefined
  {
    hide Get;
    hide Set;
    hide Pow2;
    var r := Trunc(w, Trunc(w, Get(s.regs, d)) * Pow2(count));
    AssignWrites(s, d, r, Exec(img, Shl(w, d, count), i, s).st.flags, [], i);
    hide Wrap32;
    hide Wrap64;
  }

  /** MOV puts its operand in the register, LEA the truncated sum; 32 bits are stored zero-extended. */
  lemma MoveEffect(img: Image, w: Width, d: Reg, o: Operand, b: Reg, disp: int, i: nat, s: State)
    ensures var x := Exec(img, Mov(w, d, o), i, s);
            && (x.Fault? <==> !Readable(s.regs, w, o))
            && (x.Next? ==> Writes(s, d, x.st, i) && OperandIs(s.regs, s.mem, w, o, Get(x.st.regs, d)))
    ensures var x := Exec(img, Lea(w, d, b, disp), i, s);
            && x.Next? && Writes(s, d, x.st, i)
            && Get(x.st.regs, d) ==
                 (Get(s.regs, b) + disp) % (if w == W32 then 0x1_0000_0000 else 0x1_0000_0000_0000_0000)
  {
    hide Get;
    hide Set;
    hide Readable;
    hide Value;
    hide OperandIs;
    if Readable(s.regs, w, o) {
      OperandValue(s.regs, s.mem, w, o);
      AssignWrites(s, d, Value(s.regs, s.mem, w, o), s.flags, Touched(s.regs, w, o), i);
    }
    AssignWrites(s, d, Trunc(w, Get(s.regs, b) + disp), s.flags, [], i);
    Truncation(Get(s.regs, b) + disp);
  }

  /** Instructions that move data or control leave the flags as they were. */
  lemma FlagsKept(img: Image, ins: Instr, i: nat, s: State)
    requires ins.Push? || ins.Pop? || ins.Mov? || ins.Lea? || ins.Jcc? || ins.Jmp? || ins.Call? || ins.Ret?
    ensures Exec(img, ins, i, s).Next? ==> Exec(img, ins, i, s).st.flags == s.flags
  {
    hide Get;
    hide Set;
    hide Value;
    hide Read64;
    hide Write64;
  }

  /** A conditional jump faults exactly when a flag it tests is undefined, and is taken as the flags say. */
  lemma JumpEffect(img: Image, target: nat, i: nat, s: State)
    ensures var x, f := Exec(img, Jcc(Equal, target), i, s), s.flags;
            if f.zf == Undefined then x.Fault?
            else x == Next(s.(pc := if f.zf == On then Line(target) else Line(i + 1)))
    ensures var x, f := Exec(img, Jcc(NotLess, target), i, s), s.flags;
            if f.sf == Undefined || f.of == Undefined then x.Fault?
            else x == Next(s.(pc := if f.sf == f.of then Line(target) else Line(i + 1)))
    ensures Exec(img, Jmp(target), i, s) == Next(s.(pc := Line(target)))
  {
  }

  /** PUSH stores its operand in the eight bytes below rsp, CALL the return site; rsp moves down to them. */
  lemma PushEffect(img: Image, o: Operand, d: Reg, i: nat, s: State)
    ensures var x, sp := Exec(img, Push(o), i, s), (s.regs.rsp - 8) % 0x1_0000_0000_0000_0000;
            && (x.Fault? <==> !Readable(s.regs, W64, o) || sp + 8 > 0x1_0000_0000_0000_0000)
            && (x.Next? ==>
                  && x.st.pc == Line(i + 1) && x.st.regs == s.regs.(rsp := sp)
                  && x.st.mem == Write64(s.mem, sp, Value(s.regs, s.mem, W64, o)))
    ensures var x, sp := Exec(img, Call(d), i, s), (s.regs.rsp - 8) % 0x1_0000_0000_0000_0000;
            && (x.Fault? <==> sp + 8 > 0x1_0000_0000_0000_0000)
            && (x.Next? ==>
                  && x.st.pc == Outside(Get(s.regs, d)) && x.st.regs == s.regs.(rsp := sp)
                  && x.st.mem == Write64(s.mem, sp, img.site))
  {
    hide Get;
    hide Readable;
    hide Value;
    hide Write64;
  }

  /** POP and RET take the eight bytes at rsp, into a register or as the next code address; rsp moves up. */
  lemma PopEffect(img: Image, d: Reg, i: nat, s: State)
    requires d != RSP
    ensures var x, sp := Exec(img, Pop(d), i, s), s.regs.rsp;
            && (x.Fault? <==> sp + 8 > 0x1_0000_0000_0000_0000)
            && (x.Next? ==>
                  && x.st.pc == Line(i + 1) && x.st.mem == s.mem
                  && x.st.regs == Set(s.regs.(rsp := (sp + 8) % 0x1_0000_0000_0000_0000), d, Read64(s.mem, sp)))
    ensures var x, sp := Exec(img, Ret, i, s), s.regs.rsp;
            && (x.Fault? <==> sp + 8 > 0x1_0000_0000_0000_0000)
            && (x.Next? ==>
                  && x.st.pc == Outside(Read64(s.mem, sp)) && x.st.mem == s.mem
                  && x.st.regs == s.regs.(rsp := (sp + 8) % 0x1_0000_0000_0000_0000))
  {
    hide Set;
    hide Read64;
  }
}
