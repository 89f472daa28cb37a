/** `__x64ServiceCall` itself: the listing with its labels resolved, and what a run of it is. */
module Thunk {
  import opened X64

  // Indices of the instructions the labels stand for, and of the call and its return site.
  const SKIP1 := 6
  const SKIP2 := 9
  const SKIP3 := 17
  const LOOP := 22
  const BREAK := 28
  const CALL := 32
  const AFTER := 33

  /** The instructions of the thunk in order; a jump names the index its label stands for. */
  const LISTING: seq<Instr> := [
    Push(Reg(RBX)),
    Mov(W64, R10, Reg(RCX)),
    Mov(W32, RAX, Mem(RDX, 0)),
    Alu(CMP, W64, RAX, Imm(4)),
    Jcc(NotLess, SKIP1),
    Mov(W64, RAX, Imm(4)),
    // _skip1
    Alu(TEST, W64, RAX, Imm(1)),
    Jcc(Equal, SKIP2),
    Inc(W64, RAX),
    // _skip2
    Mov(W64, RBX, Reg(RAX)),
    Shl(W64, RBX, 3),
    Mov(W32, R8, Reg(RAX)),
    Alu(SUB, W32, R8, Mem(RDX, 0)),
    Alu(CMP, W32, R8, Imm(0)),
    Jcc(Equal, SKIP3),
    Shl(W64, R8, 3),
    Alu(SUB, W64, RSP, Reg(R8)),
    // _skip3
    Mov(W32, RAX, Mem(RDX, 0)),
    Lea(W32, R8, RAX, -1),
    Shl(W64, R8, 4),
    Alu(ADD, W64, RDX, Imm(8)),
    Alu(ADD, W64, RDX, Reg(R8)),
    // _loop
    Alu(CMP, W32, RAX, Imm(0)),
    Jcc(Equal, BREAK),
    Push(Mem(RDX, 8)),
    Alu(SUB, W64, RDX, Imm(0x10)),
    Dec(W32, RAX),
    Jmp(LOOP),
    // _break
    Mov(W64, RCX, Mem(RSP, 0)),
    Mov(W64, RDX, Mem(RSP, 8)),
    Mov(W64, R8, Mem(RSP, 0x10)),
    Mov(W64, R9, Mem(RSP, 0x18)),
    Call(R10),
    Alu(ADD, W64, RSP, Reg(RBX)),
    Pop(RBX),
    Ret
  ]

  /** Control coming in at one of the thunk's two code addresses. */
  function Land(img: Image, st: State): State {
    if st.pc == Outside(img.entry) then st.(pc := Line(0))
    else if st.pc == Outside(img.site) then st.(pc := Line(AFTER))
    else st
  }
}
