/** The thunk as a structured program over a machine that is updated in place, and the pseudo-code
    its comments give. */
module InPlace {
  import opened Words
  import opened X64
  import opened MemoryLaws
  import opened Layout
  import opened Thunk
  import opened Blocks
  import opened LoopRun
  import opened CallRun
  import opened Convention

  class Machine {
    var rax: u64
    var rcx: u64
    var rdx: u64
    var rbx: u64
    var rsp: u64
    var r8: u64
    var r9: u64
    var r10: u64
    var untouched: Regs  // the registers the thunk does not name
    const ram: array<byte>

    ghost predicate Valid() {
      ram.Length == 0x1_0000_0000_0000_0000
    }

    function Registers(): Regs
      reads this
    {
      untouched.(rax := rax, rcx := rcx, rdx := rdx, rbx := rbx, rsp := rsp, r8 := r8, r9 := r9, r10 := r10)
    }

    /** The bytes in `ram` are those of `m`. */
    ghost predicate Shows(m: Memory)
      requires Valid()
      reads ram
    {
      forall x: u64 :: ram[x] == m(x)
    }

    /** Reads `k` bytes, most significant first. */
    method Fetch(a: u64, k: nat, ghost m: Memory) returns (v: nat)
      requires Valid() && Shows(m) && InSpace(a, k)
      ensures v == Load(m, a, k)
    {
      v := 0;
      for i := k downto 0
        invariant v == Load(m, a + i, k - i)
      {
        v := ram[a + i] + 0x100 * v;
      }
    }

    method Store(a: u64, v: u64, ghost m: Memory)
      requires Valid() && Shows(m) && InSpace(a, 8)
      modifies ram
      ensures Shows(Write64(m, a, v))
    {
      for i := 0 to 8
        invariant forall x: u64 :: ram[x] == if a <= x < a + i then ByteAt(v, x - a) else m(x)
      {
        ram[a + i] := ByteAt(v, i);
      }
    }

    method Push(v: u64, ghost m: Memory)
      requires Valid() && Shows(m) && rsp >= 8
      modifies this`rsp, ram
      ensures rsp == old(rsp) - 8 && Shows(Write64(m, rsp, v))
    {
      rsp := rsp - 8;
      Store(rsp, v, m);
    }

    /** Lines 12-21: save rbx and compute the padded slot count. */
    method CountSlots(ghost e: State)
      requires Valid() && Admissible(e) && Registers() == e.regs && Shows(e.mem)
      modifies this, ram
      ensures Shows(SavedMem(e))
      ensures Registers() == e.regs.(rax := Slots(Size(e)), r10 := e.regs.rcx, rsp := e.regs.rsp - 8)
    {
      hide Read32;
      hide Write64;
      CountKept(e);
      Push(rbx, e.mem);
      r10 := rcx;
      rax := Fetch32(rdx, SavedMem(e));
      if Signed64(rax) < 4 {
        rax := 4;
      }
      AndOne(rax);
      if And(rax, 1) != 0 {
        rax := Wrap64(rax + 1);
      }
    }

    /** Lines 23-30: compute the frame size and reserve the padding. */
    method ReservePadding(ghost n: u32, ghost m: Memory)
      requires Valid() && Shows(m) && InSpace(rdx, 4) && n == Read32(m, rdx)
      requires rax == Slots(n) && rsp >= 32
      modifies this
      ensures Registers() == old(Registers()).(rbx := 8 * Slots(n), r8 := 8 * Padding(n),
                                               rsp := old(rsp) - 8 * Padding(n))
    {
      hide Read32;
      rbx := rax;
      rbx := Wrap64(rbx * 8);
      r8 := Wrap32(rax);
      var count := Fetch32(rdx, m);
      WrapDifference(rax, count);
      r8 := Wrap32(r8 - count);
      if r8 != 0 {
        r8 := Wrap64(r8 * 8);
        rsp := Wrap64(rsp - r8);
      }
    }

    method ReserveFrame(ghost e: State)
      requires Valid() && Admissible(e) && Registers() == e.regs && Shows(e.mem)
      modifies this, ram
      ensures Shows(SavedMem(e))
      ensures var n := Size(e);
              Registers() == e.regs.(rax := Slots(n), rbx := 8 * Slots(n), r10 := e.regs.rcx,
                                     r8 := 8 * Padding(n), rsp := e.regs.rsp - 8 - 8 * Padding(n))
    {
      hide Read32;
      hide Write64;
      CountSlots(e);
      CountKept(e);
      ReservePadding(Size(e), SavedMem(e));
    }

    method Fetch32(a: u64, ghost m: Memory) returns (v: u32)
      requires Valid() && Shows(m) && InSpace(a, 4)
      ensures v == Read32(m, a)
    {
      LoadBound(m, a, 4);
      WordSizes();
      v := Fetch(a, 4, m);
    }

    method Fetch64(a: u64, ghost m: Memory) returns (v: u64)
      requires Valid() && Shows(m) && InSpace(a, 8)
      ensures v == Read64(m, a)
    {
      LoadBound(m, a, 8);
      WordSizes();
      v := Fetch(a, 8, m);
    }

    /** Lines 32-36: set the counter and the cursor. */
    method SetCursor(ghost e: State)
      requires Valid() && Admissible(e) && Shows(SavedMem(e))
      requires var n := Size(e);
               Registers() == e.regs.(rax := Slots(n), rbx := 8 * Slots(n), r10 := e.regs.rcx,
                                      r8 := 8 * Padding(n), rsp := e.regs.rsp - 8 - 8 * Padding(n))
      modifies this
      ensures Registers() == LoopRegs(e, Size(e))
    {
      hide Read32;
      hide Write64;
      CountKept(e);
      rax := Fetch32(rdx, SavedMem(e));
      r8 := Wrap32(rax - 1);
      r8 := Wrap64(r8 * 16);
      WrapSum(rdx + 8, r8);
      rdx := Wrap64(rdx + 8);
      rdx := Wrap64(rdx + r8);
    }

    /** Line 40: push the qword at `a`. */
    method PushFrom(a: u64, ghost m: Memory)
      requires Valid() && Shows(m) && InSpace(a, 8) && rsp >= 8
      modifies this`rsp, ram
      ensures rsp == old(rsp) - 8 && Shows(Write64(m, rsp, Read64(m, a)))
    {
      hide Read64;
      hide Write64;
      var v := Fetch64(a, m);
      Push(v, m);
    }

    /** Lines 40-42: push the parameter at the cursor and move on to the one before. */
    method PushNext(ghost g: Regs, ghost m: Memory)
      requires Valid() && Registers() == g && Shows(m)
      requires rax > 0 && rax < 0x1_0000_0000 && InSpace(rdx + 8, 8) && rsp >= 8
      modifies this, ram
      ensures Registers() == g.(rax := g.rax - 1, rsp := g.rsp - 8, rdx := Wrap64(g.rdx - 16))
      ensures Shows(Write64(m, g.rsp - 8, Read64(m, g.rdx + 8)))
    {
      hide Read64;
      hide Write64;
      PushFrom(rdx + 8, m);
      rdx := Wrap64(rdx - 16);
      rax := Wrap32(rax - 1);
    }

    /** Lines 38-43: push the parameters, last to first. */
    method PushParameters(ghost e: State)
      requires Valid() && Admissible(e) && Shows(SavedMem(e)) && Registers() == LoopRegs(e, Size(e))
      modifies this, ram
      ensures Registers() == LoopRegs(e, 0) && Shows(LoopMem(e, 0))
    {
      hide Read64;
      hide Write64;
      ghost var k: nat := Size(e);
      while Wrap32(rax) != 0
        invariant k <= Size(e) && rax == k && Registers() == LoopRegs(e, k) && Shows(LoopMem(e, k))
        decreases k
      {
        HeadsDiffer(e, k);
        PushNext(LoopRegs(e, k), LoopMem(e, k));
        k := k - 1;
      }
    }

    /** Lines 45-48: fill the register arguments from the lowest four slots. */
    method LoadRegisters(ghost m: Memory)
      requires Valid() && Shows(m) && InSpace(rsp, 32)
      modifies this`rcx, this`rdx, this`r8, this`r9
      ensures rcx == Read64(m, rsp) && rdx == Read64(m, rsp + 8)
      ensures r8 == Read64(m, rsp + 0x10) && r9 == Read64(m, rsp + 0x18)
    {
      hide Read64;
      rcx := Fetch64(rsp, m);
      rdx := Fetch64(rsp + 8, m);
      r8 := Fetch64(rsp + 0x10, m);
      r9 := Fetch64(rsp + 0x18, m);
    }

    /** Lines 45-49: fill the register arguments and push the return address. */
    method LoadAndCall(img: Image, ghost e: State) returns (target: u64)
      requires Valid() && Admissible(e) && Registers() == LoopRegs(e, 0) && Shows(LoopMem(e, 0))
      modifies this, ram
      ensures target == e.regs.rcx
      ensures Registers() == CallRegs(e).(rsp := ArgBase(e) - 8) && Shows(CallMem(img, e))
    {
      hide Read64;
      hide Write64;
      hide LoopMem;
      ghost var m := LoopMem(e, 0);
      LoadRegisters(m);
      target := r10;
      Push(img.site, m);
    }

    /** Lines 12-49: the structured program reaches the routine with every register and every byte of
        memory as the run of the listing has them there. */
    method EnterRoutine(img: Image, ghost e: State) returns (target: u64)
      requires Valid() && Admissible(e) && Registers() == e.regs && Shows(e.mem)
      modifies this, ram
      ensures var o := Run(LISTING, img, e, CallSteps(Size(e)));
              o.Next? && o.st.pc == Outside(target) && Registers() == o.st.regs && Shows(o.st.mem)
    {
      hide Run;
      hide Registers;
      hide Shows;
      ReserveFrame(e);
      SetCursor(e);
      PushParameters(e);
      target := LoadAndCall(img, e);
      ghost var c := ToRoutine(img, e);
    }

    /** Lines 50-52: drop the frame, restore rbx, return. */
    method LeaveThunk(img: Image, ghost e: State, ghost r: State) returns (target: u64)
      requires Valid() && Admissible(e) && Back(img, e, r) && img.entry != img.site
      requires Registers() == r.regs && Shows(r.mem)
      modifies this
      ensures var o := Run(LISTING, img, Land(img, r), 3);
              o.Next? && o.st.pc == Outside(target) && Registers() == o.st.regs && Shows(o.st.mem)
    {
      ghost var f := Unwind(img, e, r);
      rsp := Wrap64(rsp + rbx);
      rbx := Fetch64(rsp, r.mem);
      rsp := Wrap64(rsp + 8);
      target := Fetch64(rsp, r.mem);
      rsp := Wrap64(rsp + 8);
    }

    method SlotsAsCommented(dwParameters: u32) returns (dwStack: u32)
      ensures dwStack == CommentSlots(dwParameters)
    {
      dwStack := dwParameters;
      if dwStack < 4 {
        dwStack := 4;
      }
      if dwStack % 2 != 0 {
        dwStack := Wrap32(dwStack + 1);
      }
    }

    /** The pseudo-code in the comments of lines 14-43, with its 32-bit variables. */
    method FrameAsCommented(p: u64, ghost m: Memory) returns (dwStack: u32, dwStackAllocated: u32)
      requires Valid() && Shows(m) && Block(m, p)
      requires CommentFits(rsp, p, Count(m, p))
      modifies this`rsp, ram
      ensures dwStack == CommentSlots(Count(m, p)) && dwStackAllocated == CommentAllocated(Count(m, p))
      ensures rsp == CommentBase(old(rsp), Count(m, p)) && Shows(Pushed(m, rsp, Params(m, p), 0))
    {
      hide Read32;
      var dwParameters := Fetch32(p, m);
      dwStack := SlotsAsCommented(dwParameters);
      hide Slots;
      hide Wrap32;
      dwStackAllocated := Wrap32(dwStack * 8);
      if dwParameters < dwStack {
        rsp := rsp - 8 * (dwStack - dwParameters);
      }
      PushAsCommented(p, dwParameters, m);
    }

    /** The pseudo-code's loop. The parameter pointer starts at the last blob, where line 33 puts it, and
        not one past it, as the comment of line 35 reads. */
    method PushAsCommented(p: u64, dwParameters: u32, ghost m: Memory)
      requires Valid() && Shows(m) && Block(m, p) && dwParameters == Count(m, p)
      requires rsp >= 8 * dwParameters && Apart(p, BlockSize(dwParameters), rsp - 8 * dwParameters, 8 * dwParameters)
      modifies this`rsp, ram
      ensures rsp == old(rsp) - 8 * dwParameters && Shows(Pushed(m, rsp, Params(m, p), 0))
    {
      hide Read64;
      hide Write64;
      hide Count;
      var dwIndex: u32 := dwParameters;
      var param := p + 8 + 16 * (dwIndex - 1);
      ghost var vs := Params(m, p);
      ghost var base := rsp - 8 * dwParameters;
      while dwIndex != 0
        invariant dwIndex <= dwParameters && param == p + 8 + 16 * (dwIndex - 1)
        invariant rsp == base + 8 * dwIndex && Shows(Pushed(m, base, vs, dwIndex))
      {
        ghost var now := Pushed(m, base, vs, dwIndex);
        StillThere(m, base, vs, dwIndex, param + 8);
        PushFrom(param + 8, now);
        param := param - 16;
        dwIndex := dwIndex - 1;
      }
    }

    /** Runs the pseudo-code where the thunk has saved rbx, and holds its outcome against the machine's at
        `_break`: the slot count and the stack pointer are the machine's exactly when the count is not the
        largest one, then all of memory is too, and the 32-bit frame size is the machine's exactly up to
        2^29 - 2 parameters. */
    method RunComments(img: Image, ghost e: State) returns (dwStack: u32, dwStackAllocated: u32)
      requires Valid() && Admissible(e) && Shows(SavedMem(e)) && rdx == e.regs.rdx && rsp == e.regs.rsp - 8
      modifies this`rsp, ram
      ensures var n, o := Size(e), Run(LISTING, img, e, BreakSteps(Size(e)));
              && o.Next? && o.st.pc == Line(BREAK)
              && (dwStack == Slots(n) <==> n != 0xFFFF_FFFF)
              && (rsp == o.st.regs.rsp <==> n != 0xFFFF_FFFF)
              && (n != 0xFFFF_FFFF ==> Shows(o.st.mem))
              && (dwStackAllocated == o.st.regs.rbx <==> n <= 0x1FFF_FFFE)
    {
      CommentStart(e);
      hide Read32;
      hide Pushed;
      hide Run;
      hide CommentFits;
      dwStack, dwStackAllocated := FrameAsCommented(rdx, SavedMem(e));
      ghost var b := ToBreak(img, e);
      HeldAgainst(e, b);
      hide LoopRegs;
      hide LoopMem;
      hide CommentSlots;
      hide CommentAllocated;
      hide CommentBase;
      hide Slots;
    }
  }

  // ----- The pseudo-code's widths -----

  function CommentSlots(n: u32): u32 {
    Wrap32(Slots(n))
  }

  function CommentAllocated(n: u32): u32 {
    Wrap32(8 * CommentSlots(n))
  }

  function CommentPadding(n: u32): nat {
    if n < CommentSlots(n) then CommentSlots(n) - n else 0
  }

  function CommentBase(rsp: int, n: u32): int {
    rsp - 8 * CommentPadding(n) - 8 * n
  }

  /** The stack has room for the pseudo-code's frame, and the frame is apart from the block. */
  predicate CommentFits(rsp: int, p: int, n: u32) {
    CommentBase(rsp, n) >= 0 && Apart(p, BlockSize(n), CommentBase(rsp, n), 8 * n)
  }

  lemma StillThere(m: Memory, base: int, vs: seq<u64>, k: nat, a: int)
    requires k <= |vs| && InSpace(base, 8 * |vs|) && InSpace(a, 8)
    requires Apart(a, 8, base, 8 * |vs|)
    ensures Read64(Pushed(m, base, vs, k), a) == Read64(m, a)
  {
    var now := Pushed(m, base, vs, k);
    forall x: u64 | a <= x < a + 8 ensures now(x) == m(x) {
      PushedElsewhere(m, base, vs, k, x);
    }
    ReadSame(now, m, a);
  }

  /** Once rbx is saved the block is as it was on entry, and what suffices for the thunk's frame
      suffices for the pseudo-code's. */
  lemma CommentStart(e: State)
    requires Admissible(e)
    ensures Block(SavedMem(e), e.regs.rdx) && Count(SavedMem(e), e.regs.rdx) == Size(e)
    ensures Params(SavedMem(e), e.regs.rdx) == Args(e)
    ensures CommentFits(e.regs.rsp - 8, e.regs.rdx, Size(e))
  {
    hide Read64;
    CountKept(e);
    var m, p := SavedMem(e), e.regs.rdx;
    forall i | 0 <= i < Size(e) ensures Read64(m, ParamAt(p, i)) == Args(e)[i] {
      ReadSame(m, e.mem, ParamAt(p, i));
    }
    CommentWidths(Size(e));
  }

  lemma CommentWidths(n: u32)
    ensures n != 0xFFFF_FFFF ==> CommentSlots(n) == Slots(n) && CommentPadding(n) == Padding(n)
    ensures n == 0xFFFF_FFFF ==> Slots(n) == 0x1_0000_0000 && Padding(n) == 1 && CommentPadding(n) == 0
    ensures CommentSlots(0xFFFF_FFFF) == 0 && CommentAllocated(n) == 8 * Slots(n) % 0x1_0000_0000
    ensures 8 * Slots(n) == CommentAllocated(n) <==> n <= 0x1FFF_FFFE
  {
  }

  /** What the pseudo-code computes is what the machine has in state `b`: slot count and stack pointer
      exactly when the count is not the largest one, then also memory, and the frame size exactly up to
      2^29 - 2 parameters. */
  ghost predicate RefinesExactly(e: State, b: State)
    requires Admissible(e)
  {
    var n, base := Size(e), CommentBase(e.regs.rsp - 8, Size(e));
    && (CommentSlots(n) == Slots(n) <==> n != 0xFFFF_FFFF)
    && (base == b.regs.rsp <==> n != 0xFFFF_FFFF)
    && (n != 0xFFFF_FFFF ==> InSpace(base, 8 * n) && b.mem == Pushed(SavedMem(e), base, Args(e), 0))
    && (CommentAllocated(n) == b.regs.rbx <==> n <= 0x1FFF_FFFE)
  }

  /** The pseudo-code's outcome against the registers and memory at `_break`. */
  lemma HeldAgainst(e: State, b: State)
    requires Admissible(e) && b.regs == LoopRegs(e, 0) && b.mem == LoopMem(e, 0)
    ensures RefinesExactly(e, b)
  {
    CommentWidths(Size(e));
    hide CommentSlots;
    hide CommentPadding;
    hide CommentAllocated;
    hide Pushed;
  }

  lemma ToBreak(img: Image, e: State) returns (b: State)
    requires Admissible(e)
    ensures Leads(img, e, BreakSteps(Size(e)), b)
    ensures b.pc == Line(BREAK) && b.regs == LoopRegs(e, 0) && b.mem == LoopMem(e, 0)
  {
    hide Leads;
    hide LoopMem;
    hide LoopLog;
    var n: nat := Size(e);
    var s := ToLoop(img, e);
    b := LoopToBreak(img, e, n, s);
    Then(img, e, PrologueSteps(n), s, 6 * n + 2, b);
  }

  /** The machine code refines the values of the pseudo-code, with these exact exceptions, at `_break`. */
  lemma CommentsRefinedIff(img: Image, e: State)
    requires Admissible(e)
    ensures exists b :: Leads(img, e, BreakSteps(Size(e)), b) && b.pc == Line(BREAK) && RefinesExactly(e, b)
  {
    hide RefinesExactly;
    hide Run;
    hide LoopRegs;
    hide LoopMem;
    var b := ToBreak(img, e);
    HeldAgainst(e, b);
  }
}
