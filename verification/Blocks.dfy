/** What each short stretch of the listing does, from any state that stands at its first instruction. */
module Blocks {
  import opened Words
  import opened X64
  import opened Thunk

  /** `k` instructions of the thunk lead from `a` to `b`. */
  ghost predicate Leads(img: Image, a: State, k: nat, b: State) {
    Run(LISTING, img, a, k) == Next(b)
  }

  lemma Then(img: Image, a: State, j: nat, b: State, k: nat, c: State)
    requires Leads(img, a, j, b) && Leads(img, b, k, c)
    ensures Leads(img, a, j + k, c)
  {
    RunAdd(LISTING, img, a, j, k);
  }

  lemma Then2(img: Image, a: State, j: nat, b: State, k: nat, c: State, l: nat, d: State)
    requires Leads(img, a, j, b) && Leads(img, b, k, c) && Leads(img, c, l, d)
    ensures Leads(img, a, j + k + l, d)
  {
    hide Leads;
    Then(img, a, j, b, k, c);
    Then(img, a, j + k, c, l, d);
  }

  /** `s` stands at instruction `i` with this contents; the flags are whatever they are. */
  ghost predicate Stands(s: State, i: nat, g: Regs, m: Memory, log: seq<Access>) {
    s.pc == Line(i) && s.regs == g && s.mem == m && s.log == log
  }

  // ----- Entry (lines 12-14) -----

  lemma SaveRbx(img: Image, a: State) returns (b: State)
    requires a.pc == Line(0) && InSpace(a.regs.rsp - 8, 8)
    ensures Leads(img, a, 2, b)
    ensures Stands(b, 2, a.regs.(rsp := a.regs.rsp - 8, r10 := a.regs.rcx),
                   Write64(a.mem, a.regs.rsp - 8, a.regs.rbx),
                   a.log + [Access(true, true, a.regs.rsp - 8, 8)])
  {
    hide Write64;
    b := Step(LISTING, img, Step(LISTING, img, a).st).st;
  }

  lemma ReadCount(img: Image, a: State) returns (b: State)
    requires a.pc == Line(2) && InSpace(a.regs.rdx, 4)
    ensures Leads(img, a, 1, b)
    ensures Stands(b, 3, a.regs.(rax := Read32(a.mem, a.regs.rdx)), a.mem,
                   a.log + [Access(false, false, a.regs.rdx, 4)])
  {
    b := Step(LISTING, img, a).st;
    assert Run(LISTING, img, b, 0) == Next(b);
  }

  // ----- Slot count (lines 15-21) -----

  lemma CompareFour(img: Image, a: State) returns (b: State)
    requires a.pc == Line(3) && a.regs.rax < 0x1_0000_0000
    ensures Leads(img, a, 2, b)
    ensures Stands(b, if a.regs.rax < 4 then 5 else SKIP1, a.regs, a.mem, a.log)
  {
    hide And;
    b := Step(LISTING, img, Step(LISTING, img, a).st).st;
  }

  lemma RaiseToFour(img: Image, a: State) returns (b: State)
    requires a.pc == Line(5)
    ensures Leads(img, a, 1, b)
    ensures Stands(b, SKIP1, a.regs.(rax := 4), a.mem, a.log)
  {
    b := Step(LISTING, img, a).st;
    assert Run(LISTING, img, b, 0) == Next(b);
  }

  lemma TestOdd(img: Image, a: State) returns (b: State)
    requires a.pc == Line(SKIP1)
    ensures Leads(img, a, 2, b)
    ensures Stands(b, if a.regs.rax % 2 == 0 then SKIP2 else 8, a.regs, a.mem, a.log)
  {
    AndOne(a.regs.rax);
    b := Step(LISTING, img, Step(LISTING, img, a).st).st;
  }

  lemma RaiseToEven(img: Image, a: State) returns (b: State)
    requires a.pc == Line(8) && a.regs.rax < 0x1_0000_0000
    ensures Leads(img, a, 1, b)
    ensures Stands(b, SKIP2, a.regs.(rax := a.regs.rax + 1), a.mem, a.log)
  {
    b := Step(LISTING, img, a).st;
    assert Run(LISTING, img, b, 0) == Next(b);
  }

  // ----- Frame size and padding (lines 23-30) -----

  lemma FrameSize(img: Image, a: State) returns (b: State)
    requires a.pc == Line(SKIP2) && a.regs.rax <= 0x1_0000_0000
    ensures Leads(img, a, 2, b)
    ensures Stands(b, 11, a.regs.(rbx := 8 * a.regs.rax), a.mem, a.log)
  {
    hide And;
    b := Step(LISTING, img, Step(LISTING, img, a).st).st;
  }

  lemma CopySlots(img: Image, a: State) returns (b: State)
    requires a.pc == Line(11)
    ensures Leads(img, a, 1, b)
    ensures Stands(b, 12, a.regs.(r8 := Wrap32(a.regs.rax)), a.mem, a.log)
  {
    b := Step(LISTING, img, a).st;
    assert Run(LISTING, img, b, 0) == Next(b);
  }

  lemma SubtractCount(img: Image, a: State) returns (b: State)
    requires a.pc == Line(12) && InSpace(a.regs.rdx, 4) && a.regs.r8 < 0x1_0000_0000
    ensures Leads(img, a, 1, b)
    ensures Stands(b, 13, a.regs.(r8 := Wrap32(a.regs.r8 - Read32(a.mem, a.regs.rdx))), a.mem,
                   a.log + [Access(false, false, a.regs.rdx, 4)])
  {
    hide Read32;
    b := Step(LISTING, img, a).st;
    assert Run(LISTING, img, b, 0) == Next(b);
  }

  lemma AnyMissing(img: Image, a: State) returns (b: State)
    requires a.pc == Line(13) && a.regs.r8 < 0x1_0000_0000
    ensures Leads(img, a, 2, b)
    ensures Stands(b, if a.regs.r8 == 0 then SKIP3 else 15, a.regs, a.mem, a.log)
  {
    hide And;
    b := Step(LISTING, img, Step(LISTING, img, a).st).st;
  }

  lemma ScalePadding(img: Image, a: State) returns (b: State)
    requires a.pc == Line(15) && a.regs.r8 <= 4
    ensures Leads(img, a, 1, b)
    ensures Stands(b, 16, a.regs.(r8 := 8 * a.regs.r8), a.mem, a.log)
  {
    b := Step(LISTING, img, a).st;
    assert Run(LISTING, img, b, 0) == Next(b);
  }

  lemma SkipPadding(img: Image, a: State) returns (b: State)
    requires a.pc == Line(16) && a.regs.r8 <= a.regs.rsp
    ensures Leads(img, a, 1, b)
    ensures Stands(b, SKIP3, a.regs.(rsp := a.regs.rsp - a.regs.r8), a.mem, a.log)
  {
    b := Step(LISTING, img, a).st;
    assert Run(LISTING, img, b, 0) == Next(b);
  }

  // ----- Cursor (lines 32-36) -----

  lemma LastIndex(img: Image, a: State) returns (b: State)
    requires a.pc == Line(SKIP3) && InSpace(a.regs.rdx, 4)
    ensures Leads(img, a, 2, b)
    ensures var n := Read32(a.mem, a.regs.rdx);
            Stands(b, 19, a.regs.(rax := n, r8 := Wrap32(n - 1)), a.mem,
                   a.log + [Access(false, false, a.regs.rdx, 4)])
  {
    hide Read32;
    b := Step(LISTING, img, Step(LISTING, img, a).st).st;
  }

  lemma ScaleIndex(img: Image, a: State) returns (b: State)
    requires a.pc == Line(19) && a.regs.r8 < 0x1_0000_0000
    ensures Leads(img, a, 1, b)
    ensures Stands(b, 20, a.regs.(r8 := 16 * a.regs.r8), a.mem, a.log)
  {
    b := Step(LISTING, img, a).st;
    assert Run(LISTING, img, b, 0) == Next(b);
  }

  lemma SkipHeader(img: Image, a: State) returns (b: State)
    requires a.pc == Line(20)
    ensures Leads(img, a, 1, b)
    ensures Stands(b, 21, a.regs.(rdx := Wrap64(a.regs.rdx + 8)), a.mem, a.log)
  {
    b := Step(LISTING, img, a).st;
    assert Run(LISTING, img, b, 0) == Next(b);
  }

  lemma AddIndex(img: Image, a: State) returns (b: State)
    requires a.pc == Line(21)
    ensures Leads(img, a, 1, b)
    ensures Stands(b, LOOP, a.regs.(rdx := Wrap64(a.regs.rdx + a.regs.r8)), a.mem, a.log)
  {
    b := Step(LISTING, img, a).st;
    assert Run(LISTING, img, b, 0) == Next(b);
  }

  // ----- Loop (lines 38-43) -----

  lemma LoopTest(img: Image, a: State) returns (b: State)
    requires a.pc == Line(LOOP) && a.regs.rax < 0x1_0000_0000
    ensures Leads(img, a, 2, b)
    ensures Stands(b, if a.regs.rax == 0 then BREAK else 24, a.regs, a.mem, a.log)
    ensures a.regs.rax == 0 ==> b.flags == Flags(On, Off, Off)
  {
    b := Step(LISTING, img, Step(LISTING, img, a).st).st;
  }

  lemma PushParam(img: Image, a: State) returns (b: State)
    requires a.pc == Line(24) && InSpace(a.regs.rdx + 8, 8) && InSpace(a.regs.rsp - 8, 8)
    ensures Leads(img, a, 2, b)
    ensures var g := a.regs;
            Stands(b, 26, g.(rsp := g.rsp - 8, rdx := Wrap64(g.rdx - 16)),
                   Write64(a.mem, g.rsp - 8, Read64(a.mem, g.rdx + 8)),
                   a.log + [Access(false, false, g.rdx + 8, 8), Access(true, true, g.rsp - 8, 8)])
  {
    hide Read64;
    hide Write64;
    var s := Step(LISTING, img, a).st;
    assert s.log == a.log + [Access(false, false, a.regs.rdx + 8, 8), Access(true, true, a.regs.rsp - 8, 8)];
    b := Step(LISTING, img, s).st;
  }

  lemma CountDown(img: Image, a: State) returns (b: State)
    requires a.pc == Line(26) && 0 < a.regs.rax < 0x1_0000_0000
    ensures Leads(img, a, 2, b)
    ensures Stands(b, LOOP, a.regs.(rax := a.regs.rax - 1), a.mem, a.log)
  {
    b := Step(LISTING, img, Step(LISTING, img, a).st).st;
  }

  // ----- Register arguments and call (lines 45-49) -----

  lemma LoadFirstTwo(img: Image, a: State) returns (b: State)
    requires a.pc == Line(BREAK) && InSpace(a.regs.rsp, 16)
    ensures Leads(img, a, 2, b)
    ensures var sp := a.regs.rsp;
            Stands(b, 30, a.regs.(rcx := Read64(a.mem, sp), rdx := Read64(a.mem, sp + 8)), a.mem,
                   a.log + [Access(false, true, sp, 8), Access(false, true, sp + 8, 8)])
    ensures b.flags == a.flags
  {
    hide Read64;
    b := Step(LISTING, img, Step(LISTING, img, a).st).st;
  }

  lemma LoadNextTwo(img: Image, a: State) returns (b: State)
    requires a.pc == Line(30) && InSpace(a.regs.rsp, 32)
    ensures Leads(img, a, 2, b)
    ensures var sp := a.regs.rsp;
            Stands(b, CALL, a.regs.(r8 := Read64(a.mem, sp + 16), r9 := Read64(a.mem, sp + 24)), a.mem,
                   a.log + [Access(false, true, sp + 16, 8), Access(false, true, sp + 24, 8)])
    ensures b.flags == a.flags
  {
    hide Read64;
    b := Step(LISTING, img, Step(LISTING, img, a).st).st;
  }

  lemma CallRoutine(img: Image, a: State) returns (b: State)
    requires a.pc == Line(CALL) && InSpace(a.regs.rsp - 8, 8)
    ensures Leads(img, a, 1, b)
    ensures b.pc == Outside(a.regs.r10) && b.regs == a.regs.(rsp := a.regs.rsp - 8)
    ensures b.mem == Write64(a.mem, a.regs.rsp - 8, img.site)
    ensures b.log == a.log + [Access(true, true, a.regs.rsp - 8, 8)] && b.flags == a.flags
  {
    b := Step(LISTING, img, a).st;
    assert Run(LISTING, img, b, 0) == Next(b);
  }

  // ----- Unwinding (lines 50-52) -----

  lemma DropFrame(img: Image, a: State) returns (b: State)
    requires a.pc == Line(AFTER) && InSpace(Wrap64(a.regs.rsp + a.regs.rbx), 8)
    ensures Leads(img, a, 2, b)
    ensures var sp := Wrap64(a.regs.rsp + a.regs.rbx);
            Stands(b, 35, a.regs.(rsp := Wrap64(sp + 8), rbx := Read64(a.mem, sp)), a.mem,
                   a.log + [Access(false, true, sp, 8)])
  {
    hide Read64;
    b := Step(LISTING, img, Step(LISTING, img, a).st).st;
  }

  /** A frame size that takes rsp to within eight bytes of the top of the address space faults. */
  lemma DropFrameFaults(img: Image, a: State)
    requires a.pc == Line(AFTER) && !InSpace(Wrap64(a.regs.rsp + a.regs.rbx), 8)
    ensures Run(LISTING, img, a, 3).Fault?
  {
    hide Read64;
    var s := Step(LISTING, img, a).st;
    assert Step(LISTING, img, s) == Fault;
  }

  lemma ReturnFaults(img: Image, a: State)
    requires a.pc == Line(35) && !InSpace(a.regs.rsp, 8)
    ensures Step(LISTING, img, a) == Fault
  {
  }

  lemma Return(img: Image, a: State) returns (b: State)
    requires a.pc == Line(35) && InSpace(a.regs.rsp, 8)
    ensures Leads(img, a, 1, b)
    ensures b.pc == Outside(Read64(a.mem, a.regs.rsp)) && b.mem == a.mem
    ensures b.regs == a.regs.(rsp := Wrap64(a.regs.rsp + 8))
    ensures b.log == a.log + [Access(false, true, a.regs.rsp, 8)]
  {
    b := Step(LISTING, img, a).st;
    assert Run(LISTING, img, b, 0) == Next(b);
  }
}
