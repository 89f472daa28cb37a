/** Whole runs from entry up to the call: the prologue, the push loop, the register arguments. */
module LoopRun {
  import opened Words
  import opened X64
  import opened MemoryLaws
  import opened Layout
  import opened Thunk
  import opened Blocks

  // ----- What the thunk was called with -----

  function Size(e: State): u32
    requires Block(e.mem, e.regs.rdx)
  {
    Count(e.mem, e.regs.rdx)
  }

  function Args(e: State): seq<u64>
    requires Block(e.mem, e.regs.rdx)
  {
    Params(e.mem, e.regs.rdx)
  }

  function ArgBase(e: State): int
    requires Block(e.mem, e.regs.rdx)
  {
    Base(e.regs.rsp, Size(e))
  }

  // ----- Instruction counts -----

  function SlotSteps(n: nat): nat {
    (if n < 4 then 3 else 2) + (if n > 4 && n % 2 == 1 then 3 else 2)
  }

  function PrologueSteps(n: nat): nat {
    3 + SlotSteps(n) + 6 + (if Padding(n) > 0 then 2 else 0) + 5
  }

  /** The number of instructions from entry to `_break`. */
  function BreakSteps(n: nat): nat {
    PrologueSteps(n) + (6 * n + 2)
  }

  // ----- The loop head with `k` parameters still to push -----

  /** The cursor; for an empty block it has wrapped through `lea r8d,[eax-1]`. */
  function Cursor(p: int, n: nat, k: nat): u64 {
    if n == 0 then Wrap64(p + 8 + 16 * 0xFFFF_FFFF) else Wrap64(p + 8 + 16 * (k - 1))
  }

  function LoopRegs(e: State, k: nat): Regs
    requires Admissible(e) && k <= Size(e)
  {
    e.regs.(rax := k,
            rbx := 8 * Slots(Size(e)),
            rsp := ArgBase(e) + 8 * k,
            rdx := Cursor(e.regs.rdx, Size(e), k),
            r8 := 16 * Wrap32(Size(e) - 1),
            r10 := e.regs.rcx)
  }

  function SavedMem(e: State): Memory
    requires Admissible(e)
  {
    Write64(e.mem, e.regs.rsp - 8, e.regs.rbx)
  }

  function LoopMem(e: State, k: nat): Memory
    requires Admissible(e) && k <= Size(e)
  {
    Pushed(SavedMem(e), ArgBase(e), Args(e), k)
  }

  function CountRead(e: State): Access {
    Access(false, false, e.regs.rdx, 4)
  }

  function PrologueLog(e: State): seq<Access> {
    [Access(true, true, e.regs.rsp - 8, 8), CountRead(e), CountRead(e), CountRead(e)]
  }

  function PushLog(e: State, k: nat): seq<Access>
    requires Admissible(e)
  {
    [Access(false, false, ParamAt(e.regs.rdx, k), 8), Access(true, true, ArgBase(e) + 8 * k, 8)]
  }

  function LoopLog(e: State, k: nat): seq<Access>
    requires Admissible(e) && k <= Size(e)
    decreases Size(e) - k
  {
    if k == Size(e) then PrologueLog(e) else LoopLog(e, k + 1) + PushLog(e, k)
  }

  ghost predicate LoopHead(e: State, k: nat, s: State)
    requires Admissible(e) && k <= Size(e)
  {
    Stands(s, LOOP, LoopRegs(e, k), LoopMem(e, k), e.log + LoopLog(e, k))
  }

  // ----- Prologue -----

  lemma Enter(img: Image, e: State) returns (s: State)
    requires Admissible(e)
    ensures Leads(img, e, 3, s)
    ensures Stands(s, 3, e.regs.(rsp := e.regs.rsp - 8, r10 := e.regs.rcx, rax := Size(e)), SavedMem(e),
                   e.log + PrologueLog(e)[..2])
  {
    hide Run;
    var a := SaveRbx(img, e);
    s := ReadCount(img, a);
    Then(img, e, 2, a, 1, s);
    CountKept(e);
  }

  /** Saving rbx leaves the block as it was, so every read of the count agrees with the first. */
  lemma CountKept(e: State)
    requires Admissible(e)
    ensures Read32(SavedMem(e), e.regs.rdx) == Size(e)
  {
    LoadSame(SavedMem(e), e.mem, e.regs.rdx, 4);
  }

  /** Lines 15-21 leave the padded slot count in rax. */
  lemma WidenCount(img: Image, a: State) returns (s: State)
    requires a.pc == Line(3) && a.regs.rax < 0x1_0000_0000
    ensures Leads(img, a, SlotSteps(a.regs.rax), s)
    ensures Stands(s, SKIP2, a.regs.(rax := Slots(a.regs.rax)), a.mem, a.log)
  {
    hide Run;
    var n := a.regs.rax;
    var b := CompareFour(img, a);
    var c, j := b, 2;
    if n < 4 {
      c := RaiseToFour(img, b);
      Then(img, a, 2, b, 1, c);
      j := 3;
    }
    var d := TestOdd(img, c);
    Then(img, a, j, c, 2, d);
    s := d;
    if c.regs.rax % 2 == 1 {
      s := RaiseToEven(img, d);
      Then(img, a, j + 2, d, 1, s);
    }
  }

  /** Lines 23-26 leave the frame size in rbx and the number of missing slots in r8, computed in 32 bits. */
  lemma CountMissing(img: Image, a: State, n: u32) returns (s: State)
    requires a.pc == Line(SKIP2) && a.regs.rax == Slots(n)
    requires InSpace(a.regs.rdx, 4) && Read32(a.mem, a.regs.rdx) == n
    ensures Leads(img, a, 4, s)
    ensures Stands(s, 13, a.regs.(rbx := 8 * Slots(n), r8 := Padding(n)), a.mem,
                   a.log + [Access(false, false, a.regs.rdx, 4)])
  {
    hide Run;
    var b := FrameSize(img, a);
    var b' := CopySlots(img, b);
    Then(img, a, 2, b, 1, b');
    s := SubtractCount(img, b');
    Then(img, a, 3, b', 1, s);
    WrapDifference(Slots(n), n);
  }

  /** Lines 23-30 leave the frame size in rbx and the padding below the saved rbx. */
  lemma Reserve(img: Image, a: State, n: u32) returns (s: State)
    requires a.pc == Line(SKIP2) && a.regs.rax == Slots(n)
    requires InSpace(a.regs.rdx, 4) && Read32(a.mem, a.regs.rdx) == n && a.regs.rsp >= 32
    ensures Leads(img, a, 6 + (if Padding(n) > 0 then 2 else 0), s)
    ensures s.pc == Line(SKIP3) && s.mem == a.mem
    ensures s.log == a.log + [Access(false, false, a.regs.rdx, 4)]
    ensures s.regs == a.regs.(rbx := 8 * Slots(n), r8 := s.regs.r8, rsp := a.regs.rsp - 8 * Padding(n))
  {
    hide Run;
    var c := CountMissing(img, a, n);
    s := AnyMissing(img, c);
    Then(img, a, 4, c, 2, s);
    if Padding(n) > 0 {
      var d := s;
      var f := ScalePadding(img, d);
      Then(img, a, 6, d, 1, f);
      s := SkipPadding(img, f);
      Then(img, a, 7, f, 1, s);
    }
  }

  /** The mixed-width arithmetic of lines 14-26 is exact for every 32-bit count, the largest included:
      rbx ends up with 8 bytes for each slot and r8 with the number of slots beyond the parameters. */
  lemma SlotArithmetic(img: Image, e: State)
    requires Admissible(e)
    ensures var n: nat := Size(e);
            exists s ::
              && Leads(img, e, 7 + SlotSteps(n), s) && s.pc == Line(13)
              && s.regs.rax == Slots(n) && s.regs.rbx == 8 * Slots(n) && s.regs.r8 == Slots(n) - n
              && (n == 0xFFFF_FFFF ==> s.regs.rax == 0x1_0000_0000 && s.regs.r8 == 1)
  {
    hide Run;
    CountKept(e);
    var n: nat := Size(e);
    var a := Enter(img, e);
    var b := WidenCount(img, a);
    Then(img, e, 3, a, SlotSteps(n), b);
    var c := CountMissing(img, b, Size(e));
    Then(img, e, 3 + SlotSteps(n), b, 4, c);
  }

  /** Lines 32-36 set the counter and point the cursor at the last blob. */
  lemma SetCursor(img: Image, a: State, n: u32) returns (s: State)
    requires a.pc == Line(SKIP3) && InSpace(a.regs.rdx, 4) && Read32(a.mem, a.regs.rdx) == n
    ensures Leads(img, a, 5, s)
    ensures Stands(s, LOOP, a.regs.(rax := n, r8 := 16 * Wrap32(n - 1), rdx := Cursor(a.regs.rdx, n, n)), a.mem,
                   a.log + [Access(false, false, a.regs.rdx, 4)])
  {
    hide Run;
    var b := LastIndex(img, a);
    var c := ScaleIndex(img, b);
    Then(img, a, 2, b, 1, c);
    var d := SkipHeader(img, c);
    Then(img, a, 3, c, 1, d);
    WrapSum(c.regs.rdx + 8, c.regs.r8);
    s := AddIndex(img, d);
    Then(img, a, 4, d, 1, s);
  }

  /** From entry the thunk reaches the loop with every parameter still to push. */
  lemma ToLoop(img: Image, e: State) returns (s: State)
    requires Admissible(e)
    ensures Leads(img, e, PrologueSteps(Size(e)), s)
    ensures LoopHead(e, Size(e), s)
  {
    hide Run;
    var n := Size(e);
    CountKept(e);
    var a := Enter(img, e);
    var b := WidenCount(img, a);
    Then(img, e, 3, a, SlotSteps(n), b);
    var c := Reserve(img, b, n);
    Then(img, e, 3 + SlotSteps(n), b, 6 + (if Padding(n) > 0 then 2 else 0), c);
    s := SetCursor(img, c, n);
    Then(img, e, 3 + SlotSteps(n) + 6 + (if Padding(n) > 0 then 2 else 0), c, 5, s);
  }

  // ----- Loop -----

  /** A parameter the loop loads is still what the caller put in the block. */
  lemma ParamKept(e: State, k: nat, i: nat)
    requires Admissible(e) && k <= Size(e) && i < Size(e)
    ensures InSpace(ParamAt(e.regs.rdx, i), 8)
    ensures Read64(LoopMem(e, k), ParamAt(e.regs.rdx, i)) == Args(e)[i]
  {
    var a, m := ParamAt(e.regs.rdx, i), LoopMem(e, k);
    forall x: u64 | a <= x < a + 8 ensures m(x) == e.mem(x) {
      PushedElsewhere(SavedMem(e), ArgBase(e), Args(e), k, x);
    }
    LoadSame(m, e.mem, a, 8);
  }

  /** With parameters left, the cursor is at the blob of the last of them, inside the block. */
  lemma CursorInBlock(p: u64, n: nat, k: nat)
    requires 0 < k <= n && InSpace(p, BlockSize(n))
    ensures Cursor(p, n, k) == p + HEADER + BLOB * (k - 1)
    ensures Cursor(p, n, k) + 16 <= p + BlockSize(n)
    ensures Wrap64(Cursor(p, n, k) - 16) == Cursor(p, n, k - 1)
  {
  }

  lemma Regroup(a: seq<Access>, b: seq<Access>, c: seq<Access>)
    ensures a + (b + c) == (a + b) + c
  {
  }

  /** How the loop head with one parameter fewer left differs from this one. */
  lemma HeadsDiffer(e: State, k: nat)
    requires Admissible(e) && 0 < k <= Size(e)
    ensures var g, v, m := LoopRegs(e, k), ParamAt(e.regs.rdx, k - 1), LoopMem(e, k);
            && g.rax == k && g.rdx + 8 == v && g.rsp - 8 == ArgBase(e) + 8 * (k - 1)
            && InSpace(v, 8) && InSpace(g.rsp - 8, 8)
            && LoopRegs(e, k - 1) == g.(rax := k - 1, rsp := g.rsp - 8, rdx := Wrap64(g.rdx - 16))
            && LoopMem(e, k - 1) == Write64(m, g.rsp - 8, Read64(m, v))
  {
    hide Read64;
    hide Write64;
    CursorInBlock(e.regs.rdx, Size(e), k);
    ParamKept(e, k, k - 1);
  }

  /** One iteration pushes one more parameter and takes six instructions. */
  lemma Iterate(img: Image, e: State, k: nat, s: State) returns (t: State)
    requires Admissible(e) && 0 < k <= Size(e) && LoopHead(e, k, s)
    ensures Leads(img, s, 6, t)
    ensures LoopHead(e, k - 1, t)
  {
    hide Run;
    hide Leads;
    hide Read64;
    hide Write64;
    HeadsDiffer(e, k);
    Regroup(e.log, LoopLog(e, k), PushLog(e, k - 1));
    hide LoopRegs;
    hide LoopMem;
    hide LoopLog;
    hide Wrap64;
    var a := LoopTest(img, s);
    var b := PushParam(img, a);
    Then(img, s, 2, a, 2, b);
    t := CountDown(img, b);
    Then(img, s, 4, b, 2, t);
  }

  /** With nothing left to push, the loop is left in two instructions. */
  lemma LeaveLoop(img: Image, e: State, s: State) returns (t: State)
    requires Admissible(e) && LoopHead(e, 0, s)
    ensures Leads(img, s, 2, t)
    ensures Stands(t, BREAK, LoopRegs(e, 0), LoopMem(e, 0), e.log + LoopLog(e, 0))
    ensures t.flags == Flags(On, Off, Off)
  {
    hide Run;
    t := LoopTest(img, s);
  }

  /** After the prologue and `n - k` iterations the run stands at the loop head with `k` parameters left. */
  lemma {:induction false} ToLoopHead(img: Image, e: State, k: nat) returns (s: State)
    requires Admissible(e) && k <= Size(e)
    ensures Leads(img, e, PrologueSteps(Size(e)) + 6 * (Size(e) - k), s)
    ensures LoopHead(e, k, s)
    decreases Size(e) - k
  {
    hide Leads;
    hide LoopHead;
    hide PrologueSteps;
    var n: nat := Size(e);
    if k == n {
      s := ToLoop(img, e);
    } else {
      var a := ToLoopHead(img, e, k + 1);
      s := Iterate(img, e, k + 1, a);
      Then(img, e, PrologueSteps(n) + 6 * (n - (k + 1)), a, 6, s);
    }
  }

  /** At each loop head with parameters left, the cursor is at the last of them and the load on line 40
      stays inside the block. */
  lemma CursorAtLoopHead(img: Image, e: State, k: nat)
    requires Admissible(e) && k <= Size(e)
    ensures var o := Run(LISTING, img, e, PrologueSteps(Size(e)) + 6 * (Size(e) - k));
            && o.Next? && o.st.pc == Line(LOOP) && o.st.regs.rax == k
            && (k > 0 ==> && o.st.regs.rdx == e.regs.rdx + 8 + 16 * (k - 1)
                          && o.st.regs.rdx + 16 <= e.regs.rdx + 8 + 16 * Size(e))
  {
    hide Run;
    var s := ToLoopHead(img, e, k);
    if k > 0 {
      CursorInBlock(e.regs.rdx, Size(e), k);
    }
  }

  /** From `k` parameters to push, the loop is left after exactly 6k + 2 instructions. */
  lemma {:induction false} LoopToBreak(img: Image, e: State, k: nat, s: State) returns (t: State)
    requires Admissible(e) && k <= Size(e) && LoopHead(e, k, s)
    ensures Leads(img, s, 6 * k + 2, t)
    ensures Stands(t, BREAK, LoopRegs(e, 0), LoopMem(e, 0), e.log + LoopLog(e, 0))
    ensures t.flags == Flags(On, Off, Off)
    decreases k
  {
    hide Run;
    hide LoopHead;
    hide Stands;
    if k == 0 {
      t := LeaveLoop(img, e, s);
    } else {
      var a := Iterate(img, e, k, s);
      t := LoopToBreak(img, e, k - 1, a);
      Then(img, s, 6, a, 6 * (k - 1) + 2, t);
    }
  }
}
