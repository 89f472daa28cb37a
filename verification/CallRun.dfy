/** Main results about the way down: from entry to the first instruction of the routine. */
module CallRun {
  import opened Words
  import opened X64
  import opened Layout
  import opened Thunk
  import opened Blocks
  import opened LoopRun

  // ----- The state in which the routine is entered -----

  function Slot(e: State, i: nat): u64
    requires Admissible(e) && i < 4
  {
    Read64(LoopMem(e, 0), ArgBase(e) + 8 * i)
  }

  /** The registers just before `call r10`. */
  function CallRegs(e: State): Regs
    requires Admissible(e)
  {
    e.regs.(rax := 0,
            rbx := 8 * Slots(Size(e)),
            rsp := ArgBase(e),
            rcx := Slot(e, 0),
            rdx := Slot(e, 1),
            r8 := Slot(e, 2),
            r9 := Slot(e, 3),
            r10 := e.regs.rcx)
  }

  function ArgLog(e: State): seq<Access>
    requires Admissible(e)
  {
    var sp := ArgBase(e);
    [Access(false, true, sp, 8), Access(false, true, sp + 8, 8),
     Access(false, true, sp + 16, 8), Access(false, true, sp + 24, 8)]
  }

  function CallMem(img: Image, e: State): Memory
    requires Admissible(e)
  {
    Write64(LoopMem(e, 0), ArgBase(e) - 8, img.site)
  }

  function CallLog(e: State): seq<Access>
    requires Admissible(e)
  {
    LoopLog(e, 0) + ArgLog(e) + [Access(true, true, ArgBase(e) - 8, 8)]
  }

  /** The number of instructions from entry up to and including the call. */
  function CallSteps(n: nat): nat {
    BreakSteps(n) + 5
  }

  /** Lines 45-48 fill the four register arguments from the lowest four slots. */
  lemma LoadRegisterArgs(img: Image, e: State, a: State) returns (b: State)
    requires Admissible(e)
    requires Stands(a, BREAK, LoopRegs(e, 0), LoopMem(e, 0), e.log + LoopLog(e, 0))
    ensures Leads(img, a, 4, b) && b.flags == a.flags
    ensures Stands(b, CALL, CallRegs(e), LoopMem(e, 0), e.log + LoopLog(e, 0) + ArgLog(e))
  {
    hide Run;
    hide Read64;
    hide LoopMem;
    hide LoopLog;
    var c := LoadFirstTwo(img, a);
    b := LoadNextTwo(img, c);
    Then(img, a, 2, c, 2, b);
  }

  /** The run from entry stands before `call r10` after all but the last of its instructions. */
  lemma ToCall(img: Image, e: State) returns (b: State)
    requires Admissible(e)
    ensures Leads(img, e, CallSteps(Size(e)) - 1, b) && b.flags == Flags(On, Off, Off)
    ensures Stands(b, CALL, CallRegs(e), LoopMem(e, 0), e.log + LoopLog(e, 0) + ArgLog(e))
  {
    hide Leads;
    hide Stands;
    hide LoopMem;
    hide LoopLog;
    hide ArgLog;
    var n: nat := Size(e);
    var s := ToLoop(img, e);
    var a := LoopToBreak(img, e, n, s);
    b := LoadRegisterArgs(img, e, a);
    Then2(img, e, PrologueSteps(n), s, 6 * n + 2, a, 4, b);
  }

  /** The run reaches the routine after exactly `CallSteps(n)` instructions, in exactly this state. */
  lemma ToRoutine(img: Image, e: State) returns (c: State)
    requires Admissible(e)
    ensures Leads(img, e, CallSteps(Size(e)), c)
    ensures c.pc == Outside(e.regs.rcx)
    ensures c.regs == CallRegs(e).(rsp := ArgBase(e) - 8)
    ensures c.flags == Flags(On, Off, Off)
    ensures c.mem == CallMem(img, e)
    ensures c.log == e.log + CallLog(e)
  {
    hide Run;
    hide LoopMem;
    hide LoopLog;
    hide ArgLog;
    hide Read64;
    var b := ToCall(img, e);
    c := CallRoutine(img, b);
    Then(img, e, CallSteps(Size(e)) - 1, b, 1, c);
  }
}
