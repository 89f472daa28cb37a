/** The calling convention as a relation between the state in which a routine is entered and the
    state in which it comes back, and the thunk as a routine that keeps it. */
module Convention {
  import opened Words
  import opened X64
  import opened MemoryLaws
  import opened Layout
  import opened Thunk
  import opened Blocks
  import opened LoopRun
  import opened CallRun
  import opened Delivery
  import opened Frame

  ghost predicate SameNonvolatile(g: Regs, h: Regs) {
    && g.rbx == h.rbx && g.rbp == h.rbp && g.rsi == h.rsi && g.rdi == h.rdi
    && g.r12 == h.r12 && g.r13 == h.r13 && g.r14 == h.r14 && g.r15 == h.r15
  }

  /** The registers the convention lets a caller rely on, besides rsp. */
  lemma NonvolatileRegisters(g: Regs, h: Regs)
    ensures SameNonvolatile(g, h) <==>
            forall r :: r in {RBX, RBP, RSI, RDI, R12, R13, R14, R15} ==> Get(g, r) == Get(h, r)
  {
    if forall r :: r in {RBX, RBP, RSI, RDI, R12, R13, R14, R15} ==> Get(g, r) == Get(h, r) {
      assert Get(g, RBX) == Get(h, RBX) && Get(g, RBP) == Get(h, RBP);
      assert Get(g, RSI) == Get(h, RSI) && Get(g, RDI) == Get(h, RDI);
      assert Get(g, R12) == Get(h, R12) && Get(g, R13) == Get(h, R13);
      assert Get(g, R14) == Get(h, R14) && Get(g, R15) == Get(h, R15);
    }
  }

  /** A routine entered in `c` and back in `r` has kept the convention: it returned to the address on
      top of the stack, took just that address off, restored the nonvolatile registers, and left the
      bytes its callers rely on (`guard`) alone. Everything else it may have overwritten. */
  ghost predicate Kept(c: State, r: State, guard: iset<int>) {
    && InSpace(c.regs.rsp, 8)
    && r.pc == Outside(Read64(c.mem, c.regs.rsp))
    && r.regs.rsp == Wrap64(c.regs.rsp + 8)
    && SameNonvolatile(c.regs, r.regs)
    && (forall x: u64 :: x in guard ==> r.mem(x) == c.mem(x))
  }

  predicate IsAbove(c: State, args: nat, x: int) {
    c.regs.rsp + 8 + 8 * args <= x
  }

  predicate IsVital(e: State, x: int) {
    e.regs.rsp - 8 <= x < e.regs.rsp + 8
  }

  /** The bytes above the argument area of a routine with `args` slots: its callers' frames. */
  ghost function Above(c: State, args: nat): iset<int> {
    iset x: int | IsAbove(c, args, x)
  }

  /** The thunk's two stacked words that must survive the routine: the saved rbx and the thunk's own
      return address. */
  ghost function Vital(e: State): iset<int> {
    iset x: int | IsVital(e, x)
  }

  ghost function FrameBytes(e: State): iset<int>
    requires Block(e.mem, e.regs.rdx)
  {
    iset x: int | InFrame(e, x)
  }

  /** What the thunk needs of the routine is no more than the convention gives it: the vital words lie
      above all the argument and padding slots, which the routine may overwrite. */
  lemma VitalAboveSlots(img: Image, e: State)
    requires Admissible(e)
    ensures exists c :: Leads(img, e, CallSteps(Size(e)), c) && Vital(e) <= Above(c, Slots(Size(e)))
  {
    hide Run;
    var c := ToRoutine(img, e);
  }

  /** A routine is back at the thunk's return site with the two registers lines 50-52 use. */
  predicate Back(img: Image, e: State, r: State)
    requires Admissible(e)
  {
    r.pc == Outside(img.site) && r.regs.rsp == ArgBase(e) && r.regs.rbx == 8 * Slots(Size(e))
  }

  /** Once a routine is back, whatever it left in memory, the thunk returns in three instructions,
      taking rbx and its return address from the two vital words. */
  lemma Unwind(img: Image, e: State, r: State) returns (f: State)
    requires Admissible(e) && Back(img, e, r) && img.entry != img.site
    ensures Leads(img, Land(img, r), 3, f)
    ensures f.pc == Outside(Read64(r.mem, e.regs.rsp)) && f.mem == r.mem
    ensures f.regs == r.regs.(rsp := Wrap64(e.regs.rsp + 8), rbx := Read64(r.mem, e.regs.rsp - 8))
    ensures f.log == r.log + [Access(false, true, e.regs.rsp - 8, 8), Access(false, true, e.regs.rsp, 8)]
  {
    hide Run;
    hide Read64;
    var a := Land(img, r);
    var b := DropFrame(img, a);
    f := Return(img, b);
    Then(img, a, 2, b, 1, f);
  }

  lemma SameRun(img: Image, e: State, k: nat, s: State, t: State)
    requires Leads(img, e, k, s) && Leads(img, e, k, t)
    ensures s == t
  {
    hide Run;
  }

  /** A routine that keeps the convention towards the thunk is back at the return site. */
  lemma KeptIsBack(img: Image, e: State, c: State, r: State, guard: iset<int>)
    requires Admissible(e) && Leads(img, e, CallSteps(Size(e)), c) && Kept(c, r, guard)
    ensures Back(img, e, r)
  {
    hide Run;
    hide Read64;
    var t := ToRoutine(img, e);
    SameRun(img, e, CallSteps(Size(e)), t, c);
    ReadWritten(LoopMem(e, 0), ArgBase(e) - 8, img.site);
  }

  /** The words lines 51 and 52 pop are the ones line 12 and the thunk's caller pushed. */
  lemma VitalRead(img: Image, e: State, r: State)
    requires Admissible(e)
    requires forall x: u64 :: x in Vital(e) ==> r.mem(x) == CallMem(img, e)(x)
    ensures Read64(r.mem, e.regs.rsp - 8) == e.regs.rbx
    ensures Read64(r.mem, e.regs.rsp) == Read64(e.mem, e.regs.rsp)
  {
    hide Read64;
    SavedRbx(e);
    ReadSame(r.mem, LoopMem(e, 0), e.regs.rsp - 8);
    forall x: u64 | e.regs.rsp <= x < e.regs.rsp + 8 ensures r.mem(x) == e.mem(x) {
      PushedElsewhere(SavedMem(e), ArgBase(e), Args(e), 0, x);
    }
    ReadSame(r.mem, e.mem, e.regs.rsp);
  }

  /** The thunk keeps the convention if the routine does: for any bytes outside its frame that its
      callers rely on, it needs of the routine only that it keeps those and the two vital words.
      The routine's result is passed on in rax. */
  lemma ThunkKeeps(img: Image, e: State, k: nat, c: State, r: State, guard: iset<int>)
    requires Admissible(e) && guard !! FrameBytes(e) && img.entry != img.site
    requires Leads(img, e, k, c) && c.pc.Outside? && Kept(c, r, guard + Vital(e))
    ensures exists f :: Leads(img, Land(img, r), 3, f) && Kept(e, f, guard) && f.regs.rax == r.regs.rax
  {
    hide Run;
    hide Read64;
    hide CallSteps;
    hide CallLog;
    hide LoopMem;
    var t := ToRoutine(img, e);
    LeavesTogether(img, e, k, c, CallSteps(Size(e)), t);
    KeptIsBack(img, e, c, r, guard + Vital(e));
    VitalRead(img, e, r);
    var f := Unwind(img, e, r);
    FrameAtEveryStep(img, e, k);
    forall x: u64 | x in guard ensures f.mem(x) == e.mem(x) {
      assert x in guard + Vital(e);
      assert !InFrame(e, x);
    }
  }

  /** For every admissible start there is a routine that keeps the convention, the one that returns at
      once, and so a complete call of the thunk. */
  lemma ImmediateReturn(img: Image, e: State, guard: iset<int>) returns (c: State, r: State, f: State)
    requires Admissible(e) && guard !! FrameBytes(e) && img.entry != img.site
    ensures Leads(img, e, CallSteps(Size(e)), c) && Kept(c, r, guard + Vital(e))
    ensures Leads(img, Land(img, r), 3, f) && Kept(e, f, guard)
  {
    hide Run;
    hide Read64;
    hide CallMem;
    hide CallLog;
    hide Slot;
    c := ToRoutine(img, e);
    r := c.(pc := Outside(Read64(c.mem, c.regs.rsp)), regs := c.regs.(rsp := Wrap64(c.regs.rsp + 8)));
    ThunkKeeps(img, e, CallSteps(Size(e)), c, r, guard);
    f :| Leads(img, Land(img, r), 3, f) && Kept(e, f, guard);
  }

  /** The thunk's caller has its return address taken, its stack pointer and its rbx back. */
  ghost predicate Restored(e: State, f: State)
    requires Admissible(e)
  {
    && f.pc == Outside(Read64(e.mem, e.regs.rsp))
    && f.regs.rsp == Wrap64(e.regs.rsp + 8)
    && f.regs.rbx == e.regs.rbx
  }

  lemma SameAfterPop(u: u64, v: u64)
    requires InSpace(u, 8) && InSpace(v, 8) && v >= 8
    ensures Wrap64(u + 8) == Wrap64(v + 8) <==> u == v
    ensures Wrap64(u + 8) == v <==> u == v - 8
  {
  }

  /** The exact demand on a routine that comes back to the return site, whatever else it did: the sum of
      its rsp and rbx leads to the saved rbx, and the two vital words read as they were pushed. In every
      other case the thunk faults or hands its caller a wrong address, stack pointer or rbx. */
  lemma RestoredIff(img: Image, e: State, r: State)
    requires Admissible(e) && r.pc == Outside(img.site) && img.entry != img.site
    ensures var o := Run(LISTING, img, Land(img, r), 3);
            o.Next? && Restored(e, o.st) <==>
              && Wrap64(r.regs.rsp + r.regs.rbx) == e.regs.rsp - 8
              && Read64(r.mem, e.regs.rsp - 8) == e.regs.rbx
              && Read64(r.mem, e.regs.rsp) == Read64(e.mem, e.regs.rsp)
  {
    hide Run;
    hide Read64;
    var a := Land(img, r);
    var sp := Wrap64(r.regs.rsp + r.regs.rbx);
    if !InSpace(sp, 8) {
      DropFrameFaults(img, a);
    } else {
      SameAfterPop(sp, e.regs.rsp);
      var b := DropFrame(img, a);
      if !InSpace(b.regs.rsp, 8) {
        ReturnFaults(img, b);
        FaultNext(img, a, 2, b);
      } else {
        SameAfterPop(b.regs.rsp, e.regs.rsp);
        var f := Return(img, b);
        Then(img, a, 2, b, 1, f);
      }
    }
  }

  lemma FaultNext(img: Image, a: State, j: nat, b: State)
    requires Leads(img, a, j, b) && Step(LISTING, img, b) == Fault
    ensures Run(LISTING, img, a, j + 1).Fault?
  {
    RunAdd(LISTING, img, a, j, 1);
    hide Exec;
  }

  // ----- In the convention's own terms -----

  /** What the thunk relies on and what its callers rely on is together what lies above the slots. */
  lemma AboveSplits(img: Image, e: State, k: nat, c: State, r: State)
    requires Admissible(e) && Leads(img, e, k, c) && c.pc.Outside?
    requires Kept(c, r, Above(c, Slots(Size(e))))
    ensures Kept(c, r, Above(e, 0) + Vital(e)) && Above(e, 0) !! FrameBytes(e)
  {
    hide Run;
    hide Read64;
    hide CallSteps;
    hide CallMem;
    hide CallLog;
    hide Slot;
    var t := ToRoutine(img, e);
    LeavesTogether(img, e, k, c, CallSteps(Size(e)), t);
    forall x: u64 | x in Above(e, 0) + Vital(e) ensures r.mem(x) == c.mem(x) {
      assert IsAbove(c, Slots(Size(e)), x);
      assert x in Above(c, Slots(Size(e)));
    }
  }

  /** The thunk keeps the convention if the routine does, each leaving alone the memory above its own
      argument slots: the routine above the slots and padding the thunk reserved, the thunk above its
      return address. That the thunk's frame is out of its callers' way follows from its own rsp. */
  lemma ThunkKeepsConvention(img: Image, e: State, k: nat, c: State, r: State)
    requires Admissible(e) && img.entry != img.site
    requires Leads(img, e, k, c) && c.pc.Outside? && Kept(c, r, Above(c, Slots(Size(e))))
    ensures exists f :: Leads(img, Land(img, r), 3, f) && Kept(e, f, Above(e, 0)) && f.regs.rax == r.regs.rax
  {
    hide Leads;
    hide Kept;
    AboveSplits(img, e, k, c, r);
    ThunkKeeps(img, e, k, c, r, Above(e, 0));
  }
}
