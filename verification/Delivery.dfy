/** What the routine finds when it is entered, and what the way down leaves alone. */
module Delivery {
  import opened Words
  import opened X64
  import opened MemoryLaws
  import opened Layout
  import opened Thunk
  import opened Blocks
  import opened LoopRun
  import opened CallRun

  // ----- Arguments -----

  /** The register that carries argument `i` of the first four. */
  function RegArg(g: Regs, i: nat): u64
    requires i < 4
  {
    if i == 0 then g.rcx else if i == 1 then g.rdx else if i == 2 then g.r8 else g.r9
  }

  /** A routine entered with the arguments `vs`: each in its slot above the return address,
      the first four in registers as well. */
  ghost predicate EnteredWith(c: State, vs: seq<u64>, returnTo: u64) {
    var sp := c.regs.rsp;
    && InSpace(sp, 8 + 8 * |vs|)
    && Read64(c.mem, sp) == returnTo
    && (forall i :: 0 <= i < |vs| ==> Read64(c.mem, sp + 8 + 8 * i) == vs[i])
    && (forall i :: 0 <= i < |vs| && i < 4 ==> RegArg(c.regs, i) == vs[i])
  }

  /** Control is at the routine given in rcx, entered with the parameters of the block in order. */
  ghost predicate Delivered(img: Image, e: State, c: State)
    requires Admissible(e)
  {
    c.pc == Outside(e.regs.rcx) && EnteredWith(c, Args(e), img.site)
  }

  lemma SlotHolds(e: State, i: nat)
    requires Admissible(e) && i < Size(e)
    ensures Read64(LoopMem(e, 0), ArgBase(e) + 8 * i) == Args(e)[i]
  {
    hide Read64;
    hide Pushed;
    PushedRead(SavedMem(e), ArgBase(e), Args(e), 0, i);
  }

  lemma SlotHoldsAtCall(img: Image, e: State, i: nat)
    requires Admissible(e) && i < Size(e)
    ensures Read64(CallMem(img, e), ArgBase(e) + 8 * i) == Args(e)[i]
  {
    SlotHolds(e, i);
    ReadElsewhere(LoopMem(e, 0), ArgBase(e) - 8, img.site, ArgBase(e) + 8 * i);
  }

  /** For every count, block and admissible start, the run enters the routine given in rcx with
      exactly the parameters of the block, in order. */
  lemma ArgumentsDelivered(img: Image, e: State)
    requires Admissible(e)
    ensures exists c :: Leads(img, e, CallSteps(Size(e)), c) && Delivered(img, e, c)
  {
    hide Run;
    hide Read64;
    hide Write64;
    hide LoopMem;
    var c := ToRoutine(img, e);
    ReadWritten(LoopMem(e, 0), ArgBase(e) - 8, img.site);
    forall i | 0 <= i < Size(e) ensures Read64(c.mem, c.regs.rsp + 8 + 8 * i) == Args(e)[i] {
      SlotHoldsAtCall(img, e, i);
    }
    forall i | 0 <= i < Size(e) && i < 4 ensures RegArg(c.regs, i) == Args(e)[i] {
      SlotHolds(e, i);
    }
  }

  /** Just before the call the stack is 16-byte aligned exactly when the thunk was entered with the
      alignment the convention prescribes, whatever the count; r10 holds the routine, the parameters are
      in their slots from rsp up, and the four slots that lines 45-48 read lie inside the frame, below
      the intact saved rbx. */
  lemma AlignedBeforeCall(img: Image, e: State)
    requires Admissible(e)
    ensures var o := Run(LISTING, img, e, CallSteps(Size(e)) - 1);
            && o.Next? && o.st.pc == Line(CALL) && o.st.regs.r10 == e.regs.rcx
            && (o.st.regs.rsp % 16 == 0 <==> e.regs.rsp % 16 == 8)
            && o.st.regs.rsp + 32 <= e.regs.rsp - 8
            && Read64(o.st.mem, e.regs.rsp - 8) == e.regs.rbx
            && InSpace(o.st.regs.rsp, 8 * Size(e))
            && forall i :: 0 <= i < Size(e) ==> Read64(o.st.mem, o.st.regs.rsp + 8 * i) == Args(e)[i]
  {
    hide Run;
    hide Read64;
    hide LoopMem;
    var b := ToCall(img, e);
    SavedRbx(e);
    forall i | 0 <= i < Size(e) ensures Read64(b.mem, b.regs.rsp + 8 * i) == Args(e)[i] {
      SlotHolds(e, i);
    }
    SlotsAligned(e.regs.rsp, Size(e));
  }

  lemma SlotsAligned(rsp: int, n: nat)
    ensures Base(rsp, n) % 16 == 0 <==> rsp % 16 == 8
  {
    var m := if n < 4 then 4 else n;
    var h := (m + m % 2) / 2;
    assert Slots(n) == 2 * h;
    assert Base(rsp, n) == rsp - 8 - 16 * h;
  }

  /** The pushes leave the saved rbx where line 51 looks for it. */
  lemma SavedRbx(e: State)
    requires Admissible(e)
    ensures Read64(LoopMem(e, 0), e.regs.rsp - 8) == e.regs.rbx
  {
    hide Read64;
    var a := e.regs.rsp - 8;
    ReadWritten(e.mem, a, e.regs.rbx);
    forall x: u64 | a <= x < a + 8 ensures LoopMem(e, 0)(x) == SavedMem(e)(x) {
      PushedElsewhere(SavedMem(e), ArgBase(e), Args(e), 0, x);
    }
    ReadSame(LoopMem(e, 0), SavedMem(e), a);
  }

  // ----- What the run depends on -----

  /** Slots beyond the parameters are padding, which the thunk reserves but never writes. */
  lemma PaddingKept(e: State, i: nat)
    requires Admissible(e) && Size(e) <= i < Slots(Size(e))
    ensures Read64(LoopMem(e, 0), ArgBase(e) + 8 * i) == Read64(e.mem, ArgBase(e) + 8 * i)
  {
    var a := ArgBase(e) + 8 * i;
    forall x: u64 | a <= x < a + 8 ensures LoopMem(e, 0)(x) == e.mem(x) {
      PushedElsewhere(SavedMem(e), ArgBase(e), Args(e), 0, x);
    }
    ReadSame(LoopMem(e, 0), e.mem, a);
  }

  /** With fewer than four parameters the remaining argument registers hold whatever the stack held
      where the padding was reserved. */
  lemma AbsentArguments(img: Image, e: State, i: nat)
    requires Admissible(e) && Size(e) <= i < 4
    ensures exists c ::
              Leads(img, e, CallSteps(Size(e)), c) && RegArg(c.regs, i) == Read64(e.mem, ArgBase(e) + 8 * i)
  {
    hide Run;
    hide Read64;
    hide LoopMem;
    var c := ToRoutine(img, e);
    PaddingKept(e, i);
  }

  /** Two starts the thunk cannot tell apart: the same registers, the same parameter values, and the same
      stale stack contents where argument registers are filled from padding. */
  ghost predicate Alike(e: State, e': State)
    requires Admissible(e) && Admissible(e')
  {
    && e.regs == e'.regs && Args(e) == Args(e')
    && forall i :: Size(e) <= i < 4 ==> Read64(e.mem, ArgBase(e) + 8 * i) == Read64(e'.mem, ArgBase(e) + 8 * i)
  }

  lemma SlotsAlike(e: State, e': State, i: nat)
    requires Admissible(e) && Admissible(e') && Alike(e, e') && i < 4
    ensures Slot(e, i) == Slot(e', i)
  {
    hide Read64;
    if i < Size(e) {
      SlotHolds(e, i);
      SlotHolds(e', i);
    } else {
      PaddingKept(e, i);
      PaddingKept(e', i);
    }
  }

  lemma RegsAlike(e: State, e': State)
    requires Admissible(e) && Admissible(e') && Alike(e, e')
    ensures Size(e) == Size(e') && CallRegs(e) == CallRegs(e') && ArgBase(e) == ArgBase(e')
  {
    hide Read64;
    assert |Args(e)| == |Args(e')|;
    SlotsAlike(e, e', 0);
    SlotsAlike(e, e', 1);
    SlotsAlike(e, e', 2);
    SlotsAlike(e, e', 3);
    hide Slot;
  }

  /** Nothing else influences the call: whatever the tags of the blobs, the unused half of the header and
      the rest of memory hold, the routine is entered after the same number of instructions, at the same
      address, with the same registers and the same arguments. */
  lemma CallDependsOnlyOn(img: Image, e: State, e': State)
    requires Admissible(e) && Admissible(e') && Alike(e, e')
    ensures Size(e) == Size(e')
    ensures var o, o' := Run(LISTING, img, e, CallSteps(Size(e))), Run(LISTING, img, e', CallSteps(Size(e)));
            && o.Next? && o'.Next?
            && o.st.regs == o'.st.regs && o.st.pc == o'.st.pc
            && EnteredWith(o.st, Args(e), img.site) && EnteredWith(o'.st, Args(e), img.site)
  {
    hide Run;
    hide EnteredWith;
    hide CallMem;
    hide CallLog;
    hide CallSteps;
    hide Read64;
    RegsAlike(e, e');
    hide CallRegs;
    hide ArgBase;
    var c := ToRoutine(img, e);
    var c' := ToRoutine(img, e');
    ArgumentsDelivered(img, e);
    ArgumentsDelivered(img, e');
  }

  // ----- What the accesses are -----

  /** Every access on the way down is a stack store or load inside the frame, a read of the count,
      or a read of a parameter value. */
  predicate Allowed(e: State, a: Access)
    requires Block(e.mem, e.regs.rdx)
  {
    var p, n := e.regs.rdx, Size(e);
    if a.stack then ArgBase(e) - 8 <= a.addr && a.addr + a.size <= e.regs.rsp
    else !a.write && p <= a.addr && a.addr + a.size <= p + BlockSize(n)
  }

  lemma {:induction false} LoopAllowed(e: State, k: nat)
    requires Admissible(e) && k <= Size(e)
    ensures forall a :: a in LoopLog(e, k) ==> Allowed(e, a)
    decreases Size(e) - k
  {
    if k < Size(e) {
      LoopAllowed(e, k + 1);
    }
  }

  lemma AllAllowed(e: State)
    requires Admissible(e)
    ensures forall a :: a in CallLog(e) ==> Allowed(e, a)
  {
    LoopAllowed(e, 0);
  }

  // ----- How far apart the stack accesses are -----

  function Lowest(low: int, log: seq<Access>): int
    decreases log
  {
    if log == [] then low
    else Lowest(if log[0].stack && log[0].addr < low then log[0].addr else low, log[1..])
  }

  /** No stack access is more than 32 bytes below the lowest address touched before it. */
  predicate Contiguous(low: int, log: seq<Access>)
    decreases log
  {
    log == [] ||
    (var a := log[0];
     (a.stack ==> a.addr >= low - 32) &&
     Contiguous(if a.stack && a.addr < low then a.addr else low, log[1..]))
  }

  /** `Lowest` is the least of the start and the addresses of the stack accesses. */
  lemma {:induction false} LowestMeans(low: int, log: seq<Access>)
    ensures Lowest(low, log) <= low && forall a :: a in log && a.stack ==> Lowest(low, log) <= a.addr
    ensures Lowest(low, log) == low || exists a :: a in log && a.stack && Lowest(low, log) == a.addr
    decreases log
  {
    if log != [] {
      LowestMeans(if log[0].stack && log[0].addr < low then log[0].addr else low, log[1..]);
    }
  }

  /** `Contiguous` speaks of every access: none through the stack is more than 32 bytes below the lowest
      address touched before it. */
  lemma {:induction false} ContiguousMeans(low: int, log: seq<Access>)
    ensures Contiguous(low, log) <==>
            forall i :: 0 <= i < |log| && log[i].stack ==> log[i].addr >= Lowest(low, log[..i]) - 32
    decreases log
  {
    if log != [] {
      var next := if log[0].stack && log[0].addr < low then log[0].addr else low;
      ContiguousMeans(next, log[1..]);
      assert Lowest(low, log[..0]) == low;
      forall i | 0 < i < |log| ensures Lowest(low, log[..i]) == Lowest(next, log[1..][..i - 1]) {
        assert log[..i][1..] == log[1..][..i - 1];
      }
      assert forall i :: 0 < i < |log| ==> log[i] == log[1..][i - 1];
      if forall i :: 0 <= i < |log| && log[i].stack ==> log[i].addr >= Lowest(low, log[..i]) - 32 {
        forall i | 0 <= i < |log[1..]| && log[1..][i].stack
          ensures log[1..][i].addr >= Lowest(next, log[1..][..i]) - 32
        {
          assert log[1..][i] == log[i + 1];
        }
      }
    }
  }

  lemma {:induction false} ContiguousAppend(low: int, log: seq<Access>, more: seq<Access>)
    ensures Lowest(low, log + more) == Lowest(Lowest(low, log), more)
    ensures Contiguous(low, log + more) <==> Contiguous(low, log) && Contiguous(Lowest(low, log), more)
    decreases log
  {
    if log == [] {
      assert log + more == more;
    } else {
      var next := if log[0].stack && log[0].addr < low then log[0].addr else low;
      assert (log + more)[1..] == log[1..] + more;
      ContiguousAppend(next, log[1..], more);
    }
  }

  lemma OneContiguous(low: int, a: Access)
    ensures Contiguous(low, [a]) <==> (a.stack ==> a.addr >= low - 32)
    ensures Lowest(low, [a]) == if a.stack && a.addr < low then a.addr else low
  {
    assert [a][1..] == [];
  }

  lemma PairContiguous(low: int, a: Access, b: Access)
    requires !a.stack && b.stack && low - 32 <= b.addr < low
    ensures Contiguous(low, [a, b]) && Lowest(low, [a, b]) == b.addr
  {
    OneContiguous(low, a);
    OneContiguous(low, b);
    ContiguousAppend(low, [a], [b]);
    assert [a, b] == [a] + [b];
  }

  lemma PrologueContiguous(e: State)
    requires Admissible(e)
    ensures Contiguous(e.regs.rsp, PrologueLog(e)) && Lowest(e.regs.rsp, PrologueLog(e)) == e.regs.rsp - 8
  {
    var push, count := Access(true, true, e.regs.rsp - 8, 8), CountRead(e);
    var low := e.regs.rsp - 8;
    OneContiguous(e.regs.rsp, push);
    OneContiguous(low, count);
    ContiguousAppend(low, [count], [count]);
    ContiguousAppend(low, [count] + [count], [count]);
    ContiguousAppend(e.regs.rsp, [push], [count] + [count] + [count]);
    assert PrologueLog(e) == [push] + ([count] + [count] + [count]);
  }

  lemma {:induction false} LoopContiguous(e: State, k: nat)
    requires Admissible(e) && k <= Size(e)
    ensures Contiguous(e.regs.rsp, LoopLog(e, k))
    ensures Lowest(e.regs.rsp, LoopLog(e, k)) == if k == Size(e) then e.regs.rsp - 8 else ArgBase(e) + 8 * k
    decreases Size(e) - k
  {
    if k == Size(e) {
      PrologueContiguous(e);
    } else {
      LoopContiguous(e, k + 1);
      ContiguousAppend(e.regs.rsp, LoopLog(e, k + 1), PushLog(e, k));
      PairContiguous(Lowest(e.regs.rsp, LoopLog(e, k + 1)), PushLog(e, k)[0], PushLog(e, k)[1]);
    }
  }

  lemma ArgsContiguous(e: State, low: int)
    requires Admissible(e) && ArgBase(e) <= low <= ArgBase(e) + 32
    ensures var last := [Access(true, true, ArgBase(e) - 8, 8)];
            Contiguous(low, ArgLog(e) + last)
  {
    var last := [Access(true, true, ArgBase(e) - 8, 8)];
    var s := ArgLog(e) + last;
    assert s[1..] == ArgLog(e)[1..] + last;
    assert s[1..][1..] == ArgLog(e)[2..] + last;
    assert s[1..][1..][1..] == ArgLog(e)[3..] + last;
    assert s[1..][1..][1..][1..] == last;
    assert last[1..] == [];
    var sp := ArgBase(e);
    assert Contiguous(sp, last);
    assert Contiguous(sp, s[1..][1..][1..]);
    assert Contiguous(sp, s[1..][1..]);
    assert Contiguous(sp, s[1..]);
  }

  /** The stack grows without skipping a page, whatever the count and the padding. */
  lemma CallContiguous(e: State)
    requires Admissible(e)
    ensures Contiguous(e.regs.rsp, CallLog(e))
  {
    LoopContiguous(e, 0);
    var last := [Access(true, true, ArgBase(e) - 8, 8)];
    ArgsContiguous(e, Lowest(e.regs.rsp, LoopLog(e, 0)));
    ContiguousAppend(e.regs.rsp, LoopLog(e, 0), ArgLog(e) + last);
    assert CallLog(e) == LoopLog(e, 0) + (ArgLog(e) + last);
  }
}
