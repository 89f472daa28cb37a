/** What the thunk never touches: the frame property at every instruction of the way down. */
module Frame {
  import opened Words
  import opened X64
  import opened MemoryLaws
  import opened Layout
  import opened Thunk
  import opened Blocks
  import opened LoopRun
  import opened CallRun
  import opened Delivery

  /** The access stores into address `x`. */
  predicate Stores(a: Access, x: int) {
    a.write && a.addr <= x < a.addr + a.size
  }

  /** `t` is reached from `s` with every changed byte accounted for by a store logged in between. */
  ghost predicate Accounted(s: State, t: State) {
    s.log <= t.log &&
    forall x: u64 :: t.mem(x) != s.mem(x) ==> exists j :: |s.log| <= j < |t.log| && Stores(t.log[j], x)
  }

  /** No instruction of the set changes memory without logging it. */
  lemma ExecAccounted(img: Image, ins: Instr, i: nat, s: State)
    requires Exec(img, ins, i, s).Next?
    ensures Accounted(s, Exec(img, ins, i, s).st)
  {
    hide AluFlags;
    hide AluResult;
    hide Read64;
    hide Read32;
    hide Set;
    hide Get;
    hide ByteAt;
    hide Pow2;
    var t := Exec(img, ins, i, s).st;
    if t.mem != s.mem {
      var last := |t.log| - 1;
      forall x: u64 | t.mem(x) != s.mem(x) ensures Stores(t.log[last], x) {
      }
    }
  }

  lemma {:induction false} RunAccounted(code: seq<Instr>, img: Image, s: State, k: nat)
    requires Run(code, img, s, k).Next?
    ensures Accounted(s, Run(code, img, s, k).st)
    decreases k
  {
    hide Exec;
    if k > 0 {
      var a := Step(code, img, s).st;
      ExecAccounted(img, code[s.pc.i], s.pc.i, s);
      RunAccounted(code, img, a, k - 1);
      var t := Run(code, img, s, k).st;
      forall x: u64 | t.mem(x) != s.mem(x)
        ensures exists j :: |s.log| <= j < |t.log| && Stores(t.log[j], x)
      {
        if a.mem(x) != s.mem(x) {
          var j :| |s.log| <= j < |a.log| && Stores(a.log[j], x);
          assert t.log[j] == a.log[j];
        }
      }
    }
  }

  /** A run that gets through gets through every shorter run. */
  lemma {:induction false} RunPrefix(code: seq<Instr>, img: Image, s: State, j: nat, k: nat)
    requires j <= k && Run(code, img, s, k).Next?
    ensures Run(code, img, s, j).Next?
    ensures Run(code, img, Run(code, img, s, j).st, k - j) == Run(code, img, s, k)
    decreases j
  {
    hide Exec;
    if j > 0 {
      RunPrefix(code, img, Step(code, img, s).st, j - 1, k - 1);
    }
  }

  /** The address lies in the frame: saved rbx, padding, slots, return address of the call. */
  predicate InFrame(e: State, x: int)
    requires Block(e.mem, e.regs.rdx)
  {
    ArgBase(e) - 8 <= x < e.regs.rsp
  }

  /** Control that has left the listing executes nothing more of it. */
  lemma LeavesOnce(img: Image, a: State, j: nat, b: State, k: nat, c: State)
    requires Leads(img, a, j, b) && Leads(img, a, k, c) && j <= k
    requires b.pc.Outside?
    ensures j == k && b == c
  {
    hide Exec;
    hide LISTING;
    RunPrefix(LISTING, img, a, j, k);
  }

  /** A run from a state that leaves the listing leaves it in the same place, however long it is said to be. */
  lemma LeavesTogether(img: Image, a: State, j: nat, b: State, k: nat, c: State)
    requires Leads(img, a, j, b) && Leads(img, a, k, c)
    requires b.pc.Outside? && c.pc.Outside?
    ensures j == k && b == c
  {
    if j <= k {
      LeavesOnce(img, a, j, b, k, c);
    } else {
      LeavesOnce(img, a, k, c, j, b);
    }
  }

  /** A run's log only grows, so every shorter run has logged a first part of it. */
  lemma LogGrows(code: seq<Instr>, img: Image, s: State, j: nat, k: nat)
    requires j <= k && Run(code, img, s, k).Next?
    ensures Run(code, img, s, j).Next?
    ensures s.log <= Run(code, img, s, j).st.log <= Run(code, img, s, k).st.log
  {
    hide Run;
    RunPrefix(code, img, s, j, k);
    RunAccounted(code, img, s, j);
    RunAccounted(code, img, Run(code, img, s, j).st, k - j);
  }

  /** At no instruction up to and including the call does the run fault, and the accesses made so far
      are the first ones of the whole way down. */
  lemma LoggedAtEveryStep(img: Image, e: State, j: nat)
    requires Admissible(e) && j <= CallSteps(Size(e))
    ensures exists s :: Leads(img, e, j, s) && e.log <= s.log <= e.log + CallLog(e)
  {
    hide Run;
    hide CallLog;
    hide CallSteps;
    var c := ToRoutine(img, e);
    LogGrows(LISTING, img, e, j, CallSteps(Size(e)));
    assert Leads(img, e, j, Run(LISTING, img, e, j).st);
  }

  /** Every access made at any point of the way down is one of the allowed ones. */
  lemma AllowedAtEveryStep(img: Image, e: State, j: nat)
    requires Admissible(e) && j <= CallSteps(Size(e))
    ensures var o := Run(LISTING, img, e, j);
            && o.Next? && e.log <= o.st.log
            && forall i :: |e.log| <= i < |o.st.log| ==> Allowed(e, o.st.log[i])
  {
    hide Run;
    hide CallLog;
    hide Allowed;
    LoggedAtEveryStep(img, e, j);
    AllAllowed(e);
    var log := Run(LISTING, img, e, j).st.log;
    forall i | |e.log| <= i < |log| ensures Allowed(e, log[i]) {
      assert log[i] == CallLog(e)[i - |e.log|];
    }
  }

  /** At no instruction up to the call does memory outside the frame differ from what it was on entry. */
  lemma FrameAtEveryStep(img: Image, e: State, j: nat)
    requires Admissible(e) && j <= CallSteps(Size(e))
    ensures exists s :: Leads(img, e, j, s) && forall x: u64 :: !InFrame(e, x) ==> s.mem(x) == e.mem(x)
  {
    hide Run;
    AllowedAtEveryStep(img, e, j);
    RunAccounted(LISTING, img, e, j);
    assert Leads(img, e, j, Run(LISTING, img, e, j).st);
  }

  /** At every instruction up to the call the block reads as it did on entry: the same count at each
      of the three places the thunk reads it, the same parameters throughout the loop. */
  lemma BlockAtEveryStep(img: Image, e: State, j: nat)
    requires Admissible(e) && j <= CallSteps(Size(e))
    ensures var o := Run(LISTING, img, e, j);
            o.Next? && Block(o.st.mem, e.regs.rdx) && Params(o.st.mem, e.regs.rdx) == Args(e)
  {
    hide Run;
    hide Read64;
    FrameAtEveryStep(img, e, j);
    var m, p := Run(LISTING, img, e, j).st.mem, e.regs.rdx;
    LoadSame(m, e.mem, p, 4);
    assert Count(m, p) == Size(e);
    forall i | 0 <= i < Size(e) ensures Read64(m, ParamAt(p, i)) == Args(e)[i] {
      ReadSame(m, e.mem, ParamAt(p, i));
    }
  }

  /** At every instruction up to the call the stack accesses so far have grown the stack without a gap:
      none was more than 32 bytes below the lowest address touched before it. */
  lemma ContiguousAtEveryStep(img: Image, e: State, j: nat)
    requires Admissible(e) && j <= CallSteps(Size(e))
    ensures var o := Run(LISTING, img, e, j);
            o.Next? && e.log <= o.st.log && Contiguous(e.regs.rsp, o.st.log[|e.log|..])
  {
    hide Run;
    hide CallLog;
    LoggedAtEveryStep(img, e, j);
    CallContiguous(e);
    var made := Run(LISTING, img, e, j).st.log[|e.log|..];
    var rest := CallLog(e)[|made|..];
    assert CallLog(e) == made + rest;
    ContiguousAppend(e.regs.rsp, made, rest);
  }
}
