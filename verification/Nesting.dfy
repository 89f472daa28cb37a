/** Thunk calls inside thunk calls, to any depth. */
module Nesting {
  import opened Words
  import opened X64
  import opened MemoryLaws
  import opened Layout
  import opened Thunk
  import opened Blocks
  import opened LoopRun
  import opened CallRun
  import opened Delivery
  import opened Frame
  import opened Convention
  import Marshal

  /** A tree of activations. An ordinary routine makes any number of calls. A thunk activation enters
      `callee` in state `c` after `down` instructions, is handed back state `r`, and returns after `up`
      more. */
  datatype Activation =
    | Routine(calls: seq<Inner>)
    | Thunked(down: nat, c: State, callee: Activation, r: State, up: nat)

  /** A call made in state `a` with `args` argument slots, back in state `b`. */
  datatype Inner = Inner(args: nat, a: State, callee: Activation, b: State)

  /** `t` is an activation with `args` argument slots that leads from `pre` to `post`. Every ordinary
      routine in it keeps the convention provided the routines it calls do, and every thunk is entered
      admissibly. Nothing is assumed about where the frames of the thunks lie. */
  ghost predicate Performs(img: Image, t: Activation, pre: State, post: State, args: nat)
    decreases t
  {
    match t
    case Routine(calls) =>
      && (forall i :: 0 <= i < |calls| ==>
            Performs(img, calls[i].callee, calls[i].a, calls[i].b, calls[i].args))
      && ((forall i :: 0 <= i < |calls| ==>
             Kept(calls[i].a, calls[i].b, Above(calls[i].a, calls[i].args)))
          ==> Kept(pre, post, Above(pre, args)))
    case Thunked(down, c, callee, r, up) =>
      var e := Land(img, pre);
      && Admissible(e)
      && Leads(img, e, down, c) && c.pc.Outside?
      && Performs(img, callee, c, r, Slots(Size(e)))
      && Leads(img, Land(img, r), up, post) && post.pc.Outside?
  }

  /** One layer: a thunk activation around a callee that kept the convention keeps it too. */
  lemma LayerKeeps(img: Image, e: State, down: nat, c: State, r: State, up: nat, post: State, args: nat)
    requires img.entry != img.site && Admissible(e)
    requires Leads(img, e, down, c) && c.pc.Outside?
    requires Kept(c, r, Above(c, Slots(Size(e))))
    requires Leads(img, Land(img, r), up, post) && post.pc.Outside?
    ensures Kept(e, post, Above(e, args))
  {
    hide Run;
    hide Read64;
    ThunkKeepsConvention(img, e, down, c, r);
    var f :| Leads(img, Land(img, r), 3, f) && Kept(e, f, Above(e, 0));
    LeavesTogether(img, Land(img, r), up, post, 3, f);
    forall x: u64 | x in Above(e, args) ensures post.mem(x) == e.mem(x) {
      assert IsAbove(e, 0, x);
      assert x in Above(e, 0);
    }
  }

  /** However deep thunk calls are nested, and whatever routines call them in between, the outermost
      activation gives its caller back its registers, its stack pointer and everything above its
      argument slots. */
  lemma {:induction false} NestedKeeps(img: Image, t: Activation, pre: State, post: State, args: nat)
    requires img.entry != img.site && Performs(img, t, pre, post, args)
    ensures Kept(pre, post, Above(pre, args))
    decreases t
  {
    match t
    case Routine(calls) =>
      forall i | 0 <= i < |calls|
        ensures Kept(calls[i].a, calls[i].b, Above(calls[i].a, calls[i].args))
      {
        NestedKeeps(img, calls[i].callee, calls[i].a, calls[i].b, calls[i].args);
      }
    case Thunked(down, c, callee, r, up) =>
      hide Leads;
      hide Admissible;
      var e := Land(img, pre);
      NestedKeeps(img, callee, c, r, Slots(Size(e)));
      LayerKeeps(img, e, down, c, r, up, post, args);
      assert Above(e, args) == Above(pre, args);
  }

  // ----- Nested runs exist -----

  /** `d` thunk activations directly inside one another, around a routine that calls nothing. */
  ghost predicate Chain(t: Activation, d: nat)
    decreases d
  {
    if d == 0 then t == Routine([]) else t.Thunked? && Chain(t.callee, d - 1)
  }

  /** A state at the thunk's entry that makes the thunk call itself: routine and first parameter are the
      thunk, block and second parameter are this very block, and the stack has room for `d` frames. */
  ghost predicate SelfCalling(img: Image, pre: State, d: nat) {
    var g := pre.regs;
    && pre.pc == Outside(img.entry) && g.rcx == img.entry
    && InSpace(g.rdx, BlockSize(2)) && Count(pre.mem, g.rdx) == 2
    && Params(pre.mem, g.rdx) == [img.entry, g.rdx]
    && g.rsp >= 48 * d && g.rsp + 8 <= 0x1_0000_0000_0000_0000
    && Apart(g.rdx, BlockSize(2), g.rsp - 48 * d, 48 * d)
  }

  /** A self-calling thunk enters itself, self-calling, one frame further down. */
  lemma CallsItself(img: Image, pre: State, d: nat) returns (c: State)
    requires SelfCalling(img, pre, d + 1)
    ensures Admissible(Land(img, pre)) && Size(Land(img, pre)) == 2
    ensures Leads(img, Land(img, pre), CallSteps(2), c) && c.pc.Outside? && SelfCalling(img, c, d)
  {
    hide Run;
    hide Read64;
    var e := Land(img, pre);
    c := ToRoutine(img, e);
    SlotHolds(e, 0);
    SlotHolds(e, 1);
    BlockAtEveryStep(img, e, CallSteps(2));
    hide CallLog;
    hide CallMem;
    hide LoopMem;
  }

  lemma ChainEnd(img: Image, pre: State, args: nat) returns (post: State)
    requires SelfCalling(img, pre, 0)
    ensures Performs(img, Routine([]), pre, post, args)
  {
    hide Read64;
    var g := pre.regs;
    post := pre.(pc := Outside(Read64(pre.mem, g.rsp)), regs := g.(rsp := Wrap64(g.rsp + 8)));
    assert Kept(pre, post, Above(pre, args));
  }

  lemma ChainStep(img: Image, pre: State, c: State, callee: Activation, r: State, args: nat)
      returns (post: State)
    requires img.entry != img.site && Admissible(Land(img, pre)) && Size(Land(img, pre)) == 2
    requires Leads(img, Land(img, pre), CallSteps(2), c) && c.pc.Outside?
    requires Performs(img, callee, c, r, 4)
    ensures Performs(img, Thunked(CallSteps(2), c, callee, r, 3), pre, post, args)
  {
    hide Run;
    hide Read64;
    hide CallSteps;
    var e := Land(img, pre);
    NestedKeeps(img, callee, c, r, 4);
    ThunkKeepsConvention(img, e, CallSteps(2), c, r);
    post :| Leads(img, Land(img, r), 3, post) && Kept(e, post, Above(e, 0));
    hide Leads;
    hide Admissible;
  }

  /** Nested calls are there to speak of: from every self-calling state with room for `d` frames there is
      an activation of exactly `d` thunks inside one another. */
  lemma {:induction false} ChainPerforms(img: Image, pre: State, d: nat, args: nat)
      returns (t: Activation, post: State)
    requires img.entry != img.site && SelfCalling(img, pre, d)
    ensures Chain(t, d) && Performs(img, t, pre, post, args)
    decreases d
  {
    hide SelfCalling;
    hide Performs;
    hide Leads;
    hide Admissible;
    if d == 0 {
      t := Routine([]);
      post := ChainEnd(img, pre, args);
    } else {
      var c := CallsItself(img, pre, d - 1);
      var callee, r := ChainPerforms(img, c, d - 1, 4);
      post := ChainStep(img, pre, c, callee, r, args);
      t := Thunked(CallSteps(2), c, callee, r, 3);
    }
  }

  /** There is such a state for every depth whose frames fit the address space. */
  lemma SelfCallingExists(img: Image, d: nat) returns (pre: State)
    requires 48 * d + 48 <= 0x1_0000_0000_0000_0000
    ensures SelfCalling(img, pre, d)
  {
    var tag := [0, 0, 0, 0, 0, 0, 0, 0];
    var bs := [Marshal.Blob(tag, img.entry), Marshal.Blob(tag, 0)];
    var s := Marshal.BlockBytes(bs, 0);
    var g := Regs(0, img.entry, 0, 0, 48 * d + 40, 0, 0, 0, 0, 0, 0, 0, 0, 0, 0, 0);
    var mem: Memory := (x: u64) => if x < |s| then s[x] else 0;
    pre := State(g, Flags(Off, Off, Off), Outside(img.entry), mem, []);
    hide Marshal.BlockBytes;
    Marshal.BlockStored(mem, 0, bs, 0);
  }
}
