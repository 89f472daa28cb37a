/** The parameter block the thunk is given and the stack frame it builds from it. */
module Layout {
  import opened Words
  import opened X64
  import opened MemoryLaws

  // ----- The parameter block: an 8-byte header, then 16 bytes for each parameter -----

  const HEADER := 8
  const BLOB := 16

  function Count(m: Memory, p: int): u32
    requires InSpace(p, 4)
  {
    Read32(m, p)
  }

  function BlockSize(n: nat): nat {
    HEADER + BLOB * n
  }

  /** A block that lies in the address space with all the parameters it announces. */
  predicate Block(m: Memory, p: int) {
    InSpace(p, 4) && InSpace(p, BlockSize(Count(m, p)))
  }

  /** The address of the value of parameter `i`: the upper half of its blob. */
  function ParamAt(p: int, i: int): int {
    p + HEADER + BLOB * i + 8
  }

  function Params(m: Memory, p: int): (vs: seq<u64>)
    requires Block(m, p)
    ensures |vs| == Count(m, p)
    ensures forall i :: 0 <= i < |vs| ==> vs[i] == Read64(m, ParamAt(p, i))
  {
    seq(Count(m, p), i requires 0 <= i < Count(m, p) => Read64(m, ParamAt(p, i)))
  }

  // ----- The frame: the saved rbx, padding, the argument slots -----

  /** The number of argument slots reserved for `n` parameters. */
  function Slots(n: nat): nat {
    var m := if n < 4 then 4 else n;
    m + m % 2
  }

  /** `Slots(n)` is the least even number that is at least `n` and at least the four home slots. */
  lemma SlotsLeast(n: nat, s: nat)
    ensures Slots(n) % 2 == 0 && Slots(n) >= n && Slots(n) >= 4
    ensures s % 2 == 0 && s >= n && s >= 4 ==> Slots(n) <= s
  {
  }

  function Padding(n: nat): (d: nat)
    ensures d <= 4
  {
    Slots(n) - n
  }

  /** Where argument slot 0 is for a thunk entered with stack pointer `rsp`. */
  function Base(rsp: int, n: nat): int {
    rsp - 8 - 8 * Slots(n)
  }

  /** A start state the thunk can be entered in: the block is all there, the stack has room for the
      frame and the return address below it, and the two do not overlap. */
  predicate Admissible(e: State) {
    var p, rsp := e.regs.rdx, e.regs.rsp;
    && e.pc == Line(0)
    && Block(e.mem, p)
    && var n := Count(e.mem, p);
    && Base(rsp, n) >= 8
    && rsp + 8 <= 0x1_0000_0000_0000_0000
    && Apart(p, BlockSize(n), Base(rsp, n) - 8, 8 * Slots(n) + 16)
  }

  /** The memory once the values from the last one down to number `k` are stored upwards from `base`. */
  function Pushed(m: Memory, base: int, vs: seq<u64>, k: nat): Memory
    requires k <= |vs| && InSpace(base, 8 * |vs|)
    decreases |vs| - k
  {
    if k == |vs| then m else Write64(Pushed(m, base, vs, k + 1), base + 8 * k, vs[k])
  }

  /** Storing the values changes nothing outside their slots. */
  lemma {:induction false} PushedElsewhere(m: Memory, base: int, vs: seq<u64>, k: nat, x: u64)
    requires k <= |vs| && InSpace(base, 8 * |vs|)
    requires !(base + 8 * k <= x < base + 8 * |vs|)
    ensures Pushed(m, base, vs, k)(x) == m(x)
    decreases |vs| - k
  {
    if k < |vs| {
      PushedElsewhere(m, base, vs, k + 1, x);
    }
  }

  /** Every stored value is found in its slot. */
  lemma {:induction false} PushedRead(m: Memory, base: int, vs: seq<u64>, k: nat, i: nat)
    requires k <= i < |vs| && InSpace(base, 8 * |vs|)
    ensures Read64(Pushed(m, base, vs, k), base + 8 * i) == vs[i]
    decreases |vs| - k
  {
    hide Read64;
    hide Write64;
    var rest := Pushed(m, base, vs, k + 1);
    if i == k {
      ReadWritten(rest, base + 8 * k, vs[k]);
    } else {
      PushedRead(m, base, vs, k + 1, i);
      ReadElsewhere(rest, base + 8 * k, vs[k], base + 8 * i);
    }
  }
}
