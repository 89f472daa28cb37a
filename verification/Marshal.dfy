/** The byte layout of a parameter block, and the way from a list of values to the routine. */
module Marshal {
  import opened Words
  import opened X64
  import opened MemoryLaws
  import opened Layout
  import opened Thunk
  import opened LoopRun
  import opened CallRun
  import opened Delivery

  function ToLe(v: nat, k: nat): (s: seq<byte>)
    ensures |s| == k
  {
    seq(k, i requires 0 <= i < k => ByteAt(v, i))
  }

  /** The first eight bytes of a blob, which the thunk never looks at. */
  type Tag = s: seq<byte> | |s| == 8 witness [0, 0, 0, 0, 0, 0, 0, 0]

  datatype Blob = Blob(tag: Tag, value: u64)

  function BlobBytes(b: Blob): (s: seq<byte>)
    ensures |s| == BLOB
  {
    b.tag + ToLe(b.value, 8)
  }

  function BlobsBytes(bs: seq<Blob>): (s: seq<byte>)
    ensures |s| == BLOB * |bs|
  {
    if bs == [] then [] else BlobBytes(bs[0]) + BlobsBytes(bs[1..])
  }

  /** Count, four unused bytes, then the blobs. */
  function BlockBytes(bs: seq<Blob>, unused: u32): (s: seq<byte>)
    ensures |s| == BlockSize(|bs|)
  {
    ToLe(|bs|, 4) + ToLe(unused, 4) + BlobsBytes(bs)
  }

  function Values(bs: seq<Blob>): (vs: seq<u64>)
    ensures |vs| == |bs|
  {
    seq(|bs|, i requires 0 <= i < |bs| => bs[i].value)
  }

  /** The bytes `s` are in memory from address `p` on. */
  ghost predicate Stored(m: Memory, p: int, s: seq<byte>)
    requires InSpace(p, |s|)
  {
    forall x: u64 :: p <= x < p + |s| ==> m(x) == s[x - p]
  }

  lemma StoredPart(m: Memory, p: int, a: seq<byte>, b: seq<byte>, c: seq<byte>)
    requires InSpace(p, |a + b + c|) && Stored(m, p, a + b + c)
    ensures Stored(m, p + |a|, b)
  {
    var s := a + b + c;
    forall x: u64 | p + |a| <= x < p + |a| + |b| ensures m(x) == b[x - (p + |a|)] {
      assert m(x) == s[x - p];
    }
  }

  lemma ThreeParts(m: Memory, p: int, a: seq<byte>, b: seq<byte>, c: seq<byte>)
    requires InSpace(p, |a + b + c|) && Stored(m, p, a + b + c)
    ensures Stored(m, p, a) && Stored(m, p + |a|, b) && Stored(m, p + |a| + |b|, c)
  {
    var s := a + b + c;
    forall x: u64 | p <= x < p + |a| ensures m(x) == a[x - p] {
      assert m(x) == s[x - p];
    }
    StoredPart(m, p, a, b, c);
    forall x: u64 | p + |a| + |b| <= x < p + |s| ensures m(x) == c[x - (p + |a| + |b|)] {
      assert m(x) == s[x - p];
    }
  }

  lemma LoadStored(m: Memory, p: int, v: nat, k: nat)
    requires InSpace(p, k) && v < Pow2(8 * k) && Stored(m, p, ToLe(v, k))
    ensures Load(m, p, k) == v
  {
    LoadValue(m, p, k, v);
  }

  lemma DwordStored(m: Memory, p: int, v: u32)
    requires InSpace(p, 4) && Stored(m, p, ToLe(v, 4))
    ensures Read32(m, p) == v
  {
    hide ToLe;
    hide Stored;
    WordSizes();
    LoadStored(m, p, v, 4);
  }

  /** The value of blob `i` is where the thunk loads it. */
  lemma {:induction false} BlobStored(m: Memory, p: int, bs: seq<Blob>, i: nat)
    requires i < |bs| && InSpace(p, BLOB * |bs|) && Stored(m, p, BlobsBytes(bs))
    ensures Read64(m, p + BLOB * i + 8) == bs[i].value
    decreases i
  {
    var first, rest := bs[0], BlobsBytes(bs[1..]);
    if i == 0 {
      StoredPart(m, p, first.tag, ToLe(first.value, 8), rest);
      WordSizes();
      LoadStored(m, p + 8, first.value, 8);
    } else {
      assert BlobBytes(first) + rest + [] == BlobsBytes(bs);
      StoredPart(m, p, BlobBytes(first), rest, []);
      BlobStored(m, p + BLOB, bs[1..], i - 1);
    }
  }

  /** The three parts of a block are stored one after the other. */
  lemma PartsStored(m: Memory, p: int, bs: seq<Blob>, unused: u32)
    requires |bs| < 0x1_0000_0000 && InSpace(p, BlockSize(|bs|)) && Stored(m, p, BlockBytes(bs, unused))
    ensures Stored(m, p, ToLe(|bs|, 4)) && Stored(m, p + 4, ToLe(unused, 4)) && Stored(m, p + 8, BlobsBytes(bs))
  {
    hide BlobsBytes;
    hide ToLe;
    hide Stored;
    ThreeParts(m, p, ToLe(|bs|, 4), ToLe(unused, 4), BlobsBytes(bs));
  }

  lemma CountStored(m: Memory, p: int, bs: seq<Blob>, unused: u32)
    requires |bs| < 0x1_0000_0000 && InSpace(p, BlockSize(|bs|)) && Stored(m, p, BlockBytes(bs, unused))
    ensures Count(m, p) == |bs| && Read32(m, p + 4) == unused
  {
    PartsStored(m, p, bs, unused);
    hide BlockBytes;
    hide BlobsBytes;
    hide ToLe;
    hide Stored;
    hide Read32;
    DwordStored(m, p, |bs|);
    DwordStored(m, p + 4, unused);
  }

  /** A block laid out byte by byte announces its count and holds its values in order. */
  lemma BlockStored(m: Memory, p: int, bs: seq<Blob>, unused: u32)
    requires |bs| < 0x1_0000_0000 && InSpace(p, BlockSize(|bs|)) && Stored(m, p, BlockBytes(bs, unused))
    ensures Block(m, p) && Params(m, p) == Values(bs)
  {
    hide Read64;
    hide Read32;
    hide BlobsBytes;
    hide BlockBytes;
    hide Stored;
    CountStored(m, p, bs, unused);
    PartsStored(m, p, bs, unused);
    forall i | 0 <= i < |bs| ensures Params(m, p)[i] == bs[i].value {
      BlobStored(m, p + HEADER, bs, i);
    }
  }

  /** The tag of blob `i` is in the lower half of its sixteen bytes. */
  lemma {:induction false} TagStored(m: Memory, p: int, bs: seq<Blob>, i: nat, j: nat)
    requires i < |bs| && j < 8 && InSpace(p, BLOB * |bs|) && Stored(m, p, BlobsBytes(bs))
    ensures m(p + BLOB * i + j) == bs[i].tag[j]
    decreases i
  {
    var first, rest := bs[0], BlobsBytes(bs[1..]);
    if i == 0 {
      assert [] + first.tag + (ToLe(first.value, 8) + rest) == BlobsBytes(bs);
      StoredPart(m, p, [], first.tag, ToLe(first.value, 8) + rest);
    } else {
      assert BlobBytes(first) + rest + [] == BlobsBytes(bs);
      StoredPart(m, p, BlobBytes(first), rest, []);
      TagStored(m, p + BLOB, bs[1..], i - 1, j);
    }
  }

  /** What the thunk does not look at is in the block too: the unused dword of the header and, in front of
      each value, its tag. */
  lemma UnreadStored(m: Memory, p: int, bs: seq<Blob>, unused: u32)
    requires |bs| < 0x1_0000_0000 && InSpace(p, BlockSize(|bs|)) && Stored(m, p, BlockBytes(bs, unused))
    ensures Read32(m, p + 4) == unused
    ensures forall i, j :: 0 <= i < |bs| && 0 <= j < 8 ==> m(p + 8 + 16 * i + j) == bs[i].tag[j]
  {
    hide BlobsBytes;
    hide BlockBytes;
    hide Stored;
    CountStored(m, p, bs, unused);
    PartsStored(m, p, bs, unused);
    forall i, j | 0 <= i < |bs| && 0 <= j < 8 ensures m(p + 8 + 16 * i + j) == bs[i].tag[j] {
      TagStored(m, p + HEADER, bs, i, j);
    }
  }

  /** Round trip: lay any list of values out as a parameter block, run the thunk on it, and the routine
      is entered with exactly that list, in order. */
  lemma RoundTrip(img: Image, e: State, bs: seq<Blob>, unused: u32)
    requires Admissible(e) && |bs| < 0x1_0000_0000
    requires InSpace(e.regs.rdx, BlockSize(|bs|)) && Stored(e.mem, e.regs.rdx, BlockBytes(bs, unused))
    ensures Size(e) == |bs|
    ensures var o := Run(LISTING, img, e, CallSteps(|bs|));
            o.Next? && o.st.pc == Outside(e.regs.rcx) && EnteredWith(o.st, Values(bs), img.site)
  {
    hide Run;
    BlockStored(e.mem, e.regs.rdx, bs, unused);
    ArgumentsDelivered(img, e);
  }

  /** Every list of values can be laid out and handed to the thunk in some admissible, aligned start state. */
  lemma EveryListHasAStart(bs: seq<Blob>, unused: u32) returns (e: State)
    requires |bs| < 0x1_0000_0000
    ensures Admissible(e) && e.regs.rsp % 16 == 8
    ensures InSpace(e.regs.rdx, BlockSize(|bs|)) && Stored(e.mem, e.regs.rdx, BlockBytes(bs, unused))
  {
    var s := BlockBytes(bs, unused);
    var rsp := 0x1_0000_0000_0008;
    var g := Regs(0, 0, 0, 0, rsp, 0, 0, 0, 0, 0, 0, 0, 0, 0, 0, 0);
    var mem: Memory := (x: u64) => if x < |s| then s[x] else 0;
    e := State(g, Flags(Off, Off, Off), Line(0), mem, []);
    BlockStored(mem, 0, bs, unused);
  }
}
