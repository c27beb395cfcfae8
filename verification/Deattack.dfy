/** ssh/deattack.c: the detector of CRC compensation attacks on SSH1 packets. */
module Deattack {
  import opened Crc32
  import Congruence

  type Block = b: Octets | |b| == 8 witness [0, 0, 0, 0, 0, 0, 0, 0]

  const MAX_IDENTICAL := 32
  const MAXBLOCKS := 32 * 1024
  const BLOCKSIZE := 8
  const HASH_UNUSED := 0xFFFF
  const HASH_MINBLOCKS := 7 * BLOCKSIZE
  const HASH_MINENTRIES := 8 * 1024 / 2

  datatype Verdict = Ok | Detected | DosDetected | Error

  function Blocks(buf: Octets): seq<Block>
  {
    seq(|buf| / BLOCKSIZE, j requires 0 <= j < |buf| / BLOCKSIZE => buf[BLOCKSIZE * j..BLOCKSIZE * j + BLOCKSIZE])
  }

  // ----- check_crc

  /** The bytes of a word on a little-endian host. */
  function WordBytes(x: bv32): Octets { [Low(x), Low(Drop(x)), Low(Drop(Drop(x))), Low(Drop(Drop(Drop(x))))] }

  function Drop(x: bv32): bv32 { x >> 8 }

  function Low(x: bv32): bv8 { (x & 0xFF) as bv8 }

  /** crc_update. */
  function Update(crc: bv32, b: bv32): bv32 { Divide(0, WordBytes(Plus(b, crc))) }

  /** Where `s` occurs. */
  function Mask(s: Block, blocks: seq<Block>): seq<bool>
  {
    seq(|blocks|, j requires 0 <= j < |blocks| => blocks[j] == s)
  }

  function Bit(m: bool): bv32 { if m then 1 else 0 }

  function MaskStep(crc: bv32, m: bool): bv32 { Update(Update(crc, Bit(m)), 0) }

  function MaskCrc(crc: bv32, mask: seq<bool>): bv32
    decreases |mask|
  {
    if mask == [] then crc else MaskCrc(MaskStep(crc, mask[0]), mask[1..])
  }

  predicate CheckCrc(s: Block, blocks: seq<Block>) { MaskCrc(0, Mask(s, blocks)) == 0 }

  /** check_crc depends on nothing but the positions of the block. */
  method CheckCrcLoop(s: Block, blocks: seq<Block>) returns (passes: bool)
    ensures passes == CheckCrc(s, blocks)
  {
    hide Update;
    var crc: bv32 := 0;
    ghost var mask := Mask(s, blocks);
    for j := 0 to |blocks|
      invariant MaskCrc(crc, mask[j..]) == MaskCrc(0, mask)
    {
      assert mask[j..][1..] == mask[j + 1..];
      if blocks[j] == s {
        crc := Update(crc, 1);
        crc := Update(crc, 0);
      } else {
        crc := Update(crc, 0);
        crc := Update(crc, 0);
      }
    }
    return crc == 0;
  }

  // ----- What check_crc computes

  function Shift32(x: bv32): bv32 { Shift8(Shift8(Shift8(Shift8(x)))) }

  /** crc_update divides the whole word, 32 steps of the bit-by-bit division. */
  lemma UpdateIsShift32(crc: bv32, b: bv32)
    ensures Update(crc, b) == Shift32(Plus(b, crc))
  {
    DivideWord(Plus(b, crc));
  }

  function Absorb(s: bv32, b: bv8): bv32 { Shift8(Plus(s, Widen(b))) }

  lemma DivideWord(x: bv32)
    ensures Divide(0, WordBytes(x)) == Shift32(x)
  {
    hide Shift8;
    hide Plus;
    hide Low;
    hide Drop;
    hide Absorb;
    var x1, x2, x3 := Drop(x), Drop(Drop(x)), Drop(Drop(Drop(x)));
    var s1 := Absorb(0, Low(x));
    var s2 := Absorb(s1, Low(x1));
    var s3 := Absorb(s2, Low(x2));
    DivideFour(Low(x), Low(x1), Low(x2), Low(x3));
    AbsorbByte(0, x);
    AbsorbByte(s1, x1);
    AbsorbByte(s2, x2);
    AbsorbByte(s3, x3);
    Ends(x, Absorb(s3, Low(x3)));
  }

  lemma DivideFour(a: bv8, b: bv8, c: bv8, d: bv8)
    ensures Divide(0, [a, b, c, d]) == Absorb(Absorb(Absorb(Absorb(0, a), b), c), d)
  {
    hide Divide;
    hide Absorb;
    DivideFirst(0, a, [b, c, d]);
    DivideFirst(Absorb(0, a), b, [c, d]);
    DivideFirst(Absorb(Absorb(0, a), b), c, [d]);
    DivideFirst(Absorb(Absorb(Absorb(0, a), b), c), d, []);
    DivideNothing(Absorb(Absorb(Absorb(Absorb(0, a), b), c), d));
    assert [a, b, c, d] == [a] + [b, c, d] && [b, c, d] == [b] + [c, d] && [c, d] == [c] + [d] && [d] == [d] + [];
  }

  lemma {:induction false} DivideNothing(s: bv32)
    ensures Divide(s, []) == s
  {
    hide Shift8;
  }

  lemma {:induction false} DivideFirst(s: bv32, b: bv8, rest: Octets)
    ensures Divide(s, [b] + rest) == Divide(Absorb(s, b), rest)
  {
    hide Shift8;
    hide Plus;
    hide Widen;
    assert ([b] + rest)[1..] == rest;
  }

  /** A byte of the word goes in; what is left of the word moves down. */
  lemma AbsorbByte(s: bv32, y: bv32)
    ensures Shift8(Plus(s, y)) == Plus(Absorb(s, Low(y)), Drop(y))
  {
    hide Shift8;
    hide Plus;
    hide Low;
    hide Top;
    SplitWord(s, y);
    Shift8Linear(Plus(s, Widen(Low(y))), Top(y));
    Shift8Even(y);
  }

  lemma SplitWord(s: bv32, y: bv32)
    ensures Plus(s, y) == Plus(Plus(s, Widen(Low(y))), Top(y))
  {
  }

  lemma Ends(x: bv32, s: bv32)
    ensures Plus(0, x) == x && Plus(s, Drop(Drop(Drop(Drop(x))))) == s
  {
  }

  lemma UpdateZero(crc: bv32)
    ensures Update(crc, 0) == 0 <==> crc == 0
  {
    hide Shift8;
    hide Plus;
    UpdateIsShift32(crc, 0);
    Ends(crc, 0);
    Shift8Zero(crc);
    Shift8Zero(Shift8(crc));
    Shift8Zero(Shift8(Shift8(crc)));
    Shift8Zero(Shift8(Shift8(Shift8(crc))));
  }

  lemma UpdateOne()
    ensures Update(0, 1) != 0
  {
    hide Shift8;
    UpdateIsShift32(0, 1);
    Shift8Zero(1);
    Shift8Zero(Shift8(1));
    Shift8Zero(Shift8(Shift8(1)));
    Shift8Zero(Shift8(Shift8(Shift8(1))));
  }

  lemma UpdateLinear(c: bv32, d: bv32, a: bv32, b: bv32)
    ensures Update(Plus(c, d), Plus(a, b)) == Plus(Update(c, a), Update(d, b))
  {
    hide Shift8;
    hide Plus;
    UpdateIsShift32(Plus(c, d), Plus(a, b));
    UpdateIsShift32(c, a);
    UpdateIsShift32(d, b);
    Swap(a, b, c, d);
    var x, y := Plus(a, c), Plus(b, d);
    Shift8Linear(x, y);
    Shift8Linear(Shift8(x), Shift8(y));
    Shift8Linear(Shift8(Shift8(x)), Shift8(Shift8(y)));
    Shift8Linear(Shift8(Shift8(Shift8(x))), Shift8(Shift8(Shift8(y))));
  }

  lemma Swap(a: bv32, b: bv32, c: bv32, d: bv32)
    ensures Plus(Plus(a, b), Plus(c, d)) == Plus(Plus(a, c), Plus(b, d))
  {
    hide Plus;
    PlusAssociates(a, b, Plus(c, d));
    PlusAssociates(b, c, d);
    PlusAssociates(c, b, d);
    PlusCommutes(b, c);
    PlusAssociates(a, c, Plus(b, d));
  }

  lemma PlusAssociates(x: bv32, y: bv32, z: bv32)
    ensures Plus(Plus(x, y), z) == Plus(x, Plus(y, z))
  {
  }

  lemma PlusCommutes(x: bv32, y: bv32)
    ensures Plus(x, y) == Plus(y, x)
  {
  }

  function XorMask(m: seq<bool>, n: seq<bool>): seq<bool>
    requires |m| == |n|
  {
    seq(|m|, j requires 0 <= j < |m| => m[j] != n[j])
  }

  /** check_crc is linear in the positions of the block. */
  lemma {:induction false} MaskCrcLinear(c: bv32, d: bv32, m: seq<bool>, n: seq<bool>)
    requires |m| == |n|
    ensures MaskCrc(Plus(c, d), XorMask(m, n)) == Plus(MaskCrc(c, m), MaskCrc(d, n))
    decreases |m|
  {
    hide Update;
    hide Plus;
    if m != [] {
      assert XorMask(m, n)[1..] == XorMask(m[1..], n[1..]);
      MaskStepLinear(c, d, m[0], n[0]);
      MaskCrcLinear(MaskStep(c, m[0]), MaskStep(d, n[0]), m[1..], n[1..]);
    }
  }

  lemma MaskStepLinear(c: bv32, d: bv32, m: bool, n: bool)
    ensures MaskStep(Plus(c, d), m != n) == Plus(MaskStep(c, m), MaskStep(d, n))
  {
    hide Update;
    hide Plus;
    BitLinear(m, n);
    UpdateLinear(c, d, Bit(m), Bit(n));
    UpdateLinear(Update(c, Bit(m)), Update(d, Bit(n)), 0, 0);
    BitLinear(false, false);
  }

  lemma BitLinear(m: bool, n: bool)
    ensures Plus(Bit(m), Bit(n)) == Bit(m != n)
  {
  }

  lemma {:induction false} MaskCrcKeepsNonzero(crc: bv32, mask: seq<bool>)
    requires forall j | 0 <= j < |mask| :: !mask[j]
    ensures MaskCrc(crc, mask) == 0 <==> crc == 0
    decreases |mask|
  {
    hide Update;
    if mask != [] {
      UpdateZero(crc);
      UpdateZero(Update(crc, 0));
      MaskCrcKeepsNonzero(MaskStep(crc, false), mask[1..]);
    }
  }

  /** A block that occurs once never passes: something must compensate for it. */
  lemma {:induction false} LoneBlockFails(mask: seq<bool>, i: nat)
    requires i < |mask| && mask[i] && forall j | 0 <= j < |mask| && j != i :: !mask[j]
    ensures MaskCrc(0, mask) != 0
    decreases |mask|
  {
    hide Update;
    UpdateZero(0);
    if i == 0 {
      UpdateOne();
      UpdateZero(Update(0, 1));
      MaskCrcKeepsNonzero(MaskStep(0, true), mask[1..]);
    } else {
      LoneBlockFails(mask[1..], i - 1);
    }
  }

  // ----- Searching for a repeated block

  predicate Repeat(blocks: seq<Block>, j: nat)
    requires j < |blocks|
  {
    exists d | 0 <= d < j :: blocks[d] == blocks[j]
  }

  /** The packet holds a repeated block that passes check_crc. */
  predicate Attack(blocks: seq<Block>)
  {
    exists j | 0 <= j < |blocks| :: Repeat(blocks, j) && CheckCrc(blocks[j], blocks)
  }

  /** Looking only at repeated blocks misses nothing: a packet is reported exactly when any of
      its blocks passes check_crc. */
  lemma AttackIffSomeBlockPasses(blocks: seq<Block>)
    ensures Attack(blocks) <==> exists j | 0 <= j < |blocks| :: CheckCrc(blocks[j], blocks)
  {
    forall j | 0 <= j < |blocks| && CheckCrc(blocks[j], blocks) ensures Attack(blocks) {
      PassingBlockRepeats(blocks, j);
    }
  }

  lemma PassingBlockRepeats(blocks: seq<Block>, j: nat)
    requires j < |blocks| && CheckCrc(blocks[j], blocks)
    ensures Attack(blocks)
  {
    hide MaskCrc;
    var mask := Mask(blocks[j], blocks);
    if k :| 0 <= k < |blocks| && k != j && blocks[k] == blocks[j] {
      var last := if k < j then j else k;
      assert Repeat(blocks, last) && CheckCrc(blocks[last], blocks);
    } else {
      LoneBlockFails(mask, j);
      assert false;
    }
  }

  /** The number of repeated blocks among the first `j`. */
  function Repeats(blocks: seq<Block>, j: nat): nat
    requires j <= |blocks|
  {
    if j == 0 then 0 else Repeats(blocks, j - 1) + if Repeat(blocks, j - 1) then 1 else 0
  }

  /** The inner loop for short packets: look for an earlier equal block. */
  method Earlier(blocks: seq<Block>, j: nat) returns (found: bool)
    requires j < |blocks|
    ensures found == Repeat(blocks, j)
  {
    for d := 0 to j
      invariant forall k | 0 <= k < d :: blocks[k] != blocks[j]
    {
      if blocks[d] == blocks[j] { return true; }
    }
    return false;
  }

  /** The branch for short packets: compare every pair. */
  method PairwiseScan(blocks: seq<Block>) returns (v: Verdict)
    ensures v == if Attack(blocks) then Detected else Ok
  {
    hide CheckCrc;
    hide Repeat;
    for j := 0 to |blocks|
      invariant forall k | 0 <= k < j :: !(Repeat(blocks, k) && CheckCrc(blocks[k], blocks))
    {
      var found := Earlier(blocks, j);
      if found {
        var passes := CheckCrcLoop(blocks[j], blocks);
        if passes { return Detected; }
      }
    }
    return Ok;
  }

  // ----- The hash table

  type U16 = x: int | 0 <= x < 0x1_0000 witness 0

  /** HASH: the first four bytes, most significant first. */
  function Hash(b: Block): nat
  {
    (b[0] as int) * 0x100_0000 + (b[1] as int) * 0x1_0000 + (b[2] as int) * 0x100 + b[3] as int
  }

  /** The slot `t` places on; the sizes are powers of two, so `& (n - 1)` is `% n`. */
  function Slot(start: nat, t: nat, n: nat): (p: nat)
    requires n > 0
    ensures p < n
  {
    (start + t) % n
  }

  ghost predicate Used(h: seq<U16>, p: nat)
    requires p < |h|
  {
    h[p] != HASH_UNUSED
  }

  /** The first `t` slots from `start` on are in use. */
  ghost predicate Chain(h: seq<U16>, start: nat, t: nat)
    requires |h| > 0
  {
    forall u | 0 <= u < t :: Used(h, Slot(start, u, |h|))
  }

  /** Probing from `start` comes to slot `p`. */
  ghost predicate Probed(h: seq<U16>, start: nat, p: nat)
    requires |h| > 0
  {
    exists t | 0 <= t < |h| :: Slot(start, t, |h|) == p && Chain(h, start, t)
  }

  ghost function UsedSlots(h: seq<U16>): set<nat> { set p | 0 <= p < |h| && Used(h, p) }

  ghost predicate Holds(h: seq<U16>, blocks: seq<Block>, p: nat, b: Block)
    requires p < |h|
  {
    Used(h, p) && h[p] < |blocks| && blocks[h[p]] == b
  }

  ghost predicate HasEntry(h: seq<U16>, blocks: seq<Block>, b: Block)
  {
    exists p | 0 <= p < |h| :: Holds(h, blocks, p, b)
  }

  /** The table after the first `j` blocks: every entry is one of them and can be probed, every
      one of them has an equal entry, and no more slots are in use than blocks were seen. */
  ghost predicate TableOf(h: seq<U16>, blocks: seq<Block>, j: nat)
  {
    && |h| > 0 && j <= |blocks|
    && (forall p | 0 <= p < |h| && Used(h, p) :: h[p] < j && Probed(h, Hash(blocks[h[p]]), p))
    && (forall d | 0 <= d < j :: HasEntry(h, blocks, blocks[d]))
    && |UsedSlots(h)| <= j
  }

  lemma EmptyTable(h: seq<U16>, blocks: seq<Block>)
    requires |h| > 0 && forall p | 0 <= p < |h| :: h[p] == HASH_UNUSED
    ensures TableOf(h, blocks, 0)
  {
    assert UsedSlots(h) == {};
  }

  /** Some slot is free, so a chain never goes all the way round. */
  lemma ChainEnds(h: seq<U16>, blocks: seq<Block>, j: nat, start: nat)
    requires TableOf(h, blocks, j) && j < |h|
    ensures !Chain(h, start, |h|)
  {
    if Chain(h, start, |h|) {
      forall p | 0 <= p < |h| ensures p in UsedSlots(h) {
        var t := if p >= start % |h| then p - start % |h| else p + |h| - start % |h|;
        SlotReaches(start, p, |h|, t);
        assert Used(h, Slot(start, t, |h|));
      }
      RangeSize(|h|, UsedSlots(h));
      assert false;
    }
  }

  lemma SlotReaches(start: nat, p: nat, n: nat, t: nat)
    requires p < n
    requires t == if p >= start % n then p - start % n else p + n - start % n
    ensures t < n && Slot(start, t, n) == p
  {
    ModAdd(start, t, n);
  }

  lemma ModAdd(a: nat, b: nat, n: nat)
    requires n > 0 && b < n
    ensures (a + b) % n == if a % n + b < n then a % n + b else a % n + b - n
  {
    var q, r := a / n, a % n;
    assert a == n * q + r;
    if r + b < n {
      Remainder(a + b, n, q, r + b);
    } else {
      assert n * q + n == n * (q + 1);
      Remainder(a + b, n, q + 1, r + b - n);
    }
  }

  lemma Remainder(x: nat, n: nat, q: nat, r: nat)
    requires r < n && x == n * q + r
    ensures x % n == r
  {
    Congruence.SameByMultiple(x, r, n, q);
    Congruence.Small(r, n);
  }

  lemma {:induction false} RangeSize(n: nat, s: set<nat>)
    requires forall p | 0 <= p < n :: p in s
    ensures |s| >= n
  {
    if n > 0 {
      RangeSize(n - 1, s - {n - 1});
    }
  }

  // ----- Probing

  /** A free slot ends the search: what can be probed lies before it. */
  lemma BeforeFreeSlot(h: seq<U16>, start: nat, t: nat, p: nat)
    requires 0 <= t < |h| && p < |h| && Probed(h, start, p)
    requires !Used(h, Slot(start, t, |h|))
    ensures Used(h, p) ==> exists u | 0 <= u < t :: Slot(start, u, |h|) == p
  {
    var u :| 0 <= u < |h| && Slot(start, u, |h|) == p && Chain(h, start, u);
    assert !(t < u);
  }

  /** Probing up to a free slot without success means that no earlier block is equal. */
  lemma NoRepeat(h: seq<U16>, blocks: seq<Block>, j: nat, t: nat)
    requires TableOf(h, blocks, j) && j < |blocks| && t < |h|
    requires !Used(h, Slot(Hash(blocks[j]), t, |h|))
    requires forall u | 0 <= u < t :: !Holds(h, blocks, Slot(Hash(blocks[j]), u, |h|), blocks[j])
    ensures !Repeat(blocks, j)
  {
    hide Hash;
    forall d | 0 <= d < j ensures blocks[d] != blocks[j] {
      assert HasEntry(h, blocks, blocks[d]);
      var p :| 0 <= p < |h| && Holds(h, blocks, p, blocks[d]);
      if Probed(h, Hash(blocks[j]), p) {
        BeforeFreeSlot(h, Hash(blocks[j]), t, p);
      }
    }
  }

  lemma NextSlot(start: nat, t: nat, n: nat)
    requires n > 1
    ensures (Slot(start, t, n) + 1) % n == Slot(start, t + 1, n)
  {
    var r := (start + t) % n;
    ModAdd(start + t, 1, n);
    if r + 1 < n { Remainder(r + 1, n, 0, r + 1); } else { Remainder(n, n, 1, 0); }
  }

  /** One more slot of the chain. */
  lemma Advance(h: seq<U16>, blocks: seq<Block>, j: nat, start: nat, t: nat)
    requires TableOf(h, blocks, j) && 1 < |h| && j < |h| && t < |h|
    requires Chain(h, start, t) && Used(h, Slot(start, t, |h|))
    ensures t + 1 < |h| && Chain(h, start, t + 1)
    ensures (Slot(start, t, |h|) + 1) % |h| == Slot(start, t + 1, |h|)
  {
    hide TableOf;
    hide Slot;
    NextSlot(start, t, |h|);
    ChainEnds(h, blocks, j, start);
  }

  lemma EntriesInRange(h: seq<U16>, blocks: seq<Block>, j: nat)
    requires TableOf(h, blocks, j)
    ensures forall p | 0 <= p < |h| && h[p] != HASH_UNUSED :: h[p] < j
  {
  }

  /** The inner loop of detect_attack: go on from the block's slot until a free one or an
      equal block is found.  It always ends, and it finds an equal block if there is one. */
  method Probe(h: array<U16>, blocks: seq<Block>, j: nat) returns (i: nat, found: bool)
    requires j < |blocks| && j < h.Length && 1 < h.Length && TableOf(h[..], blocks, j)
    ensures i < h.Length && Probed(h[..], Hash(blocks[j]), i)
    ensures found == Repeat(blocks, j)
    ensures if found then Holds(h[..], blocks, i, blocks[j]) else !Used(h[..], i)
  {
    hide Hash;
    hide TableOf;
    hide Slot;
    ghost var s := h[..];
    EntriesInRange(s, blocks, j);
    var start := Hash(blocks[j]);
    ghost var t := 0;
    i := start % h.Length;
    FirstSlot(start, h.Length);
    while h[i] != HASH_UNUSED && blocks[h[i]] != blocks[j]
      invariant 0 <= t < |s| && i == Slot(start, t, |s|) < |s|
      invariant Chain(s, start, t)
      invariant forall u | 0 <= u < t :: !Holds(s, blocks, Slot(start, u, |s|), blocks[j])
      decreases |s| - t
    {
      Advance(s, blocks, j, start, t);
      t := t + 1;
      i := (i + 1) % h.Length;
    }
    found := h[i] != HASH_UNUSED;
    if !found { NoRepeat(s, blocks, j, t); }
  }

  lemma FirstSlot(start: nat, n: nat)
    requires n > 0
    ensures Slot(start, 0, n) == start % n
  {
  }

  // ----- Filling the table

  /** The slot found by probing takes the new index. */
  lemma StoreKeepsChain(h: seq<U16>, i: nat, j: U16, start: nat, t: nat)
    requires i < |h| && j != HASH_UNUSED && Chain(h, start, t)
    ensures Chain(h[i := j], start, t)
  {
    hide Slot;
    forall u | 0 <= u < t ensures Used(h[i := j], Slot(start, u, |h|)) {
      assert Used(h, Slot(start, u, |h|));
    }
  }

  lemma StoreKeepsProbed(h: seq<U16>, i: nat, j: U16, start: nat, p: nat)
    requires i < |h| && j != HASH_UNUSED && Probed(h, start, p)
    ensures Probed(h[i := j], start, p)
  {
    hide Slot;
    var t :| 0 <= t < |h| && Slot(start, t, |h|) == p && Chain(h, start, t);
    StoreKeepsChain(h, i, j, start, t);
  }

  lemma StoreKeepsSize(h: seq<U16>, i: nat, j: U16)
    requires i < |h|
    ensures |UsedSlots(h[i := j])| <= |UsedSlots(h)| + 1
  {
    assert UsedSlots(h[i := j]) <= UsedSlots(h) + {i};
    SubsetSize(UsedSlots(h[i := j]), UsedSlots(h) + {i});
  }

  lemma {:induction false} SubsetSize(a: set<nat>, b: set<nat>)
    requires a <= b
    ensures |a| <= |b|
  {
    if a != {} {
      var x :| x in a;
      SubsetSize(a - {x}, b - {x});
    }
  }

  lemma StoreKeepsEntries(h: seq<U16>, blocks: seq<Block>, i: nat, j: U16, d: nat)
    requires j < |blocks| && d < j && i < |h| && j != HASH_UNUSED
    requires HasEntry(h, blocks, blocks[d])
    requires Used(h, i) ==> Holds(h, blocks, i, blocks[j])
    ensures HasEntry(h[i := j], blocks, blocks[d])
  {
    var p :| 0 <= p < |h| && Holds(h, blocks, p, blocks[d]);
    assert Holds(h[i := j], blocks, p, blocks[d]);
  }

  lemma Store(h: seq<U16>, blocks: seq<Block>, j: U16, i: nat)
    requires TableOf(h, blocks, j) && j < |blocks| && j != HASH_UNUSED
    requires i < |h| && Probed(h, Hash(blocks[j]), i)
    requires Used(h, i) ==> Holds(h, blocks, i, blocks[j])
    ensures TableOf(h[i := j], blocks, j + 1)
  {
    hide Hash;
    hide Probed;
    var h' := h[i := j];
    forall p | 0 <= p < |h'| && Used(h', p) ensures h'[p] < j + 1 && Probed(h', Hash(blocks[h'[p]]), p) {
      if p == i {
        StoreKeepsProbed(h, i, j, Hash(blocks[j]), i);
      } else {
        StoreKeepsProbed(h, i, j, Hash(blocks[h[p]]), p);
      }
    }
    forall d | 0 <= d < j + 1 ensures HasEntry(h', blocks, blocks[d]) {
      if d < j { StoreKeepsEntries(h, blocks, i, j, d); } else { assert Holds(h', blocks, i, blocks[d]); }
    }
    StoreKeepsSize(h, i, j);
  }

  // ----- The scan of long packets

  /** What the scan reports from block `j` on: too many repeats, or a repeat that passes. */
  function Scan(blocks: seq<Block>, j: nat): Verdict
    requires j <= |blocks|
    decreases |blocks| - j
  {
    if j == |blocks| then Ok
    else if Repeat(blocks, j) && Repeats(blocks, j) == MAX_IDENTICAL then DosDetected
    else if Repeat(blocks, j) && CheckCrc(blocks[j], blocks) then Detected
    else Scan(blocks, j + 1)
  }

  method HashScan(h: array<U16>, blocks: seq<Block>) returns (v: Verdict)
    requires |blocks| <= MAXBLOCKS && |blocks| < h.Length && 1 < h.Length
    modifies h
    ensures v == Scan(blocks, 0)
  {
    hide Hash;
    hide TableOf;
    hide CheckCrc;
    for p := 0 to h.Length
      invariant forall q | 0 <= q < p :: h[q] == HASH_UNUSED
    {
      h[p] := HASH_UNUSED;
    }
    EmptyTable(h[..], blocks);
    var same := 0;
    for j := 0 to |blocks|
      invariant TableOf(h[..], blocks, j)
      invariant same == Repeats(blocks, j) <= MAX_IDENTICAL
      invariant Scan(blocks, 0) == Scan(blocks, j)
    {
      var i, found := Probe(h, blocks, j);
      if found {
        same := same + 1;
        if same > MAX_IDENTICAL { return DosDetected; }
        var passes := CheckCrcLoop(blocks[j], blocks);
        if passes { return Detected; }
      }
      Store(h[..], blocks, j, i);
      ghost var s := h[..];
      h[i] := j;
      assert h[..] == s[i := j];
    }
    return Ok;
  }

  // ----- What the scan reports

  lemma {:induction false} RepeatsGrow(blocks: seq<Block>, j: nat, k: nat)
    requires j <= k <= |blocks|
    ensures Repeats(blocks, j) <= Repeats(blocks, k)
    decreases k - j
  {
    if j < k { RepeatsGrow(blocks, j, k - 1); }
  }

  /** A repeat that passes check_crc is among the first 32, at `j` or later. */
  ghost predicate EarlyAttack(blocks: seq<Block>, j: nat)
  {
    exists k | j <= k < |blocks| ::
      Repeat(blocks, k) && Repeats(blocks, k) < MAX_IDENTICAL && CheckCrc(blocks[k], blocks)
  }

  /** For every packet: an attack is reported exactly when one of the first 32 repeats passes;
      otherwise the packet is called clean exactly when there are no more repeats than that. */
  lemma {:induction false} ScanVerdict(blocks: seq<Block>)
    ensures Scan(blocks, 0) == if EarlyAttack(blocks, 0) then Detected
                               else if Repeats(blocks, |blocks|) > MAX_IDENTICAL then DosDetected else Ok
  {
    ScanVerdictFrom(blocks, 0);
  }

  lemma {:induction false} ScanVerdictFrom(blocks: seq<Block>, j: nat)
    requires j <= |blocks| && Repeats(blocks, j) <= MAX_IDENTICAL
    ensures Scan(blocks, j) == if EarlyAttack(blocks, j) then Detected
                               else if Repeats(blocks, |blocks|) > MAX_IDENTICAL then DosDetected else Ok
    decreases |blocks| - j
  {
    hide CheckCrc;
    if j < |blocks| {
      RepeatsGrow(blocks, j + 1, |blocks|);
      if Repeat(blocks, j) && Repeats(blocks, j) == MAX_IDENTICAL {
        forall k | j <= k < |blocks| ensures Repeats(blocks, k) >= MAX_IDENTICAL { RepeatsGrow(blocks, j, k); }
      } else {
        ScanVerdictFrom(blocks, j + 1);
        assert EarlyAttack(blocks, j) <==>
               (Repeat(blocks, j) && Repeats(blocks, j) < MAX_IDENTICAL && CheckCrc(blocks[j], blocks))
               || EarlyAttack(blocks, j + 1);
      }
    }
  }

  /** The hash table refines the pairwise comparison: on packets of every length with at most
      32 repeated blocks, both branches report an attack exactly when there is one. */
  lemma {:induction false} ScanRefinesPairwise(blocks: seq<Block>)
    requires Repeats(blocks, |blocks|) <= MAX_IDENTICAL
    ensures Scan(blocks, 0) == if Attack(blocks) then Detected else Ok
  {
    hide CheckCrc;
    ScanVerdict(blocks);
    forall k | 0 <= k < |blocks| && Repeat(blocks, k) ensures Repeats(blocks, k) < MAX_IDENTICAL {
      RepeatsGrow(blocks, k + 1, |blocks|);
    }
  }

  // ----- The context

  /** HASH_FACTOR. */
  function Factor(x: nat): nat { x * 3 / 2 }

  predicate TableSize(n: nat) { n == 4096 || n == 16384 || n == 65536 }

  predicate Malformed(buf: Octets) { |buf| > MAXBLOCKS * BLOCKSIZE || |buf| % BLOCKSIZE != 0 }

  /** What detect_attack is for: both branches as one function of the packet. */
  function Detect(buf: Octets): Verdict
  {
    if Malformed(buf) then Error
    else if |buf| <= HASH_MINBLOCKS then (if Attack(Blocks(buf)) then Detected else Ok)
    else Scan(Blocks(buf), 0)
  }

  class DeattackCtx {
    var h: array?<U16>
    var n: nat

    ghost predicate Valid()
      reads this
    {
      TableSize(n) && (h != null ==> h.Length == n)
    }

    /** The table must be allocated, or grown, for a packet of `len` bytes. */
    ghost predicate MustAllocate(len: nat)
      reads this
    {
      h == null || n < Factor(len / BLOCKSIZE)
    }

    /** deattack_init. */
    constructor ()
      ensures Valid() && h == null && n == HASH_MINENTRIES
    {
      h, n := null, HASH_MINENTRIES;
    }

    /** The size loop and the allocation. */
    method Grow(len: nat, allocates: bool) returns (ok: bool)
      requires Valid() && len <= MAXBLOCKS * BLOCKSIZE
      modifies this
      ensures Valid() && ok == (allocates || !old(MustAllocate(len)))
      ensures ok ==> h != null && (h == old(h) || fresh(h)) && n >= old(n) && n >= Factor(len / BLOCKSIZE)
      ensures !ok ==> h == null && n == old(n)
    {
      var l := n;
      while l < Factor(len / BLOCKSIZE)
        invariant TableSize(l) && l >= n && (l > n ==> n < Factor(len / BLOCKSIZE))
        decreases 65536 - l
      {
        l := l * 4;
      }
      ok := true;
      if h == null || l > n {
        if allocates {
          h := new U16[l];
          n := l;
        } else {
          h := null;
          ok := false;
        }
      }
    }

    /** detect_attack; `allocates` says whether an allocation, if needed, succeeds.  The verdict
        never depends on what earlier packets left in the table. */
    method DetectAttack(buf: Octets, allocates: bool) returns (v: Verdict)
      requires Valid()
      modifies this, h
      ensures Valid()
      ensures v == if old(MustAllocate(|buf|)) && !allocates then Error else Detect(buf)
    {
      hide CheckCrc;
      if |buf| > MAXBLOCKS * BLOCKSIZE || |buf| % BLOCKSIZE != 0 { return Error; }
      var ok := Grow(|buf|, allocates);
      if !ok { return Error; }
      if |buf| <= HASH_MINBLOCKS {
        v := PairwiseScan(Blocks(buf));
      } else {
        v := HashScan(h, Blocks(buf));
      }
    }
  }
}
