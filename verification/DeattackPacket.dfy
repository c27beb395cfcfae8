/** A packet for which the hash-table scan of ssh/deattack.c overlooks a block that passes. */
module DeattackPacket {
  import opened Crc32
  import opened Deattack

  /** Two calls of crc_update with nothing new: 64 steps of the division. */
  function Shift64(x: bv32): bv32 { Shift32(Shift32(x)) }

  lemma MaskStepIsShift64(crc: bv32, m: bool)
    ensures MaskStep(crc, m) == Shift64(Plus(crc, Bit(m)))
  {
    hide Update;
    hide Shift32;
    UpdateIsShift32(crc, Bit(m));
    UpdateIsShift32(Update(crc, Bit(m)), 0);
    PlusCommutes(crc, Bit(m));
    PlusZero(Update(crc, Bit(m)));
  }

  lemma PlusZero(x: bv32)
    ensures Plus(0, x) == x
  {
  }

  /** Three positions at a time. */
  datatype Triple = Triple(a: bool, b: bool, c: bool)

  function Three(crc: bv32, t: Triple): bv32
  {
    Shift64(Plus(Shift64(Plus(Shift64(Plus(crc, Bit(t.a))), Bit(t.b))), Bit(t.c)))
  }

  lemma {:induction false} MaskOne(crc: bv32, a: bool, rest: seq<bool>)
    ensures MaskCrc(crc, [a] + rest) == MaskCrc(MaskStep(crc, a), rest)
  {
    hide MaskStep;
    assert ([a] + rest)[1..] == rest;
  }

  lemma {:induction false} MaskThree(crc: bv32, t: Triple, rest: seq<bool>)
    ensures MaskCrc(crc, [t.a, t.b, t.c] + rest) == MaskCrc(Three(crc, t), rest)
  {
    hide MaskStep;
    hide Shift64;
    hide Plus;
    var s1 := MaskStep(crc, t.a);
    var s2 := MaskStep(s1, t.b);
    MaskStepIsShift64(crc, t.a);
    MaskStepIsShift64(s1, t.b);
    MaskStepIsShift64(s2, t.c);
    MaskOne(crc, t.a, [t.b, t.c] + rest);
    MaskOne(s1, t.b, [t.c] + rest);
    MaskOne(s2, t.c, rest);
    assert [t.a, t.b, t.c] + rest == [t.a] + ([t.b, t.c] + rest) && [t.b, t.c] + rest == [t.b] + ([t.c] + rest);
  }

  function Part(t: Triple, i: nat): bool { if i == 0 then t.a else if i == 1 then t.b else t.c }

  function Spread(ts: seq<Triple>): seq<bool>
  {
    seq(3 * |ts|, i requires 0 <= i < 3 * |ts| => Part(ts[i / 3], i % 3))
  }

  lemma SpreadFirst(ts: seq<Triple>)
    requires ts != []
    ensures Spread(ts) == [ts[0].a, ts[0].b, ts[0].c] + Spread(ts[1..])
  {
    var all, first := Spread(ts), [ts[0].a, ts[0].b, ts[0].c];
    forall i | 3 <= i < |all| ensures all[i] == (first + Spread(ts[1..]))[i] {
      assert (i - 3) / 3 == i / 3 - 1 && (i - 3) % 3 == i % 3;
    }
  }

  /** The remainders before, between and after the triples. */
  ghost predicate Chained(ts: seq<Triple>, crcs: seq<bv32>)
  {
    |crcs| == |ts| + 1 && forall k | 0 <= k < |ts| :: Three(crcs[k], ts[k]) == crcs[k + 1]
  }

  lemma {:induction false} MaskChained(ts: seq<Triple>, crcs: seq<bv32>, k: nat, rest: seq<bool>)
    requires Chained(ts, crcs) && k <= |ts|
    ensures MaskCrc(crcs[k], Spread(ts[k..]) + rest) == MaskCrc(crcs[|ts|], rest)
    decreases |ts| - k
  {
    hide Three;
    hide MaskCrc;
    hide Spread;
    if k == |ts| {
      SpreadNothing();
      assert ts[k..] == [] && [] + rest == rest;
    } else {
      var t := ts[k];
      SpreadFirst(ts[k..]);
      assert ts[k..][1..] == ts[k + 1..] && ts[k..][0] == t;
      var more := Spread(ts[k + 1..]) + rest;
      assert Spread(ts[k..]) + rest == [t.a, t.b, t.c] + more;
      MaskThree(crcs[k], t, more);
      MaskChained(ts, crcs, k + 1, rest);
    }
  }

  lemma SpreadNothing()
    ensures Spread([]) == []
  {
  }

  // ----- Positions that cancel out

  /** The coefficients of the polynomial 0x104C11DB7.  Taken 64 steps apart they leave no remainder,
      since squaring the polynomial six times over doubles its exponents as often. */
  const COEFFICIENTS: seq<Triple> := [
    Triple(true, false, false), Triple(false, false, false), Triple(true, false, false),
    Triple(true, true, false), Triple(false, false, false), Triple(false, true, false),
    Triple(false, false, true), Triple(true, true, false), Triple(true, true, false),
    Triple(true, true, false), Triple(true, true, true)]

  const REMAINDERS: seq<bv32> := [
    0, 0x81256527, 0x3DB1ECDC, 0x2F2E36B3, 0xCDFA95A8, 0xADF0C3CE,
    0x76E76E6F, 0xABFC9AE4, 0x8E8F83CB, 0xC141AD3E, 0xDAC9394D, 0]

  lemma Coefficients0()
    ensures Three(0, Triple(true, false, false)) == 0x81256527
  {
    assert Shift32(0x00000001) == 0xB8BC6765 && Shift32(0xB8BC6765) == 0xCCAA009E;
    assert Shift32(0xCCAA009E) == 0x9BA54C6F && Shift32(0x9BA54C6F) == 0xAE689191;
    assert Shift32(0xAE689191) == 0x65673B46 && Shift32(0x65673B46) == 0x81256527;
  }

  lemma Coefficients1()
    ensures Three(0x81256527, Triple(false, false, false)) == 0x3DB1ECDC
  {
    assert Shift32(0x81256527) == 0x01B5FD1D && Shift32(0x01B5FD1D) == 0xF1DA05AA;
    assert Shift32(0xF1DA05AA) == 0x9570D495 && Shift32(0x9570D495) == 0xAF449247;
    assert Shift32(0xAF449247) == 0x2A283862 && Shift32(0x2A283862) == 0x3DB1ECDC;
  }

  lemma Coefficients2()
    ensures Three(0x3DB1ECDC, Triple(true, false, false)) == 0x2F2E36B3
  {
    assert Shift32(0x3DB1ECDD) == 0xD1709B68 && Shift32(0xD1709B68) == 0xD13F1349;
    assert Shift32(0xD13F1349) == 0x5176C2E0 && Shift32(0x5176C2E0) == 0x215DBC04;
    assert Shift32(0x215DBC04) == 0x005AA364 && Shift32(0x005AA364) == 0x2F2E36B3;
  }

  lemma Coefficients3()
    ensures Three(0x2F2E36B3, Triple(true, true, false)) == 0xCDFA95A8
  {
    assert Shift32(0x2F2E36B2) == 0x374B2B46 && Shift32(0x374B2B46) == 0x21579D21;
    assert Shift32(0x21579D20) == 0xEC6A5F50 && Shift32(0xEC6A5F50) == 0x9A434B51;
    assert Shift32(0x9A434B51) == 0xC4F06C7A && Shift32(0xC4F06C7A) == 0xCDFA95A8;
  }

  lemma Coefficients4()
    ensures Three(0xCDFA95A8, Triple(false, false, false)) == 0xADF0C3CE
  {
    assert Shift32(0xCDFA95A8) == 0x7881FCCB && Shift32(0x7881FCCB) == 0x61D4B3B7;
    assert Shift32(0x61D4B3B7) == 0x985C67BF && Shift32(0x985C67BF) == 0xE0538A47;
    assert Shift32(0xE0538A47) == 0xDBFD123D && Shift32(0xDBFD123D) == 0xADF0C3CE;
  }

  lemma Coefficients5()
    ensures Three(0xADF0C3CE, Triple(false, true, false)) == 0x76E76E6F
  {
    assert Shift32(0xADF0C3CE) == 0xB9A08FC4 && Shift32(0xB9A08FC4) == 0x0FFC922D;
    assert Shift32(0x0FFC922C) == 0x3CC5CF38 && Shift32(0x3CC5CF38) == 0x368E5EBF;
    assert Shift32(0x368E5EBF) == 0x49897D2A && Shift32(0x49897D2A) == 0x76E76E6F;
  }

  lemma Coefficients6()
    ensures Three(0x76E76E6F, Triple(false, false, true)) == 0xABFC9AE4
  {
    assert Shift32(0x76E76E6F) == 0x8955B05D && Shift32(0x8955B05D) == 0xAF91BBFA;
    assert Shift32(0xAF91BBFA) == 0x0EE3E210 && Shift32(0x0EE3E210) == 0x6894DE79;
    assert Shift32(0x6894DE78) == 0x7FD8363D && Shift32(0x7FD8363D) == 0xABFC9AE4;
  }

  lemma Coefficients7()
    ensures Three(0xABFC9AE4, Triple(true, true, false)) == 0x8E8F83CB
  {
    assert Shift32(0xABFC9AE5) == 0xE82858FD && Shift32(0xE82858FD) == 0xE52F7592;
    assert Shift32(0xE52F7593) == 0x3FB3CA6B && Shift32(0x3FB3CA6B) == 0x0991B3D2;
    assert Shift32(0x0991B3D2) == 0x5AC332A4 && Shift32(0x5AC332A4) == 0x8E8F83CB;
  }

  lemma Coefficients8()
    ensures Three(0x8E8F83CB, Triple(true, true, false)) == 0xC141AD3E
  {
    assert Shift32(0x8E8F83CA) == 0x4C988118 && Shift32(0x4C988118) == 0xB3A8036E;
    assert Shift32(0xB3A8036F) == 0x55B58DDB && Shift32(0x55B58DDB) == 0x9A0B49CD;
    assert Shift32(0x9A0B49CD) == 0x08422305 && Shift32(0x08422305) == 0xC141AD3E;
  }

  lemma Coefficients9()
    ensures Three(0xC141AD3E, Triple(true, true, false)) == 0xDAC9394D
  {
    assert Shift32(0xC141AD3F) == 0x7CE9AAA6 && Shift32(0x7CE9AAA6) == 0x6AE0EBDD;
    assert Shift32(0x6AE0EBDC) == 0x3A2C42CA && Shift32(0x3A2C42CA) == 0x95D3E5D0;
    assert Shift32(0x95D3E5D0) == 0xA30D5AC5 && Shift32(0xA30D5AC5) == 0xDAC9394D;
  }

  lemma Coefficients10()
    ensures Three(0xDAC9394D, Triple(true, true, true)) == 0
  {
    assert Shift32(0xDAC9394C) == 0x86466E57 && Shift32(0x86466E57) == 0xB66B1FA7;
    assert Shift32(0xB66B1FA6) == 0xDB710641 && Shift32(0xDB710641) == 0x00000001;
    assert Shift32(0) == 0 && Shift32(0) == 0;
  }

  lemma CoefficientsChain()
    ensures Chained(COEFFICIENTS, REMAINDERS)
  {
    hide Three;
    Coefficients0();
    Coefficients1();
    Coefficients2();
    Coefficients3();
    Coefficients4();
    Coefficients5();
    Coefficients6();
    Coefficients7();
    Coefficients8();
    Coefficients9();
    Coefficients10();
  }

  /** 33 positions in a row do leave one. */
  const ONES: seq<Triple> := [
    Triple(true, true, true), Triple(true, true, true), Triple(true, true, true),
    Triple(true, true, true), Triple(true, true, true), Triple(true, true, true),
    Triple(true, true, true), Triple(true, true, true), Triple(true, true, true),
    Triple(true, true, true), Triple(true, true, true)]

  const ONES_REMAINDERS: seq<bv32> := [
    0, 0xE3E7F428, 0x80C88F19, 0xBC63E2CF, 0x2887BF01, 0x84CFA112,
    0xAEC67066, 0x0C6BBD10, 0xFAF80C49, 0x5036C656, 0x0565A7C5, 0x9B126738]

  lemma Ones0()
    ensures Three(0, Triple(true, true, true)) == 0xE3E7F428
  {
    assert Shift32(0x00000001) == 0xB8BC6765 && Shift32(0xB8BC6765) == 0xCCAA009E;
    assert Shift32(0xCCAA009F) == 0x23192B0A && Shift32(0x23192B0A) == 0x62C2910F;
    assert Shift32(0x62C2910E) == 0x467E104C && Shift32(0x467E104C) == 0xE3E7F428;
  }

  lemma Ones1()
    ensures Three(0xE3E7F428, Triple(true, true, true)) == 0x80C88F19
  {
    assert Shift32(0xE3E7F429) == 0x47CBED51 && Shift32(0x47CBED51) == 0x123DF182;
    assert Shift32(0x123DF183) == 0xD2BB39C4 && Shift32(0xD2BB39C4) == 0xBD7963C5;
    assert Shift32(0xBD7963C4) == 0xF89301A6 && Shift32(0xF89301A6) == 0x80C88F19;
  }

  lemma Ones2()
    ensures Three(0x80C88F19, Triple(true, true, true)) == 0xBC63E2CF
  {
    assert Shift32(0x80C88F18) == 0x915FFDAB && Shift32(0x915FFDAB) == 0x9D5D9CCE;
    assert Shift32(0x9D5D9CCF) == 0x5B8C7324 && Shift32(0x5B8C7324) == 0x1268B15B;
    assert Shift32(0x1268B15A) == 0x3EB1EB06 && Shift32(0x3EB1EB06) == 0xBC63E2CF;
  }

  lemma Ones3()
    ensures Three(0xBC63E2CF, Triple(true, true, true)) == 0x2887BF01
  {
    assert Shift32(0xBC63E2CE) == 0xB0F35A38 && Shift32(0xB0F35A38) == 0xA0447ADA;
    assert Shift32(0xA0447ADB) == 0xEAF0FAF7 && Shift32(0xEAF0FAF7) == 0xF78132C3;
    assert Shift32(0xF78132C2) == 0xFAEAD9C6 && Shift32(0xFAEAD9C6) == 0x2887BF01;
  }

  lemma Ones4()
    ensures Three(0x2887BF01, Triple(true, true, true)) == 0x84CFA112
  {
    assert Shift32(0x2887BF00) == 0x8F751F5B && Shift32(0x8F751F5B) == 0x24397FEC;
    assert Shift32(0x24397FED) == 0x493FDFE3 && Shift32(0x493FDFE3) == 0x15C14FD3;
    assert Shift32(0x15C14FD2) == 0x48A7B90B && Shift32(0x48A7B90B) == 0x84CFA112;
  }

  lemma Ones5()
    ensures Three(0x84CFA112, Triple(true, true, true)) == 0xAEC67066
  {
    assert Shift32(0x84CFA113) == 0x3CA1439E && Shift32(0x3CA1439E) == 0xB7305421;
    assert Shift32(0xB7305420) == 0x41C4398E && Shift32(0x41C4398E) == 0x88717C5B;
    assert Shift32(0x88717C5A) == 0x2C1C3D57 && Shift32(0x2C1C3D57) == 0xAEC67066;
  }

  lemma Ones6()
    ensures Three(0xAEC67066, Triple(true, true, true)) == 0x0C6BBD10
  {
    assert Shift32(0xAEC67067) == 0x5ECE59CD && Shift32(0x5ECE59CD) == 0x3EE0A5D7;
    assert Shift32(0x3EE0A5D6) == 0x43939789 && Shift32(0x43939789) == 0xDDB49E37;
    assert Shift32(0xDDB49E36) == 0x5A06F752 && Shift32(0x5A06F752) == 0x0C6BBD10;
  }

  lemma Ones7()
    ensures Three(0x0C6BBD10, Triple(true, true, true)) == 0xFAF80C49
  {
    assert Shift32(0x0C6BBD11) == 0xAA9CA3FE && Shift32(0xAA9CA3FE) == 0x56700D4D;
    assert Shift32(0x56700D4C) == 0x742DF9E1 && Shift32(0x742DF9E1) == 0xA39481C8;
    assert Shift32(0xA39481C9) == 0xB1406D77 && Shift32(0xB1406D77) == 0xFAF80C49;
  }

  lemma Ones8()
    ensures Three(0xFAF80C49, Triple(true, true, true)) == 0x5036C656
  {
    assert Shift32(0xFAF80C48) == 0xD6B7F901 && Shift32(0xD6B7F901) == 0xC69D60A4;
    assert Shift32(0xC69D60A5) == 0x848AB1C5 && Shift32(0x848AB1C5) == 0xAEB6BDEB;
    assert Shift32(0xAEB6BDEA) == 0xF7B54BCE && Shift32(0xF7B54BCE) == 0x5036C656;
  }

  lemma Ones9()
    ensures Three(0x5036C656, Triple(true, true, true)) == 0x0565A7C5
  {
    assert Shift32(0x5036C657) == 0x218F1D68 && Shift32(0x218F1D68) == 0x1A1E7B15;
    assert Shift32(0x1A1E7B14) == 0xAEFC81DC && Shift32(0xAEFC81DC) == 0x051257C8;
    assert Shift32(0x051257C9) == 0x6A281DE5 && Shift32(0x6A281DE5) == 0x0565A7C5;
  }

  lemma Ones10()
    ensures Three(0x0565A7C5, Triple(true, true, true)) == 0x9B126738
  {
    assert Shift32(0x0565A7C4) == 0x4DF859D9 && Shift32(0x4DF859D9) == 0xEC39B5B4;
    assert Shift32(0xEC39B5B5) == 0x4E01A1BA && Shift32(0x4E01A1BA) == 0x220AC47F;
    assert Shift32(0x220AC47E) == 0x32C9405D && Shift32(0x32C9405D) == 0x9B126738;
  }

  lemma OnesChain()
    ensures Chained(ONES, ONES_REMAINDERS)
  {
    hide Three;
    Ones0();
    Ones1();
    Ones2();
    Ones3();
    Ones4();
    Ones5();
    Ones6();
    Ones7();
    Ones8();
    Ones9();
    Ones10();
  }

  // ----- The packet

  /** 33 times `a`, then `b` where the polynomial has a coefficient and `f` elsewhere. */
  function Packet(a: Block, b: Block, f: Block): seq<Block>
  {
    seq(66, i requires 0 <= i < 66 => if i < 33 then a else if Spread(COEFFICIENTS)[i - 33] then b else f)
  }

  lemma Lengths()
    ensures |Spread(COEFFICIENTS)| == |Spread(ONES)| == 33 && Spread(COEFFICIENTS)[0] && Spread(COEFFICIENTS)[6]
  {
    assert COEFFICIENTS[0].a && COEFFICIENTS[2].a;
  }

  lemma AllOnes(i: nat)
    requires i < 33
    ensures |Spread(ONES)| == 33 && Spread(ONES)[i]
  {
    assert ONES[i / 3] == Triple(true, true, true);
  }

  function Falses(n: nat): seq<bool> { seq(n, _ => false) }

  lemma MaskOfB(a: Block, b: Block, f: Block)
    requires a != b && b != f
    ensures Mask(b, Packet(a, b, f)) == Falses(33) + (Spread(COEFFICIENTS) + [])
  {
    hide Spread;
    Lengths();
  }

  lemma MaskOfA(a: Block, b: Block, f: Block)
    requires a != b && a != f
    ensures Mask(a, Packet(a, b, f)) == Spread(ONES) + Falses(33)
  {
    hide Spread;
    Lengths();
    forall i | 0 <= i < 33 ensures Spread(ONES)[i] { AllOnes(i); }
  }

  lemma {:induction false} LeadingFalses(n: nat, rest: seq<bool>)
    ensures MaskCrc(0, Falses(n) + rest) == MaskCrc(0, rest)
    decreases n
  {
    hide MaskCrc;
    hide MaskStep;
    if n == 0 {
      assert Falses(0) + rest == rest;
    } else {
      assert Falses(n) + rest == [false] + (Falses(n - 1) + rest);
      MaskOne(0, false, Falses(n - 1) + rest);
      NoStep();
      LeadingFalses(n - 1, rest);
    }
  }

  lemma NoStep()
    ensures MaskStep(0, false) == 0
  {
    hide Update;
    UpdateZero(0);
  }

  /** `b` passes check_crc and `a` does not. */
  lemma OnlyBPasses(a: Block, b: Block, f: Block)
    requires a != b && b != f && a != f
    ensures CheckCrc(b, Packet(a, b, f)) && !CheckCrc(a, Packet(a, b, f))
  {
    hide Spread;
    hide MaskCrc;
    hide Chained;
    MaskOfB(a, b, f);
    LeadingFalses(33, Spread(COEFFICIENTS) + []);
    CoefficientsChain();
    MaskChained(COEFFICIENTS, REMAINDERS, 0, []);
    assert COEFFICIENTS[0..] == COEFFICIENTS && REMAINDERS[0] == REMAINDERS[11] == 0;
    NothingLeft();
    MaskOfA(a, b, f);
    OnesChain();
    MaskChained(ONES, ONES_REMAINDERS, 0, Falses(33));
    assert ONES[0..] == ONES && ONES_REMAINDERS[0] == 0 && ONES_REMAINDERS[11] != 0;
    MaskCrcKeepsNonzero(ONES_REMAINDERS[11], Falses(33));
  }

  lemma NothingLeft()
    ensures MaskCrc(0, []) == 0
  {
  }

  lemma {:induction false} RepeatsOfA(a: Block, b: Block, f: Block, j: nat)
    requires 0 < j <= 33
    ensures Repeats(Packet(a, b, f), j) == j - 1
  {
    var blocks := Packet(a, b, f);
    if j == 1 {
      assert Repeats(blocks, 0) == 0 && !Repeat(blocks, 0);
    } else {
      RepeatsOfA(a, b, f, j - 1);
      assert blocks[0] == blocks[j - 1];
    }
  }

  /** Whatever the three blocks: the packet holds an attack, and the scan reports too many repeats
      instead. */
  lemma AttackIsOverlooked(a: Block, b: Block, f: Block)
    requires a != b && b != f && a != f
    ensures Attack(Packet(a, b, f)) && Scan(Packet(a, b, f), 0) == DosDetected
  {
    hide CheckCrc;
    hide Spread;
    var blocks := Packet(a, b, f);
    Lengths();
    OnlyBPasses(a, b, f);
    RepeatsOfA(a, b, f, 33);
    assert blocks[33] == blocks[39] == b;
    assert Repeat(blocks, 39);
    RepeatsGrow(blocks, 33, 39);
    RepeatsGrow(blocks, 40, 66);
    ScanVerdict(blocks);
    forall k | 0 <= k < 66 && Repeats(blocks, k) < MAX_IDENTICAL ensures blocks[k] == a {
      if k >= 33 { RepeatsGrow(blocks, 33, k); assert false; }
    }
  }

  // ----- As bytes

  function Flat(blocks: seq<Block>): Octets
  {
    seq(BLOCKSIZE * |blocks|, i requires 0 <= i < BLOCKSIZE * |blocks| => blocks[i / BLOCKSIZE][i % BLOCKSIZE])
  }

  lemma BlocksOfFlat(blocks: seq<Block>)
    ensures Blocks(Flat(blocks)) == blocks
  {
    forall j | 0 <= j < |blocks| ensures Flat(blocks)[BLOCKSIZE * j..BLOCKSIZE * j + BLOCKSIZE] == blocks[j] {
      var part := Flat(blocks)[BLOCKSIZE * j..BLOCKSIZE * j + BLOCKSIZE];
      forall i | 0 <= i < BLOCKSIZE ensures part[i] == blocks[j][i] {
        assert (BLOCKSIZE * j + i) / BLOCKSIZE == j && (BLOCKSIZE * j + i) % BLOCKSIZE == i;
      }
    }
  }

  /** So detect_attack returns DEATTACK_DOS_DETECTED for a packet with an attack. */
  lemma DetectOverlooks(a: Block, b: Block, f: Block)
    requires a != b && b != f && a != f
    ensures var buf := Flat(Packet(a, b, f)); Attack(Blocks(buf)) && Detect(buf) == DosDetected
  {
    hide Attack;
    hide Scan;
    BlocksOfFlat(Packet(a, b, f));
    AttackIsOverlooked(a, b, f);
  }
}
