/** ssh/crc32.c: the table-driven CRC, against division bit by bit. */
module Crc32 {
  type Octets = seq<bv8>

  // ----- Division bit by bit

  /** Addition of polynomials over the field of two elements. */
  function Plus(x: bv32, y: bv32): bv32 { x ^ y }

  function Widen(b: bv8): bv32 { b as bv32 }

  /** One step of the division by the reflected polynomial. */
  function Shift(x: bv32): bv32 { if x & 1 == 1 then (x >> 1) ^ 0xEDB88320 else x >> 1 }

  function Shift4(x: bv32): bv32 { Shift(Shift(Shift(Shift(x)))) }

  /** The eight steps for one byte. */
  function Shift8(x: bv32): bv32 { Shift4(Shift4(x)) }

  /** The remainder after more bytes, starting from `crc`. */
  function Divide(crc: bv32, buf: Octets): bv32
    decreases |buf|
  {
    if buf == [] then crc else Divide(Shift8(Plus(crc, Widen(buf[0]))), buf[1..])
  }

  // ----- crc32tab, sixteen entries to a row

  function Row0(lo: bv32): bv32
  {
    if lo == 0 then 0x00000000 else if lo == 1 then 0x77073096 else if lo == 2 then 0xee0e612c else
    if lo == 3 then 0x990951ba else if lo == 4 then 0x076dc419 else if lo == 5 then 0x706af48f else
    if lo == 6 then 0xe963a535 else if lo == 7 then 0x9e6495a3 else if lo == 8 then 0x0edb8832 else
    if lo == 9 then 0x79dcb8a4 else if lo == 10 then 0xe0d5e91e else if lo == 11 then 0x97d2d988 else
    if lo == 12 then 0x09b64c2b else if lo == 13 then 0x7eb17cbd else if lo == 14 then 0xe7b82d07 else
    0x90bf1d91
  }

  function Row1(lo: bv32): bv32
  {
    if lo == 0 then 0x1db71064 else if lo == 1 then 0x6ab020f2 else if lo == 2 then 0xf3b97148 else
    if lo == 3 then 0x84be41de else if lo == 4 then 0x1adad47d else if lo == 5 then 0x6ddde4eb else
    if lo == 6 then 0xf4d4b551 else if lo == 7 then 0x83d385c7 else if lo == 8 then 0x136c9856 else
    if lo == 9 then 0x646ba8c0 else if lo == 10 then 0xfd62f97a else if lo == 11 then 0x8a65c9ec else
    if lo == 12 then 0x14015c4f else if lo == 13 then 0x63066cd9 else if lo == 14 then 0xfa0f3d63 else
    0x8d080df5
  }

  function Row2(lo: bv32): bv32
  {
    if lo == 0 then 0x3b6e20c8 else if lo == 1 then 0x4c69105e else if lo == 2 then 0xd56041e4 else
    if lo == 3 then 0xa2677172 else if lo == 4 then 0x3c03e4d1 else if lo == 5 then 0x4b04d447 else
    if lo == 6 then 0xd20d85fd else if lo == 7 then 0xa50ab56b else if lo == 8 then 0x35b5a8fa else
    if lo == 9 then 0x42b2986c else if lo == 10 then 0xdbbbc9d6 else if lo == 11 then 0xacbcf940 else
    if lo == 12 then 0x32d86ce3 else if lo == 13 then 0x45df5c75 else if lo == 14 then 0xdcd60dcf else
    0xabd13d59
  }

  function Row3(lo: bv32): bv32
  {
    if lo == 0 then 0x26d930ac else if lo == 1 then 0x51de003a else if lo == 2 then 0xc8d75180 else
    if lo == 3 then 0xbfd06116 else if lo == 4 then 0x21b4f4b5 else if lo == 5 then 0x56b3c423 else
    if lo == 6 then 0xcfba9599 else if lo == 7 then 0xb8bda50f else if lo == 8 then 0x2802b89e else
    if lo == 9 then 0x5f058808 else if lo == 10 then 0xc60cd9b2 else if lo == 11 then 0xb10be924 else
    if lo == 12 then 0x2f6f7c87 else if lo == 13 then 0x58684c11 else if lo == 14 then 0xc1611dab else
    0xb6662d3d
  }

  function Row4(lo: bv32): bv32
  {
    if lo == 0 then 0x76dc4190 else if lo == 1 then 0x01db7106 else if lo == 2 then 0x98d220bc else
    if lo == 3 then 0xefd5102a else if lo == 4 then 0x71b18589 else if lo == 5 then 0x06b6b51f else
    if lo == 6 then 0x9fbfe4a5 else if lo == 7 then 0xe8b8d433 else if lo == 8 then 0x7807c9a2 else
    if lo == 9 then 0x0f00f934 else if lo == 10 then 0x9609a88e else if lo == 11 then 0xe10e9818 else
    if lo == 12 then 0x7f6a0dbb else if lo == 13 then 0x086d3d2d else if lo == 14 then 0x91646c97 else
    0xe6635c01
  }

  function Row5(lo: bv32): bv32
  {
    if lo == 0 then 0x6b6b51f4 else if lo == 1 then 0x1c6c6162 else if lo == 2 then 0x856530d8 else
    if lo == 3 then 0xf262004e else if lo == 4 then 0x6c0695ed else if lo == 5 then 0x1b01a57b else
    if lo == 6 then 0x8208f4c1 else if lo == 7 then 0xf50fc457 else if lo == 8 then 0x65b0d9c6 else
    if lo == 9 then 0x12b7e950 else if lo == 10 then 0x8bbeb8ea else if lo == 11 then 0xfcb9887c else
    if lo == 12 then 0x62dd1ddf else if lo == 13 then 0x15da2d49 else if lo == 14 then 0x8cd37cf3 else
    0xfbd44c65
  }

  function Row6(lo: bv32): bv32
  {
    if lo == 0 then 0x4db26158 else if lo == 1 then 0x3ab551ce else if lo == 2 then 0xa3bc0074 else
    if lo == 3 then 0xd4bb30e2 else if lo == 4 then 0x4adfa541 else if lo == 5 then 0x3dd895d7 else
    if lo == 6 then 0xa4d1c46d else if lo == 7 then 0xd3d6f4fb else if lo == 8 then 0x4369e96a else
    if lo == 9 then 0x346ed9fc else if lo == 10 then 0xad678846 else if lo == 11 then 0xda60b8d0 else
    if lo == 12 then 0x44042d73 else if lo == 13 then 0x33031de5 else if lo == 14 then 0xaa0a4c5f else
    0xdd0d7cc9
  }

  function Row7(lo: bv32): bv32
  {
    if lo == 0 then 0x5005713c else if lo == 1 then 0x270241aa else if lo == 2 then 0xbe0b1010 else
    if lo == 3 then 0xc90c2086 else if lo == 4 then 0x5768b525 else if lo == 5 then 0x206f85b3 else
    if lo == 6 then 0xb966d409 else if lo == 7 then 0xce61e49f else if lo == 8 then 0x5edef90e else
    if lo == 9 then 0x29d9c998 else if lo == 10 then 0xb0d09822 else if lo == 11 then 0xc7d7a8b4 else
    if lo == 12 then 0x59b33d17 else if lo == 13 then 0x2eb40d81 else if lo == 14 then 0xb7bd5c3b else
    0xc0ba6cad
  }

  function Row8(lo: bv32): bv32
  {
    if lo == 0 then 0xedb88320 else if lo == 1 then 0x9abfb3b6 else if lo == 2 then 0x03b6e20c else
    if lo == 3 then 0x74b1d29a else if lo == 4 then 0xead54739 else if lo == 5 then 0x9dd277af else
    if lo == 6 then 0x04db2615 else if lo == 7 then 0x73dc1683 else if lo == 8 then 0xe3630b12 else
    if lo == 9 then 0x94643b84 else if lo == 10 then 0x0d6d6a3e else if lo == 11 then 0x7a6a5aa8 else
    if lo == 12 then 0xe40ecf0b else if lo == 13 then 0x9309ff9d else if lo == 14 then 0x0a00ae27 else
    0x7d079eb1
  }

  function Row9(lo: bv32): bv32
  {
    if lo == 0 then 0xf00f9344 else if lo == 1 then 0x8708a3d2 else if lo == 2 then 0x1e01f268 else
    if lo == 3 then 0x6906c2fe else if lo == 4 then 0xf762575d else if lo == 5 then 0x806567cb else
    if lo == 6 then 0x196c3671 else if lo == 7 then 0x6e6b06e7 else if lo == 8 then 0xfed41b76 else
    if lo == 9 then 0x89d32be0 else if lo == 10 then 0x10da7a5a else if lo == 11 then 0x67dd4acc else
    if lo == 12 then 0xf9b9df6f else if lo == 13 then 0x8ebeeff9 else if lo == 14 then 0x17b7be43 else
    0x60b08ed5
  }

  function RowA(lo: bv32): bv32
  {
    if lo == 0 then 0xd6d6a3e8 else if lo == 1 then 0xa1d1937e else if lo == 2 then 0x38d8c2c4 else
    if lo == 3 then 0x4fdff252 else if lo == 4 then 0xd1bb67f1 else if lo == 5 then 0xa6bc5767 else
    if lo == 6 then 0x3fb506dd else if lo == 7 then 0x48b2364b else if lo == 8 then 0xd80d2bda else
    if lo == 9 then 0xaf0a1b4c else if lo == 10 then 0x36034af6 else if lo == 11 then 0x41047a60 else
    if lo == 12 then 0xdf60efc3 else if lo == 13 then 0xa867df55 else if lo == 14 then 0x316e8eef else
    0x4669be79
  }

  function RowB(lo: bv32): bv32
  {
    if lo == 0 then 0xcb61b38c else if lo == 1 then 0xbc66831a else if lo == 2 then 0x256fd2a0 else
    if lo == 3 then 0x5268e236 else if lo == 4 then 0xcc0c7795 else if lo == 5 then 0xbb0b4703 else
    if lo == 6 then 0x220216b9 else if lo == 7 then 0x5505262f else if lo == 8 then 0xc5ba3bbe else
    if lo == 9 then 0xb2bd0b28 else if lo == 10 then 0x2bb45a92 else if lo == 11 then 0x5cb36a04 else
    if lo == 12 then 0xc2d7ffa7 else if lo == 13 then 0xb5d0cf31 else if lo == 14 then 0x2cd99e8b else
    0x5bdeae1d
  }

  function RowC(lo: bv32): bv32
  {
    if lo == 0 then 0x9b64c2b0 else if lo == 1 then 0xec63f226 else if lo == 2 then 0x756aa39c else
    if lo == 3 then 0x026d930a else if lo == 4 then 0x9c0906a9 else if lo == 5 then 0xeb0e363f else
    if lo == 6 then 0x72076785 else if lo == 7 then 0x05005713 else if lo == 8 then 0x95bf4a82 else
    if lo == 9 then 0xe2b87a14 else if lo == 10 then 0x7bb12bae else if lo == 11 then 0x0cb61b38 else
    if lo == 12 then 0x92d28e9b else if lo == 13 then 0xe5d5be0d else if lo == 14 then 0x7cdcefb7 else
    0x0bdbdf21
  }

  function RowD(lo: bv32): bv32
  {
    if lo == 0 then 0x86d3d2d4 else if lo == 1 then 0xf1d4e242 else if lo == 2 then 0x68ddb3f8 else
    if lo == 3 then 0x1fda836e else if lo == 4 then 0x81be16cd else if lo == 5 then 0xf6b9265b else
    if lo == 6 then 0x6fb077e1 else if lo == 7 then 0x18b74777 else if lo == 8 then 0x88085ae6 else
    if lo == 9 then 0xff0f6a70 else if lo == 10 then 0x66063bca else if lo == 11 then 0x11010b5c else
    if lo == 12 then 0x8f659eff else if lo == 13 then 0xf862ae69 else if lo == 14 then 0x616bffd3 else
    0x166ccf45
  }

  function RowE(lo: bv32): bv32
  {
    if lo == 0 then 0xa00ae278 else if lo == 1 then 0xd70dd2ee else if lo == 2 then 0x4e048354 else
    if lo == 3 then 0x3903b3c2 else if lo == 4 then 0xa7672661 else if lo == 5 then 0xd06016f7 else
    if lo == 6 then 0x4969474d else if lo == 7 then 0x3e6e77db else if lo == 8 then 0xaed16a4a else
    if lo == 9 then 0xd9d65adc else if lo == 10 then 0x40df0b66 else if lo == 11 then 0x37d83bf0 else
    if lo == 12 then 0xa9bcae53 else if lo == 13 then 0xdebb9ec5 else if lo == 14 then 0x47b2cf7f else
    0x30b5ffe9
  }

  function RowF(lo: bv32): bv32
  {
    if lo == 0 then 0xbdbdf21c else if lo == 1 then 0xcabac28a else if lo == 2 then 0x53b39330 else
    if lo == 3 then 0x24b4a3a6 else if lo == 4 then 0xbad03605 else if lo == 5 then 0xcdd70693 else
    if lo == 6 then 0x54de5729 else if lo == 7 then 0x23d967bf else if lo == 8 then 0xb3667a2e else
    if lo == 9 then 0xc4614ab8 else if lo == 10 then 0x5d681b02 else if lo == 11 then 0x2a6f2b94 else
    if lo == 12 then 0xb40bbe37 else if lo == 13 then 0xc30c8ea1 else if lo == 14 then 0x5a05df1b else
    0x2d02ef8d
  }

  /** crc32tab[i]. */
  function Table(i: bv32): bv32
    requires i < 256
  {
    var hi, lo := i & 0xF0, i & 0xF;
    if hi == 0x00 then Row0(lo)
    else if hi == 0x10 then Row1(lo)
    else if hi == 0x20 then Row2(lo)
    else if hi == 0x30 then Row3(lo)
    else if hi == 0x40 then Row4(lo)
    else if hi == 0x50 then Row5(lo)
    else if hi == 0x60 then Row6(lo)
    else if hi == 0x70 then Row7(lo)
    else if hi == 0x80 then Row8(lo)
    else if hi == 0x90 then Row9(lo)
    else if hi == 0xA0 then RowA(lo)
    else if hi == 0xB0 then RowB(lo)
    else if hi == 0xC0 then RowC(lo)
    else if hi == 0xD0 then RowD(lo)
    else if hi == 0xE0 then RowE(lo)
    else RowF(lo)
  }

  lemma Row0IsShift8(lo: bv32) requires lo < 16 ensures Row0(lo) == Shift8(0x00 | lo) {}
  lemma Row1IsShift8(lo: bv32) requires lo < 16 ensures Row1(lo) == Shift8(0x10 | lo) {}
  lemma Row2IsShift8(lo: bv32) requires lo < 16 ensures Row2(lo) == Shift8(0x20 | lo) {}
  lemma Row3IsShift8(lo: bv32) requires lo < 16 ensures Row3(lo) == Shift8(0x30 | lo) {}
  lemma Row4IsShift8(lo: bv32) requires lo < 16 ensures Row4(lo) == Shift8(0x40 | lo) {}
  lemma Row5IsShift8(lo: bv32) requires lo < 16 ensures Row5(lo) == Shift8(0x50 | lo) {}
  lemma Row6IsShift8(lo: bv32) requires lo < 16 ensures Row6(lo) == Shift8(0x60 | lo) {}
  lemma Row7IsShift8(lo: bv32) requires lo < 16 ensures Row7(lo) == Shift8(0x70 | lo) {}
  lemma Row8IsShift8(lo: bv32) requires lo < 16 ensures Row8(lo) == Shift8(0x80 | lo) {}
  lemma Row9IsShift8(lo: bv32) requires lo < 16 ensures Row9(lo) == Shift8(0x90 | lo) {}
  lemma RowAIsShift8(lo: bv32) requires lo < 16 ensures RowA(lo) == Shift8(0xA0 | lo) {}
  lemma RowBIsShift8(lo: bv32) requires lo < 16 ensures RowB(lo) == Shift8(0xB0 | lo) {}
  lemma RowCIsShift8(lo: bv32) requires lo < 16 ensures RowC(lo) == Shift8(0xC0 | lo) {}
  lemma RowDIsShift8(lo: bv32) requires lo < 16 ensures RowD(lo) == Shift8(0xD0 | lo) {}
  lemma RowEIsShift8(lo: bv32) requires lo < 16 ensures RowE(lo) == Shift8(0xE0 | lo) {}
  lemma RowFIsShift8(lo: bv32) requires lo < 16 ensures RowF(lo) == Shift8(0xF0 | lo) {}

  /** Every entry of the table is the division of its index. */
  lemma TableIsShift8(i: bv32)
    requires i < 256
    ensures Table(i) == Shift8(i)
  {
    var hi, lo := i & 0xF0, i & 0xF;
    assert i == hi | lo && lo < 16;
    if {
      case hi == 0x00 => Row0IsShift8(lo);
      case hi == 0x10 => Row1IsShift8(lo);
      case hi == 0x20 => Row2IsShift8(lo);
      case hi == 0x30 => Row3IsShift8(lo);
      case hi == 0x40 => Row4IsShift8(lo);
      case hi == 0x50 => Row5IsShift8(lo);
      case hi == 0x60 => Row6IsShift8(lo);
      case hi == 0x70 => Row7IsShift8(lo);
      case hi == 0x80 => Row8IsShift8(lo);
      case hi == 0x90 => Row9IsShift8(lo);
      case hi == 0xA0 => RowAIsShift8(lo);
      case hi == 0xB0 => RowBIsShift8(lo);
      case hi == 0xC0 => RowCIsShift8(lo);
      case hi == 0xD0 => RowDIsShift8(lo);
      case hi == 0xE0 => RowEIsShift8(lo);
      case hi == 0xF0 => RowFIsShift8(lo);
    }
  }

  // ----- ssh_crc32

  /** The loop body of ssh_crc32. */
  function TableStep(crc: bv32, b: bv8): bv32 { Plus(Table(Plus(crc, Widen(b)) & 0xFF), crc >> 8) }

  method SshCrc32(buf: Octets) returns (crc: bv32)
    ensures crc == Divide(0, buf)
  {
    hide TableStep;
    hide Shift8;
    hide Plus;
    crc := 0;
    for i := 0 to |buf|
      invariant Divide(crc, buf[i..]) == Divide(0, buf)
    {
      StepDivides(crc, buf[i]);
      assert buf[i..][1..] == buf[i + 1..];
      crc := TableStep(crc, buf[i]);
    }
  }

  /** One table step is eight steps of the division. */
  lemma StepDivides(crc: bv32, b: bv8)
    ensures TableStep(crc, b) == Shift8(Plus(crc, Widen(b)))
  {
    hide Table;
    hide Shift8;
    hide Plus;
    TableIsShift8(Plus(crc, Widen(b)) & 0xFF);
    Shift8Split(Plus(crc, Widen(b)));
    SameTop(crc, b);
  }

  lemma SameTop(crc: bv32, b: bv8)
    ensures crc >> 8 == Plus(crc, Widen(b)) >> 8
  {
  }

  lemma ShiftLinear(x: bv32, y: bv32)
    ensures Shift(Plus(x, y)) == Plus(Shift(x), Shift(y))
  {
    hide Shift;
    if x & 1 == 1 {
      if y & 1 == 1 { OddOdd(x, y); } else { OddEven(x, y); }
    } else {
      if y & 1 == 1 { EvenOdd(x, y); } else { EvenEven(x, y); }
    }
  }

  lemma OddOdd(x: bv32, y: bv32)
    requires x & 1 == 1 && y & 1 == 1
    ensures Shift(x ^ y) == Shift(x) ^ Shift(y)
  {
    assert (x ^ y) & 1 == 0;
  }

  lemma OddEven(x: bv32, y: bv32)
    requires x & 1 == 1 && y & 1 != 1
    ensures Shift(x ^ y) == Shift(x) ^ Shift(y)
  {
    assert (x ^ y) & 1 == 1;
  }

  lemma EvenOdd(x: bv32, y: bv32)
    requires x & 1 != 1 && y & 1 == 1
    ensures Shift(x ^ y) == Shift(x) ^ Shift(y)
  {
    assert (x ^ y) & 1 == 1;
  }

  lemma EvenEven(x: bv32, y: bv32)
    requires x & 1 != 1 && y & 1 != 1
    ensures Shift(x ^ y) == Shift(x) ^ Shift(y)
  {
    assert (x ^ y) & 1 == 0;
  }

  lemma Shift4Linear(x: bv32, y: bv32)
    ensures Shift4(Plus(x, y)) == Plus(Shift4(x), Shift4(y))
  {
    hide Shift;
    hide Plus;
    ShiftLinear(x, y);
    ShiftLinear(Shift(x), Shift(y));
    ShiftLinear(Shift(Shift(x)), Shift(Shift(y)));
    ShiftLinear(Shift(Shift(Shift(x))), Shift(Shift(Shift(y))));
  }

  lemma Shift8Linear(x: bv32, y: bv32)
    ensures Shift8(Plus(x, y)) == Plus(Shift8(x), Shift8(y))
  {
    hide Shift4;
    hide Plus;
    Shift4Linear(x, y);
    Shift4Linear(Shift4(x), Shift4(y));
  }

  function Top(x: bv32): bv32 { x & 0xFFFF_FF00 }

  lemma TopAndLow(x: bv32)
    ensures x == Plus(x & 0xFF, Top(x))
  {
  }

  lemma Shift8Even(x: bv32)
    ensures Shift8(Top(x)) == x >> 8
  {
  }

  lemma Shift8Split(x: bv32)
    ensures Shift8(x) == Plus(Shift8(x & 0xFF), x >> 8)
  {
    hide Shift8;
    hide Plus;
    hide Top;
    TopAndLow(x);
    Shift8Even(x);
    Shift8Linear(x & 0xFF, Top(x));
  }

  // ----- Linearity

  function Xor(a: Octets, b: Octets): Octets
    requires |a| == |b|
  {
    seq(|a|, i requires 0 <= i < |a| => a[i] ^ b[i])
  }

  /** The CRC of the exclusive or of two buffers is the exclusive or of their CRCs. */
  lemma {:induction false} DivideLinear(c: bv32, d: bv32, a: Octets, b: Octets)
    requires |a| == |b|
    ensures Divide(Plus(c, d), Xor(a, b)) == Plus(Divide(c, a), Divide(d, b))
    decreases |a|
  {
    hide Shift8;
    hide Plus;
    hide Widen;
    if a != [] {
      assert Xor(a, b)[1..] == Xor(a[1..], b[1..]);
      ByteLinear(c, d, a[0], b[0]);
      DivideLinear(Shift8(Plus(c, Widen(a[0]))), Shift8(Plus(d, Widen(b[0]))), a[1..], b[1..]);
    }
  }

  lemma ByteLinear(c: bv32, d: bv32, x: bv8, y: bv8)
    ensures Shift8(Plus(Plus(c, d), Widen(x ^ y))) == Plus(Shift8(Plus(c, Widen(x))), Shift8(Plus(d, Widen(y))))
  {
    hide Shift8;
    hide Plus;
    hide Widen;
    XorByte(c, d, x, y);
    Shift8Linear(Plus(c, Widen(x)), Plus(d, Widen(y)));
  }

  lemma XorByte(c: bv32, d: bv32, x: bv8, y: bv8)
    ensures Plus(Plus(c, d), Widen(x ^ y)) == Plus(Plus(c, Widen(x)), Plus(d, Widen(y)))
  {
  }

  /** The division can be undone: only zero leads to zero. */
  lemma Shift8Zero(x: bv32)
    ensures Shift8(x) == 0 <==> x == 0
  {
    hide Shift4;
    Shift4Zero(x);
    Shift4Zero(Shift4(x));
  }

  lemma Shift4Zero(x: bv32)
    ensures Shift4(x) == 0 <==> x == 0
  {
    hide Shift;
    ShiftZero(x);
    ShiftZero(Shift(x));
    ShiftZero(Shift(Shift(x)));
    ShiftZero(Shift(Shift(Shift(x))));
  }

  lemma ShiftZero(x: bv32)
    ensures Shift(x) == 0 <==> x == 0
  {
  }
}
