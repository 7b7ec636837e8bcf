/** The table-driven checksum of a byte vector (taglib_mod/toolkit/tbytevector.cpp, `checksum`)
    against polynomial long division over the bits of the message, which is how section 6 of RFC 3533
    defines the CRC of an Ogg page. */
module Checksums {
  import opened Bytes

  type Word = bv32

  /** The generator x^32 + x^26 + ... + 1 without its leading term. */
  const GENERATOR: Word := 0x04c11db7

  const TOP_BIT: Word := 0x8000_0000

  function Xor(a: Word, b: Word): Word {
    a ^ b
  }

  /** What is subtracted when the register's term of degree 31 moves up by one. */
  function Carry(r: Word): Word {
    if r & TOP_BIT != 0 then GENERATOR else 0
  }

  /** One step of the division: every term of the register moves up by one degree. */
  function Shift(r: Word): Word {
    (r << 1) ^ Carry(r)
  }

  function Shift8(r: Word): Word {
    Shift(Shift(Shift(Shift(Shift(Shift(Shift(Shift(r))))))))
  }

  // ----- The table, sixteen entries to a row -----

  function Row0(j: byte): Word {
    match j
    case 0 => 0x00000000 case 1 => 0x04c11db7 case 2 => 0x09823b6e case 3 => 0x0d4326d9
    case 4 => 0x130476dc case 5 => 0x17c56b6b case 6 => 0x1a864db2 case 7 => 0x1e475005
    case 8 => 0x2608edb8 case 9 => 0x22c9f00f case 10 => 0x2f8ad6d6 case 11 => 0x2b4bcb61
    case 12 => 0x350c9b64 case 13 => 0x31cd86d3 case 14 => 0x3c8ea00a case _ => 0x384fbdbd
  }

  function Row1(j: byte): Word {
    match j
    case 0 => 0x4c11db70 case 1 => 0x48d0c6c7 case 2 => 0x4593e01e case 3 => 0x4152fda9
    case 4 => 0x5f15adac case 5 => 0x5bd4b01b case 6 => 0x569796c2 case 7 => 0x52568b75
    case 8 => 0x6a1936c8 case 9 => 0x6ed82b7f case 10 => 0x639b0da6 case 11 => 0x675a1011
    case 12 => 0x791d4014 case 13 => 0x7ddc5da3 case 14 => 0x709f7b7a case _ => 0x745e66cd
  }

  function Row2(j: byte): Word {
    match j
    case 0 => 0x9823b6e0 case 1 => 0x9ce2ab57 case 2 => 0x91a18d8e case 3 => 0x95609039
    case 4 => 0x8b27c03c case 5 => 0x8fe6dd8b case 6 => 0x82a5fb52 case 7 => 0x8664e6e5
    case 8 => 0xbe2b5b58 case 9 => 0xbaea46ef case 10 => 0xb7a96036 case 11 => 0xb3687d81
    case 12 => 0xad2f2d84 case 13 => 0xa9ee3033 case 14 => 0xa4ad16ea case _ => 0xa06c0b5d
  }

  function Row3(j: byte): Word {
    match j
    case 0 => 0xd4326d90 case 1 => 0xd0f37027 case 2 => 0xddb056fe case 3 => 0xd9714b49
    case 4 => 0xc7361b4c case 5 => 0xc3f706fb case 6 => 0xceb42022 case 7 => 0xca753d95
    case 8 => 0xf23a8028 case 9 => 0xf6fb9d9f case 10 => 0xfbb8bb46 case 11 => 0xff79a6f1
    case 12 => 0xe13ef6f4 case 13 => 0xe5ffeb43 case 14 => 0xe8bccd9a case _ => 0xec7dd02d
  }

  function Row4(j: byte): Word {
    match j
    case 0 => 0x34867077 case 1 => 0x30476dc0 case 2 => 0x3d044b19 case 3 => 0x39c556ae
    case 4 => 0x278206ab case 5 => 0x23431b1c case 6 => 0x2e003dc5 case 7 => 0x2ac12072
    case 8 => 0x128e9dcf case 9 => 0x164f8078 case 10 => 0x1b0ca6a1 case 11 => 0x1fcdbb16
    case 12 => 0x018aeb13 case 13 => 0x054bf6a4 case 14 => 0x0808d07d case _ => 0x0cc9cdca
  }

  function Row5(j: byte): Word {
    match j
    case 0 => 0x7897ab07 case 1 => 0x7c56b6b0 case 2 => 0x71159069 case 3 => 0x75d48dde
    case 4 => 0x6b93dddb case 5 => 0x6f52c06c case 6 => 0x6211e6b5 case 7 => 0x66d0fb02
    case 8 => 0x5e9f46bf case 9 => 0x5a5e5b08 case 10 => 0x571d7dd1 case 11 => 0x53dc6066
    case 12 => 0x4d9b3063 case 13 => 0x495a2dd4 case 14 => 0x44190b0d case _ => 0x40d816ba
  }

  function Row6(j: byte): Word {
    match j
    case 0 => 0xaca5c697 case 1 => 0xa864db20 case 2 => 0xa527fdf9 case 3 => 0xa1e6e04e
    case 4 => 0xbfa1b04b case 5 => 0xbb60adfc case 6 => 0xb6238b25 case 7 => 0xb2e29692
    case 8 => 0x8aad2b2f case 9 => 0x8e6c3698 case 10 => 0x832f1041 case 11 => 0x87ee0df6
    case 12 => 0x99a95df3 case 13 => 0x9d684044 case 14 => 0x902b669d case _ => 0x94ea7b2a
  }

  function Row7(j: byte): Word {
    match j
    case 0 => 0xe0b41de7 case 1 => 0xe4750050 case 2 => 0xe9362689 case 3 => 0xedf73b3e
    case 4 => 0xf3b06b3b case 5 => 0xf771768c case 6 => 0xfa325055 case 7 => 0xfef34de2
    case 8 => 0xc6bcf05f case 9 => 0xc27dede8 case 10 => 0xcf3ecb31 case 11 => 0xcbffd686
    case 12 => 0xd5b88683 case 13 => 0xd1799b34 case 14 => 0xdc3abded case _ => 0xd8fba05a
  }

  function Row8(j: byte): Word {
    match j
    case 0 => 0x690ce0ee case 1 => 0x6dcdfd59 case 2 => 0x608edb80 case 3 => 0x644fc637
    case 4 => 0x7a089632 case 5 => 0x7ec98b85 case 6 => 0x738aad5c case 7 => 0x774bb0eb
    case 8 => 0x4f040d56 case 9 => 0x4bc510e1 case 10 => 0x46863638 case 11 => 0x42472b8f
    case 12 => 0x5c007b8a case 13 => 0x58c1663d case 14 => 0x558240e4 case _ => 0x51435d53
  }

  function Row9(j: byte): Word {
    match j
    case 0 => 0x251d3b9e case 1 => 0x21dc2629 case 2 => 0x2c9f00f0 case 3 => 0x285e1d47
    case 4 => 0x36194d42 case 5 => 0x32d850f5 case 6 => 0x3f9b762c case 7 => 0x3b5a6b9b
    case 8 => 0x0315d626 case 9 => 0x07d4cb91 case 10 => 0x0a97ed48 case 11 => 0x0e56f0ff
    case 12 => 0x1011a0fa case 13 => 0x14d0bd4d case 14 => 0x19939b94 case _ => 0x1d528623
  }

  function RowA(j: byte): Word {
    match j
    case 0 => 0xf12f560e case 1 => 0xf5ee4bb9 case 2 => 0xf8ad6d60 case 3 => 0xfc6c70d7
    case 4 => 0xe22b20d2 case 5 => 0xe6ea3d65 case 6 => 0xeba91bbc case 7 => 0xef68060b
    case 8 => 0xd727bbb6 case 9 => 0xd3e6a601 case 10 => 0xdea580d8 case 11 => 0xda649d6f
    case 12 => 0xc423cd6a case 13 => 0xc0e2d0dd case 14 => 0xcda1f604 case _ => 0xc960ebb3
  }

  function RowB(j: byte): Word {
    match j
    case 0 => 0xbd3e8d7e case 1 => 0xb9ff90c9 case 2 => 0xb4bcb610 case 3 => 0xb07daba7
    case 4 => 0xae3afba2 case 5 => 0xaafbe615 case 6 => 0xa7b8c0cc case 7 => 0xa379dd7b
    case 8 => 0x9b3660c6 case 9 => 0x9ff77d71 case 10 => 0x92b45ba8 case 11 => 0x9675461f
    case 12 => 0x8832161a case 13 => 0x8cf30bad case 14 => 0x81b02d74 case _ => 0x857130c3
  }

  function RowC(j: byte): Word {
    match j
    case 0 => 0x5d8a9099 case 1 => 0x594b8d2e case 2 => 0x5408abf7 case 3 => 0x50c9b640
    case 4 => 0x4e8ee645 case 5 => 0x4a4ffbf2 case 6 => 0x470cdd2b case 7 => 0x43cdc09c
    case 8 => 0x7b827d21 case 9 => 0x7f436096 case 10 => 0x7200464f case 11 => 0x76c15bf8
    case 12 => 0x68860bfd case 13 => 0x6c47164a case 14 => 0x61043093 case _ => 0x65c52d24
  }

  function RowD(j: byte): Word {
    match j
    case 0 => 0x119b4be9 case 1 => 0x155a565e case 2 => 0x18197087 case 3 => 0x1cd86d30
    case 4 => 0x029f3d35 case 5 => 0x065e2082 case 6 => 0x0b1d065b case 7 => 0x0fdc1bec
    case 8 => 0x3793a651 case 9 => 0x3352bbe6 case 10 => 0x3e119d3f case 11 => 0x3ad08088
    case 12 => 0x2497d08d case 13 => 0x2056cd3a case 14 => 0x2d15ebe3 case _ => 0x29d4f654
  }

  function RowE(j: byte): Word {
    match j
    case 0 => 0xc5a92679 case 1 => 0xc1683bce case 2 => 0xcc2b1d17 case 3 => 0xc8ea00a0
    case 4 => 0xd6ad50a5 case 5 => 0xd26c4d12 case 6 => 0xdf2f6bcb case 7 => 0xdbee767c
    case 8 => 0xe3a1cbc1 case 9 => 0xe760d676 case 10 => 0xea23f0af case 11 => 0xeee2ed18
    case 12 => 0xf0a5bd1d case 13 => 0xf464a0aa case 14 => 0xf9278673 case _ => 0xfde69bc4
  }

  function RowF(j: byte): Word {
    match j
    case 0 => 0x89b8fd09 case 1 => 0x8d79e0be case 2 => 0x803ac667 case 3 => 0x84fbdbd0
    case 4 => 0x9abc8bd5 case 5 => 0x9e7d9662 case 6 => 0x933eb0bb case 7 => 0x97ffad0c
    case 8 => 0xafb010b1 case 9 => 0xab710d06 case 10 => 0xa6322bdf case 11 => 0xa2f33668
    case 12 => 0xbcb4666d case 13 => 0xb8757bda case 14 => 0xb5365d03 case _ => 0xb1f740b4
  }

  function CrcTable(i: byte): Word {
    var j := i & 0xf;
    match i >> 4
    case 0 => Row0(j)
    case 1 => Row1(j)
    case 2 => Row2(j)
    case 3 => Row3(j)
    case 4 => Row4(j)
    case 5 => Row5(j)
    case 6 => Row6(j)
    case 7 => Row7(j)
    case 8 => Row8(j)
    case 9 => Row9(j)
    case 10 => RowA(j)
    case 11 => RowB(j)
    case 12 => RowC(j)
    case 13 => RowD(j)
    case 14 => RowE(j)
    case _ => RowF(j)
  }

  lemma Rows0To3(i: byte)
    ensures i >> 4 == 0 ==> Row0(i & 0xf) == Shift8(OnTop(i))
    ensures i >> 4 == 1 ==> Row1(i & 0xf) == Shift8(OnTop(i))
    ensures i >> 4 == 2 ==> Row2(i & 0xf) == Shift8(OnTop(i))
    ensures i >> 4 == 3 ==> Row3(i & 0xf) == Shift8(OnTop(i))
  {
  }

  lemma Rows4To7(i: byte)
    ensures i >> 4 == 4 ==> Row4(i & 0xf) == Shift8(OnTop(i))
    ensures i >> 4 == 5 ==> Row5(i & 0xf) == Shift8(OnTop(i))
    ensures i >> 4 == 6 ==> Row6(i & 0xf) == Shift8(OnTop(i))
    ensures i >> 4 == 7 ==> Row7(i & 0xf) == Shift8(OnTop(i))
  {
  }

  lemma Rows8ToB(i: byte)
    ensures i >> 4 == 8 ==> Row8(i & 0xf) == Shift8(OnTop(i))
    ensures i >> 4 == 9 ==> Row9(i & 0xf) == Shift8(OnTop(i))
    ensures i >> 4 == 10 ==> RowA(i & 0xf) == Shift8(OnTop(i))
    ensures i >> 4 == 11 ==> RowB(i & 0xf) == Shift8(OnTop(i))
  {
  }

  lemma RowsCToF(i: byte)
    ensures i >> 4 == 12 ==> RowC(i & 0xf) == Shift8(OnTop(i))
    ensures i >> 4 == 13 ==> RowD(i & 0xf) == Shift8(OnTop(i))
    ensures i >> 4 == 14 ==> RowE(i & 0xf) == Shift8(OnTop(i))
    ensures i >> 4 == 15 ==> RowF(i & 0xf) == Shift8(OnTop(i))
  {
  }

  /** Every entry of the table is what eight steps make of its index. */
  lemma TableEntry(i: byte)
    ensures CrcTable(i) == Shift8(OnTop(i))
  {
    hide Shift8;
    Rows0To3(i);
    Rows4To7(i);
    Rows8ToB(i);
    RowsCToF(i);
  }

  lemma ShiftXor(a: Word, b: Word)
    ensures (a ^ b) << 1 == (a << 1) ^ (b << 1)
  {
  }

  lemma CarryXor(a: Word, b: Word)
    ensures Carry(a ^ b) == Carry(a) ^ Carry(b)
  {
  }

  lemma XorPairs(a: Word, b: Word, x: Word, y: Word)
    ensures (a ^ b) ^ (x ^ y) == (a ^ x) ^ (b ^ y)
  {
  }

  lemma XorAssociates(a: Word, b: Word, x: Word)
    ensures Xor(Xor(a, b), x) == Xor(a, Xor(b, x))
  {
  }

  lemma XorZero(a: Word)
    ensures Xor(a, 0) == a
  {
  }

  /** Division is linear. */
  lemma ShiftIsLinear(a: Word, b: Word)
    ensures Shift(Xor(a, b)) == Xor(Shift(a), Shift(b))
  {
    hide Carry;
    ShiftXor(a, b);
    CarryXor(a, b);
    XorPairs(a << 1, b << 1, Carry(a), Carry(b));
  }

  // ----- Long division over the bits of the message -----

  function Bit(b: bool): Word {
    if b then 1 else 0
  }

  function TopBit(b: bool): Word {
    if b then TOP_BIT else 0
  }

  /** The remainder register after dividing `bits`, most significant first, starting from `r`. */
  function Divide(r: Word, bits: seq<bool>): Word
    decreases |bits|
  {
    if bits == [] then r else Divide(Xor(Shift(r), Bit(bits[0])), bits[1..])
  }

  function Zeros(n: nat): seq<bool> {
    seq(n, _ => false)
  }

  predicate IsSet(v: Word) {
    v & TOP_BIT != 0
  }

  function Up(v: Word): Word {
    v << 1
  }

  /** The top `k` bits of `v`. */
  function TopBits(v: Word, k: nat): seq<bool>
    decreases k
  {
    if k == 0 then [] else [IsSet(v)] + TopBits(Up(v), k - 1)
  }

  function UpN(v: Word, k: nat): Word
    decreases k
  {
    if k == 0 then v else UpN(Up(v), k - 1)
  }

  function WordOnTop(w: Word): Word {
    w << 24
  }

  function OnTop(b: byte): Word {
    WordOnTop(b as Word)
  }

  /** The bits of a byte, most significant first. */
  function ByteBits(b: byte): seq<bool> {
    TopBits(OnTop(b), 8)
  }

  function MessageBits(data: seq<byte>): seq<bool>
    decreases |data|
  {
    if data == [] then [] else MessageBits(data[..|data| - 1]) + ByteBits(data[|data| - 1])
  }

  /** The remainder of the message times x^32. */
  function Remainder(data: seq<byte>): Word {
    Divide(0, MessageBits(data) + Zeros(32))
  }

  lemma {:induction false} DivideConcat(r: Word, a: seq<bool>, b: seq<bool>)
    ensures Divide(r, a + b) == Divide(Divide(r, a), b)
    decreases |a|
  {
    hide Shift, Xor, Bit;
    if a == [] {
      assert a + b == b;
    } else {
      assert (a + b)[1..] == a[1..] + b;
      DivideConcat(Xor(Shift(r), Bit(a[0])), a[1..], b);
    }
  }

  /** Dividing zeros alone. */
  function ShiftN(r: Word, n: nat): Word
    decreases n
  {
    if n == 0 then r else ShiftN(Shift(r), n - 1)
  }

  lemma {:induction false} DivideZeros(r: Word, n: nat)
    ensures Divide(r, Zeros(n)) == ShiftN(r, n)
    decreases n
  {
    hide Shift, Xor;
    if n > 0 {
      assert Zeros(n)[1..] == Zeros(n - 1);
      XorZero(Shift(r));
      DivideZeros(Shift(r), n - 1);
    }
  }

  lemma {:induction false} ShiftNIsLinear(a: Word, b: Word, n: nat)
    ensures ShiftN(Xor(a, b), n) == Xor(ShiftN(a, n), ShiftN(b, n))
    decreases n
  {
    hide Shift, Xor;
    if n > 0 {
      ShiftIsLinear(a, b);
      ShiftNIsLinear(Shift(a), Shift(b), n - 1);
    }
  }

  lemma {:induction false} ShiftLast(r: Word, n: nat)
    ensures ShiftN(Shift(r), n) == Shift(ShiftN(r, n))
    decreases n
  {
    hide Shift;
    if n > 0 {
      ShiftLast(Shift(r), n - 1);
    }
  }

  lemma {:induction false} ShiftNAdds(r: Word, m: nat, n: nat)
    ensures ShiftN(r, m + n) == ShiftN(ShiftN(r, m), n)
    decreases m
  {
    hide Shift;
    if m > 0 {
      ShiftNAdds(Shift(r), m - 1, n);
    }
  }

  lemma ShiftNEight(r: Word)
    ensures ShiftN(r, 8) == Shift8(r)
  {
    hide Shift;
    assert ShiftN(r, 8) == ShiftN(Shift(Shift(r)), 6) == ShiftN(Shift(Shift(Shift(Shift(r)))), 4);
  }

  lemma UnitPowers()
    ensures Shift8(1) == 0x100 && Shift8(0x100) == 0x1_0000
    ensures Shift8(0x1_0000) == 0x100_0000 && Shift8(0x100_0000) == GENERATOR
    ensures Shift(TOP_BIT) == GENERATOR
  {
  }

  /** x^32 leaves the generator, and so does one step from the top bit. */
  lemma UnitLeavesGenerator()
    ensures ShiftN(1, 32) == Shift(TOP_BIT)
  {
    hide Shift, Shift8;
    UnitPowers();
    ShiftNEight(1);
    ShiftNEight(0x100);
    ShiftNEight(0x1_0000);
    ShiftNEight(0x100_0000);
    ShiftNAdds(1, 8, 24);
    ShiftNAdds(0x100, 8, 16);
    ShiftNAdds(0x1_0000, 8, 8);
  }

  lemma ShiftZero()
    ensures Shift(0) == 0
  {
  }

  lemma {:induction false} ZeroStays(n: nat)
    ensures ShiftN(0, n) == 0
    decreases n
  {
    hide Shift;
    ShiftZero();
    if n > 0 {
      ZeroStays(n - 1);
    }
  }

  lemma BitMovesUp(b: bool)
    ensures ShiftN(Bit(b), 32) == Shift(TopBit(b))
  {
    hide Shift, ShiftN;
    UnitLeavesGenerator();
    ZeroStays(32);
    ShiftZero();
  }

  // ----- The register that folds the message in at the top -----

  function Fold(sum: Word, bits: seq<bool>): Word
    decreases |bits|
  {
    if bits == [] then sum else Fold(Shift(Xor(sum, TopBit(bits[0]))), bits[1..])
  }

  /** Folding a bit in at the top is feeding it at the bottom 32 steps early. */
  lemma FoldsOneBit(r: Word, b: bool)
    ensures Shift(Xor(ShiftN(r, 32), TopBit(b))) == ShiftN(Xor(Shift(r), Bit(b)), 32)
  {
    hide Shift, ShiftN, Xor, Bit, TopBit;
    BitMovesUp(b);
    ShiftLast(r, 32);
    ShiftNIsLinear(Shift(r), Bit(b), 32);
    ShiftIsLinear(ShiftN(r, 32), TopBit(b));
  }

  lemma {:induction false} FoldsAllBits(r: Word, bits: seq<bool>)
    ensures Fold(ShiftN(r, 32), bits) == ShiftN(Divide(r, bits), 32)
    decreases |bits|
  {
    hide Shift, ShiftN, Xor, Bit, TopBit;
    if bits != [] {
      FoldsOneBit(r, bits[0]);
      FoldsAllBits(Xor(Shift(r), Bit(bits[0])), bits[1..]);
    }
  }

  lemma {:induction false} FoldConcat(sum: Word, a: seq<bool>, b: seq<bool>)
    ensures Fold(sum, a + b) == Fold(Fold(sum, a), b)
    decreases |a|
  {
    hide Shift, Xor, TopBit;
    if a == [] {
      assert a + b == b;
    } else {
      assert (a + b)[1..] == a[1..] + b;
      FoldConcat(Shift(Xor(sum, TopBit(a[0]))), a[1..], b);
    }
  }

  function Top(v: Word): Word {
    v & TOP_BIT
  }

  function Low(v: Word): Word {
    v & 0x7fff_ffff
  }

  /** The top bit of `v` separates from the rest. */
  lemma SplitTop(v: Word)
    ensures v == Xor(Top(v), Low(v))
  {
  }

  lemma TopIsSet(v: Word)
    ensures TopBit(IsSet(v)) == Top(v)
  {
  }

  lemma LowShifts(v: Word)
    ensures Shift(Low(v)) == Up(v)
  {
  }

  /** One bit of a word that is folded in whole. */
  lemma FoldStep(sum: Word, v: Word)
    ensures Shift(Xor(sum, v)) == Xor(Shift(Xor(sum, TopBit(IsSet(v)))), Up(v))
  {
    hide Shift, Xor, Top, Low, Up, IsSet, TopBit;
    SplitTop(v);
    TopIsSet(v);
    LowShifts(v);
    XorAssociates(sum, Top(v), Low(v));
    ShiftIsLinear(Xor(sum, Top(v)), Low(v));
  }

  lemma {:induction false} FoldsTop(sum: Word, v: Word, k: nat)
    ensures ShiftN(Xor(sum, v), k) == Xor(Fold(sum, TopBits(v, k)), UpN(v, k))
    decreases k
  {
    hide Shift, Xor, TopBit, IsSet, Up;
    if k > 0 {
      FoldStep(sum, v);
      assert TopBits(v, k)[1..] == TopBits(Up(v), k - 1);
      FoldsTop(Shift(Xor(sum, TopBit(IsSet(v)))), Up(v), k - 1);
    }
  }

  lemma FourUps(v: Word, k: nat)
    ensures UpN(v, k + 4) == UpN(Up(Up(Up(Up(v)))), k)
  {
    hide Up;
    assert UpN(v, k + 4) == UpN(Up(Up(v)), k + 2);
  }

  lemma ByteFallsOut(b: byte)
    ensures var v := Up(Up(Up(Up(OnTop(b))))); Up(Up(Up(Up(v)))) == 0
  {
  }

  /** Folding in the bits of one byte. */
  lemma FoldsByte(sum: Word, b: byte)
    ensures Fold(sum, ByteBits(b)) == Shift8(Xor(sum, OnTop(b)))
  {
    hide Shift8, Xor, TopBits, Up, OnTop, Fold;
    var v := OnTop(b);
    FoldsTop(sum, v, 8);
    FourUps(v, 4);
    FourUps(Up(Up(Up(Up(v)))), 0);
    ByteFallsOut(b);
    XorZero(Fold(sum, ByteBits(b)));
    ShiftNEight(Xor(sum, v));
  }

  // ----- The table step -----

  function Mix(sum: Word, w: Word): Word {
    ((sum >> 24) & 0xff) ^ w
  }

  function TableIndex(sum: Word, b: byte): byte {
    Mix(sum, b as Word) as byte
  }

  function LowBytes(sum: Word): Word {
    sum & 0xff_ffff
  }

  function UpByte(sum: Word): Word {
    sum << 8
  }

  function TableStep(sum: Word, b: byte): Word {
    Xor(UpByte(sum), CrcTable(TableIndex(sum, b)))
  }

  lemma XorCommutes(a: Word, b: Word)
    ensures Xor(a, b) == Xor(b, a)
  {
  }

  lemma TopByteSplits(sum: Word)
    ensures sum == Xor(WordOnTop(sum >> 24), LowBytes(sum))
  {
  }

  lemma MixIsXor(sum: Word, w: Word)
    ensures Mix(sum, w) == Xor(sum >> 24, w)
  {
    assert (sum >> 24) & 0xff == sum >> 24;
  }

  lemma XorMovesUp(a: Word, b: Word)
    ensures WordOnTop(Xor(a, b)) == Xor(WordOnTop(a), WordOnTop(b))
  {
  }

  lemma XorSwaps(a: Word, b: Word, x: Word)
    ensures Xor(Xor(a, b), x) == Xor(Xor(a, x), b)
  {
    hide Xor;
    XorAssociates(a, b, x);
    XorAssociates(a, x, b);
    XorCommutes(b, x);
  }

  lemma IndexIsMix(sum: Word, b: byte)
    ensures TableIndex(sum, b) as Word == Mix(sum, b as Word)
  {
  }

  lemma OnTopIs(b: byte)
    ensures OnTop(b) == WordOnTop(b as Word)
  {
  }

  lemma LowBytesShift(sum: Word)
    ensures Shift8(LowBytes(sum)) == UpByte(sum)
  {
  }

  /** One lookup does the work of eight division steps. */
  lemma TableStepFoldsByte(sum: Word, b: byte)
    ensures TableStep(sum, b) == Fold(sum, ByteBits(b))
  {
    hide Shift, Shift8, Fold, ByteBits, CrcTable, TableIndex, OnTop, WordOnTop, LowBytes, UpByte, Xor, Mix;
    var i, w := TableIndex(sum, b), b as Word;
    FoldsByte(sum, b);
    assert Xor(sum, OnTop(b)) == Xor(OnTop(i), LowBytes(sum)) by {
      OnTopIs(b);
      OnTopIs(i);
      IndexIsMix(sum, b);
      TopByteSplits(sum);
      MixIsXor(sum, w);
      XorMovesUp(sum >> 24, w);
      XorSwaps(WordOnTop(sum >> 24), LowBytes(sum), WordOnTop(w));
    }
    TableEntry(i);
    LowBytesShift(sum);
    Shift8IsLinear(OnTop(i), LowBytes(sum));
    XorCommutes(UpByte(sum), CrcTable(i));
  }

  lemma Shift8IsLinear(a: Word, b: Word)
    ensures Shift8(Xor(a, b)) == Xor(Shift8(a), Shift8(b))
  {
    hide Shift, Shift8, Xor;
    ShiftNIsLinear(a, b, 8);
    ShiftNEight(a);
    ShiftNEight(b);
    ShiftNEight(Xor(a, b));
  }

  lemma RemainderIsFold(data: seq<byte>)
    ensures Remainder(data) == Fold(0, MessageBits(data))
  {
    hide Shift, Fold, Divide, ShiftN;
    DivideConcat(0, MessageBits(data), Zeros(32));
    DivideZeros(Divide(0, MessageBits(data)), 32);
    ZeroStays(32);
    FoldsAllBits(0, MessageBits(data));
  }

  /** The checksum loop computes the remainder of the message times x^32. */
  method Checksum(data: seq<byte>) returns (sum: Word)
    ensures sum == Remainder(data)
  {
    hide Fold, TableStep, ByteBits;
    sum := 0;
    assert MessageBits(data[..0]) == [];
    FoldNothing();
    for i := 0 to |data|
      invariant sum == Fold(0, MessageBits(data[..i]))
    {
      TableStepFoldsByte(sum, data[i]);
      FoldConcat(0, MessageBits(data[..i]), ByteBits(data[i]));
      assert data[..i + 1][..i] == data[..i];
      sum := TableStep(sum, data[i]);
    }
    assert data[..|data|] == data;
    RemainderIsFold(data);
  }

  lemma FoldNothing()
    ensures Fold(0, []) == 0
  {
  }
}
