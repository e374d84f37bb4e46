/** crc32.c: the table-driven checksum against the bit-at-a-time shift register it stands for. */
module Crc32 {

  type Reg = bv32

  // ---------- the register ----------

  function Xor(a: Reg, b: Reg): Reg { a ^ b }
  function Half(c: Reg): Reg { c >> 1 }
  function Odd(c: Reg): bool { c & 1 == 1 }

  /** One shift towards the low end; the polynomial is added when a one falls out. */
  function Shift(c: Reg): Reg {
    if c & 1 == 1 then (c >> 1) ^ 0xedb88320 else c >> 1
  }

  /** One message bit enters at the low end; bytes enter low-order bit first. */
  function Feed(c: Reg, bit: bool): Reg { Shift(if bit then Xor(c, 1) else c) }

  /** `n` bits of `v` enter one by one. */
  function FeedBits(c: Reg, v: Reg, n: nat): Reg
    decreases n
  {
    if n == 0 then c else FeedBits(Feed(c, Odd(v)), Half(v), n - 1)
  }

  function Placed(b: bv8): Reg { b as Reg }

  function FeedByte(c: Reg, b: bv8): Reg { FeedBits(c, Placed(b), 8) }

  /** The register after a message. */
  function Register(seed: Reg, m: seq<bv8>): Reg {
    if m == [] then seed else FeedByte(Register(seed, m[..|m| - 1]), m[|m| - 1])
  }

  // ---------- the shift is linear ----------

  function Shifts(c: Reg, n: nat): Reg
    decreases n
  {
    if n == 0 then c else Shifts(Shift(c), n - 1)
  }

  function Halves(v: Reg, n: nat): Reg
    decreases n
  {
    if n == 0 then v else Halves(Half(v), n - 1)
  }

  /** Eight shifts. */
  function Eight(c: Reg): Reg { Shift(Shift(Shift(Shift(Shift(Shift(Shift(Shift(c)))))))) }

  lemma XorParts(a: Reg, b: Reg)
    ensures Half(Xor(a, b)) == Xor(Half(a), Half(b)) && Odd(Xor(a, b)) == (Odd(a) != Odd(b))
  {
    HalfBits(a, b);
    OddBits(a, b);
  }

  lemma HalfBits(a: Reg, b: Reg)
    ensures Half(Xor(a, b)) == Xor(Half(a), Half(b))
  {
  }

  lemma OddBits(a: Reg, b: Reg)
    ensures Odd(Xor(a, b)) == (Odd(a) != Odd(b))
  {
  }

  lemma XorIs(a: Reg, b: Reg)
    ensures Xor(a, b) == a ^ b
  {
  }

  lemma XorCancels(x: Reg, y: Reg, p: Reg)
    ensures Xor(x ^ p, y ^ p) == x ^ y
  {
  }

  lemma XorLeft(x: Reg, y: Reg, p: Reg)
    ensures Xor(x ^ p, y) == x ^ y ^ p
  {
  }

  lemma XorRight(x: Reg, y: Reg, p: Reg)
    ensures Xor(x, y ^ p) == x ^ y ^ p
  {
  }

  lemma XorNames(x: Reg, y: Reg, p: Reg) returns (xp: Reg, yp: Reg, xy: Reg, xyp: Reg)
    ensures Xor(x, p) == xp && Xor(y, p) == yp && Xor(x, y) == xy
    ensures Xor(xp, yp) == xy && Xor(xp, y) == xyp && Xor(x, yp) == xyp && Xor(xy, p) == xyp
  {
    hide Xor;
    xp, yp, xy, xyp := x ^ p, y ^ p, x ^ y, x ^ y ^ p;
    XorIs(x, p);
    XorIs(y, p);
    XorIs(x, y);
    XorCancels(x, y, p);
    XorLeft(x, y, p);
    XorRight(x, y, p);
    XorLeft(x, p, y);
  }

  lemma XorZero(a: Reg)
    ensures Xor(a, 0) == a
  {
  }

  lemma ShiftIs(c: Reg)
    ensures Shift(c) == if Odd(c) then Xor(Half(c), 0xedb88320) else Half(c)
  {
  }

  lemma ShiftLinear(a: Reg, b: Reg)
    ensures Shift(Xor(a, b)) == Xor(Shift(a), Shift(b))
  {
    ShiftIs(a);
    ShiftIs(b);
    ShiftIs(Xor(a, b));
    XorParts(a, b);
    PolyBits(Half(a), Half(b), 0xedb88320);
    hide Shift, Xor, Half, Odd;
  }

  lemma PolyBits(x: Reg, y: Reg, p: Reg)
    ensures Xor(Xor(x, p), Xor(y, p)) == Xor(x, y) && Xor(Xor(x, p), y) == Xor(Xor(x, y), p)
      && Xor(x, Xor(y, p)) == Xor(Xor(x, y), p)
  {
    hide Xor;
    var xp, yp, xy, xyp := XorNames(x, y, p);
  }

  /** A bit fed in is a shift of the register with all the remaining bits added beforehand. */
  lemma FeedHalf(c: Reg, v: Reg)
    ensures Shift(Xor(c, v)) == Xor(Feed(c, Odd(v)), Half(v))
  {
    var w := if Odd(v) then Xor(v, 1) else v;
    var d := if Odd(v) then Xor(c, 1) else c;
    BottomBit(v);
    assert !Odd(w) && Half(w) == Half(v);
    assert Feed(c, Odd(v)) == Shift(d);
    ShiftLinear(d, w);
    ShiftIs(w);
    Moved(c, v, 1);
    hide *;
  }

  lemma Moved(c: Reg, v: Reg, x: Reg)
    ensures Xor(Xor(c, x), Xor(v, x)) == Xor(c, v)
  {
    hide Xor;
    var cx, vx, cv, cvx := XorNames(c, v, x);
  }

  lemma BottomBit(v: Reg)
    ensures Half(Xor(v, 1)) == Half(v) && Odd(Xor(v, 1)) == !Odd(v)
  {
  }

  lemma {:induction false} FeedBitsIs(c: Reg, v: Reg, n: nat)
    ensures Shifts(Xor(c, v), n) == Xor(FeedBits(c, v, n), Halves(v, n))
    decreases n
  {
    hide Xor, Feed, Odd, Half, Shift;
    if n > 0 {
      FeedHalf(c, v);
      FeedBitsIs(Feed(c, Odd(v)), Half(v), n - 1);
    }
  }

  lemma HalvesByte(b: bv8)
    ensures Halves(Placed(b), 8) == 0
  {
    var v := Placed(b);
    HalvesEight(v);
    hide Halves;
    HalvedOut(b);
  }

  lemma HalvesEight(v: Reg)
    ensures Halves(v, 8) == Half(Half(Half(Half(Half(Half(Half(Half(v))))))))
  {
    hide Half;
    var v1 := Half(v);
    var v2 := Half(v1);
    var v3 := Half(v2);
    var v4 := Half(v3);
    var v5 := Half(v4);
    var v6 := Half(v5);
    var v7 := Half(v6);
    assert Halves(v6, 2) == Half(v7) && Halves(v4, 4) == Halves(v6, 2) && Halves(v2, 6) == Halves(v4, 4);
  }

  lemma HalvedOut(b: bv8)
    ensures Half(Half(Half(Half(Half(Half(Half(Half(Placed(b))))))))) == 0
  {
  }

  lemma ShiftsEight(c: Reg)
    ensures Shifts(c, 8) == Eight(c)
  {
    hide Shift;
    var c1 := Shift(c);
    var c2 := Shift(c1);
    var c3 := Shift(c2);
    var c4 := Shift(c3);
    var c5 := Shift(c4);
    var c6 := Shift(c5);
    var c7 := Shift(c6);
    assert Shifts(c6, 2) == Shift(c7) && Shifts(c4, 4) == Shifts(c6, 2) && Shifts(c2, 6) == Shifts(c4, 4);
  }

  /** A byte fed in bit by bit: the byte added, then eight shifts. */
  lemma FeedByteIs(c: Reg, b: bv8)
    ensures FeedByte(c, b) == Eight(Xor(c, Placed(b)))
  {
    hide Eight, Xor, Placed;
    FeedBitsIs(c, Placed(b), 8);
    HalvesByte(b);
    ShiftsEight(Xor(c, Placed(b)));
    XorZero(FeedByte(c, b));
  }

  lemma EightLinear(a: Reg, b: Reg)
    ensures Eight(Xor(a, b)) == Xor(Eight(a), Eight(b))
  {
    var a1, b1 := Shift(a), Shift(b);
    var a2, b2 := Shift(a1), Shift(b1);
    var a3, b3 := Shift(a2), Shift(b2);
    var a4, b4 := Shift(a3), Shift(b3);
    var a5, b5 := Shift(a4), Shift(b4);
    var a6, b6 := Shift(a5), Shift(b5);
    var a7, b7 := Shift(a6), Shift(b6);
    assert Eight(a) == Shift(a7) && Eight(b) == Shift(b7);
    hide Shift, Xor;
    ShiftLinear(a, b);
    ShiftLinear(a1, b1);
    ShiftLinear(a2, b2);
    ShiftLinear(a3, b3);
    ShiftLinear(a4, b4);
    ShiftLinear(a5, b5);
    ShiftLinear(a6, b6);
    ShiftLinear(a7, b7);
  }

  /** Eight shifts of a register whose outgoing byte is zero only move it. */
  lemma EightMoves(x: Reg)
    requires Out(x) == 0
    ensures Eight(x) == Away(x)
  {
    var x1 := Half(x);
    var x2 := Half(x1);
    var x3 := Half(x2);
    var x4 := Half(x3);
    var x5 := Half(x4);
    var x6 := Half(x5);
    var x7 := Half(x6);
    assert Half(x7) == Away(x);
    assert !Odd(x) && !Odd(x1) && !Odd(x2) && !Odd(x3) && !Odd(x4) && !Odd(x5) && !Odd(x6) && !Odd(x7);
    hide Half, Odd, Shift, Out, Away;
    ShiftIs(x);
    ShiftIs(x1);
    ShiftIs(x2);
    ShiftIs(x3);
    ShiftIs(x4);
    ShiftIs(x5);
    ShiftIs(x6);
    ShiftIs(x7);
  }

  /** The byte about to be shifted out, the rest, and where that ends up. */
  function Out(x: Reg): Reg { x & 0xff }
  function Rest(x: Reg): Reg { x & 0xffffff00 }
  function Away(x: Reg): Reg { x >> 8 }

  // ---------- the table ----------

  /** The entry the table should have. */
  function Entry(i: nat): Reg { if i < 256 then Eight(i as Reg) else 0 }

  function Table(i: nat): Reg {
    match i / 16
    case 0 => Row(i % 16,
      0x00000000, 0x77073096, 0xee0e612c, 0x990951ba, 0x076dc419, 0x706af48f, 0xe963a535, 0x9e6495a3,
      0x0edb8832, 0x79dcb8a4, 0xe0d5e91e, 0x97d2d988, 0x09b64c2b, 0x7eb17cbd, 0xe7b82d07, 0x90bf1d91)
    case 1 => Row(i % 16,
      0x1db71064, 0x6ab020f2, 0xf3b97148, 0x84be41de, 0x1adad47d, 0x6ddde4eb, 0xf4d4b551, 0x83d385c7,
      0x136c9856, 0x646ba8c0, 0xfd62f97a, 0x8a65c9ec, 0x14015c4f, 0x63066cd9, 0xfa0f3d63, 0x8d080df5)
    case 2 => Row(i % 16,
      0x3b6e20c8, 0x4c69105e, 0xd56041e4, 0xa2677172, 0x3c03e4d1, 0x4b04d447, 0xd20d85fd, 0xa50ab56b,
      0x35b5a8fa, 0x42b2986c, 0xdbbbc9d6, 0xacbcf940, 0x32d86ce3, 0x45df5c75, 0xdcd60dcf, 0xabd13d59)
    case 3 => Row(i % 16,
      0x26d930ac, 0x51de003a, 0xc8d75180, 0xbfd06116, 0x21b4f4b5, 0x56b3c423, 0xcfba9599, 0xb8bda50f,
      0x2802b89e, 0x5f058808, 0xc60cd9b2, 0xb10be924, 0x2f6f7c87, 0x58684c11, 0xc1611dab, 0xb6662d3d)
    case 4 => Row(i % 16,
      0x76dc4190, 0x01db7106, 0x98d220bc, 0xefd5102a, 0x71b18589, 0x06b6b51f, 0x9fbfe4a5, 0xe8b8d433,
      0x7807c9a2, 0x0f00f934, 0x9609a88e, 0xe10e9818, 0x7f6a0dbb, 0x086d3d2d, 0x91646c97, 0xe6635c01)
    case 5 => Row(i % 16,
      0x6b6b51f4, 0x1c6c6162, 0x856530d8, 0xf262004e, 0x6c0695ed, 0x1b01a57b, 0x8208f4c1, 0xf50fc457,
      0x65b0d9c6, 0x12b7e950, 0x8bbeb8ea, 0xfcb9887c, 0x62dd1ddf, 0x15da2d49, 0x8cd37cf3, 0xfbd44c65)
    case 6 => Row(i % 16,
      0x4db26158, 0x3ab551ce, 0xa3bc0074, 0xd4bb30e2, 0x4adfa541, 0x3dd895d7, 0xa4d1c46d, 0xd3d6f4fb,
      0x4369e96a, 0x346ed9fc, 0xad678846, 0xda60b8d0, 0x44042d73, 0x33031de5, 0xaa0a4c5f, 0xdd0d7cc9)
    case 7 => Row(i % 16,
      0x5005713c, 0x270241aa, 0xbe0b1010, 0xc90c2086, 0x5768b525, 0x206f85b3, 0xb966d409, 0xce61e49f,
      0x5edef90e, 0x29d9c998, 0xb0d09822, 0xc7d7a8b4, 0x59b33d17, 0x2eb40d81, 0xb7bd5c3b, 0xc0ba6cad)
    case 8 => Row(i % 16,
      0xedb88320, 0x9abfb3b6, 0x03b6e20c, 0x74b1d29a, 0xead54739, 0x9dd277af, 0x04db2615, 0x73dc1683,
      0xe3630b12, 0x94643b84, 0x0d6d6a3e, 0x7a6a5aa8, 0xe40ecf0b, 0x9309ff9d, 0x0a00ae27, 0x7d079eb1)
    case 9 => Row(i % 16,
      0xf00f9344, 0x8708a3d2, 0x1e01f268, 0x6906c2fe, 0xf762575d, 0x806567cb, 0x196c3671, 0x6e6b06e7,
      0xfed41b76, 0x89d32be0, 0x10da7a5a, 0x67dd4acc, 0xf9b9df6f, 0x8ebeeff9, 0x17b7be43, 0x60b08ed5)
    case 10 => Row(i % 16,
      0xd6d6a3e8, 0xa1d1937e, 0x38d8c2c4, 0x4fdff252, 0xd1bb67f1, 0xa6bc5767, 0x3fb506dd, 0x48b2364b,
      0xd80d2bda, 0xaf0a1b4c, 0x36034af6, 0x41047a60, 0xdf60efc3, 0xa867df55, 0x316e8eef, 0x4669be79)
    case 11 => Row(i % 16,
      0xcb61b38c, 0xbc66831a, 0x256fd2a0, 0x5268e236, 0xcc0c7795, 0xbb0b4703, 0x220216b9, 0x5505262f,
      0xc5ba3bbe, 0xb2bd0b28, 0x2bb45a92, 0x5cb36a04, 0xc2d7ffa7, 0xb5d0cf31, 0x2cd99e8b, 0x5bdeae1d)
    case 12 => Row(i % 16,
      0x9b64c2b0, 0xec63f226, 0x756aa39c, 0x026d930a, 0x9c0906a9, 0xeb0e363f, 0x72076785, 0x05005713,
      0x95bf4a82, 0xe2b87a14, 0x7bb12bae, 0x0cb61b38, 0x92d28e9b, 0xe5d5be0d, 0x7cdcefb7, 0x0bdbdf21)
    case 13 => Row(i % 16,
      0x86d3d2d4, 0xf1d4e242, 0x68ddb3f8, 0x1fda836e, 0x81be16cd, 0xf6b9265b, 0x6fb077e1, 0x18b74777,
      0x88085ae6, 0xff0f6a70, 0x66063bca, 0x11010b5c, 0x8f659eff, 0xf862ae69, 0x616bffd3, 0x166ccf45)
    case 14 => Row(i % 16,
      0xa00ae278, 0xd70dd2ee, 0x4e048354, 0x3903b3c2, 0xa7672661, 0xd06016f7, 0x4969474d, 0x3e6e77db,
      0xaed16a4a, 0xd9d65adc, 0x40df0b66, 0x37d83bf0, 0xa9bcae53, 0xdebb9ec5, 0x47b2cf7f, 0x30b5ffe9)
    case 15 => Row(i % 16,
      0xbdbdf21c, 0xcabac28a, 0x53b39330, 0x24b4a3a6, 0xbad03605, 0xcdd70693, 0x54de5729, 0x23d967bf,
      0xb3667a2e, 0xc4614ab8, 0x5d681b02, 0x2a6f2b94, 0xb40bbe37, 0xc30c8ea1, 0x5a05df1b, 0x2d02ef8d)
    case _ => 0
  }

  function Row<T>(q: nat, e0: T, e1: T, e2: T, e3: T, e4: T, e5: T, e6: T, e7: T, e8: T, e9: T, e10: T, e11: T, e12: T,
      e13: T, e14: T, e15: T): T {
    if q == 0 then e0 else if q == 1 then e1 else if q == 2 then e2 else if q == 3 then e3 else if q == 4 then e4
      else if q == 5 then e5 else if q == 6 then e6 else if q == 7 then e7
    else if q == 8 then e8 else if q == 9 then e9 else if q == 10 then e10 else if q == 11 then e11
      else if q == 12 then e12 else if q == 13 then e13 else if q == 14 then e14 else e15
  }

  lemma Pick<T>(f: nat -> T, i: nat, base: nat, e0: T, e1: T, e2: T, e3: T, e4: T, e5: T, e6: T, e7: T, e8: T, e9: T,
      e10: T, e11: T, e12: T, e13: T, e14: T, e15: T)
    requires base <= i < base + 16 && base % 16 == 0
    requires e0 == f(base + 0) && e1 == f(base + 1) && e2 == f(base + 2) && e3 == f(base + 3)
    requires e4 == f(base + 4) && e5 == f(base + 5) && e6 == f(base + 6) && e7 == f(base + 7)
    requires e8 == f(base + 8) && e9 == f(base + 9) && e10 == f(base + 10) && e11 == f(base + 11)
    requires e12 == f(base + 12) && e13 == f(base + 13) && e14 == f(base + 14) && e15 == f(base + 15)
    ensures Row(i % 16, e0, e1, e2, e3, e4, e5, e6, e7, e8, e9, e10, e11, e12, e13, e14, e15) == f(i)
  {
    assert i == base + i % 16;
  }

  lemma Row0(i: nat)
    requires i / 16 == 0
    ensures Table(i) == Entry(i)
  {
    Values0();
    hide Entry;
    Pick(Entry, i, 0,
      0x00000000, 0x77073096, 0xee0e612c, 0x990951ba, 0x076dc419, 0x706af48f, 0xe963a535, 0x9e6495a3,
      0x0edb8832, 0x79dcb8a4, 0xe0d5e91e, 0x97d2d988, 0x09b64c2b, 0x7eb17cbd, 0xe7b82d07, 0x90bf1d91);
  }

  lemma Values0()
    ensures Entry(0) == 0x00000000 && Entry(1) == 0x77073096 && Entry(2) == 0xee0e612c && Entry(3) == 0x990951ba
    ensures Entry(4) == 0x076dc419 && Entry(5) == 0x706af48f && Entry(6) == 0xe963a535 && Entry(7) == 0x9e6495a3
    ensures Entry(8) == 0x0edb8832 && Entry(9) == 0x79dcb8a4 && Entry(10) == 0xe0d5e91e && Entry(11) == 0x97d2d988
    ensures Entry(12) == 0x09b64c2b && Entry(13) == 0x7eb17cbd && Entry(14) == 0xe7b82d07 && Entry(15) == 0x90bf1d91
  {
    Eights0();
    hide Eight;
  }

  lemma Eights0()
    ensures Eight(0x00) == 0x00000000 && Eight(0x01) == 0x77073096 && Eight(0x02) == 0xee0e612c
      && Eight(0x03) == 0x990951ba
    ensures Eight(0x04) == 0x076dc419 && Eight(0x05) == 0x706af48f && Eight(0x06) == 0xe963a535
      && Eight(0x07) == 0x9e6495a3
    ensures Eight(0x08) == 0x0edb8832 && Eight(0x09) == 0x79dcb8a4 && Eight(0x0a) == 0xe0d5e91e
      && Eight(0x0b) == 0x97d2d988
    ensures Eight(0x0c) == 0x09b64c2b && Eight(0x0d) == 0x7eb17cbd && Eight(0x0e) == 0xe7b82d07
      && Eight(0x0f) == 0x90bf1d91
  {
  }

  lemma Row1(i: nat)
    requires i / 16 == 1
    ensures Table(i) == Entry(i)
  {
    Values1();
    hide Entry;
    Pick(Entry, i, 16,
      0x1db71064, 0x6ab020f2, 0xf3b97148, 0x84be41de, 0x1adad47d, 0x6ddde4eb, 0xf4d4b551, 0x83d385c7,
      0x136c9856, 0x646ba8c0, 0xfd62f97a, 0x8a65c9ec, 0x14015c4f, 0x63066cd9, 0xfa0f3d63, 0x8d080df5);
  }

  lemma Values1()
    ensures Entry(16) == 0x1db71064 && Entry(17) == 0x6ab020f2 && Entry(18) == 0xf3b97148 && Entry(19) == 0x84be41de
    ensures Entry(20) == 0x1adad47d && Entry(21) == 0x6ddde4eb && Entry(22) == 0xf4d4b551 && Entry(23) == 0x83d385c7
    ensures Entry(24) == 0x136c9856 && Entry(25) == 0x646ba8c0 && Entry(26) == 0xfd62f97a && Entry(27) == 0x8a65c9ec
    ensures Entry(28) == 0x14015c4f && Entry(29) == 0x63066cd9 && Entry(30) == 0xfa0f3d63 && Entry(31) == 0x8d080df5
  {
    Eights1();
    hide Eight;
  }

  lemma Eights1()
    ensures Eight(0x10) == 0x1db71064 && Eight(0x11) == 0x6ab020f2 && Eight(0x12) == 0xf3b97148
      && Eight(0x13) == 0x84be41de
    ensures Eight(0x14) == 0x1adad47d && Eight(0x15) == 0x6ddde4eb && Eight(0x16) == 0xf4d4b551
      && Eight(0x17) == 0x83d385c7
    ensures Eight(0x18) == 0x136c9856 && Eight(0x19) == 0x646ba8c0 && Eight(0x1a) == 0xfd62f97a
      && Eight(0x1b) == 0x8a65c9ec
    ensures Eight(0x1c) == 0x14015c4f && Eight(0x1d) == 0x63066cd9 && Eight(0x1e) == 0xfa0f3d63
      && Eight(0x1f) == 0x8d080df5
  {
  }

  lemma Row2(i: nat)
    requires i / 16 == 2
    ensures Table(i) == Entry(i)
  {
    Values2();
    hide Entry;
    Pick(Entry, i, 32,
      0x3b6e20c8, 0x4c69105e, 0xd56041e4, 0xa2677172, 0x3c03e4d1, 0x4b04d447, 0xd20d85fd, 0xa50ab56b,
      0x35b5a8fa, 0x42b2986c, 0xdbbbc9d6, 0xacbcf940, 0x32d86ce3, 0x45df5c75, 0xdcd60dcf, 0xabd13d59);
  }

  lemma Values2()
    ensures Entry(32) == 0x3b6e20c8 && Entry(33) == 0x4c69105e && Entry(34) == 0xd56041e4 && Entry(35) == 0xa2677172
    ensures Entry(36) == 0x3c03e4d1 && Entry(37) == 0x4b04d447 && Entry(38) == 0xd20d85fd && Entry(39) == 0xa50ab56b
    ensures Entry(40) == 0x35b5a8fa && Entry(41) == 0x42b2986c && Entry(42) == 0xdbbbc9d6 && Entry(43) == 0xacbcf940
    ensures Entry(44) == 0x32d86ce3 && Entry(45) == 0x45df5c75 && Entry(46) == 0xdcd60dcf && Entry(47) == 0xabd13d59
  {
    Eights2();
    hide Eight;
  }

  lemma Eights2()
    ensures Eight(0x20) == 0x3b6e20c8 && Eight(0x21) == 0x4c69105e && Eight(0x22) == 0xd56041e4
      && Eight(0x23) == 0xa2677172
    ensures Eight(0x24) == 0x3c03e4d1 && Eight(0x25) == 0x4b04d447 && Eight(0x26) == 0xd20d85fd
      && Eight(0x27) == 0xa50ab56b
    ensures Eight(0x28) == 0x35b5a8fa && Eight(0x29) == 0x42b2986c && Eight(0x2a) == 0xdbbbc9d6
      && Eight(0x2b) == 0xacbcf940
    ensures Eight(0x2c) == 0x32d86ce3 && Eight(0x2d) == 0x45df5c75 && Eight(0x2e) == 0xdcd60dcf
      && Eight(0x2f) == 0xabd13d59
  {
  }

  lemma Row3(i: nat)
    requires i / 16 == 3
    ensures Table(i) == Entry(i)
  {
    Values3();
    hide Entry;
    Pick(Entry, i, 48,
      0x26d930ac, 0x51de003a, 0xc8d75180, 0xbfd06116, 0x21b4f4b5, 0x56b3c423, 0xcfba9599, 0xb8bda50f,
      0x2802b89e, 0x5f058808, 0xc60cd9b2, 0xb10be924, 0x2f6f7c87, 0x58684c11, 0xc1611dab, 0xb6662d3d);
  }

  lemma Values3()
    ensures Entry(48) == 0x26d930ac && Entry(49) == 0x51de003a && Entry(50) == 0xc8d75180 && Entry(51) == 0xbfd06116
    ensures Entry(52) == 0x21b4f4b5 && Entry(53) == 0x56b3c423 && Entry(54) == 0xcfba9599 && Entry(55) == 0xb8bda50f
    ensures Entry(56) == 0x2802b89e && Entry(57) == 0x5f058808 && Entry(58) == 0xc60cd9b2 && Entry(59) == 0xb10be924
    ensures Entry(60) == 0x2f6f7c87 && Entry(61) == 0x58684c11 && Entry(62) == 0xc1611dab && Entry(63) == 0xb6662d3d
  {
    Eights3();
    hide Eight;
  }

  lemma Eights3()
    ensures Eight(0x30) == 0x26d930ac && Eight(0x31) == 0x51de003a && Eight(0x32) == 0xc8d75180
      && Eight(0x33) == 0xbfd06116
    ensures Eight(0x34) == 0x21b4f4b5 && Eight(0x35) == 0x56b3c423 && Eight(0x36) == 0xcfba9599
      && Eight(0x37) == 0xb8bda50f
    ensures Eight(0x38) == 0x2802b89e && Eight(0x39) == 0x5f058808 && Eight(0x3a) == 0xc60cd9b2
      && Eight(0x3b) == 0xb10be924
    ensures Eight(0x3c) == 0x2f6f7c87 && Eight(0x3d) == 0x58684c11 && Eight(0x3e) == 0xc1611dab
      && Eight(0x3f) == 0xb6662d3d
  {
  }

  lemma Row4(i: nat)
    requires i / 16 == 4
    ensures Table(i) == Entry(i)
  {
    Values4();
    hide Entry;
    Pick(Entry, i, 64,
      0x76dc4190, 0x01db7106, 0x98d220bc, 0xefd5102a, 0x71b18589, 0x06b6b51f, 0x9fbfe4a5, 0xe8b8d433,
      0x7807c9a2, 0x0f00f934, 0x9609a88e, 0xe10e9818, 0x7f6a0dbb, 0x086d3d2d, 0x91646c97, 0xe6635c01);
  }

  lemma Values4()
    ensures Entry(64) == 0x76dc4190 && Entry(65) == 0x01db7106 && Entry(66) == 0x98d220bc && Entry(67) == 0xefd5102a
    ensures Entry(68) == 0x71b18589 && Entry(69) == 0x06b6b51f && Entry(70) == 0x9fbfe4a5 && Entry(71) == 0xe8b8d433
    ensures Entry(72) == 0x7807c9a2 && Entry(73) == 0x0f00f934 && Entry(74) == 0x9609a88e && Entry(75) == 0xe10e9818
    ensures Entry(76) == 0x7f6a0dbb && Entry(77) == 0x086d3d2d && Entry(78) == 0x91646c97 && Entry(79) == 0xe6635c01
  {
    Eights4();
    hide Eight;
  }

  lemma Eights4()
    ensures Eight(0x40) == 0x76dc4190 && Eight(0x41) == 0x01db7106 && Eight(0x42) == 0x98d220bc
      && Eight(0x43) == 0xefd5102a
    ensures Eight(0x44) == 0x71b18589 && Eight(0x45) == 0x06b6b51f && Eight(0x46) == 0x9fbfe4a5
      && Eight(0x47) == 0xe8b8d433
    ensures Eight(0x48) == 0x7807c9a2 && Eight(0x49) == 0x0f00f934 && Eight(0x4a) == 0x9609a88e
      && Eight(0x4b) == 0xe10e9818
    ensures Eight(0x4c) == 0x7f6a0dbb && Eight(0x4d) == 0x086d3d2d && Eight(0x4e) == 0x91646c97
      && Eight(0x4f) == 0xe6635c01
  {
  }

  lemma Row5(i: nat)
    requires i / 16 == 5
    ensures Table(i) == Entry(i)
  {
    Values5();
    hide Entry;
    Pick(Entry, i, 80,
      0x6b6b51f4, 0x1c6c6162, 0x856530d8, 0xf262004e, 0x6c0695ed, 0x1b01a57b, 0x8208f4c1, 0xf50fc457,
      0x65b0d9c6, 0x12b7e950, 0x8bbeb8ea, 0xfcb9887c, 0x62dd1ddf, 0x15da2d49, 0x8cd37cf3, 0xfbd44c65);
  }

  lemma Values5()
    ensures Entry(80) == 0x6b6b51f4 && Entry(81) == 0x1c6c6162 && Entry(82) == 0x856530d8 && Entry(83) == 0xf262004e
    ensures Entry(84) == 0x6c0695ed && Entry(85) == 0x1b01a57b && Entry(86) == 0x8208f4c1 && Entry(87) == 0xf50fc457
    ensures Entry(88) == 0x65b0d9c6 && Entry(89) == 0x12b7e950 && Entry(90) == 0x8bbeb8ea && Entry(91) == 0xfcb9887c
    ensures Entry(92) == 0x62dd1ddf && Entry(93) == 0x15da2d49 && Entry(94) == 0x8cd37cf3 && Entry(95) == 0xfbd44c65
  {
    Eights5();
    hide Eight;
  }

  lemma Eights5()
    ensures Eight(0x50) == 0x6b6b51f4 && Eight(0x51) == 0x1c6c6162 && Eight(0x52) == 0x856530d8
      && Eight(0x53) == 0xf262004e
    ensures Eight(0x54) == 0x6c0695ed && Eight(0x55) == 0x1b01a57b && Eight(0x56) == 0x8208f4c1
      && Eight(0x57) == 0xf50fc457
    ensures Eight(0x58) == 0x65b0d9c6 && Eight(0x59) == 0x12b7e950 && Eight(0x5a) == 0x8bbeb8ea
      && Eight(0x5b) == 0xfcb9887c
    ensures Eight(0x5c) == 0x62dd1ddf && Eight(0x5d) == 0x15da2d49 && Eight(0x5e) == 0x8cd37cf3
      && Eight(0x5f) == 0xfbd44c65
  {
  }

  lemma Row6(i: nat)
    requires i / 16 == 6
    ensures Table(i) == Entry(i)
  {
    Values6();
    hide Entry;
    Pick(Entry, i, 96,
      0x4db26158, 0x3ab551ce, 0xa3bc0074, 0xd4bb30e2, 0x4adfa541, 0x3dd895d7, 0xa4d1c46d, 0xd3d6f4fb,
      0x4369e96a, 0x346ed9fc, 0xad678846, 0xda60b8d0, 0x44042d73, 0x33031de5, 0xaa0a4c5f, 0xdd0d7cc9);
  }

  lemma Values6()
    ensures Entry(96) == 0x4db26158 && Entry(97) == 0x3ab551ce && Entry(98) == 0xa3bc0074 && Entry(99) == 0xd4bb30e2
    ensures Entry(100) == 0x4adfa541 && Entry(101) == 0x3dd895d7 && Entry(102) == 0xa4d1c46d && Entry(103) == 0xd3d6f4fb
    ensures Entry(104) == 0x4369e96a && Entry(105) == 0x346ed9fc && Entry(106) == 0xad678846 && Entry(107) == 0xda60b8d0
    ensures Entry(108) == 0x44042d73 && Entry(109) == 0x33031de5 && Entry(110) == 0xaa0a4c5f && Entry(111) == 0xdd0d7cc9
  {
    Eights6();
    hide Eight;
  }

  lemma Eights6()
    ensures Eight(0x60) == 0x4db26158 && Eight(0x61) == 0x3ab551ce && Eight(0x62) == 0xa3bc0074
      && Eight(0x63) == 0xd4bb30e2
    ensures Eight(0x64) == 0x4adfa541 && Eight(0x65) == 0x3dd895d7 && Eight(0x66) == 0xa4d1c46d
      && Eight(0x67) == 0xd3d6f4fb
    ensures Eight(0x68) == 0x4369e96a && Eight(0x69) == 0x346ed9fc && Eight(0x6a) == 0xad678846
      && Eight(0x6b) == 0xda60b8d0
    ensures Eight(0x6c) == 0x44042d73 && Eight(0x6d) == 0x33031de5 && Eight(0x6e) == 0xaa0a4c5f
      && Eight(0x6f) == 0xdd0d7cc9
  {
  }

  lemma Row7(i: nat)
    requires i / 16 == 7
    ensures Table(i) == Entry(i)
  {
    Values7();
    hide Entry;
    Pick(Entry, i, 112,
      0x5005713c, 0x270241aa, 0xbe0b1010, 0xc90c2086, 0x5768b525, 0x206f85b3, 0xb966d409, 0xce61e49f,
      0x5edef90e, 0x29d9c998, 0xb0d09822, 0xc7d7a8b4, 0x59b33d17, 0x2eb40d81, 0xb7bd5c3b, 0xc0ba6cad);
  }

  lemma Values7()
    ensures Entry(112) == 0x5005713c && Entry(113) == 0x270241aa && Entry(114) == 0xbe0b1010 && Entry(115) == 0xc90c2086
    ensures Entry(116) == 0x5768b525 && Entry(117) == 0x206f85b3 && Entry(118) == 0xb966d409 && Entry(119) == 0xce61e49f
    ensures Entry(120) == 0x5edef90e && Entry(121) == 0x29d9c998 && Entry(122) == 0xb0d09822 && Entry(123) == 0xc7d7a8b4
    ensures Entry(124) == 0x59b33d17 && Entry(125) == 0x2eb40d81 && Entry(126) == 0xb7bd5c3b && Entry(127) == 0xc0ba6cad
  {
    Eights7();
    hide Eight;
  }

  lemma Eights7()
    ensures Eight(0x70) == 0x5005713c && Eight(0x71) == 0x270241aa && Eight(0x72) == 0xbe0b1010
      && Eight(0x73) == 0xc90c2086
    ensures Eight(0x74) == 0x5768b525 && Eight(0x75) == 0x206f85b3 && Eight(0x76) == 0xb966d409
      && Eight(0x77) == 0xce61e49f
    ensures Eight(0x78) == 0x5edef90e && Eight(0x79) == 0x29d9c998 && Eight(0x7a) == 0xb0d09822
      && Eight(0x7b) == 0xc7d7a8b4
    ensures Eight(0x7c) == 0x59b33d17 && Eight(0x7d) == 0x2eb40d81 && Eight(0x7e) == 0xb7bd5c3b
      && Eight(0x7f) == 0xc0ba6cad
  {
  }

  lemma Row8(i: nat)
    requires i / 16 == 8
    ensures Table(i) == Entry(i)
  {
    Values8();
    hide Entry;
    Pick(Entry, i, 128,
      0xedb88320, 0x9abfb3b6, 0x03b6e20c, 0x74b1d29a, 0xead54739, 0x9dd277af, 0x04db2615, 0x73dc1683,
      0xe3630b12, 0x94643b84, 0x0d6d6a3e, 0x7a6a5aa8, 0xe40ecf0b, 0x9309ff9d, 0x0a00ae27, 0x7d079eb1);
  }

  lemma Values8()
    ensures Entry(128) == 0xedb88320 && Entry(129) == 0x9abfb3b6 && Entry(130) == 0x03b6e20c && Entry(131) == 0x74b1d29a
    ensures Entry(132) == 0xead54739 && Entry(133) == 0x9dd277af && Entry(134) == 0x04db2615 && Entry(135) == 0x73dc1683
    ensures Entry(136) == 0xe3630b12 && Entry(137) == 0x94643b84 && Entry(138) == 0x0d6d6a3e && Entry(139) == 0x7a6a5aa8
    ensures Entry(140) == 0xe40ecf0b && Entry(141) == 0x9309ff9d && Entry(142) == 0x0a00ae27 && Entry(143) == 0x7d079eb1
  {
    Eights8();
    hide Eight;
  }

  lemma Eights8()
    ensures Eight(0x80) == 0xedb88320 && Eight(0x81) == 0x9abfb3b6 && Eight(0x82) == 0x03b6e20c
      && Eight(0x83) == 0x74b1d29a
    ensures Eight(0x84) == 0xead54739 && Eight(0x85) == 0x9dd277af && Eight(0x86) == 0x04db2615
      && Eight(0x87) == 0x73dc1683
    ensures Eight(0x88) == 0xe3630b12 && Eight(0x89) == 0x94643b84 && Eight(0x8a) == 0x0d6d6a3e
      && Eight(0x8b) == 0x7a6a5aa8
    ensures Eight(0x8c) == 0xe40ecf0b && Eight(0x8d) == 0x9309ff9d && Eight(0x8e) == 0x0a00ae27
      && Eight(0x8f) == 0x7d079eb1
  {
  }

  lemma Row9(i: nat)
    requires i / 16 == 9
    ensures Table(i) == Entry(i)
  {
    Values9();
    hide Entry;
    Pick(Entry, i, 144,
      0xf00f9344, 0x8708a3d2, 0x1e01f268, 0x6906c2fe, 0xf762575d, 0x806567cb, 0x196c3671, 0x6e6b06e7,
      0xfed41b76, 0x89d32be0, 0x10da7a5a, 0x67dd4acc, 0xf9b9df6f, 0x8ebeeff9, 0x17b7be43, 0x60b08ed5);
  }

  lemma Values9()
    ensures Entry(144) == 0xf00f9344 && Entry(145) == 0x8708a3d2 && Entry(146) == 0x1e01f268 && Entry(147) == 0x6906c2fe
    ensures Entry(148) == 0xf762575d && Entry(149) == 0x806567cb && Entry(150) == 0x196c3671 && Entry(151) == 0x6e6b06e7
    ensures Entry(152) == 0xfed41b76 && Entry(153) == 0x89d32be0 && Entry(154) == 0x10da7a5a && Entry(155) == 0x67dd4acc
    ensures Entry(156) == 0xf9b9df6f && Entry(157) == 0x8ebeeff9 && Entry(158) == 0x17b7be43 && Entry(159) == 0x60b08ed5
  {
    Eights9();
    hide Eight;
  }

  lemma Eights9()
    ensures Eight(0x90) == 0xf00f9344 && Eight(0x91) == 0x8708a3d2 && Eight(0x92) == 0x1e01f268
      && Eight(0x93) == 0x6906c2fe
    ensures Eight(0x94) == 0xf762575d && Eight(0x95) == 0x806567cb && Eight(0x96) == 0x196c3671
      && Eight(0x97) == 0x6e6b06e7
    ensures Eight(0x98) == 0xfed41b76 && Eight(0x99) == 0x89d32be0 && Eight(0x9a) == 0x10da7a5a
      && Eight(0x9b) == 0x67dd4acc
    ensures Eight(0x9c) == 0xf9b9df6f && Eight(0x9d) == 0x8ebeeff9 && Eight(0x9e) == 0x17b7be43
      && Eight(0x9f) == 0x60b08ed5
  {
  }

  lemma Row10(i: nat)
    requires i / 16 == 10
    ensures Table(i) == Entry(i)
  {
    Values10();
    hide Entry;
    Pick(Entry, i, 160,
      0xd6d6a3e8, 0xa1d1937e, 0x38d8c2c4, 0x4fdff252, 0xd1bb67f1, 0xa6bc5767, 0x3fb506dd, 0x48b2364b,
      0xd80d2bda, 0xaf0a1b4c, 0x36034af6, 0x41047a60, 0xdf60efc3, 0xa867df55, 0x316e8eef, 0x4669be79);
  }

  lemma Values10()
    ensures Entry(160) == 0xd6d6a3e8 && Entry(161) == 0xa1d1937e && Entry(162) == 0x38d8c2c4 && Entry(163) == 0x4fdff252
    ensures Entry(164) == 0xd1bb67f1 && Entry(165) == 0xa6bc5767 && Entry(166) == 0x3fb506dd && Entry(167) == 0x48b2364b
    ensures Entry(168) == 0xd80d2bda && Entry(169) == 0xaf0a1b4c && Entry(170) == 0x36034af6 && Entry(171) == 0x41047a60
    ensures Entry(172) == 0xdf60efc3 && Entry(173) == 0xa867df55 && Entry(174) == 0x316e8eef && Entry(175) == 0x4669be79
  {
    Eights10();
    hide Eight;
  }

  lemma Eights10()
    ensures Eight(0xa0) == 0xd6d6a3e8 && Eight(0xa1) == 0xa1d1937e && Eight(0xa2) == 0x38d8c2c4
      && Eight(0xa3) == 0x4fdff252
    ensures Eight(0xa4) == 0xd1bb67f1 && Eight(0xa5) == 0xa6bc5767 && Eight(0xa6) == 0x3fb506dd
      && Eight(0xa7) == 0x48b2364b
    ensures Eight(0xa8) == 0xd80d2bda && Eight(0xa9) == 0xaf0a1b4c && Eight(0xaa) == 0x36034af6
      && Eight(0xab) == 0x41047a60
    ensures Eight(0xac) == 0xdf60efc3 && Eight(0xad) == 0xa867df55 && Eight(0xae) == 0x316e8eef
      && Eight(0xaf) == 0x4669be79
  {
  }

  lemma Row11(i: nat)
    requires i / 16 == 11
    ensures Table(i) == Entry(i)
  {
    Values11();
    hide Entry;
    Pick(Entry, i, 176,
      0xcb61b38c, 0xbc66831a, 0x256fd2a0, 0x5268e236, 0xcc0c7795, 0xbb0b4703, 0x220216b9, 0x5505262f,
      0xc5ba3bbe, 0xb2bd0b28, 0x2bb45a92, 0x5cb36a04, 0xc2d7ffa7, 0xb5d0cf31, 0x2cd99e8b, 0x5bdeae1d);
  }

  lemma Values11()
    ensures Entry(176) == 0xcb61b38c && Entry(177) == 0xbc66831a && Entry(178) == 0x256fd2a0 && Entry(179) == 0x5268e236
    ensures Entry(180) == 0xcc0c7795 && Entry(181) == 0xbb0b4703 && Entry(182) == 0x220216b9 && Entry(183) == 0x5505262f
    ensures Entry(184) == 0xc5ba3bbe && Entry(185) == 0xb2bd0b28 && Entry(186) == 0x2bb45a92 && Entry(187) == 0x5cb36a04
    ensures Entry(188) == 0xc2d7ffa7 && Entry(189) == 0xb5d0cf31 && Entry(190) == 0x2cd99e8b && Entry(191) == 0x5bdeae1d
  {
    Eights11();
    hide Eight;
  }

  lemma Eights11()
    ensures Eight(0xb0) == 0xcb61b38c && Eight(0xb1) == 0xbc66831a && Eight(0xb2) == 0x256fd2a0
      && Eight(0xb3) == 0x5268e236
    ensures Eight(0xb4) == 0xcc0c7795 && Eight(0xb5) == 0xbb0b4703 && Eight(0xb6) == 0x220216b9
      && Eight(0xb7) == 0x5505262f
    ensures Eight(0xb8) == 0xc5ba3bbe && Eight(0xb9) == 0xb2bd0b28 && Eight(0xba) == 0x2bb45a92
      && Eight(0xbb) == 0x5cb36a04
    ensures Eight(0xbc) == 0xc2d7ffa7 && Eight(0xbd) == 0xb5d0cf31 && Eight(0xbe) == 0x2cd99e8b
      && Eight(0xbf) == 0x5bdeae1d
  {
  }

  lemma Row12(i: nat)
    requires i / 16 == 12
    ensures Table(i) == Entry(i)
  {
    Values12();
    hide Entry;
    Pick(Entry, i, 192,
      0x9b64c2b0, 0xec63f226, 0x756aa39c, 0x026d930a, 0x9c0906a9, 0xeb0e363f, 0x72076785, 0x05005713,
      0x95bf4a82, 0xe2b87a14, 0x7bb12bae, 0x0cb61b38, 0x92d28e9b, 0xe5d5be0d, 0x7cdcefb7, 0x0bdbdf21);
  }

  lemma Values12()
    ensures Entry(192) == 0x9b64c2b0 && Entry(193) == 0xec63f226 && Entry(194) == 0x756aa39c && Entry(195) == 0x026d930a
    ensures Entry(196) == 0x9c0906a9 && Entry(197) == 0xeb0e363f && Entry(198) == 0x72076785 && Entry(199) == 0x05005713
    ensures Entry(200) == 0x95bf4a82 && Entry(201) == 0xe2b87a14 && Entry(202) == 0x7bb12bae && Entry(203) == 0x0cb61b38
    ensures Entry(204) == 0x92d28e9b && Entry(205) == 0xe5d5be0d && Entry(206) == 0x7cdcefb7 && Entry(207) == 0x0bdbdf21
  {
    Eights12();
    hide Eight;
  }

  lemma Eights12()
    ensures Eight(0xc0) == 0x9b64c2b0 && Eight(0xc1) == 0xec63f226 && Eight(0xc2) == 0x756aa39c
      && Eight(0xc3) == 0x026d930a
    ensures Eight(0xc4) == 0x9c0906a9 && Eight(0xc5) == 0xeb0e363f && Eight(0xc6) == 0x72076785
      && Eight(0xc7) == 0x05005713
    ensures Eight(0xc8) == 0x95bf4a82 && Eight(0xc9) == 0xe2b87a14 && Eight(0xca) == 0x7bb12bae
      && Eight(0xcb) == 0x0cb61b38
    ensures Eight(0xcc) == 0x92d28e9b && Eight(0xcd) == 0xe5d5be0d && Eight(0xce) == 0x7cdcefb7
      && Eight(0xcf) == 0x0bdbdf21
  {
  }

  lemma Row13(i: nat)
    requires i / 16 == 13
    ensures Table(i) == Entry(i)
  {
    Values13();
    hide Entry;
    Pick(Entry, i, 208,
      0x86d3d2d4, 0xf1d4e242, 0x68ddb3f8, 0x1fda836e, 0x81be16cd, 0xf6b9265b, 0x6fb077e1, 0x18b74777,
      0x88085ae6, 0xff0f6a70, 0x66063bca, 0x11010b5c, 0x8f659eff, 0xf862ae69, 0x616bffd3, 0x166ccf45);
  }

  lemma Values13()
    ensures Entry(208) == 0x86d3d2d4 && Entry(209) == 0xf1d4e242 && Entry(210) == 0x68ddb3f8 && Entry(211) == 0x1fda836e
    ensures Entry(212) == 0x81be16cd && Entry(213) == 0xf6b9265b && Entry(214) == 0x6fb077e1 && Entry(215) == 0x18b74777
    ensures Entry(216) == 0x88085ae6 && Entry(217) == 0xff0f6a70 && Entry(218) == 0x66063bca && Entry(219) == 0x11010b5c
    ensures Entry(220) == 0x8f659eff && Entry(221) == 0xf862ae69 && Entry(222) == 0x616bffd3 && Entry(223) == 0x166ccf45
  {
    Eights13();
    hide Eight;
  }

  lemma Eights13()
    ensures Eight(0xd0) == 0x86d3d2d4 && Eight(0xd1) == 0xf1d4e242 && Eight(0xd2) == 0x68ddb3f8
      && Eight(0xd3) == 0x1fda836e
    ensures Eight(0xd4) == 0x81be16cd && Eight(0xd5) == 0xf6b9265b && Eight(0xd6) == 0x6fb077e1
      && Eight(0xd7) == 0x18b74777
    ensures Eight(0xd8) == 0x88085ae6 && Eight(0xd9) == 0xff0f6a70 && Eight(0xda) == 0x66063bca
      && Eight(0xdb) == 0x11010b5c
    ensures Eight(0xdc) == 0x8f659eff && Eight(0xdd) == 0xf862ae69 && Eight(0xde) == 0x616bffd3
      && Eight(0xdf) == 0x166ccf45
  {
  }

  lemma Row14(i: nat)
    requires i / 16 == 14
    ensures Table(i) == Entry(i)
  {
    Values14();
    hide Entry;
    Pick(Entry, i, 224,
      0xa00ae278, 0xd70dd2ee, 0x4e048354, 0x3903b3c2, 0xa7672661, 0xd06016f7, 0x4969474d, 0x3e6e77db,
      0xaed16a4a, 0xd9d65adc, 0x40df0b66, 0x37d83bf0, 0xa9bcae53, 0xdebb9ec5, 0x47b2cf7f, 0x30b5ffe9);
  }

  lemma Values14()
    ensures Entry(224) == 0xa00ae278 && Entry(225) == 0xd70dd2ee && Entry(226) == 0x4e048354 && Entry(227) == 0x3903b3c2
    ensures Entry(228) == 0xa7672661 && Entry(229) == 0xd06016f7 && Entry(230) == 0x4969474d && Entry(231) == 0x3e6e77db
    ensures Entry(232) == 0xaed16a4a && Entry(233) == 0xd9d65adc && Entry(234) == 0x40df0b66 && Entry(235) == 0x37d83bf0
    ensures Entry(236) == 0xa9bcae53 && Entry(237) == 0xdebb9ec5 && Entry(238) == 0x47b2cf7f && Entry(239) == 0x30b5ffe9
  {
    Eights14();
    hide Eight;
  }

  lemma Eights14()
    ensures Eight(0xe0) == 0xa00ae278 && Eight(0xe1) == 0xd70dd2ee && Eight(0xe2) == 0x4e048354
      && Eight(0xe3) == 0x3903b3c2
    ensures Eight(0xe4) == 0xa7672661 && Eight(0xe5) == 0xd06016f7 && Eight(0xe6) == 0x4969474d
      && Eight(0xe7) == 0x3e6e77db
    ensures Eight(0xe8) == 0xaed16a4a && Eight(0xe9) == 0xd9d65adc && Eight(0xea) == 0x40df0b66
      && Eight(0xeb) == 0x37d83bf0
    ensures Eight(0xec) == 0xa9bcae53 && Eight(0xed) == 0xdebb9ec5 && Eight(0xee) == 0x47b2cf7f
      && Eight(0xef) == 0x30b5ffe9
  {
  }

  lemma Row15(i: nat)
    requires i / 16 == 15
    ensures Table(i) == Entry(i)
  {
    Values15();
    hide Entry;
    Pick(Entry, i, 240,
      0xbdbdf21c, 0xcabac28a, 0x53b39330, 0x24b4a3a6, 0xbad03605, 0xcdd70693, 0x54de5729, 0x23d967bf,
      0xb3667a2e, 0xc4614ab8, 0x5d681b02, 0x2a6f2b94, 0xb40bbe37, 0xc30c8ea1, 0x5a05df1b, 0x2d02ef8d);
  }

  lemma Values15()
    ensures Entry(240) == 0xbdbdf21c && Entry(241) == 0xcabac28a && Entry(242) == 0x53b39330 && Entry(243) == 0x24b4a3a6
    ensures Entry(244) == 0xbad03605 && Entry(245) == 0xcdd70693 && Entry(246) == 0x54de5729 && Entry(247) == 0x23d967bf
    ensures Entry(248) == 0xb3667a2e && Entry(249) == 0xc4614ab8 && Entry(250) == 0x5d681b02 && Entry(251) == 0x2a6f2b94
    ensures Entry(252) == 0xb40bbe37 && Entry(253) == 0xc30c8ea1 && Entry(254) == 0x5a05df1b && Entry(255) == 0x2d02ef8d
  {
    Eights15();
    hide Eight;
  }

  lemma Eights15()
    ensures Eight(0xf0) == 0xbdbdf21c && Eight(0xf1) == 0xcabac28a && Eight(0xf2) == 0x53b39330
      && Eight(0xf3) == 0x24b4a3a6
    ensures Eight(0xf4) == 0xbad03605 && Eight(0xf5) == 0xcdd70693 && Eight(0xf6) == 0x54de5729
      && Eight(0xf7) == 0x23d967bf
    ensures Eight(0xf8) == 0xb3667a2e && Eight(0xf9) == 0xc4614ab8 && Eight(0xfa) == 0x5d681b02
      && Eight(0xfb) == 0x2a6f2b94
    ensures Eight(0xfc) == 0xb40bbe37 && Eight(0xfd) == 0xc30c8ea1 && Eight(0xfe) == 0x5a05df1b
      && Eight(0xff) == 0x2d02ef8d
  {
  }

  /** Every entry of the table is eight shifts of its index. */
  lemma TableIs(i: nat)
    requires i < 256
    ensures Table(i) == Entry(i)
  {
    hide Table, Entry;
    match i / 16
    case 0 => Row0(i);
    case 1 => Row1(i);
    case 2 => Row2(i);
    case 3 => Row3(i);
    case 4 => Row4(i);
    case 5 => Row5(i);
    case 6 => Row6(i);
    case 7 => Row7(i);
    case 8 => Row8(i);
    case 9 => Row9(i);
    case 10 => Row10(i);
    case 11 => Row11(i);
    case 12 => Row12(i);
    case 13 => Row13(i);
    case 14 => Row14(i);
    case 15 => Row15(i);
  }

  // ---------- crc32.c ----------

  /** `(crc ^ (b as Reg)) & 0xff` */
  function Index(crc: Reg, b: bv8): (i: nat)
    ensures i < 256
  {
    IndexFits(crc, b);
    ((crc ^ (b as Reg)) & 0xff) as nat
  }

  lemma IndexFits(crc: Reg, b: bv8)
    ensures (crc ^ (b as Reg)) & 0xff < 256
  {
  }

  /** One table step is eight bit steps. */
  lemma TableStep(c: Reg, b: bv8)
    ensures Xor(Table(Index(c, b)), Away(c)) == FeedByte(c, b)
  {
    hide *;
    var x := Xor(c, Placed(b));
    FeedByteIs(c, b);
    SplitBits(x);
    MovedRest(c, b);
    EightLinear(Out(x), Rest(x));
    EightMoves(Rest(x));
    TableIs(Index(c, b));
    EntryIs(c, b);
  }

  lemma SplitBits(x: Reg)
    ensures x == Xor(Out(x), Rest(x)) && Out(Rest(x)) == 0
  {
  }

  lemma MovedRest(c: Reg, b: bv8)
    ensures Away(Rest(Xor(c, Placed(b)))) == Away(c)
  {
  }

  lemma EntryIs(c: Reg, b: bv8)
    ensures Entry(Index(c, b)) == Eight(Out(Xor(c, Placed(b))))
  {
    var n := (c ^ (b as Reg)) & 0xff;
    IndexFits(c, b);
    Back(n);
    assert Entry(Index(c, b)) == Eight(n);
    KeptBits(c, b);
    hide Eight, Xor, Placed, Out;
  }

  lemma Back(n: Reg)
    requires n < 256
    ensures (n as nat) < 256 && (n as nat) as Reg == n
  {
  }

  lemma KeptBits(c: Reg, b: bv8)
    ensures ((c ^ (b as Reg)) & 0xff) == Out(Xor(c, Placed(b)))
  {
  }

  /** crc32(): the register after the buffer, for every seed. */
  method Checksum(seed: Reg, buf: seq<bv8>) returns (crc: Reg)
    ensures crc == Register(seed, buf)
  {
    crc := seed;
    var p, len := 0, |buf|;
    while len > 0
      invariant 0 <= p <= |buf| && p + len == |buf| && crc == Register(seed, buf[..p])
    {
      hide *;
      TableStep(crc, buf[p]);
      RegisterNext(seed, buf, p);
      crc := Xor(Table(Index(crc, buf[p])), Away(crc));
      p, len := p + 1, len - 1;
    }
    assert buf[..p] == buf;
  }

  lemma RegisterNext(seed: Reg, m: seq<bv8>, p: nat)
    requires p < |m|
    ensures Register(seed, m[..p + 1]) == FeedByte(Register(seed, m[..p]), m[p])
  {
    hide FeedByte;
    assert m[..p + 1][..p] == m[..p];
  }

  /** A buffer may be cut anywhere: the checksum of the first part is the seed of the second. */
  lemma {:induction false} RegisterParts(seed: Reg, a: seq<bv8>, b: seq<bv8>)
    ensures Register(seed, a + b) == Register(Register(seed, a), b)
    decreases |b|
  {
    hide FeedByte;
    if b == [] {
      assert a + b == a;
    } else {
      var k := |b| - 1;
      assert (a + b)[..|a + b| - 1] == a + b[..k];
      RegisterParts(seed, a, b[..k]);
    }
  }

  /** Bytewise sum of two messages of one length. */
  function Sum(a: seq<bv8>, b: seq<bv8>): (r: seq<bv8>)
    requires |a| == |b|
    ensures |r| == |a|
  {
    if a == [] then [] else Sum(a[..|a| - 1], b[..|b| - 1]) + [Plus(a[|a| - 1], b[|b| - 1])]
  }

  /** The checksum is linear in seed and message together. */
  lemma {:induction false} RegisterLinear(s: Reg, t: Reg, a: seq<bv8>, b: seq<bv8>)
    requires |a| == |b|
    ensures Register(Xor(s, t), Sum(a, b)) == Xor(Register(s, a), Register(t, b))
  {
    hide Eight, Xor, Placed, FeedByte, Plus;
    if a != [] {
      var k := |a| - 1;
      RegisterLinear(s, t, a[..k], b[..k]);
      assert Sum(a, b)[..k] == Sum(a[..k], b[..k]);
      FeedSum(Register(s, a[..k]), Register(t, b[..k]), a[k], b[k]);
    }
  }

  function Plus(a: bv8, b: bv8): bv8 { a ^ b }

  lemma FeedSum(c: Reg, d: Reg, a: bv8, b: bv8)
    ensures FeedByte(Xor(c, d), Plus(a, b)) == Xor(FeedByte(c, a), FeedByte(d, b))
  {
    hide *;
    FeedByteIs(c, a);
    FeedByteIs(d, b);
    FeedByteIs(Xor(c, d), Plus(a, b));
    PlacedSum(c, d, a, b);
    EightLinear(Xor(c, Placed(a)), Xor(d, Placed(b)));
  }

  lemma PlacedSum(c: Reg, d: Reg, a: bv8, b: bv8)
    ensures Xor(Xor(c, d), Placed(Plus(a, b))) == Xor(Xor(c, Placed(a)), Xor(d, Placed(b)))
  {
    SumBits(a, b);
    hide Xor, Placed, Plus;
    var p, q := Placed(a), Placed(b);
    PolyBits(Xor(c, d), p, q);
    PolyBits(c, d, p);
    PolyBits(Xor(c, p), d, q);
  }

  lemma SumBits(a: bv8, b: bv8)
    ensures Placed(Plus(a, b)) == Xor(Placed(a), Placed(b))
  {
  }
}
