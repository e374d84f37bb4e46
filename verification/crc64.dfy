/** crc64.c: the table-driven checksum against the bit-at-a-time shift register it stands for. */
module Crc64 {

  type Reg = bv64

  // ---------- the register ----------

  function Xor(a: Reg, b: Reg): Reg { a ^ b }
  function Double(c: Reg): Reg { c << 1 }
  function Top(c: Reg): bool { c & 0x8000000000000000 != 0 }

  /** One shift towards the high end; the polynomial is added when a one falls out. */
  function Shift(c: Reg): Reg {
    if c & 0x8000000000000000 != 0 then (c << 1) ^ 0x42f0e1eba9ea3693 else c << 1
  }

  /** One message bit enters at the high end; bytes enter high-order bit first. */
  function Feed(c: Reg, bit: bool): Reg { Shift(if bit then Xor(c, 0x8000000000000000) else c) }

  /** `n` bits of `v` enter one by one. */
  function FeedBits(c: Reg, v: Reg, n: nat): Reg
    decreases n
  {
    if n == 0 then c else FeedBits(Feed(c, Top(v)), Double(v), n - 1)
  }

  function Placed(b: bv8): Reg { (b as Reg) << 56 }

  function FeedByte(c: Reg, b: bv8): Reg { FeedBits(c, Placed(b), 8) }

  /** The register after a message. */
  function Register(seed: Reg, m: seq<bv8>): Reg {
    if m == [] then seed else FeedByte(Register(seed, m[..|m| - 1]), m[|m| - 1])
  }

  // ---------- the shift is linear ----------

  function Shifts(c: Reg, n: nat): Reg
    decreases n
  {
    if n == 0 then c else Shifts(Shift(c), n - 1)
  }

  function Doubles(v: Reg, n: nat): Reg
    decreases n
  {
    if n == 0 then v else Doubles(Double(v), n - 1)
  }

  /** Eight shifts. */
  function Eight(c: Reg): Reg { Shift(Shift(Shift(Shift(Shift(Shift(Shift(Shift(c)))))))) }

  lemma XorParts(a: Reg, b: Reg)
    ensures Double(Xor(a, b)) == Xor(Double(a), Double(b)) && Top(Xor(a, b)) == (Top(a) != Top(b))
  {
    DoubleBits(a, b);
    TopBits(a, b);
  }

  lemma DoubleBits(a: Reg, b: Reg)
    ensures Double(Xor(a, b)) == Xor(Double(a), Double(b))
  {
  }

  lemma TopBits(a: Reg, b: Reg)
    ensures Top(Xor(a, b)) == (Top(a) != Top(b))
  {
  }

  lemma XorIs(a: Reg, b: Reg)
    ensures Xor(a, b) == a ^ b
  {
  }

  lemma XorCancels(x: Reg, y: Reg, p: Reg)
    ensures Xor(x ^ p, y ^ p) == x ^ y
  {
  }

  lemma XorLeft(x: Reg, y: Reg, p: Reg)
    ensures Xor(x ^ p, y) == x ^ y ^ p
  {
  }

  lemma XorRight(x: Reg, y: Reg, p: Reg)
    ensures Xor(x, y ^ p) == x ^ y ^ p
  {
  }

  lemma XorNames(x: Reg, y: Reg, p: Reg) returns (xp: Reg, yp: Reg, xy: Reg, xyp: Reg)
    ensures Xor(x, p) == xp && Xor(y, p) == yp && Xor(x, y) == xy
    ensures Xor(xp, yp) == xy && Xor(xp, y) == xyp && Xor(x, yp) == xyp && Xor(xy, p) == xyp
  {
    hide Xor;
    xp, yp, xy, xyp := x ^ p, y ^ p, x ^ y, x ^ y ^ p;
    XorIs(x, p);
    XorIs(y, p);
    XorIs(x, y);
    XorCancels(x, y, p);
    XorLeft(x, y, p);
    XorRight(x, y, p);
    XorLeft(x, p, y);
  }

  lemma XorZero(a: Reg)
    ensures Xor(a, 0) == a
  {
  }

  lemma ShiftIs(c: Reg)
    ensures Shift(c) == if Top(c) then Xor(Double(c), 0x42f0e1eba9ea3693) else Double(c)
  {
  }

  lemma ShiftLinear(a: Reg, b: Reg)
    ensures Shift(Xor(a, b)) == Xor(Shift(a), Shift(b))
  {
    ShiftIs(a);
    ShiftIs(b);
    ShiftIs(Xor(a, b));
    XorParts(a, b);
    PolyBits(Double(a), Double(b), 0x42f0e1eba9ea3693);
    hide Shift, Xor, Double, Top;
  }

  lemma PolyBits(x: Reg, y: Reg, p: Reg)
    ensures Xor(Xor(x, p), Xor(y, p)) == Xor(x, y) && Xor(Xor(x, p), y) == Xor(Xor(x, y), p)
      && Xor(x, Xor(y, p)) == Xor(Xor(x, y), p)
  {
    hide Xor;
    var xp, yp, xy, xyp := XorNames(x, y, p);
  }

  /** A bit fed in is a shift of the register with all the remaining bits added beforehand. */
  lemma FeedDouble(c: Reg, v: Reg)
    ensures Shift(Xor(c, v)) == Xor(Feed(c, Top(v)), Double(v))
  {
    var w := if Top(v) then Xor(v, 0x8000000000000000) else v;
    var d := if Top(v) then Xor(c, 0x8000000000000000) else c;
    BottomBit(v);
    assert !Top(w) && Double(w) == Double(v);
    assert Feed(c, Top(v)) == Shift(d);
    ShiftLinear(d, w);
    ShiftIs(w);
    Moved(c, v, 0x8000000000000000);
    hide *;
  }

  lemma Moved(c: Reg, v: Reg, x: Reg)
    ensures Xor(Xor(c, x), Xor(v, x)) == Xor(c, v)
  {
    hide Xor;
    var cx, vx, cv, cvx := XorNames(c, v, x);
  }

  lemma BottomBit(v: Reg)
    ensures Double(Xor(v, 0x8000000000000000)) == Double(v) && Top(Xor(v, 0x8000000000000000)) == !Top(v)
  {
  }

  lemma {:induction false} FeedBitsIs(c: Reg, v: Reg, n: nat)
    ensures Shifts(Xor(c, v), n) == Xor(FeedBits(c, v, n), Doubles(v, n))
    decreases n
  {
    hide Xor, Feed, Top, Double, Shift;
    if n > 0 {
      FeedDouble(c, v);
      FeedBitsIs(Feed(c, Top(v)), Double(v), n - 1);
    }
  }

  lemma DoublesByte(b: bv8)
    ensures Doubles(Placed(b), 8) == 0
  {
    var v := Placed(b);
    DoublesEight(v);
    hide Doubles;
    DoubledOut(b);
  }

  lemma DoublesEight(v: Reg)
    ensures Doubles(v, 8) == Double(Double(Double(Double(Double(Double(Double(Double(v))))))))
  {
    hide Double;
    var v1 := Double(v);
    var v2 := Double(v1);
    var v3 := Double(v2);
    var v4 := Double(v3);
    var v5 := Double(v4);
    var v6 := Double(v5);
    var v7 := Double(v6);
    assert Doubles(v6, 2) == Double(v7) && Doubles(v4, 4) == Doubles(v6, 2) && Doubles(v2, 6) == Doubles(v4, 4);
  }

  lemma DoubledOut(b: bv8)
    ensures Double(Double(Double(Double(Double(Double(Double(Double(Placed(b))))))))) == 0
  {
  }

  lemma ShiftsEight(c: Reg)
    ensures Shifts(c, 8) == Eight(c)
  {
    hide Shift;
    var c1 := Shift(c);
    var c2 := Shift(c1);
    var c3 := Shift(c2);
    var c4 := Shift(c3);
    var c5 := Shift(c4);
    var c6 := Shift(c5);
    var c7 := Shift(c6);
    assert Shifts(c6, 2) == Shift(c7) && Shifts(c4, 4) == Shifts(c6, 2) && Shifts(c2, 6) == Shifts(c4, 4);
  }

  /** A byte fed in bit by bit: the byte added, then eight shifts. */
  lemma FeedByteIs(c: Reg, b: bv8)
    ensures FeedByte(c, b) == Eight(Xor(c, Placed(b)))
  {
    hide Eight, Xor, Placed;
    FeedBitsIs(c, Placed(b), 8);
    DoublesByte(b);
    ShiftsEight(Xor(c, Placed(b)));
    XorZero(FeedByte(c, b));
  }

  lemma EightLinear(a: Reg, b: Reg)
    ensures Eight(Xor(a, b)) == Xor(Eight(a), Eight(b))
  {
    var a1, b1 := Shift(a), Shift(b);
    var a2, b2 := Shift(a1), Shift(b1);
    var a3, b3 := Shift(a2), Shift(b2);
    var a4, b4 := Shift(a3), Shift(b3);
    var a5, b5 := Shift(a4), Shift(b4);
    var a6, b6 := Shift(a5), Shift(b5);
    var a7, b7 := Shift(a6), Shift(b6);
    assert Eight(a) == Shift(a7) && Eight(b) == Shift(b7);
    hide Shift, Xor;
    ShiftLinear(a, b);
    ShiftLinear(a1, b1);
    ShiftLinear(a2, b2);
    ShiftLinear(a3, b3);
    ShiftLinear(a4, b4);
    ShiftLinear(a5, b5);
    ShiftLinear(a6, b6);
    ShiftLinear(a7, b7);
  }

  /** Eight shifts of a register whose outgoing byte is zero only move it. */
  lemma EightMoves(x: Reg)
    requires Out(x) == 0
    ensures Eight(x) == Away(x)
  {
    var x1 := Double(x);
    var x2 := Double(x1);
    var x3 := Double(x2);
    var x4 := Double(x3);
    var x5 := Double(x4);
    var x6 := Double(x5);
    var x7 := Double(x6);
    assert Double(x7) == Away(x);
    assert !Top(x) && !Top(x1) && !Top(x2) && !Top(x3) && !Top(x4) && !Top(x5) && !Top(x6) && !Top(x7);
    hide Double, Top, Shift, Out, Away;
    ShiftIs(x);
    ShiftIs(x1);
    ShiftIs(x2);
    ShiftIs(x3);
    ShiftIs(x4);
    ShiftIs(x5);
    ShiftIs(x6);
    ShiftIs(x7);
  }

  /** The byte about to be shifted out, the rest, and where that ends up. */
  function Out(x: Reg): Reg { x & 0xff00000000000000 }
  function Rest(x: Reg): Reg { x & 0x00ffffffffffffff }
  function Away(x: Reg): Reg { x << 8 }

  // ---------- the table ----------

  /** The entry the table should have. */
  function Entry(i: nat): Reg { if i < 256 then Eight((i as Reg) << 56) else 0 }

  function Table(i: nat): Reg {
    match i / 16
    case 0 => Row(i % 16,
      0x0000000000000000, 0x42f0e1eba9ea3693, 0x85e1c3d753d46d26, 0xc711223cfa3e5bb5, 0x493366450e42ecdf,
        0x0bc387aea7a8da4c, 0xccd2a5925d9681f9, 0x8e224479f47cb76a,
      0x9266cc8a1c85d9be, 0xd0962d61b56fef2d, 0x17870f5d4f51b498, 0x5577eeb6e6bb820b, 0xdb55aacf12c73561,
        0x99a54b24bb2d03f2, 0x5eb4691841135847, 0x1c4488f3e8f96ed4)
    case 1 => Row(i % 16,
      0x663d78ff90e185ef, 0x24cd9914390bb37c, 0xe3dcbb28c335e8c9, 0xa12c5ac36adfde5a, 0x2f0e1eba9ea36930,
        0x6dfeff5137495fa3, 0xaaefdd6dcd770416, 0xe81f3c86649d3285,
      0xf45bb4758c645c51, 0xb6ab559e258e6ac2, 0x71ba77a2dfb03177, 0x334a9649765a07e4, 0xbd68d2308226b08e,
        0xff9833db2bcc861d, 0x388911e7d1f2dda8, 0x7a79f00c7818eb3b)
    case 2 => Row(i % 16,
      0xcc7af1ff21c30bde, 0x8e8a101488293d4d, 0x499b3228721766f8, 0x0b6bd3c3dbfd506b, 0x854997ba2f81e701,
        0xc7b97651866bd192, 0x00a8546d7c558a27, 0x4258b586d5bfbcb4,
      0x5e1c3d753d46d260, 0x1cecdc9e94ace4f3, 0xdbfdfea26e92bf46, 0x990d1f49c77889d5, 0x172f5b3033043ebf,
        0x55dfbadb9aee082c, 0x92ce98e760d05399, 0xd03e790cc93a650a)
    case 3 => Row(i % 16,
      0xaa478900b1228e31, 0xe8b768eb18c8b8a2, 0x2fa64ad7e2f6e317, 0x6d56ab3c4b1cd584, 0xe374ef45bf6062ee,
        0xa1840eae168a547d, 0x66952c92ecb40fc8, 0x2465cd79455e395b,
      0x3821458aada7578f, 0x7ad1a461044d611c, 0xbdc0865dfe733aa9, 0xff3067b657990c3a, 0x711223cfa3e5bb50,
        0x33e2c2240a0f8dc3, 0xf4f3e018f031d676, 0xb60301f359dbe0e5)
    case 4 => Row(i % 16,
      0xda050215ea6c212f, 0x98f5e3fe438617bc, 0x5fe4c1c2b9b84c09, 0x1d14202910527a9a, 0x93366450e42ecdf0,
        0xd1c685bb4dc4fb63, 0x16d7a787b7faa0d6, 0x5427466c1e109645,
      0x4863ce9ff6e9f891, 0x0a932f745f03ce02, 0xcd820d48a53d95b7, 0x8f72eca30cd7a324, 0x0150a8daf8ab144e,
        0x43a04931514122dd, 0x84b16b0dab7f7968, 0xc6418ae602954ffb)
    case 5 => Row(i % 16,
      0xbc387aea7a8da4c0, 0xfec89b01d3679253, 0x39d9b93d2959c9e6, 0x7b2958d680b3ff75, 0xf50b1caf74cf481f,
        0xb7fbfd44dd257e8c, 0x70eadf78271b2539, 0x321a3e938ef113aa,
      0x2e5eb66066087d7e, 0x6cae578bcfe24bed, 0xabbf75b735dc1058, 0xe94f945c9c3626cb, 0x676dd025684a91a1,
        0x259d31cec1a0a732, 0xe28c13f23b9efc87, 0xa07cf2199274ca14)
    case 6 => Row(i % 16,
      0x167ff3eacbaf2af1, 0x548f120162451c62, 0x939e303d987b47d7, 0xd16ed1d631917144, 0x5f4c95afc5edc62e,
        0x1dbc74446c07f0bd, 0xdaad56789639ab08, 0x985db7933fd39d9b,
      0x84193f60d72af34f, 0xc6e9de8b7ec0c5dc, 0x01f8fcb784fe9e69, 0x43081d5c2d14a8fa, 0xcd2a5925d9681f90,
        0x8fdab8ce70822903, 0x48cb9af28abc72b6, 0x0a3b7b1923564425)
    case 7 => Row(i % 16,
      0x70428b155b4eaf1e, 0x32b26afef2a4998d, 0xf5a348c2089ac238, 0xb753a929a170f4ab, 0x3971ed50550c43c1,
        0x7b810cbbfce67552, 0xbc902e8706d82ee7, 0xfe60cf6caf321874,
      0xe224479f47cb76a0, 0xa0d4a674ee214033, 0x67c58448141f1b86, 0x253565a3bdf52d15, 0xab1721da49899a7f,
        0xe9e7c031e063acec, 0x2ef6e20d1a5df759, 0x6c0603e6b3b7c1ca)
    case 8 => Row(i % 16,
      0xf6fae5c07d3274cd, 0xb40a042bd4d8425e, 0x731b26172ee619eb, 0x31ebc7fc870c2f78, 0xbfc9838573709812,
        0xfd39626eda9aae81, 0x3a28405220a4f534, 0x78d8a1b9894ec3a7,
      0x649c294a61b7ad73, 0x266cc8a1c85d9be0, 0xe17dea9d3263c055, 0xa38d0b769b89f6c6, 0x2daf4f0f6ff541ac,
        0x6f5faee4c61f773f, 0xa84e8cd83c212c8a, 0xeabe6d3395cb1a19)
    case 9 => Row(i % 16,
      0x90c79d3fedd3f122, 0xd2377cd44439c7b1, 0x15265ee8be079c04, 0x57d6bf0317edaa97, 0xd9f4fb7ae3911dfd,
        0x9b041a914a7b2b6e, 0x5c1538adb04570db, 0x1ee5d94619af4648,
      0x02a151b5f156289c, 0x4051b05e58bc1e0f, 0x87409262a28245ba, 0xc5b073890b687329, 0x4b9237f0ff14c443,
        0x0962d61b56fef2d0, 0xce73f427acc0a965, 0x8c8315cc052a9ff6)
    case 10 => Row(i % 16,
      0x3a80143f5cf17f13, 0x7870f5d4f51b4980, 0xbf61d7e80f251235, 0xfd913603a6cf24a6, 0x73b3727a52b393cc,
        0x31439391fb59a55f, 0xf652b1ad0167feea, 0xb4a25046a88dc879,
      0xa8e6d8b54074a6ad, 0xea16395ee99e903e, 0x2d071b6213a0cb8b, 0x6ff7fa89ba4afd18, 0xe1d5bef04e364a72,
        0xa3255f1be7dc7ce1, 0x64347d271de22754, 0x26c49cccb40811c7)
    case 11 => Row(i % 16,
      0x5cbd6cc0cc10fafc, 0x1e4d8d2b65facc6f, 0xd95caf179fc497da, 0x9bac4efc362ea149, 0x158e0a85c2521623,
        0x577eeb6e6bb820b0, 0x906fc95291867b05, 0xd29f28b9386c4d96,
      0xcedba04ad0952342, 0x8c2b41a1797f15d1, 0x4b3a639d83414e64, 0x09ca82762aab78f7, 0x87e8c60fded7cf9d,
        0xc51827e4773df90e, 0x020905d88d03a2bb, 0x40f9e43324e99428)
    case 12 => Row(i % 16,
      0x2cffe7d5975e55e2, 0x6e0f063e3eb46371, 0xa91e2402c48a38c4, 0xebeec5e96d600e57, 0x65cc8190991cb93d,
        0x273c607b30f68fae, 0xe02d4247cac8d41b, 0xa2dda3ac6322e288,
      0xbe992b5f8bdb8c5c, 0xfc69cab42231bacf, 0x3b78e888d80fe17a, 0x7988096371e5d7e9, 0xf7aa4d1a85996083,
        0xb55aacf12c735610, 0x724b8ecdd64d0da5, 0x30bb6f267fa73b36)
    case 13 => Row(i % 16,
      0x4ac29f2a07bfd00d, 0x08327ec1ae55e69e, 0xcf235cfd546bbd2b, 0x8dd3bd16fd818bb8, 0x03f1f96f09fd3cd2,
        0x41011884a0170a41, 0x86103ab85a2951f4, 0xc4e0db53f3c36767,
      0xd8a453a01b3a09b3, 0x9a54b24bb2d03f20, 0x5d45907748ee6495, 0x1fb5719ce1045206, 0x919735e51578e56c,
        0xd367d40ebc92d3ff, 0x1476f63246ac884a, 0x568617d9ef46bed9)
    case 14 => Row(i % 16,
      0xe085162ab69d5e3c, 0xa275f7c11f7768af, 0x6564d5fde549331a, 0x279434164ca30589, 0xa9b6706fb8dfb2e3,
        0xeb46918411358470, 0x2c57b3b8eb0bdfc5, 0x6ea7525342e1e956,
      0x72e3daa0aa188782, 0x30133b4b03f2b111, 0xf7021977f9cceaa4, 0xb5f2f89c5026dc37, 0x3bd0bce5a45a6b5d,
        0x79205d0e0db05dce, 0xbe317f32f78e067b, 0xfcc19ed95e6430e8)
    case 15 => Row(i % 16,
      0x86b86ed5267cdbd3, 0xc4488f3e8f96ed40, 0x0359ad0275a8b6f5, 0x41a94ce9dc428066, 0xcf8b0890283e370c,
        0x8d7be97b81d4019f, 0x4a6acb477bea5a2a, 0x089a2aacd2006cb9,
      0x14dea25f3af9026d, 0x562e43b4931334fe, 0x913f6188692d6f4b, 0xd3cf8063c0c759d8, 0x5dedc41a34bbeeb2,
        0x1f1d25f19d51d821, 0xd80c07cd676f8394, 0x9afce626ce85b507)
    case _ => 0
  }

  function Row<T>(q: nat, e0: T, e1: T, e2: T, e3: T, e4: T, e5: T, e6: T, e7: T, e8: T, e9: T, e10: T, e11: T, e12: T,
      e13: T, e14: T, e15: T): T {
    if q == 0 then e0 else if q == 1 then e1 else if q == 2 then e2 else if q == 3 then e3 else if q == 4 then e4
      else if q == 5 then e5 else if q == 6 then e6 else if q == 7 then e7
    else if q == 8 then e8 else if q == 9 then e9 else if q == 10 then e10 else if q == 11 then e11
      else if q == 12 then e12 else if q == 13 then e13 else if q == 14 then e14 else e15
  }

  lemma Pick<T>(f: nat -> T, i: nat, base: nat, e0: T, e1: T, e2: T, e3: T, e4: T, e5: T, e6: T, e7: T, e8: T, e9: T,
      e10: T, e11: T, e12: T, e13: T, e14: T, e15: T)
    requires base <= i < base + 16 && base % 16 == 0
    requires e0 == f(base + 0) && e1 == f(base + 1) && e2 == f(base + 2) && e3 == f(base + 3)
    requires e4 == f(base + 4) && e5 == f(base + 5) && e6 == f(base + 6) && e7 == f(base + 7)
    requires e8 == f(base + 8) && e9 == f(base + 9) && e10 == f(base + 10) && e11 == f(base + 11)
    requires e12 == f(base + 12) && e13 == f(base + 13) && e14 == f(base + 14) && e15 == f(base + 15)
    ensures Row(i % 16, e0, e1, e2, e3, e4, e5, e6, e7, e8, e9, e10, e11, e12, e13, e14, e15) == f(i)
  {
    assert i == base + i % 16;
  }

  lemma Row0(i: nat)
    requires i / 16 == 0
    ensures Table(i) == Entry(i)
  {
    Values0();
    hide Entry;
    Pick(Entry, i, 0,
      0x0000000000000000, 0x42f0e1eba9ea3693, 0x85e1c3d753d46d26, 0xc711223cfa3e5bb5, 0x493366450e42ecdf,
        0x0bc387aea7a8da4c, 0xccd2a5925d9681f9, 0x8e224479f47cb76a,
      0x9266cc8a1c85d9be, 0xd0962d61b56fef2d, 0x17870f5d4f51b498, 0x5577eeb6e6bb820b, 0xdb55aacf12c73561,
        0x99a54b24bb2d03f2, 0x5eb4691841135847, 0x1c4488f3e8f96ed4);
  }

  lemma Values0()
    ensures Entry(0) == 0x0000000000000000 && Entry(1) == 0x42f0e1eba9ea3693 && Entry(2) == 0x85e1c3d753d46d26
      && Entry(3) == 0xc711223cfa3e5bb5
    ensures Entry(4) == 0x493366450e42ecdf && Entry(5) == 0x0bc387aea7a8da4c && Entry(6) == 0xccd2a5925d9681f9
      && Entry(7) == 0x8e224479f47cb76a
    ensures Entry(8) == 0x9266cc8a1c85d9be && Entry(9) == 0xd0962d61b56fef2d && Entry(10) == 0x17870f5d4f51b498
      && Entry(11) == 0x5577eeb6e6bb820b
    ensures Entry(12) == 0xdb55aacf12c73561 && Entry(13) == 0x99a54b24bb2d03f2 && Entry(14) == 0x5eb4691841135847
      && Entry(15) == 0x1c4488f3e8f96ed4
  {
    Eights0();
    hide Eight;
  }

  lemma Eights0()
    ensures Eight(0x0000000000000000) == 0x0000000000000000 && Eight(0x0100000000000000) == 0x42f0e1eba9ea3693
      && Eight(0x0200000000000000) == 0x85e1c3d753d46d26 && Eight(0x0300000000000000) == 0xc711223cfa3e5bb5
    ensures Eight(0x0400000000000000) == 0x493366450e42ecdf && Eight(0x0500000000000000) == 0x0bc387aea7a8da4c
      && Eight(0x0600000000000000) == 0xccd2a5925d9681f9 && Eight(0x0700000000000000) == 0x8e224479f47cb76a
    ensures Eight(0x0800000000000000) == 0x9266cc8a1c85d9be && Eight(0x0900000000000000) == 0xd0962d61b56fef2d
      && Eight(0x0a00000000000000) == 0x17870f5d4f51b498 && Eight(0x0b00000000000000) == 0x5577eeb6e6bb820b
    ensures Eight(0x0c00000000000000) == 0xdb55aacf12c73561 && Eight(0x0d00000000000000) == 0x99a54b24bb2d03f2
      && Eight(0x0e00000000000000) == 0x5eb4691841135847 && Eight(0x0f00000000000000) == 0x1c4488f3e8f96ed4
  {
  }

  lemma Row1(i: nat)
    requires i / 16 == 1
    ensures Table(i) == Entry(i)
  {
    Values1();
    hide Entry;
    Pick(Entry, i, 16,
      0x663d78ff90e185ef, 0x24cd9914390bb37c, 0xe3dcbb28c335e8c9, 0xa12c5ac36adfde5a, 0x2f0e1eba9ea36930,
        0x6dfeff5137495fa3, 0xaaefdd6dcd770416, 0xe81f3c86649d3285,
      0xf45bb4758c645c51, 0xb6ab559e258e6ac2, 0x71ba77a2dfb03177, 0x334a9649765a07e4, 0xbd68d2308226b08e,
        0xff9833db2bcc861d, 0x388911e7d1f2dda8, 0x7a79f00c7818eb3b);
  }

  lemma Values1()
    ensures Entry(16) == 0x663d78ff90e185ef && Entry(17) == 0x24cd9914390bb37c && Entry(18) == 0xe3dcbb28c335e8c9
      && Entry(19) == 0xa12c5ac36adfde5a
    ensures Entry(20) == 0x2f0e1eba9ea36930 && Entry(21) == 0x6dfeff5137495fa3 && Entry(22) == 0xaaefdd6dcd770416
      && Entry(23) == 0xe81f3c86649d3285
    ensures Entry(24) == 0xf45bb4758c645c51 && Entry(25) == 0xb6ab559e258e6ac2 && Entry(26) == 0x71ba77a2dfb03177
      && Entry(27) == 0x334a9649765a07e4
    ensures Entry(28) == 0xbd68d2308226b08e && Entry(29) == 0xff9833db2bcc861d && Entry(30) == 0x388911e7d1f2dda8
      && Entry(31) == 0x7a79f00c7818eb3b
  {
    Eights1();
    hide Eight;
  }

  lemma Eights1()
    ensures Eight(0x1000000000000000) == 0x663d78ff90e185ef && Eight(0x1100000000000000) == 0x24cd9914390bb37c
      && Eight(0x1200000000000000) == 0xe3dcbb28c335e8c9 && Eight(0x1300000000000000) == 0xa12c5ac36adfde5a
    ensures Eight(0x1400000000000000) == 0x2f0e1eba9ea36930 && Eight(0x1500000000000000) == 0x6dfeff5137495fa3
      && Eight(0x1600000000000000) == 0xaaefdd6dcd770416 && Eight(0x1700000000000000) == 0xe81f3c86649d3285
    ensures Eight(0x1800000000000000) == 0xf45bb4758c645c51 && Eight(0x1900000000000000) == 0xb6ab559e258e6ac2
      && Eight(0x1a00000000000000) == 0x71ba77a2dfb03177 && Eight(0x1b00000000000000) == 0x334a9649765a07e4
    ensures Eight(0x1c00000000000000) == 0xbd68d2308226b08e && Eight(0x1d00000000000000) == 0xff9833db2bcc861d
      && Eight(0x1e00000000000000) == 0x388911e7d1f2dda8 && Eight(0x1f00000000000000) == 0x7a79f00c7818eb3b
  {
  }

  lemma Row2(i: nat)
    requires i / 16 == 2
    ensures Table(i) == Entry(i)
  {
    Values2();
    hide Entry;
    Pick(Entry, i, 32,
      0xcc7af1ff21c30bde, 0x8e8a101488293d4d, 0x499b3228721766f8, 0x0b6bd3c3dbfd506b, 0x854997ba2f81e701,
        0xc7b97651866bd192, 0x00a8546d7c558a27, 0x4258b586d5bfbcb4,
      0x5e1c3d753d46d260, 0x1cecdc9e94ace4f3, 0xdbfdfea26e92bf46, 0x990d1f49c77889d5, 0x172f5b3033043ebf,
        0x55dfbadb9aee082c, 0x92ce98e760d05399, 0xd03e790cc93a650a);
  }

  lemma Values2()
    ensures Entry(32) == 0xcc7af1ff21c30bde && Entry(33) == 0x8e8a101488293d4d && Entry(34) == 0x499b3228721766f8
      && Entry(35) == 0x0b6bd3c3dbfd506b
    ensures Entry(36) == 0x854997ba2f81e701 && Entry(37) == 0xc7b97651866bd192 && Entry(38) == 0x00a8546d7c558a27
      && Entry(39) == 0x4258b586d5bfbcb4
    ensures Entry(40) == 0x5e1c3d753d46d260 && Entry(41) == 0x1cecdc9e94ace4f3 && Entry(42) == 0xdbfdfea26e92bf46
      && Entry(43) == 0x990d1f49c77889d5
    ensures Entry(44) == 0x172f5b3033043ebf && Entry(45) == 0x55dfbadb9aee082c && Entry(46) == 0x92ce98e760d05399
      && Entry(47) == 0xd03e790cc93a650a
  {
    Eights2();
    hide Eight;
  }

  lemma Eights2()
    ensures Eight(0x2000000000000000) == 0xcc7af1ff21c30bde && Eight(0x2100000000000000) == 0x8e8a101488293d4d
      && Eight(0x2200000000000000) == 0x499b3228721766f8 && Eight(0x2300000000000000) == 0x0b6bd3c3dbfd506b
    ensures Eight(0x2400000000000000) == 0x854997ba2f81e701 && Eight(0x2500000000000000) == 0xc7b97651866bd192
      && Eight(0x2600000000000000) == 0x00a8546d7c558a27 && Eight(0x2700000000000000) == 0x4258b586d5bfbcb4
    ensures Eight(0x2800000000000000) == 0x5e1c3d753d46d260 && Eight(0x2900000000000000) == 0x1cecdc9e94ace4f3
      && Eight(0x2a00000000000000) == 0xdbfdfea26e92bf46 && Eight(0x2b00000000000000) == 0x990d1f49c77889d5
    ensures Eight(0x2c00000000000000) == 0x172f5b3033043ebf && Eight(0x2d00000000000000) == 0x55dfbadb9aee082c
      && Eight(0x2e00000000000000) == 0x92ce98e760d05399 && Eight(0x2f00000000000000) == 0xd03e790cc93a650a
  {
  }

  lemma Row3(i: nat)
    requires i / 16 == 3
    ensures Table(i) == Entry(i)
  {
    Values3();
    hide Entry;
    Pick(Entry, i, 48,
      0xaa478900b1228e31, 0xe8b768eb18c8b8a2, 0x2fa64ad7e2f6e317, 0x6d56ab3c4b1cd584, 0xe374ef45bf6062ee,
        0xa1840eae168a547d, 0x66952c92ecb40fc8, 0x2465cd79455e395b,
      0x3821458aada7578f, 0x7ad1a461044d611c, 0xbdc0865dfe733aa9, 0xff3067b657990c3a, 0x711223cfa3e5bb50,
        0x33e2c2240a0f8dc3, 0xf4f3e018f031d676, 0xb60301f359dbe0e5);
  }

  lemma Values3()
    ensures Entry(48) == 0xaa478900b1228e31 && Entry(49) == 0xe8b768eb18c8b8a2 && Entry(50) == 0x2fa64ad7e2f6e317
      && Entry(51) == 0x6d56ab3c4b1cd584
    ensures Entry(52) == 0xe374ef45bf6062ee && Entry(53) == 0xa1840eae168a547d && Entry(54) == 0x66952c92ecb40fc8
      && Entry(55) == 0x2465cd79455e395b
    ensures Entry(56) == 0x3821458aada7578f && Entry(57) == 0x7ad1a461044d611c && Entry(58) == 0xbdc0865dfe733aa9
      && Entry(59) == 0xff3067b657990c3a
    ensures Entry(60) == 0x711223cfa3e5bb50 && Entry(61) == 0x33e2c2240a0f8dc3 && Entry(62) == 0xf4f3e018f031d676
      && Entry(63) == 0xb60301f359dbe0e5
  {
    Eights3();
    hide Eight;
  }

  lemma Eights3()
    ensures Eight(0x3000000000000000) == 0xaa478900b1228e31 && Eight(0x3100000000000000) == 0xe8b768eb18c8b8a2
      && Eight(0x3200000000000000) == 0x2fa64ad7e2f6e317 && Eight(0x3300000000000000) == 0x6d56ab3c4b1cd584
    ensures Eight(0x3400000000000000) == 0xe374ef45bf6062ee && Eight(0x3500000000000000) == 0xa1840eae168a547d
      && Eight(0x3600000000000000) == 0x66952c92ecb40fc8 && Eight(0x3700000000000000) == 0x2465cd79455e395b
    ensures Eight(0x3800000000000000) == 0x3821458aada7578f && Eight(0x3900000000000000) == 0x7ad1a461044d611c
      && Eight(0x3a00000000000000) == 0xbdc0865dfe733aa9 && Eight(0x3b00000000000000) == 0xff3067b657990c3a
    ensures Eight(0x3c00000000000000) == 0x711223cfa3e5bb50 && Eight(0x3d00000000000000) == 0x33e2c2240a0f8dc3
      && Eight(0x3e00000000000000) == 0xf4f3e018f031d676 && Eight(0x3f00000000000000) == 0xb60301f359dbe0e5
  {
  }

  lemma Row4(i: nat)
    requires i / 16 == 4
    ensures Table(i) == Entry(i)
  {
    Values4();
    hide Entry;
    Pick(Entry, i, 64,
      0xda050215ea6c212f, 0x98f5e3fe438617bc, 0x5fe4c1c2b9b84c09, 0x1d14202910527a9a, 0x93366450e42ecdf0,
        0xd1c685bb4dc4fb63, 0x16d7a787b7faa0d6, 0x5427466c1e109645,
      0x4863ce9ff6e9f891, 0x0a932f745f03ce02, 0xcd820d48a53d95b7, 0x8f72eca30cd7a324, 0x0150a8daf8ab144e,
        0x43a04931514122dd, 0x84b16b0dab7f7968, 0xc6418ae602954ffb);
  }

  lemma Values4()
    ensures Entry(64) == 0xda050215ea6c212f && Entry(65) == 0x98f5e3fe438617bc && Entry(66) == 0x5fe4c1c2b9b84c09
      && Entry(67) == 0x1d14202910527a9a
    ensures Entry(68) == 0x93366450e42ecdf0 && Entry(69) == 0xd1c685bb4dc4fb63 && Entry(70) == 0x16d7a787b7faa0d6
      && Entry(71) == 0x5427466c1e109645
    ensures Entry(72) == 0x4863ce9ff6e9f891 && Entry(73) == 0x0a932f745f03ce02 && Entry(74) == 0xcd820d48a53d95b7
      && Entry(75) == 0x8f72eca30cd7a324
    ensures Entry(76) == 0x0150a8daf8ab144e && Entry(77) == 0x43a04931514122dd && Entry(78) == 0x84b16b0dab7f7968
      && Entry(79) == 0xc6418ae602954ffb
  {
    Eights4();
    hide Eight;
  }

  lemma Eights4()
    ensures Eight(0x4000000000000000) == 0xda050215ea6c212f && Eight(0x4100000000000000) == 0x98f5e3fe438617bc
      && Eight(0x4200000000000000) == 0x5fe4c1c2b9b84c09 && Eight(0x4300000000000000) == 0x1d14202910527a9a
    ensures Eight(0x4400000000000000) == 0x93366450e42ecdf0 && Eight(0x4500000000000000) == 0xd1c685bb4dc4fb63
      && Eight(0x4600000000000000) == 0x16d7a787b7faa0d6 && Eight(0x4700000000000000) == 0x5427466c1e109645
    ensures Eight(0x4800000000000000) == 0x4863ce9ff6e9f891 && Eight(0x4900000000000000) == 0x0a932f745f03ce02
      && Eight(0x4a00000000000000) == 0xcd820d48a53d95b7 && Eight(0x4b00000000000000) == 0x8f72eca30cd7a324
    ensures Eight(0x4c00000000000000) == 0x0150a8daf8ab144e && Eight(0x4d00000000000000) == 0x43a04931514122dd
      && Eight(0x4e00000000000000) == 0x84b16b0dab7f7968 && Eight(0x4f00000000000000) == 0xc6418ae602954ffb
  {
  }

  lemma Row5(i: nat)
    requires i / 16 == 5
    ensures Table(i) == Entry(i)
  {
    Values5();
    hide Entry;
    Pick(Entry, i, 80,
      0xbc387aea7a8da4c0, 0xfec89b01d3679253, 0x39d9b93d2959c9e6, 0x7b2958d680b3ff75, 0xf50b1caf74cf481f,
        0xb7fbfd44dd257e8c, 0x70eadf78271b2539, 0x321a3e938ef113aa,
      0x2e5eb66066087d7e, 0x6cae578bcfe24bed, 0xabbf75b735dc1058, 0xe94f945c9c3626cb, 0x676dd025684a91a1,
        0x259d31cec1a0a732, 0xe28c13f23b9efc87, 0xa07cf2199274ca14);
  }

  lemma Values5()
    ensures Entry(80) == 0xbc387aea7a8da4c0 && Entry(81) == 0xfec89b01d3679253 && Entry(82) == 0x39d9b93d2959c9e6
      && Entry(83) == 0x7b2958d680b3ff75
    ensures Entry(84) == 0xf50b1caf74cf481f && Entry(85) == 0xb7fbfd44dd257e8c && Entry(86) == 0x70eadf78271b2539
      && Entry(87) == 0x321a3e938ef113aa
    ensures Entry(88) == 0x2e5eb66066087d7e && Entry(89) == 0x6cae578bcfe24bed && Entry(90) == 0xabbf75b735dc1058
      && Entry(91) == 0xe94f945c9c3626cb
    ensures Entry(92) == 0x676dd025684a91a1 && Entry(93) == 0x259d31cec1a0a732 && Entry(94) == 0xe28c13f23b9efc87
      && Entry(95) == 0xa07cf2199274ca14
  {
    Eights5();
    hide Eight;
  }

  lemma Eights5()
    ensures Eight(0x5000000000000000) == 0xbc387aea7a8da4c0 && Eight(0x5100000000000000) == 0xfec89b01d3679253
      && Eight(0x5200000000000000) == 0x39d9b93d2959c9e6 && Eight(0x5300000000000000) == 0x7b2958d680b3ff75
    ensures Eight(0x5400000000000000) == 0xf50b1caf74cf481f && Eight(0x5500000000000000) == 0xb7fbfd44dd257e8c
      && Eight(0x5600000000000000) == 0x70eadf78271b2539 && Eight(0x5700000000000000) == 0x321a3e938ef113aa
    ensures Eight(0x5800000000000000) == 0x2e5eb66066087d7e && Eight(0x5900000000000000) == 0x6cae578bcfe24bed
      && Eight(0x5a00000000000000) == 0xabbf75b735dc1058 && Eight(0x5b00000000000000) == 0xe94f945c9c3626cb
    ensures Eight(0x5c00000000000000) == 0x676dd025684a91a1 && Eight(0x5d00000000000000) == 0x259d31cec1a0a732
      && Eight(0x5e00000000000000) == 0xe28c13f23b9efc87 && Eight(0x5f00000000000000) == 0xa07cf2199274ca14
  {
  }

  lemma Row6(i: nat)
    requires i / 16 == 6
    ensures Table(i) == Entry(i)
  {
    Values6();
    hide Entry;
    Pick(Entry, i, 96,
      0x167ff3eacbaf2af1, 0x548f120162451c62, 0x939e303d987b47d7, 0xd16ed1d631917144, 0x5f4c95afc5edc62e,
        0x1dbc74446c07f0bd, 0xdaad56789639ab08, 0x985db7933fd39d9b,
      0x84193f60d72af34f, 0xc6e9de8b7ec0c5dc, 0x01f8fcb784fe9e69, 0x43081d5c2d14a8fa, 0xcd2a5925d9681f90,
        0x8fdab8ce70822903, 0x48cb9af28abc72b6, 0x0a3b7b1923564425);
  }

  lemma Values6()
    ensures Entry(96) == 0x167ff3eacbaf2af1 && Entry(97) == 0x548f120162451c62 && Entry(98) == 0x939e303d987b47d7
      && Entry(99) == 0xd16ed1d631917144
    ensures Entry(100) == 0x5f4c95afc5edc62e && Entry(101) == 0x1dbc74446c07f0bd && Entry(102) == 0xdaad56789639ab08
      && Entry(103) == 0x985db7933fd39d9b
    ensures Entry(104) == 0x84193f60d72af34f && Entry(105) == 0xc6e9de8b7ec0c5dc && Entry(106) == 0x01f8fcb784fe9e69
      && Entry(107) == 0x43081d5c2d14a8fa
    ensures Entry(108) == 0xcd2a5925d9681f90 && Entry(109) == 0x8fdab8ce70822903 && Entry(110) == 0x48cb9af28abc72b6
      && Entry(111) == 0x0a3b7b1923564425
  {
    Eights6();
    hide Eight;
  }

  lemma Eights6()
    ensures Eight(0x6000000000000000) == 0x167ff3eacbaf2af1 && Eight(0x6100000000000000) == 0x548f120162451c62
      && Eight(0x6200000000000000) == 0x939e303d987b47d7 && Eight(0x6300000000000000) == 0xd16ed1d631917144
    ensures Eight(0x6400000000000000) == 0x5f4c95afc5edc62e && Eight(0x6500000000000000) == 0x1dbc74446c07f0bd
      && Eight(0x6600000000000000) == 0xdaad56789639ab08 && Eight(0x6700000000000000) == 0x985db7933fd39d9b
    ensures Eight(0x6800000000000000) == 0x84193f60d72af34f && Eight(0x6900000000000000) == 0xc6e9de8b7ec0c5dc
      && Eight(0x6a00000000000000) == 0x01f8fcb784fe9e69 && Eight(0x6b00000000000000) == 0x43081d5c2d14a8fa
    ensures Eight(0x6c00000000000000) == 0xcd2a5925d9681f90 && Eight(0x6d00000000000000) == 0x8fdab8ce70822903
      && Eight(0x6e00000000000000) == 0x48cb9af28abc72b6 && Eight(0x6f00000000000000) == 0x0a3b7b1923564425
  {
  }

  lemma Row7(i: nat)
    requires i / 16 == 7
    ensures Table(i) == Entry(i)
  {
    Values7();
    hide Entry;
    Pick(Entry, i, 112,
      0x70428b155b4eaf1e, 0x32b26afef2a4998d, 0xf5a348c2089ac238, 0xb753a929a170f4ab, 0x3971ed50550c43c1,
        0x7b810cbbfce67552, 0xbc902e8706d82ee7, 0xfe60cf6caf321874,
      0xe224479f47cb76a0, 0xa0d4a674ee214033, 0x67c58448141f1b86, 0x253565a3bdf52d15, 0xab1721da49899a7f,
        0xe9e7c031e063acec, 0x2ef6e20d1a5df759, 0x6c0603e6b3b7c1ca);
  }

  lemma Values7()
    ensures Entry(112) == 0x70428b155b4eaf1e && Entry(113) == 0x32b26afef2a4998d && Entry(114) == 0xf5a348c2089ac238
      && Entry(115) == 0xb753a929a170f4ab
    ensures Entry(116) == 0x3971ed50550c43c1 && Entry(117) == 0x7b810cbbfce67552 && Entry(118) == 0xbc902e8706d82ee7
      && Entry(119) == 0xfe60cf6caf321874
    ensures Entry(120) == 0xe224479f47cb76a0 && Entry(121) == 0xa0d4a674ee214033 && Entry(122) == 0x67c58448141f1b86
      && Entry(123) == 0x253565a3bdf52d15
    ensures Entry(124) == 0xab1721da49899a7f && Entry(125) == 0xe9e7c031e063acec && Entry(126) == 0x2ef6e20d1a5df759
      && Entry(127) == 0x6c0603e6b3b7c1ca
  {
    Eights7();
    hide Eight;
  }

  lemma Eights7()
    ensures Eight(0x7000000000000000) == 0x70428b155b4eaf1e && Eight(0x7100000000000000) == 0x32b26afef2a4998d
      && Eight(0x7200000000000000) == 0xf5a348c2089ac238 && Eight(0x7300000000000000) == 0xb753a929a170f4ab
    ensures Eight(0x7400000000000000) == 0x3971ed50550c43c1 && Eight(0x7500000000000000) == 0x7b810cbbfce67552
      && Eight(0x7600000000000000) == 0xbc902e8706d82ee7 && Eight(0x7700000000000000) == 0xfe60cf6caf321874
    ensures Eight(0x7800000000000000) == 0xe224479f47cb76a0 && Eight(0x7900000000000000) == 0xa0d4a674ee214033
      && Eight(0x7a00000000000000) == 0x67c58448141f1b86 && Eight(0x7b00000000000000) == 0x253565a3bdf52d15
    ensures Eight(0x7c00000000000000) == 0xab1721da49899a7f && Eight(0x7d00000000000000) == 0xe9e7c031e063acec
      && Eight(0x7e00000000000000) == 0x2ef6e20d1a5df759 && Eight(0x7f00000000000000) == 0x6c0603e6b3b7c1ca
  {
  }

  lemma Row8(i: nat)
    requires i / 16 == 8
    ensures Table(i) == Entry(i)
  {
    Values8();
    hide Entry;
    Pick(Entry, i, 128,
      0xf6fae5c07d3274cd, 0xb40a042bd4d8425e, 0x731b26172ee619eb, 0x31ebc7fc870c2f78, 0xbfc9838573709812,
        0xfd39626eda9aae81, 0x3a28405220a4f534, 0x78d8a1b9894ec3a7,
      0x649c294a61b7ad73, 0x266cc8a1c85d9be0, 0xe17dea9d3263c055, 0xa38d0b769b89f6c6, 0x2daf4f0f6ff541ac,
        0x6f5faee4c61f773f, 0xa84e8cd83c212c8a, 0xeabe6d3395cb1a19);
  }

  lemma Values8()
    ensures Entry(128) == 0xf6fae5c07d3274cd && Entry(129) == 0xb40a042bd4d8425e && Entry(130) == 0x731b26172ee619eb
      && Entry(131) == 0x31ebc7fc870c2f78
    ensures Entry(132) == 0xbfc9838573709812 && Entry(133) == 0xfd39626eda9aae81 && Entry(134) == 0x3a28405220a4f534
      && Entry(135) == 0x78d8a1b9894ec3a7
    ensures Entry(136) == 0x649c294a61b7ad73 && Entry(137) == 0x266cc8a1c85d9be0 && Entry(138) == 0xe17dea9d3263c055
      && Entry(139) == 0xa38d0b769b89f6c6
    ensures Entry(140) == 0x2daf4f0f6ff541ac && Entry(141) == 0x6f5faee4c61f773f && Entry(142) == 0xa84e8cd83c212c8a
      && Entry(143) == 0xeabe6d3395cb1a19
  {
    Eights8();
    hide Eight;
  }

  lemma Eights8()
    ensures Eight(0x8000000000000000) == 0xf6fae5c07d3274cd && Eight(0x8100000000000000) == 0xb40a042bd4d8425e
      && Eight(0x8200000000000000) == 0x731b26172ee619eb && Eight(0x8300000000000000) == 0x31ebc7fc870c2f78
    ensures Eight(0x8400000000000000) == 0xbfc9838573709812 && Eight(0x8500000000000000) == 0xfd39626eda9aae81
      && Eight(0x8600000000000000) == 0x3a28405220a4f534 && Eight(0x8700000000000000) == 0x78d8a1b9894ec3a7
    ensures Eight(0x8800000000000000) == 0x649c294a61b7ad73 && Eight(0x8900000000000000) == 0x266cc8a1c85d9be0
      && Eight(0x8a00000000000000) == 0xe17dea9d3263c055 && Eight(0x8b00000000000000) == 0xa38d0b769b89f6c6
    ensures Eight(0x8c00000000000000) == 0x2daf4f0f6ff541ac && Eight(0x8d00000000000000) == 0x6f5faee4c61f773f
      && Eight(0x8e00000000000000) == 0xa84e8cd83c212c8a && Eight(0x8f00000000000000) == 0xeabe6d3395cb1a19
  {
  }

  lemma Row9(i: nat)
    requires i / 16 == 9
    ensures Table(i) == Entry(i)
  {
    Values9();
    hide Entry;
    Pick(Entry, i, 144,
      0x90c79d3fedd3f122, 0xd2377cd44439c7b1, 0x15265ee8be079c04, 0x57d6bf0317edaa97, 0xd9f4fb7ae3911dfd,
        0x9b041a914a7b2b6e, 0x5c1538adb04570db, 0x1ee5d94619af4648,
      0x02a151b5f156289c, 0x4051b05e58bc1e0f, 0x87409262a28245ba, 0xc5b073890b687329, 0x4b9237f0ff14c443,
        0x0962d61b56fef2d0, 0xce73f427acc0a965, 0x8c8315cc052a9ff6);
  }

  lemma Values9()
    ensures Entry(144) == 0x90c79d3fedd3f122 && Entry(145) == 0xd2377cd44439c7b1 && Entry(146) == 0x15265ee8be079c04
      && Entry(147) == 0x57d6bf0317edaa97
    ensures Entry(148) == 0xd9f4fb7ae3911dfd && Entry(149) == 0x9b041a914a7b2b6e && Entry(150) == 0x5c1538adb04570db
      && Entry(151) == 0x1ee5d94619af4648
    ensures Entry(152) == 0x02a151b5f156289c && Entry(153) == 0x4051b05e58bc1e0f && Entry(154) == 0x87409262a28245ba
      && Entry(155) == 0xc5b073890b687329
    ensures Entry(156) == 0x4b9237f0ff14c443 && Entry(157) == 0x0962d61b56fef2d0 && Entry(158) == 0xce73f427acc0a965
      && Entry(159) == 0x8c8315cc052a9ff6
  {
    Eights9();
    hide Eight;
  }

  lemma Eights9()
    ensures Eight(0x9000000000000000) == 0x90c79d3fedd3f122 && Eight(0x9100000000000000) == 0xd2377cd44439c7b1
      && Eight(0x9200000000000000) == 0x15265ee8be079c04 && Eight(0x9300000000000000) == 0x57d6bf0317edaa97
    ensures Eight(0x9400000000000000) == 0xd9f4fb7ae3911dfd && Eight(0x9500000000000000) == 0x9b041a914a7b2b6e
      && Eight(0x9600000000000000) == 0x5c1538adb04570db && Eight(0x9700000000000000) == 0x1ee5d94619af4648
    ensures Eight(0x9800000000000000) == 0x02a151b5f156289c && Eight(0x9900000000000000) == 0x4051b05e58bc1e0f
      && Eight(0x9a00000000000000) == 0x87409262a28245ba && Eight(0x9b00000000000000) == 0xc5b073890b687329
    ensures Eight(0x9c00000000000000) == 0x4b9237f0ff14c443 && Eight(0x9d00000000000000) == 0x0962d61b56fef2d0
      && Eight(0x9e00000000000000) == 0xce73f427acc0a965 && Eight(0x9f00000000000000) == 0x8c8315cc052a9ff6
  {
  }

  lemma Row10(i: nat)
    requires i / 16 == 10
    ensures Table(i) == Entry(i)
  {
    Values10();
    hide Entry;
    Pick(Entry, i, 160,
      0x3a80143f5cf17f13, 0x7870f5d4f51b4980, 0xbf61d7e80f251235, 0xfd913603a6cf24a6, 0x73b3727a52b393cc,
        0x31439391fb59a55f, 0xf652b1ad0167feea, 0xb4a25046a88dc879,
      0xa8e6d8b54074a6ad, 0xea16395ee99e903e, 0x2d071b6213a0cb8b, 0x6ff7fa89ba4afd18, 0xe1d5bef04e364a72,
        0xa3255f1be7dc7ce1, 0x64347d271de22754, 0x26c49cccb40811c7);
  }

  lemma Values10()
    ensures Entry(160) == 0x3a80143f5cf17f13 && Entry(161) == 0x7870f5d4f51b4980 && Entry(162) == 0xbf61d7e80f251235
      && Entry(163) == 0xfd913603a6cf24a6
    ensures Entry(164) == 0x73b3727a52b393cc && Entry(165) == 0x31439391fb59a55f && Entry(166) == 0xf652b1ad0167feea
      && Entry(167) == 0xb4a25046a88dc879
    ensures Entry(168) == 0xa8e6d8b54074a6ad && Entry(169) == 0xea16395ee99e903e && Entry(170) == 0x2d071b6213a0cb8b
      && Entry(171) == 0x6ff7fa89ba4afd18
    ensures Entry(172) == 0xe1d5bef04e364a72 && Entry(173) == 0xa3255f1be7dc7ce1 && Entry(174) == 0x64347d271de22754
      && Entry(175) == 0x26c49cccb40811c7
  {
    Eights10();
    hide Eight;
  }

  lemma Eights10()
    ensures Eight(0xa000000000000000) == 0x3a80143f5cf17f13 && Eight(0xa100000000000000) == 0x7870f5d4f51b4980
      && Eight(0xa200000000000000) == 0xbf61d7e80f251235 && Eight(0xa300000000000000) == 0xfd913603a6cf24a6
    ensures Eight(0xa400000000000000) == 0x73b3727a52b393cc && Eight(0xa500000000000000) == 0x31439391fb59a55f
      && Eight(0xa600000000000000) == 0xf652b1ad0167feea && Eight(0xa700000000000000) == 0xb4a25046a88dc879
    ensures Eight(0xa800000000000000) == 0xa8e6d8b54074a6ad && Eight(0xa900000000000000) == 0xea16395ee99e903e
      && Eight(0xaa00000000000000) == 0x2d071b6213a0cb8b && Eight(0xab00000000000000) == 0x6ff7fa89ba4afd18
    ensures Eight(0xac00000000000000) == 0xe1d5bef04e364a72 && Eight(0xad00000000000000) == 0xa3255f1be7dc7ce1
      && Eight(0xae00000000000000) == 0x64347d271de22754 && Eight(0xaf00000000000000) == 0x26c49cccb40811c7
  {
  }

  lemma Row11(i: nat)
    requires i / 16 == 11
    ensures Table(i) == Entry(i)
  {
    Values11();
    hide Entry;
    Pick(Entry, i, 176,
      0x5cbd6cc0cc10fafc, 0x1e4d8d2b65facc6f, 0xd95caf179fc497da, 0x9bac4efc362ea149, 0x158e0a85c2521623,
        0x577eeb6e6bb820b0, 0x906fc95291867b05, 0xd29f28b9386c4d96,
      0xcedba04ad0952342, 0x8c2b41a1797f15d1, 0x4b3a639d83414e64, 0x09ca82762aab78f7, 0x87e8c60fded7cf9d,
        0xc51827e4773df90e, 0x020905d88d03a2bb, 0x40f9e43324e99428);
  }

  lemma Values11()
    ensures Entry(176) == 0x5cbd6cc0cc10fafc && Entry(177) == 0x1e4d8d2b65facc6f && Entry(178) == 0xd95caf179fc497da
      && Entry(179) == 0x9bac4efc362ea149
    ensures Entry(180) == 0x158e0a85c2521623 && Entry(181) == 0x577eeb6e6bb820b0 && Entry(182) == 0x906fc95291867b05
      && Entry(183) == 0xd29f28b9386c4d96
    ensures Entry(184) == 0xcedba04ad0952342 && Entry(185) == 0x8c2b41a1797f15d1 && Entry(186) == 0x4b3a639d83414e64
      && Entry(187) == 0x09ca82762aab78f7
    ensures Entry(188) == 0x87e8c60fded7cf9d && Entry(189) == 0xc51827e4773df90e && Entry(190) == 0x020905d88d03a2bb
      && Entry(191) == 0x40f9e43324e99428
  {
    Eights11();
    hide Eight;
  }

  lemma Eights11()
    ensures Eight(0xb000000000000000) == 0x5cbd6cc0cc10fafc && Eight(0xb100000000000000) == 0x1e4d8d2b65facc6f
      && Eight(0xb200000000000000) == 0xd95caf179fc497da && Eight(0xb300000000000000) == 0x9bac4efc362ea149
    ensures Eight(0xb400000000000000) == 0x158e0a85c2521623 && Eight(0xb500000000000000) == 0x577eeb6e6bb820b0
      && Eight(0xb600000000000000) == 0x906fc95291867b05 && Eight(0xb700000000000000) == 0xd29f28b9386c4d96
    ensures Eight(0xb800000000000000) == 0xcedba04ad0952342 && Eight(0xb900000000000000) == 0x8c2b41a1797f15d1
      && Eight(0xba00000000000000) == 0x4b3a639d83414e64 && Eight(0xbb00000000000000) == 0x09ca82762aab78f7
    ensures Eight(0xbc00000000000000) == 0x87e8c60fded7cf9d && Eight(0xbd00000000000000) == 0xc51827e4773df90e
      && Eight(0xbe00000000000000) == 0x020905d88d03a2bb && Eight(0xbf00000000000000) == 0x40f9e43324e99428
  {
  }

  lemma Row12(i: nat)
    requires i / 16 == 12
    ensures Table(i) == Entry(i)
  {
    Values12();
    hide Entry;
    Pick(Entry, i, 192,
      0x2cffe7d5975e55e2, 0x6e0f063e3eb46371, 0xa91e2402c48a38c4, 0xebeec5e96d600e57, 0x65cc8190991cb93d,
        0x273c607b30f68fae, 0xe02d4247cac8d41b, 0xa2dda3ac6322e288,
      0xbe992b5f8bdb8c5c, 0xfc69cab42231bacf, 0x3b78e888d80fe17a, 0x7988096371e5d7e9, 0xf7aa4d1a85996083,
        0xb55aacf12c735610, 0x724b8ecdd64d0da5, 0x30bb6f267fa73b36);
  }

  lemma Values12()
    ensures Entry(192) == 0x2cffe7d5975e55e2 && Entry(193) == 0x6e0f063e3eb46371 && Entry(194) == 0xa91e2402c48a38c4
      && Entry(195) == 0xebeec5e96d600e57
    ensures Entry(196) == 0x65cc8190991cb93d && Entry(197) == 0x273c607b30f68fae && Entry(198) == 0xe02d4247cac8d41b
      && Entry(199) == 0xa2dda3ac6322e288
    ensures Entry(200) == 0xbe992b5f8bdb8c5c && Entry(201) == 0xfc69cab42231bacf && Entry(202) == 0x3b78e888d80fe17a
      && Entry(203) == 0x7988096371e5d7e9
    ensures Entry(204) == 0xf7aa4d1a85996083 && Entry(205) == 0xb55aacf12c735610 && Entry(206) == 0x724b8ecdd64d0da5
      && Entry(207) == 0x30bb6f267fa73b36
  {
    Eights12();
    hide Eight;
  }

  lemma Eights12()
    ensures Eight(0xc000000000000000) == 0x2cffe7d5975e55e2 && Eight(0xc100000000000000) == 0x6e0f063e3eb46371
      && Eight(0xc200000000000000) == 0xa91e2402c48a38c4 && Eight(0xc300000000000000) == 0xebeec5e96d600e57
    ensures Eight(0xc400000000000000) == 0x65cc8190991cb93d && Eight(0xc500000000000000) == 0x273c607b30f68fae
      && Eight(0xc600000000000000) == 0xe02d4247cac8d41b && Eight(0xc700000000000000) == 0xa2dda3ac6322e288
    ensures Eight(0xc800000000000000) == 0xbe992b5f8bdb8c5c && Eight(0xc900000000000000) == 0xfc69cab42231bacf
      && Eight(0xca00000000000000) == 0x3b78e888d80fe17a && Eight(0xcb00000000000000) == 0x7988096371e5d7e9
    ensures Eight(0xcc00000000000000) == 0xf7aa4d1a85996083 && Eight(0xcd00000000000000) == 0xb55aacf12c735610
      && Eight(0xce00000000000000) == 0x724b8ecdd64d0da5 && Eight(0xcf00000000000000) == 0x30bb6f267fa73b36
  {
  }

  lemma Row13(i: nat)
    requires i / 16 == 13
    ensures Table(i) == Entry(i)
  {
    Values13();
    hide Entry;
    Pick(Entry, i, 208,
      0x4ac29f2a07bfd00d, 0x08327ec1ae55e69e, 0xcf235cfd546bbd2b, 0x8dd3bd16fd818bb8, 0x03f1f96f09fd3cd2,
        0x41011884a0170a41, 0x86103ab85a2951f4, 0xc4e0db53f3c36767,
      0xd8a453a01b3a09b3, 0x9a54b24bb2d03f20, 0x5d45907748ee6495, 0x1fb5719ce1045206, 0x919735e51578e56c,
        0xd367d40ebc92d3ff, 0x1476f63246ac884a, 0x568617d9ef46bed9);
  }

  lemma Values13()
    ensures Entry(208) == 0x4ac29f2a07bfd00d && Entry(209) == 0x08327ec1ae55e69e && Entry(210) == 0xcf235cfd546bbd2b
      && Entry(211) == 0x8dd3bd16fd818bb8
    ensures Entry(212) == 0x03f1f96f09fd3cd2 && Entry(213) == 0x41011884a0170a41 && Entry(214) == 0x86103ab85a2951f4
      && Entry(215) == 0xc4e0db53f3c36767
    ensures Entry(216) == 0xd8a453a01b3a09b3 && Entry(217) == 0x9a54b24bb2d03f20 && Entry(218) == 0x5d45907748ee6495
      && Entry(219) == 0x1fb5719ce1045206
    ensures Entry(220) == 0x919735e51578e56c && Entry(221) == 0xd367d40ebc92d3ff && Entry(222) == 0x1476f63246ac884a
      && Entry(223) == 0x568617d9ef46bed9
  {
    Eights13();
    hide Eight;
  }

  lemma Eights13()
    ensures Eight(0xd000000000000000) == 0x4ac29f2a07bfd00d && Eight(0xd100000000000000) == 0x08327ec1ae55e69e
      && Eight(0xd200000000000000) == 0xcf235cfd546bbd2b && Eight(0xd300000000000000) == 0x8dd3bd16fd818bb8
    ensures Eight(0xd400000000000000) == 0x03f1f96f09fd3cd2 && Eight(0xd500000000000000) == 0x41011884a0170a41
      && Eight(0xd600000000000000) == 0x86103ab85a2951f4 && Eight(0xd700000000000000) == 0xc4e0db53f3c36767
    ensures Eight(0xd800000000000000) == 0xd8a453a01b3a09b3 && Eight(0xd900000000000000) == 0x9a54b24bb2d03f20
      && Eight(0xda00000000000000) == 0x5d45907748ee6495 && Eight(0xdb00000000000000) == 0x1fb5719ce1045206
    ensures Eight(0xdc00000000000000) == 0x919735e51578e56c && Eight(0xdd00000000000000) == 0xd367d40ebc92d3ff
      && Eight(0xde00000000000000) == 0x1476f63246ac884a && Eight(0xdf00000000000000) == 0x568617d9ef46bed9
  {
  }

  lemma Row14(i: nat)
    requires i / 16 == 14
    ensures Table(i) == Entry(i)
  {
    Values14();
    hide Entry;
    Pick(Entry, i, 224,
      0xe085162ab69d5e3c, 0xa275f7c11f7768af, 0x6564d5fde549331a, 0x279434164ca30589, 0xa9b6706fb8dfb2e3,
        0xeb46918411358470, 0x2c57b3b8eb0bdfc5, 0x6ea7525342e1e956,
      0x72e3daa0aa188782, 0x30133b4b03f2b111, 0xf7021977f9cceaa4, 0xb5f2f89c5026dc37, 0x3bd0bce5a45a6b5d,
        0x79205d0e0db05dce, 0xbe317f32f78e067b, 0xfcc19ed95e6430e8);
  }

  lemma Values14()
    ensures Entry(224) == 0xe085162ab69d5e3c && Entry(225) == 0xa275f7c11f7768af && Entry(226) == 0x6564d5fde549331a
      && Entry(227) == 0x279434164ca30589
    ensures Entry(228) == 0xa9b6706fb8dfb2e3 && Entry(229) == 0xeb46918411358470 && Entry(230) == 0x2c57b3b8eb0bdfc5
      && Entry(231) == 0x6ea7525342e1e956
    ensures Entry(232) == 0x72e3daa0aa188782 && Entry(233) == 0x30133b4b03f2b111 && Entry(234) == 0xf7021977f9cceaa4
      && Entry(235) == 0xb5f2f89c5026dc37
    ensures Entry(236) == 0x3bd0bce5a45a6b5d && Entry(237) == 0x79205d0e0db05dce && Entry(238) == 0xbe317f32f78e067b
      && Entry(239) == 0xfcc19ed95e6430e8
  {
    Eights14();
    hide Eight;
  }

  lemma Eights14()
    ensures Eight(0xe000000000000000) == 0xe085162ab69d5e3c && Eight(0xe100000000000000) == 0xa275f7c11f7768af
      && Eight(0xe200000000000000) == 0x6564d5fde549331a && Eight(0xe300000000000000) == 0x279434164ca30589
    ensures Eight(0xe400000000000000) == 0xa9b6706fb8dfb2e3 && Eight(0xe500000000000000) == 0xeb46918411358470
      && Eight(0xe600000000000000) == 0x2c57b3b8eb0bdfc5 && Eight(0xe700000000000000) == 0x6ea7525342e1e956
    ensures Eight(0xe800000000000000) == 0x72e3daa0aa188782 && Eight(0xe900000000000000) == 0x30133b4b03f2b111
      && Eight(0xea00000000000000) == 0xf7021977f9cceaa4 && Eight(0xeb00000000000000) == 0xb5f2f89c5026dc37
    ensures Eight(0xec00000000000000) == 0x3bd0bce5a45a6b5d && Eight(0xed00000000000000) == 0x79205d0e0db05dce
      && Eight(0xee00000000000000) == 0xbe317f32f78e067b && Eight(0xef00000000000000) == 0xfcc19ed95e6430e8
  {
  }

  lemma Row15(i: nat)
    requires i / 16 == 15
    ensures Table(i) == Entry(i)
  {
    Values15();
    hide Entry;
    Pick(Entry, i, 240,
      0x86b86ed5267cdbd3, 0xc4488f3e8f96ed40, 0x0359ad0275a8b6f5, 0x41a94ce9dc428066, 0xcf8b0890283e370c,
        0x8d7be97b81d4019f, 0x4a6acb477bea5a2a, 0x089a2aacd2006cb9,
      0x14dea25f3af9026d, 0x562e43b4931334fe, 0x913f6188692d6f4b, 0xd3cf8063c0c759d8, 0x5dedc41a34bbeeb2,
        0x1f1d25f19d51d821, 0xd80c07cd676f8394, 0x9afce626ce85b507);
  }

  lemma Values15()
    ensures Entry(240) == 0x86b86ed5267cdbd3 && Entry(241) == 0xc4488f3e8f96ed40 && Entry(242) == 0x0359ad0275a8b6f5
      && Entry(243) == 0x41a94ce9dc428066
    ensures Entry(244) == 0xcf8b0890283e370c && Entry(245) == 0x8d7be97b81d4019f && Entry(246) == 0x4a6acb477bea5a2a
      && Entry(247) == 0x089a2aacd2006cb9
    ensures Entry(248) == 0x14dea25f3af9026d && Entry(249) == 0x562e43b4931334fe && Entry(250) == 0x913f6188692d6f4b
      && Entry(251) == 0xd3cf8063c0c759d8
    ensures Entry(252) == 0x5dedc41a34bbeeb2 && Entry(253) == 0x1f1d25f19d51d821 && Entry(254) == 0xd80c07cd676f8394
      && Entry(255) == 0x9afce626ce85b507
  {
    Eights15();
    hide Eight;
  }

  lemma Eights15()
    ensures Eight(0xf000000000000000) == 0x86b86ed5267cdbd3 && Eight(0xf100000000000000) == 0xc4488f3e8f96ed40
      && Eight(0xf200000000000000) == 0x0359ad0275a8b6f5 && Eight(0xf300000000000000) == 0x41a94ce9dc428066
    ensures Eight(0xf400000000000000) == 0xcf8b0890283e370c && Eight(0xf500000000000000) == 0x8d7be97b81d4019f
      && Eight(0xf600000000000000) == 0x4a6acb477bea5a2a && Eight(0xf700000000000000) == 0x089a2aacd2006cb9
    ensures Eight(0xf800000000000000) == 0x14dea25f3af9026d && Eight(0xf900000000000000) == 0x562e43b4931334fe
      && Eight(0xfa00000000000000) == 0x913f6188692d6f4b && Eight(0xfb00000000000000) == 0xd3cf8063c0c759d8
    ensures Eight(0xfc00000000000000) == 0x5dedc41a34bbeeb2 && Eight(0xfd00000000000000) == 0x1f1d25f19d51d821
      && Eight(0xfe00000000000000) == 0xd80c07cd676f8394 && Eight(0xff00000000000000) == 0x9afce626ce85b507
  {
  }

  /** Every entry of the table is eight shifts of its index. */
  lemma TableIs(i: nat)
    requires i < 256
    ensures Table(i) == Entry(i)
  {
    hide Table, Entry;
    match i / 16
    case 0 => Row0(i);
    case 1 => Row1(i);
    case 2 => Row2(i);
    case 3 => Row3(i);
    case 4 => Row4(i);
    case 5 => Row5(i);
    case 6 => Row6(i);
    case 7 => Row7(i);
    case 8 => Row8(i);
    case 9 => Row9(i);
    case 10 => Row10(i);
    case 11 => Row11(i);
    case 12 => Row12(i);
    case 13 => Row13(i);
    case 14 => Row14(i);
    case 15 => Row15(i);
  }

  // ---------- crc64.c ----------

  /** `((crc >> 56) ^ (b as Reg)) & 0xff` */
  function Index(crc: Reg, b: bv8): (i: nat)
    ensures i < 256
  {
    IndexFits(crc, b);
    (((crc >> 56) ^ (b as Reg)) & 0xff) as nat
  }

  lemma IndexFits(crc: Reg, b: bv8)
    ensures ((crc >> 56) ^ (b as Reg)) & 0xff < 256
  {
  }

  /** One table step is eight bit steps. */
  lemma TableStep(c: Reg, b: bv8)
    ensures Xor(Table(Index(c, b)), Away(c)) == FeedByte(c, b)
  {
    hide *;
    var x := Xor(c, Placed(b));
    FeedByteIs(c, b);
    SplitBits(x);
    MovedRest(c, b);
    EightLinear(Out(x), Rest(x));
    EightMoves(Rest(x));
    TableIs(Index(c, b));
    EntryIs(c, b);
  }

  lemma SplitBits(x: Reg)
    ensures x == Xor(Out(x), Rest(x)) && Out(Rest(x)) == 0
  {
  }

  lemma MovedRest(c: Reg, b: bv8)
    ensures Away(Rest(Xor(c, Placed(b)))) == Away(c)
  {
  }

  lemma EntryIs(c: Reg, b: bv8)
    ensures Entry(Index(c, b)) == Eight(Out(Xor(c, Placed(b))))
  {
    var n := ((c >> 56) ^ (b as Reg)) & 0xff;
    IndexFits(c, b);
    Back(n);
    assert Entry(Index(c, b)) == Eight(n << 56);
    KeptBits(c, b);
    hide Eight, Xor, Placed, Out;
  }

  lemma Back(n: Reg)
    requires n < 256
    ensures (n as nat) < 256 && (n as nat) as Reg == n
  {
  }

  lemma KeptBits(c: Reg, b: bv8)
    ensures (((c >> 56) ^ (b as Reg)) & 0xff) << 56 == Out(Xor(c, Placed(b)))
  {
  }

  /** crc64(): the register after the buffer, for every seed. */
  method Checksum(seed: Reg, buf: seq<bv8>) returns (crc: Reg)
    ensures crc == Register(seed, buf)
  {
    crc := seed;
    var p, len := 0, |buf|;
    while len > 0
      invariant 0 <= p <= |buf| && p + len == |buf| && crc == Register(seed, buf[..p])
    {
      hide *;
      TableStep(crc, buf[p]);
      RegisterNext(seed, buf, p);
      crc := Xor(Table(Index(crc, buf[p])), Away(crc));
      p, len := p + 1, len - 1;
    }
    assert buf[..p] == buf;
  }

  lemma RegisterNext(seed: Reg, m: seq<bv8>, p: nat)
    requires p < |m|
    ensures Register(seed, m[..p + 1]) == FeedByte(Register(seed, m[..p]), m[p])
  {
    hide FeedByte;
    assert m[..p + 1][..p] == m[..p];
  }

  /** A buffer may be cut anywhere: the checksum of the first part is the seed of the second. */
  lemma {:induction false} RegisterParts(seed: Reg, a: seq<bv8>, b: seq<bv8>)
    ensures Register(seed, a + b) == Register(Register(seed, a), b)
    decreases |b|
  {
    hide FeedByte;
    if b == [] {
      assert a + b == a;
    } else {
      var k := |b| - 1;
      assert (a + b)[..|a + b| - 1] == a + b[..k];
      RegisterParts(seed, a, b[..k]);
    }
  }

  /** Bytewise sum of two messages of one length. */
  function Sum(a: seq<bv8>, b: seq<bv8>): (r: seq<bv8>)
    requires |a| == |b|
    ensures |r| == |a|
  {
    if a == [] then [] else Sum(a[..|a| - 1], b[..|b| - 1]) + [Plus(a[|a| - 1], b[|b| - 1])]
  }

  /** The checksum is linear in seed and message together. */
  lemma {:induction false} RegisterLinear(s: Reg, t: Reg, a: seq<bv8>, b: seq<bv8>)
    requires |a| == |b|
    ensures Register(Xor(s, t), Sum(a, b)) == Xor(Register(s, a), Register(t, b))
  {
    hide Eight, Xor, Placed, FeedByte, Plus;
    if a != [] {
      var k := |a| - 1;
      RegisterLinear(s, t, a[..k], b[..k]);
      assert Sum(a, b)[..k] == Sum(a[..k], b[..k]);
      FeedSum(Register(s, a[..k]), Register(t, b[..k]), a[k], b[k]);
    }
  }

  function Plus(a: bv8, b: bv8): bv8 { a ^ b }

  lemma FeedSum(c: Reg, d: Reg, a: bv8, b: bv8)
    ensures FeedByte(Xor(c, d), Plus(a, b)) == Xor(FeedByte(c, a), FeedByte(d, b))
  {
    hide *;
    FeedByteIs(c, a);
    FeedByteIs(d, b);
    FeedByteIs(Xor(c, d), Plus(a, b));
    PlacedSum(c, d, a, b);
    EightLinear(Xor(c, Placed(a)), Xor(d, Placed(b)));
  }

  lemma PlacedSum(c: Reg, d: Reg, a: bv8, b: bv8)
    ensures Xor(Xor(c, d), Placed(Plus(a, b))) == Xor(Xor(c, Placed(a)), Xor(d, Placed(b)))
  {
    SumBits(a, b);
    hide Xor, Placed, Plus;
    var p, q := Placed(a), Placed(b);
    PolyBits(Xor(c, d), p, q);
    PolyBits(c, d, p);
    PolyBits(Xor(c, p), d, q);
  }

  lemma SumBits(a: bv8, b: bv8)
    ensures Placed(Plus(a, b)) == Xor(Placed(a), Placed(b))
  {
  }
}
