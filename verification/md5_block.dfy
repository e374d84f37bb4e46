/** MD5's block function (md5.c): MD5Transform() with its rotating register names and the shortened F1 to F4, against
    section 3.4 of RFC 1321 written as one loop of 64 steps. */
module Md5Block {

  type Word = bv32

  // ---------- RFC 1321, section 3.4 ----------

  function F(x: Word, y: Word, z: Word): Word { (x & y) | (!x & z) }
  function G(x: Word, y: Word, z: Word): Word { (x & z) | (y & !z) }
  function H(x: Word, y: Word, z: Word): Word { x ^ y ^ z }
  function I(x: Word, y: Word, z: Word): Word { y ^ (x | !z) }

  /** Addition modulo 2^32. */
  function Add(a: Word, b: Word): Word { a + b }

  function Rotl(w: Word, s: nat): Word
    requires s <= 32
  {
    (w << s) | (w >> (32 - s))
  }

  /** The function of each round. */
  function Mix(round: nat, x: Word, y: Word, z: Word): Word {
    if round == 0 then F(x, y, z) else if round == 1 then G(x, y, z) else if round == 2 then H(x, y, z) else I(x, y, z)
  }

  /** Which word of the block step `i` uses. */
  function Index(i: nat): (k: nat)
    ensures k < 16
  {
    var j := i % 16;
    if i < 16 then j else if i < 32 then (5 * j + 1) % 16 else if i < 48 then (3 * j + 5) % 16 else 7 * j % 16
  }

  /** By how much step `i` rotates. */
  function Shift(i: nat): (s: nat)
    ensures s <= 32
  {
    var q := i % 4;
    if i < 16 then (if q == 0 then 7 else if q == 1 then 12 else if q == 2 then 17 else 22)
    else if i < 32 then (if q == 0 then 5 else if q == 1 then 9 else if q == 2 then 14 else 20)
    else if i < 48 then (if q == 0 then 4 else if q == 1 then 11 else if q == 2 then 16 else 23)
    else if q == 0 then 6 else if q == 1 then 10 else if q == 2 then 15 else 21
  }

  /** The table T of the RFC, in rows of four. */
  function T(i: nat): Word {
    match i / 4
    case 0 => Row(i % 4, 0xd76aa478, 0xe8c7b756, 0x242070db, 0xc1bdceee)
    case 1 => Row(i % 4, 0xf57c0faf, 0x4787c62a, 0xa8304613, 0xfd469501)
    case 2 => Row(i % 4, 0x698098d8, 0x8b44f7af, 0xffff5bb1, 0x895cd7be)
    case 3 => Row(i % 4, 0x6b901122, 0xfd987193, 0xa679438e, 0x49b40821)
    case 4 => Row(i % 4, 0xf61e2562, 0xc040b340, 0x265e5a51, 0xe9b6c7aa)
    case 5 => Row(i % 4, 0xd62f105d, 0x02441453, 0xd8a1e681, 0xe7d3fbc8)
    case 6 => Row(i % 4, 0x21e1cde6, 0xc33707d6, 0xf4d50d87, 0x455a14ed)
    case 7 => Row(i % 4, 0xa9e3e905, 0xfcefa3f8, 0x676f02d9, 0x8d2a4c8a)
    case 8 => Row(i % 4, 0xfffa3942, 0x8771f681, 0x6d9d6122, 0xfde5380c)
    case 9 => Row(i % 4, 0xa4beea44, 0x4bdecfa9, 0xf6bb4b60, 0xbebfbc70)
    case 10 => Row(i % 4, 0x289b7ec6, 0xeaa127fa, 0xd4ef3085, 0x04881d05)
    case 11 => Row(i % 4, 0xd9d4d039, 0xe6db99e5, 0x1fa27cf8, 0xc4ac5665)
    case 12 => Row(i % 4, 0xf4292244, 0x432aff97, 0xab9423a7, 0xfc93a039)
    case 13 => Row(i % 4, 0x655b59c3, 0x8f0ccc92, 0xffeff47d, 0x85845dd1)
    case 14 => Row(i % 4, 0x6fa87e4f, 0xfe2ce6e0, 0xa3014314, 0x4e0811a1)
    case 15 => Row(i % 4, 0xf7537e82, 0xbd3af235, 0x2ad7d2bb, 0xeb86d391)
    case _ => 0
  }

  function Row(q: nat, a: Word, b: Word, c: Word, d: Word): Word {
    if q == 0 then a else if q == 1 then b else if q == 2 then c else d
  }

  datatype Regs = Regs(a: Word, b: Word, c: Word, d: Word)

  /** One operation: a = b + ((a + Mix(b,c,d) + X[k] + T[i]) <<< s); then the registers change places. */
  function Step(r: Regs, x: seq<Word>, i: nat): Regs
    requires |x| == 16
  {
    Regs(r.d, Add(r.b, Rotl(Add(Add(Add(r.a, Mix(i / 16, r.b, r.c, r.d)), x[Index(i)]), T(i)), Shift(i))), r.b, r.c)
  }

  /** Steps `lo` up to `hi`. */
  function Steps(r: Regs, x: seq<Word>, lo: int, hi: int): Regs
    requires |x| == 16 && 0 <= lo <= hi
    decreases hi - lo
  {
    if lo == hi then r else Steps(Step(r, x, lo), x, lo + 1, hi)
  }

  function AddRegs(r: Regs, s: Regs): Regs { Regs(Add(r.a, s.a), Add(r.b, s.b), Add(r.c, s.c), Add(r.d, s.d)) }

  const STEPS: int := 64

  /** The block function of the RFC. */
  function Compress(r: Regs, x: seq<Word>): Regs
    requires |x| == 16
  {
    AddRegs(r, Steps(r, x, 0, STEPS))
  }

  // ---------- md5.c ----------

  function F1(x: Word, y: Word, z: Word): Word { z ^ (x & (y ^ z)) }
  function F2(x: Word, y: Word, z: Word): Word { F1(z, x, y) }
  function F3(x: Word, y: Word, z: Word): Word { x ^ y ^ z }
  function F4(x: Word, y: Word, z: Word): Word { y ^ (x | !z) }

  lemma BitsF(x: bv32, y: bv32, z: bv32)
    ensures z ^ (x & (y ^ z)) == (x & y) | (!x & z)
  {
  }

  lemma BitsG(x: bv32, y: bv32, z: bv32)
    ensures y ^ (z & (x ^ y)) == (x & z) | (y & !z)
  {
  }

  lemma SameF(x: Word, y: Word, z: Word)
    ensures F1(x, y, z) == F(x, y, z)
  {
    BitsF(x, y, z);
  }

  lemma SameG(x: Word, y: Word, z: Word)
    ensures F2(x, y, z) == G(x, y, z)
  {
    BitsG(x, y, z);
  }

  /** The shortened functions are the RFC's. */
  lemma SameFunctions(f: nat, x: Word, y: Word, z: Word)
    requires 1 <= f <= 4
    ensures Choice(f, x, y, z) == Mix(f - 1, x, y, z)
  {
    hide F, G, H, I, F1, F2, F3, F4;
    SameF(x, y, z);
    SameG(x, y, z);
    SameHI(x, y, z);
  }

  lemma SameHI(x: Word, y: Word, z: Word)
    ensures F3(x, y, z) == H(x, y, z) && F4(x, y, z) == I(x, y, z)
  {
  }

  function Choice(f: nat, x: Word, y: Word, z: Word): Word {
    if f == 1 then F1(x, y, z) else if f == 2 then F2(x, y, z) else if f == 3 then F3(x, y, z) else F4(x, y, z)
  }

  /** MD5STEP(f, w, x, y, z, data, s) */
  function Md5Step(f: nat, w: Word, x: Word, y: Word, z: Word, data: Word, s: nat): Word
    requires s <= 32
  {
    var v := Add(w, Add(Choice(f, x, y, z), data));
    Add(Rotl(v, s), x)
  }

  lemma Md5StepIsStep(r: Regs, x: seq<Word>, i: nat, f: nat, data: Word, s: nat)
    requires |x| == 16 && i < 64 && f == i / 16 + 1 && data == Add(x[Index(i)], T(i)) && s == Shift(i)
    ensures Step(r, x, i) == Regs(r.d, Md5Step(f, r.a, r.b, r.c, r.d, data, s), r.b, r.c)
  {
    hide T, Index, Shift, Mix, Choice, Add, Rotl;
    SameFunctions(f, r.b, r.c, r.d);
    var m := Mix(f - 1, r.b, r.c, r.d);
    AddAssoc(r.a, m, x[Index(i)], T(i));
    AddComm(r.b, Rotl(Add(r.a, Add(m, data)), s));
  }

  lemma AddLeft(a: bv32, b: bv32, c: bv32)
    ensures Add(a + b, c) == a + b + c
  {
  }

  lemma AddRight(a: bv32, b: bv32, c: bv32)
    ensures Add(a, b + c) == a + b + c
  {
  }

  lemma AddIs(a: Word, b: Word)
    ensures Add(a, b) == a + b
  {
  }

  lemma AddParts(a: Word, b: Word, c: Word) returns (ab: Word, bc: Word, abc: Word)
    ensures Add(a, b) == ab && Add(b, c) == bc && Add(ab, c) == abc && Add(a, bc) == abc
  {
    hide Add;
    ab, bc, abc := a + b, b + c, a + b + c;
    AddIs(a, b);
    AddIs(b, c);
    AddLeft(a, b, c);
    AddRight(a, b, c);
  }

  lemma AddAssoc3(a: Word, b: Word, c: Word)
    ensures Add(Add(a, b), c) == Add(a, Add(b, c))
  {
    hide Add;
    var ab, bc, abc := AddParts(a, b, c);
  }

  lemma AddAssoc(a: Word, b: Word, c: Word, d: Word)
    ensures Add(Add(Add(a, b), c), d) == Add(a, Add(b, Add(c, d)))
  {
    hide Add;
    AddAssoc3(Add(a, b), c, d);
    AddAssoc3(a, b, Add(c, d));
  }

  lemma AddComm(a: Word, b: Word)
    ensures Add(a, b) == Add(b, a)
  {
  }

  /** One line of MD5Transform() is one step of the RFC, the registers bearing their names in turn. */
  lemma Line(r0: Regs, r: Regs, x: seq<Word>, lo: int, i: int, f: nat, data: Word, s: nat)
    requires |x| == 16 && 0 <= lo <= i < 64 && f == i / 16 + 1 && data == Add(x[Index(i)], T(i)) && s == Shift(i)
    requires r == Steps(r0, x, lo, i)
    ensures Steps(r0, x, lo, i + 1) == Regs(r.d, Md5Step(f, r.a, r.b, r.c, r.d, data, s), r.b, r.c)
  {
    hide Step, Md5Step, T, Index, Shift, Add;
    Md5StepIsStep(r, x, i, f, data, s);
    StepsSplit(r0, x, lo, i, i + 1);
    assert Steps(r, x, i, i + 1) == Step(r, x, i);
  }

  lemma {:induction false} StepsSplit(r: Regs, x: seq<Word>, lo: int, mid: int, hi: int)
    requires |x| == 16 && 0 <= lo <= mid <= hi
    ensures Steps(r, x, lo, hi) == Steps(Steps(r, x, lo, mid), x, mid, hi)
    decreases mid - lo
  {
    hide Step;
    if lo < mid { StepsSplit(Step(r, x, lo), x, lo + 1, mid, hi); }
  }

  method Lines0(a0: Word, b0: Word, c0: Word, d0: Word, x: seq<Word>) returns (a: Word, b: Word, c: Word, d: Word)
    requires |x| == 16
    ensures Regs(a, b, c, d) == Steps(Regs(a0, b0, c0, d0), x, 0, 4)
  {
    hide Steps, Md5Step, Step, Add;
    a, b, c, d := a0, b0, c0, d0;
    ghost var r := Regs(a, b, c, d);
    StepsNone(r, x, 0);
    Line(r, Regs(a, b, c, d), x, 0, 0, 1, Add(x[0], 0xd76aa478), 7);
    a := Md5Step(1, a, b, c, d, Add(x[0], 0xd76aa478), 7);
    Line(r, Regs(d, a, b, c), x, 0, 1, 1, Add(x[1], 0xe8c7b756), 12);
    d := Md5Step(1, d, a, b, c, Add(x[1], 0xe8c7b756), 12);
    Line(r, Regs(c, d, a, b), x, 0, 2, 1, Add(x[2], 0x242070db), 17);
    c := Md5Step(1, c, d, a, b, Add(x[2], 0x242070db), 17);
    Line(r, Regs(b, c, d, a), x, 0, 3, 1, Add(x[3], 0xc1bdceee), 22);
    b := Md5Step(1, b, c, d, a, Add(x[3], 0xc1bdceee), 22);
  }

  method Lines4(a0: Word, b0: Word, c0: Word, d0: Word, x: seq<Word>) returns (a: Word, b: Word, c: Word, d: Word)
    requires |x| == 16
    ensures Regs(a, b, c, d) == Steps(Regs(a0, b0, c0, d0), x, 4, 8)
  {
    hide Steps, Md5Step, Step, Add;
    a, b, c, d := a0, b0, c0, d0;
    ghost var r := Regs(a, b, c, d);
    StepsNone(r, x, 4);
    Line(r, Regs(a, b, c, d), x, 4, 4, 1, Add(x[4], 0xf57c0faf), 7);
    a := Md5Step(1, a, b, c, d, Add(x[4], 0xf57c0faf), 7);
    Line(r, Regs(d, a, b, c), x, 4, 5, 1, Add(x[5], 0x4787c62a), 12);
    d := Md5Step(1, d, a, b, c, Add(x[5], 0x4787c62a), 12);
    Line(r, Regs(c, d, a, b), x, 4, 6, 1, Add(x[6], 0xa8304613), 17);
    c := Md5Step(1, c, d, a, b, Add(x[6], 0xa8304613), 17);
    Line(r, Regs(b, c, d, a), x, 4, 7, 1, Add(x[7], 0xfd469501), 22);
    b := Md5Step(1, b, c, d, a, Add(x[7], 0xfd469501), 22);
  }

  method Lines8(a0: Word, b0: Word, c0: Word, d0: Word, x: seq<Word>) returns (a: Word, b: Word, c: Word, d: Word)
    requires |x| == 16
    ensures Regs(a, b, c, d) == Steps(Regs(a0, b0, c0, d0), x, 8, 12)
  {
    hide Steps, Md5Step, Step, Add;
    a, b, c, d := a0, b0, c0, d0;
    ghost var r := Regs(a, b, c, d);
    StepsNone(r, x, 8);
    Line(r, Regs(a, b, c, d), x, 8, 8, 1, Add(x[8], 0x698098d8), 7);
    a := Md5Step(1, a, b, c, d, Add(x[8], 0x698098d8), 7);
    Line(r, Regs(d, a, b, c), x, 8, 9, 1, Add(x[9], 0x8b44f7af), 12);
    d := Md5Step(1, d, a, b, c, Add(x[9], 0x8b44f7af), 12);
    Line(r, Regs(c, d, a, b), x, 8, 10, 1, Add(x[10], 0xffff5bb1), 17);
    c := Md5Step(1, c, d, a, b, Add(x[10], 0xffff5bb1), 17);
    Line(r, Regs(b, c, d, a), x, 8, 11, 1, Add(x[11], 0x895cd7be), 22);
    b := Md5Step(1, b, c, d, a, Add(x[11], 0x895cd7be), 22);
  }

  method Lines12(a0: Word, b0: Word, c0: Word, d0: Word, x: seq<Word>) returns (a: Word, b: Word, c: Word, d: Word)
    requires |x| == 16
    ensures Regs(a, b, c, d) == Steps(Regs(a0, b0, c0, d0), x, 12, 16)
  {
    hide Steps, Md5Step, Step, Add;
    a, b, c, d := a0, b0, c0, d0;
    ghost var r := Regs(a, b, c, d);
    StepsNone(r, x, 12);
    Line(r, Regs(a, b, c, d), x, 12, 12, 1, Add(x[12], 0x6b901122), 7);
    a := Md5Step(1, a, b, c, d, Add(x[12], 0x6b901122), 7);
    Line(r, Regs(d, a, b, c), x, 12, 13, 1, Add(x[13], 0xfd987193), 12);
    d := Md5Step(1, d, a, b, c, Add(x[13], 0xfd987193), 12);
    Line(r, Regs(c, d, a, b), x, 12, 14, 1, Add(x[14], 0xa679438e), 17);
    c := Md5Step(1, c, d, a, b, Add(x[14], 0xa679438e), 17);
    Line(r, Regs(b, c, d, a), x, 12, 15, 1, Add(x[15], 0x49b40821), 22);
    b := Md5Step(1, b, c, d, a, Add(x[15], 0x49b40821), 22);
  }

  method Lines16(a0: Word, b0: Word, c0: Word, d0: Word, x: seq<Word>) returns (a: Word, b: Word, c: Word, d: Word)
    requires |x| == 16
    ensures Regs(a, b, c, d) == Steps(Regs(a0, b0, c0, d0), x, 16, 20)
  {
    hide Steps, Md5Step, Step, Add;
    a, b, c, d := a0, b0, c0, d0;
    ghost var r := Regs(a, b, c, d);
    StepsNone(r, x, 16);
    Line(r, Regs(a, b, c, d), x, 16, 16, 2, Add(x[1], 0xf61e2562), 5);
    a := Md5Step(2, a, b, c, d, Add(x[1], 0xf61e2562), 5);
    Line(r, Regs(d, a, b, c), x, 16, 17, 2, Add(x[6], 0xc040b340), 9);
    d := Md5Step(2, d, a, b, c, Add(x[6], 0xc040b340), 9);
    Line(r, Regs(c, d, a, b), x, 16, 18, 2, Add(x[11], 0x265e5a51), 14);
    c := Md5Step(2, c, d, a, b, Add(x[11], 0x265e5a51), 14);
    Line(r, Regs(b, c, d, a), x, 16, 19, 2, Add(x[0], 0xe9b6c7aa), 20);
    b := Md5Step(2, b, c, d, a, Add(x[0], 0xe9b6c7aa), 20);
  }

  method Lines20(a0: Word, b0: Word, c0: Word, d0: Word, x: seq<Word>) returns (a: Word, b: Word, c: Word, d: Word)
    requires |x| == 16
    ensures Regs(a, b, c, d) == Steps(Regs(a0, b0, c0, d0), x, 20, 24)
  {
    hide Steps, Md5Step, Step, Add;
    a, b, c, d := a0, b0, c0, d0;
    ghost var r := Regs(a, b, c, d);
    StepsNone(r, x, 20);
    Line(r, Regs(a, b, c, d), x, 20, 20, 2, Add(x[5], 0xd62f105d), 5);
    a := Md5Step(2, a, b, c, d, Add(x[5], 0xd62f105d), 5);
    Line(r, Regs(d, a, b, c), x, 20, 21, 2, Add(x[10], 0x02441453), 9);
    d := Md5Step(2, d, a, b, c, Add(x[10], 0x02441453), 9);
    Line(r, Regs(c, d, a, b), x, 20, 22, 2, Add(x[15], 0xd8a1e681), 14);
    c := Md5Step(2, c, d, a, b, Add(x[15], 0xd8a1e681), 14);
    Line(r, Regs(b, c, d, a), x, 20, 23, 2, Add(x[4], 0xe7d3fbc8), 20);
    b := Md5Step(2, b, c, d, a, Add(x[4], 0xe7d3fbc8), 20);
  }

  method Lines24(a0: Word, b0: Word, c0: Word, d0: Word, x: seq<Word>) returns (a: Word, b: Word, c: Word, d: Word)
    requires |x| == 16
    ensures Regs(a, b, c, d) == Steps(Regs(a0, b0, c0, d0), x, 24, 28)
  {
    hide Steps, Md5Step, Step, Add;
    a, b, c, d := a0, b0, c0, d0;
    ghost var r := Regs(a, b, c, d);
    StepsNone(r, x, 24);
    Line(r, Regs(a, b, c, d), x, 24, 24, 2, Add(x[9], 0x21e1cde6), 5);
    a := Md5Step(2, a, b, c, d, Add(x[9], 0x21e1cde6), 5);
    Line(r, Regs(d, a, b, c), x, 24, 25, 2, Add(x[14], 0xc33707d6), 9);
    d := Md5Step(2, d, a, b, c, Add(x[14], 0xc33707d6), 9);
    Line(r, Regs(c, d, a, b), x, 24, 26, 2, Add(x[3], 0xf4d50d87), 14);
    c := Md5Step(2, c, d, a, b, Add(x[3], 0xf4d50d87), 14);
    Line(r, Regs(b, c, d, a), x, 24, 27, 2, Add(x[8], 0x455a14ed), 20);
    b := Md5Step(2, b, c, d, a, Add(x[8], 0x455a14ed), 20);
  }

  method Lines28(a0: Word, b0: Word, c0: Word, d0: Word, x: seq<Word>) returns (a: Word, b: Word, c: Word, d: Word)
    requires |x| == 16
    ensures Regs(a, b, c, d) == Steps(Regs(a0, b0, c0, d0), x, 28, 32)
  {
    hide Steps, Md5Step, Step, Add;
    a, b, c, d := a0, b0, c0, d0;
    ghost var r := Regs(a, b, c, d);
    StepsNone(r, x, 28);
    Line(r, Regs(a, b, c, d), x, 28, 28, 2, Add(x[13], 0xa9e3e905), 5);
    a := Md5Step(2, a, b, c, d, Add(x[13], 0xa9e3e905), 5);
    Line(r, Regs(d, a, b, c), x, 28, 29, 2, Add(x[2], 0xfcefa3f8), 9);
    d := Md5Step(2, d, a, b, c, Add(x[2], 0xfcefa3f8), 9);
    Line(r, Regs(c, d, a, b), x, 28, 30, 2, Add(x[7], 0x676f02d9), 14);
    c := Md5Step(2, c, d, a, b, Add(x[7], 0x676f02d9), 14);
    Line(r, Regs(b, c, d, a), x, 28, 31, 2, Add(x[12], 0x8d2a4c8a), 20);
    b := Md5Step(2, b, c, d, a, Add(x[12], 0x8d2a4c8a), 20);
  }

  method Lines32(a0: Word, b0: Word, c0: Word, d0: Word, x: seq<Word>) returns (a: Word, b: Word, c: Word, d: Word)
    requires |x| == 16
    ensures Regs(a, b, c, d) == Steps(Regs(a0, b0, c0, d0), x, 32, 36)
  {
    hide Steps, Md5Step, Step, Add;
    a, b, c, d := a0, b0, c0, d0;
    ghost var r := Regs(a, b, c, d);
    StepsNone(r, x, 32);
    Line(r, Regs(a, b, c, d), x, 32, 32, 3, Add(x[5], 0xfffa3942), 4);
    a := Md5Step(3, a, b, c, d, Add(x[5], 0xfffa3942), 4);
    Line(r, Regs(d, a, b, c), x, 32, 33, 3, Add(x[8], 0x8771f681), 11);
    d := Md5Step(3, d, a, b, c, Add(x[8], 0x8771f681), 11);
    Line(r, Regs(c, d, a, b), x, 32, 34, 3, Add(x[11], 0x6d9d6122), 16);
    c := Md5Step(3, c, d, a, b, Add(x[11], 0x6d9d6122), 16);
    Line(r, Regs(b, c, d, a), x, 32, 35, 3, Add(x[14], 0xfde5380c), 23);
    b := Md5Step(3, b, c, d, a, Add(x[14], 0xfde5380c), 23);
  }

  method Lines36(a0: Word, b0: Word, c0: Word, d0: Word, x: seq<Word>) returns (a: Word, b: Word, c: Word, d: Word)
    requires |x| == 16
    ensures Regs(a, b, c, d) == Steps(Regs(a0, b0, c0, d0), x, 36, 40)
  {
    hide Steps, Md5Step, Step, Add;
    a, b, c, d := a0, b0, c0, d0;
    ghost var r := Regs(a, b, c, d);
    StepsNone(r, x, 36);
    Line(r, Regs(a, b, c, d), x, 36, 36, 3, Add(x[1], 0xa4beea44), 4);
    a := Md5Step(3, a, b, c, d, Add(x[1], 0xa4beea44), 4);
    Line(r, Regs(d, a, b, c), x, 36, 37, 3, Add(x[4], 0x4bdecfa9), 11);
    d := Md5Step(3, d, a, b, c, Add(x[4], 0x4bdecfa9), 11);
    Line(r, Regs(c, d, a, b), x, 36, 38, 3, Add(x[7], 0xf6bb4b60), 16);
    c := Md5Step(3, c, d, a, b, Add(x[7], 0xf6bb4b60), 16);
    Line(r, Regs(b, c, d, a), x, 36, 39, 3, Add(x[10], 0xbebfbc70), 23);
    b := Md5Step(3, b, c, d, a, Add(x[10], 0xbebfbc70), 23);
  }

  method Lines40(a0: Word, b0: Word, c0: Word, d0: Word, x: seq<Word>) returns (a: Word, b: Word, c: Word, d: Word)
    requires |x| == 16
    ensures Regs(a, b, c, d) == Steps(Regs(a0, b0, c0, d0), x, 40, 44)
  {
    hide Steps, Md5Step, Step, Add;
    a, b, c, d := a0, b0, c0, d0;
    ghost var r := Regs(a, b, c, d);
    StepsNone(r, x, 40);
    Line(r, Regs(a, b, c, d), x, 40, 40, 3, Add(x[13], 0x289b7ec6), 4);
    a := Md5Step(3, a, b, c, d, Add(x[13], 0x289b7ec6), 4);
    Line(r, Regs(d, a, b, c), x, 40, 41, 3, Add(x[0], 0xeaa127fa), 11);
    d := Md5Step(3, d, a, b, c, Add(x[0], 0xeaa127fa), 11);
    Line(r, Regs(c, d, a, b), x, 40, 42, 3, Add(x[3], 0xd4ef3085), 16);
    c := Md5Step(3, c, d, a, b, Add(x[3], 0xd4ef3085), 16);
    Line(r, Regs(b, c, d, a), x, 40, 43, 3, Add(x[6], 0x04881d05), 23);
    b := Md5Step(3, b, c, d, a, Add(x[6], 0x04881d05), 23);
  }

  method Lines44(a0: Word, b0: Word, c0: Word, d0: Word, x: seq<Word>) returns (a: Word, b: Word, c: Word, d: Word)
    requires |x| == 16
    ensures Regs(a, b, c, d) == Steps(Regs(a0, b0, c0, d0), x, 44, 48)
  {
    hide Steps, Md5Step, Step, Add;
    a, b, c, d := a0, b0, c0, d0;
    ghost var r := Regs(a, b, c, d);
    StepsNone(r, x, 44);
    Line(r, Regs(a, b, c, d), x, 44, 44, 3, Add(x[9], 0xd9d4d039), 4);
    a := Md5Step(3, a, b, c, d, Add(x[9], 0xd9d4d039), 4);
    Line(r, Regs(d, a, b, c), x, 44, 45, 3, Add(x[12], 0xe6db99e5), 11);
    d := Md5Step(3, d, a, b, c, Add(x[12], 0xe6db99e5), 11);
    Line(r, Regs(c, d, a, b), x, 44, 46, 3, Add(x[15], 0x1fa27cf8), 16);
    c := Md5Step(3, c, d, a, b, Add(x[15], 0x1fa27cf8), 16);
    Line(r, Regs(b, c, d, a), x, 44, 47, 3, Add(x[2], 0xc4ac5665), 23);
    b := Md5Step(3, b, c, d, a, Add(x[2], 0xc4ac5665), 23);
  }

  method Lines48(a0: Word, b0: Word, c0: Word, d0: Word, x: seq<Word>) returns (a: Word, b: Word, c: Word, d: Word)
    requires |x| == 16
    ensures Regs(a, b, c, d) == Steps(Regs(a0, b0, c0, d0), x, 48, 52)
  {
    hide Steps, Md5Step, Step, Add;
    a, b, c, d := a0, b0, c0, d0;
    ghost var r := Regs(a, b, c, d);
    StepsNone(r, x, 48);
    Line(r, Regs(a, b, c, d), x, 48, 48, 4, Add(x[0], 0xf4292244), 6);
    a := Md5Step(4, a, b, c, d, Add(x[0], 0xf4292244), 6);
    Line(r, Regs(d, a, b, c), x, 48, 49, 4, Add(x[7], 0x432aff97), 10);
    d := Md5Step(4, d, a, b, c, Add(x[7], 0x432aff97), 10);
    Line(r, Regs(c, d, a, b), x, 48, 50, 4, Add(x[14], 0xab9423a7), 15);
    c := Md5Step(4, c, d, a, b, Add(x[14], 0xab9423a7), 15);
    Line(r, Regs(b, c, d, a), x, 48, 51, 4, Add(x[5], 0xfc93a039), 21);
    b := Md5Step(4, b, c, d, a, Add(x[5], 0xfc93a039), 21);
  }

  method Lines52(a0: Word, b0: Word, c0: Word, d0: Word, x: seq<Word>) returns (a: Word, b: Word, c: Word, d: Word)
    requires |x| == 16
    ensures Regs(a, b, c, d) == Steps(Regs(a0, b0, c0, d0), x, 52, 56)
  {
    hide Steps, Md5Step, Step, Add;
    a, b, c, d := a0, b0, c0, d0;
    ghost var r := Regs(a, b, c, d);
    StepsNone(r, x, 52);
    Line(r, Regs(a, b, c, d), x, 52, 52, 4, Add(x[12], 0x655b59c3), 6);
    a := Md5Step(4, a, b, c, d, Add(x[12], 0x655b59c3), 6);
    Line(r, Regs(d, a, b, c), x, 52, 53, 4, Add(x[3], 0x8f0ccc92), 10);
    d := Md5Step(4, d, a, b, c, Add(x[3], 0x8f0ccc92), 10);
    Line(r, Regs(c, d, a, b), x, 52, 54, 4, Add(x[10], 0xffeff47d), 15);
    c := Md5Step(4, c, d, a, b, Add(x[10], 0xffeff47d), 15);
    Line(r, Regs(b, c, d, a), x, 52, 55, 4, Add(x[1], 0x85845dd1), 21);
    b := Md5Step(4, b, c, d, a, Add(x[1], 0x85845dd1), 21);
  }

  method Lines56(a0: Word, b0: Word, c0: Word, d0: Word, x: seq<Word>) returns (a: Word, b: Word, c: Word, d: Word)
    requires |x| == 16
    ensures Regs(a, b, c, d) == Steps(Regs(a0, b0, c0, d0), x, 56, 60)
  {
    hide Steps, Md5Step, Step, Add;
    a, b, c, d := a0, b0, c0, d0;
    ghost var r := Regs(a, b, c, d);
    StepsNone(r, x, 56);
    Line(r, Regs(a, b, c, d), x, 56, 56, 4, Add(x[8], 0x6fa87e4f), 6);
    a := Md5Step(4, a, b, c, d, Add(x[8], 0x6fa87e4f), 6);
    Line(r, Regs(d, a, b, c), x, 56, 57, 4, Add(x[15], 0xfe2ce6e0), 10);
    d := Md5Step(4, d, a, b, c, Add(x[15], 0xfe2ce6e0), 10);
    Line(r, Regs(c, d, a, b), x, 56, 58, 4, Add(x[6], 0xa3014314), 15);
    c := Md5Step(4, c, d, a, b, Add(x[6], 0xa3014314), 15);
    Line(r, Regs(b, c, d, a), x, 56, 59, 4, Add(x[13], 0x4e0811a1), 21);
    b := Md5Step(4, b, c, d, a, Add(x[13], 0x4e0811a1), 21);
  }

  method Lines60(a0: Word, b0: Word, c0: Word, d0: Word, x: seq<Word>) returns (a: Word, b: Word, c: Word, d: Word)
    requires |x| == 16
    ensures Regs(a, b, c, d) == Steps(Regs(a0, b0, c0, d0), x, 60, 64)
  {
    hide Steps, Md5Step, Step, Add;
    a, b, c, d := a0, b0, c0, d0;
    ghost var r := Regs(a, b, c, d);
    StepsNone(r, x, 60);
    Line(r, Regs(a, b, c, d), x, 60, 60, 4, Add(x[4], 0xf7537e82), 6);
    a := Md5Step(4, a, b, c, d, Add(x[4], 0xf7537e82), 6);
    Line(r, Regs(d, a, b, c), x, 60, 61, 4, Add(x[11], 0xbd3af235), 10);
    d := Md5Step(4, d, a, b, c, Add(x[11], 0xbd3af235), 10);
    Line(r, Regs(c, d, a, b), x, 60, 62, 4, Add(x[2], 0x2ad7d2bb), 15);
    c := Md5Step(4, c, d, a, b, Add(x[2], 0x2ad7d2bb), 15);
    Line(r, Regs(b, c, d, a), x, 60, 63, 4, Add(x[9], 0xeb86d391), 21);
    b := Md5Step(4, b, c, d, a, Add(x[9], 0xeb86d391), 21);
  }

  /** The 64 lines. */
  method AllLines(a0: Word, b0: Word, c0: Word, d0: Word, x: seq<Word>) returns (a: Word, b: Word, c: Word, d: Word)
    requires |x| == 16
    ensures Regs(a, b, c, d) == Steps(Regs(a0, b0, c0, d0), x, 0, 64)
  {
    hide *;
    a, b, c, d := a0, b0, c0, d0;
    ghost var r := Regs(a, b, c, d);
    StepsNone(r, x, 0);
    a, b, c, d := Lines0(a, b, c, d, x);
    StepsSplit(r, x, 0, 0, 4);
    a, b, c, d := Lines4(a, b, c, d, x);
    StepsSplit(r, x, 0, 4, 8);
    a, b, c, d := Lines8(a, b, c, d, x);
    StepsSplit(r, x, 0, 8, 12);
    a, b, c, d := Lines12(a, b, c, d, x);
    StepsSplit(r, x, 0, 12, 16);
    a, b, c, d := Lines16(a, b, c, d, x);
    StepsSplit(r, x, 0, 16, 20);
    a, b, c, d := Lines20(a, b, c, d, x);
    StepsSplit(r, x, 0, 20, 24);
    a, b, c, d := Lines24(a, b, c, d, x);
    StepsSplit(r, x, 0, 24, 28);
    a, b, c, d := Lines28(a, b, c, d, x);
    StepsSplit(r, x, 0, 28, 32);
    a, b, c, d := Lines32(a, b, c, d, x);
    StepsSplit(r, x, 0, 32, 36);
    a, b, c, d := Lines36(a, b, c, d, x);
    StepsSplit(r, x, 0, 36, 40);
    a, b, c, d := Lines40(a, b, c, d, x);
    StepsSplit(r, x, 0, 40, 44);
    a, b, c, d := Lines44(a, b, c, d, x);
    StepsSplit(r, x, 0, 44, 48);
    a, b, c, d := Lines48(a, b, c, d, x);
    StepsSplit(r, x, 0, 48, 52);
    a, b, c, d := Lines52(a, b, c, d, x);
    StepsSplit(r, x, 0, 52, 56);
    a, b, c, d := Lines56(a, b, c, d, x);
    StepsSplit(r, x, 0, 56, 60);
    a, b, c, d := Lines60(a, b, c, d, x);
    StepsSplit(r, x, 0, 60, 64);
  }

  /** MD5Transform() */
  method Transform(buf: array<Word>, x: seq<Word>)
    requires buf.Length == 4 && |x| == 16
    modifies buf
    ensures RegsOf(buf[..]) == Compress(RegsOf(old(buf[..])), x)
  {
    hide *;
    ghost var was := buf[..];
    RegsAre(was);
    var a, b, c, d := AllLines(buf[0], buf[1], buf[2], buf[3], x);
    AddRegsIs(RegsOf(was), a, b, c, d, x);
    buf[0] := Add(buf[0], a);
    buf[1] := Add(buf[1], b);
    buf[2] := Add(buf[2], c);
    buf[3] := Add(buf[3], d);
    RegsAre(buf[..]);
  }

  function RegsOf(s: seq<Word>): Regs
    requires |s| == 4
  {
    Regs(s[0], s[1], s[2], s[3])
  }

  lemma RegsAre(s: seq<Word>)
    requires |s| == 4
    ensures RegsOf(s) == Regs(s[0], s[1], s[2], s[3])
  {
  }

  lemma StepsNone(r: Regs, x: seq<Word>, i: nat)
    requires |x| == 16
    ensures Steps(r, x, i, i) == r
  {
  }

  lemma AddRegsIs(r: Regs, a: Word, b: Word, c: Word, d: Word, x: seq<Word>)
    requires |x| == 16 && Regs(a, b, c, d) == Steps(r, x, 0, 64)
    ensures Compress(r, x) == Regs(Add(r.a, a), Add(r.b, b), Add(r.c, c), Add(r.d, d))
  {
    hide Add;
  }
}
