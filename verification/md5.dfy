/** MD5 over a stream (md5.c): MD5Init(), MD5Update() and MD5Final() against the one-shot digest of RFC 1321, on a
    little-endian machine. */
module Md5 {
  import opened Md5Block

  newtype byte = x: int | 0 <= x < 0x100

  const TWO29: nat := 0x2000_0000
  const TWO32: nat := 0x1_0000_0000
  const TWO64: nat := 0x1_0000_0000_0000_0000

  // ---------- RFC 1321, sections 3.1 to 3.5 ----------

  /** `k` bytes of a number, low-order byte first. */
  function LittleEndian(n: nat, k: nat): (r: seq<byte>)
    ensures |r| == k
  {
    if k == 0 then [] else [(n % 0x100) as byte] + LittleEndian(n / 0x100, k - 1)
  }

  /** A word from its four bytes, low-order byte first. */
  function WordAt(m: seq<byte>, i: nat): Word
    requires i + 4 <= |m|
  {
    Joined(m[i], m[i + 1], m[i + 2], m[i + 3]) as Word
  }

  function Joined(a: byte, b: byte, c: byte, d: byte): (n: nat)
    ensures n < TWO32
  {
    a as int + 0x100 * b as int + 0x1_0000 * c as int + 0x100_0000 * d as int
  }

  /** The sixteen words of a block. */
  function Words(m: seq<byte>): (w: seq<Word>)
    requires |m| == 64
    ensures |w| == 16
  {
    [WordAt(m, 0), WordAt(m, 4), WordAt(m, 8), WordAt(m, 12), WordAt(m, 16), WordAt(m, 20), WordAt(m, 24),
      WordAt(m, 28),
     WordAt(m, 32), WordAt(m, 36), WordAt(m, 40), WordAt(m, 44), WordAt(m, 48), WordAt(m, 52), WordAt(m, 56),
       WordAt(m, 60)]
  }

  /** The word's four bytes come back, low-order byte first (section 2 of RFC 1321). */
  lemma JoinedBytes(a: byte, b: byte, c: byte, d: byte)
    ensures LittleEndian(Joined(a, b, c, d), 4) == [a, b, c, d]
  {
    var n := Joined(a, b, c, d);
    assert n / 0x100 == b as nat + 0x100 * c as nat + 0x1_0000 * d as nat;
    assert n / 0x100 / 0x100 == c as nat + 0x100 * d as nat;
    assert LittleEndian(d as nat, 1) == [d];
    assert LittleEndian(c as nat + 0x100 * d as nat, 2) == [c, d];
    assert LittleEndian(b as nat + 0x100 * c as nat + 0x1_0000 * d as nat, 3) == [b, c, d];
  }

  const INIT: Regs := Regs(0x67452301, 0xefcdab89, 0x98badcfe, 0x10325476)

  /** The registers after every full block of `m`. */
  function Chain(r: Regs, m: seq<byte>): Regs
    decreases |m|
  {
    if |m| < 64 then r else Chain(Compress(r, Words(m[..64])), m[64..])
  }

  /** How many zero bytes follow the 0x80 so that 8 bytes remain in the last block. */
  function Zeros(n: nat): (k: nat)
    ensures k < 64 && (n + 1 + k + 8) % 64 == 0
  {
    (119 - n % 64) % 64
  }

  /** The length in bits, modulo 2^64. */
  function LengthField(n: nat): (r: seq<byte>)
    ensures |r| == 8
  {
    LittleEndian(8 * n % TWO64, 8)
  }

  /** The message with its padding and its length in bits. */
  function Padded(m: seq<byte>): (p: seq<byte>)
    ensures |p| % 64 == 0
  {
    m + ([0x80] + Blank(Zeros(|m|)) + LengthField(|m|))
  }

  function DigestBytes(r: Regs): seq<byte> {
    LittleEndian(r.a as int, 4) + LittleEndian(r.b as int, 4) + LittleEndian(r.c as int, 4)
      + LittleEndian(r.d as int, 4)
  }

  /** The MD5 digest of a message. */
  function Digest(m: seq<byte>): seq<byte> { DigestBytes(Full(Padded(m))) }

  lemma {:induction false} ChainParts(r: Regs, a: seq<byte>, b: seq<byte>)
    requires |a| % 64 == 0
    ensures Chain(r, a + b) == Chain(Chain(r, a), b)
    decreases |a|
  {
    hide Compress, Words;
    if |a| < 64 {
      assert a == [] && a + b == b;
    } else {
      assert (a + b)[..64] == a[..64] && (a + b)[64..] == a[64..] + b;
      ChainParts(Compress(r, Words(a[..64])), a[64..], b);
    }
  }

  lemma ChainOne(r: Regs, block: seq<byte>)
    requires |block| == 64
    ensures Chain(r, block) == Compress(r, Words(block))
  {
    hide Compress, Words;
    assert block[..64] == block && block[64..] == [];
  }

  /** The registers after the full blocks of a message. */
  function Full(m: seq<byte>): Regs { Chain(INIT, m) }

  lemma DigestIs(m: seq<byte>)
    ensures Digest(m) == DigestBytes(Full(Padded(m)))
  {
    hide Full, Padded, DigestBytes;
  }

  lemma FullNext(a: seq<byte>, block: seq<byte>)
    requires |a| % 64 == 0 && |block| == 64
    ensures Full(a + block) == Compress(Full(a), Words(block))
  {
    hide Compress, Words;
    ChainParts(INIT, a, block);
    ChainOne(Chain(INIT, a), block);
  }

  // ---------- md5.c ----------

  /** memcpy() */
  method Copy(dst: array<byte>, at: nat, src: seq<byte>)
    requires at + |src| <= dst.Length
    modifies dst
    ensures dst[..] == old(dst[..at]) + src + old(dst[at + |src|..])
  {
    for i := 0 to |src|
      invariant forall k :: 0 <= k < dst.Length ==> dst[k] == if at <= k < at + i then src[k - at] else old(dst[k])
    {
      dst[at + i] := src[i];
    }
  }

  /** memset(dst + at, 0, n) */
  method Clear(dst: array<byte>, at: nat, n: nat)
    requires at + n <= dst.Length
    modifies dst
    ensures dst[..] == old(dst[..at]) + Blank(n) + old(dst[at + n..])
  {
    for i := 0 to n
      invariant forall k :: 0 <= k < dst.Length ==> dst[k] == if at <= k < at + i then 0 else old(dst[k])
    {
      dst[at + i] := 0;
    }
  }

  function Blank(n: nat): (r: seq<byte>)
    ensures |r| == n && forall i :: 0 <= i < n ==> r[i] == 0
  {
    seq(n, _ => 0)
  }

  /** The two counter words after `n` bytes: 8 n modulo 2^64. */
  ghost predicate Counts(low: nat, high: nat, n: nat) {
    low < TWO32 && high < TWO32 && low + high * TWO32 == 8 * n % TWO64
  }

  class Context {
    const buf: array<Word>
    var low: nat
    var high: nat
    const input: array<byte>
    /** everything passed to MD5Update() so far */
    ghost var msg: seq<byte>

    ghost predicate Valid()
      reads this, buf, input
    {
      && buf.Length == 4 && input.Length == 64
      && Counts(low, high, |msg|)
      && Held(RegsOf(buf[..]), input[..], msg)
    }

    /** MD5Init() */
    constructor ()
      ensures Valid() && msg == [] && fresh(buf) && fresh(input)
    {
      buf, input := new Word[4], new byte[64];
      low, high, msg := 0, 0, [];
      new;
      buf[0], buf[1], buf[2], buf[3] := 0x67452301, 0xefcdab89, 0x98badcfe, 0x10325476;
    }

    /** MD5Update(): the context comes to stand for the longer message. */
    method Update(data: seq<byte>)
      requires Valid() && |data| < TWO32
      modifies this, buf, input
      ensures Valid() && msg == old(msg) + data
    {
      hide *;
      ghost var before, was := msg, input[..];
      ValidParts();
      HeldParts(RegsOf(buf[..]), input[..], msg);
      Offset(low, high, |msg|);
      var t := low / 8 % 64;
      low, high := CountBits(low, high, |data|, |msg|);
      msg := msg + data;
      if t != 0 && |data| < 64 - t {
        Copy(input, t, data);
        HeldMore(RegsOf(buf[..]), input[..], was, before, data);
        ValidIs();
        return;
      }
      AtOffset(before, data, t);
      var pos := Lead(data, t, before);
      Blocks(data, pos, |before|);
    }

    /** The leading odd-sized chunk. */
    method Lead(data: seq<byte>, t: nat, ghost before: seq<byte>) returns (pos: nat)
      requires buf.Length == 4 && input.Length == 64 && msg == before + data && t == |before| % 64
      requires RegsOf(buf[..]) == Full(Head(before)) && input[..|Tail(before)|] == Tail(before)
        && (t != 0 ==> |data| >= 64 - t)
      modifies buf, input
      ensures pos <= |data| && (|before| + pos) % 64 == 0 && RegsOf(buf[..]) == Full(msg[..|before| + pos])
    {
      hide *;
      AtOffset(before, data, t);
      pos := 0;
      if t != 0 {
        pos := 64 - t;
        FirstBlock(before, data, input[..]);
        Block(data[..pos], t, msg, |before| - t);
      }
    }

    /** The 64-byte chunks and the remaining bytes. */
    method Blocks(data: seq<byte>, pos0: nat, ghost n: nat)
      requires buf.Length == 4 && input.Length == 64 && Counts(low, high, |msg|)
      requires n <= |msg| && msg[n..] == data && pos0 <= |data| && (n + pos0) % 64 == 0
      requires RegsOf(buf[..]) == Full(msg[..n + pos0])
      modifies buf, input
      ensures Valid()
    {
      hide *;
      var pos := pos0;
      while |data| - pos >= 64
        invariant pos <= |data| && (n + pos) % 64 == 0
        invariant RegsOf(buf[..]) == Full(msg[..n + pos])
      {
        DataBlock(msg, n, data, pos, input[..]);
        Block(data[pos..pos + 64], 0, msg, n + pos);
        pos := pos + 64;
      }
      ghost var was := input[..];
      Copy(input, 0, data[pos..]);
      RestCopied(input[..], was, data[pos..]);
      assert msg[n + pos..] == data[pos..];
      HeldRest(RegsOf(buf[..]), input[..], msg, n + pos, data[pos..]);
      ValidIs();
    }

    /** memcpy() of what completes the input block, then MD5Transform(). */
    method Block(data: seq<byte>, t: nat, ghost all: seq<byte>, ghost at: nat)
      requires buf.Length == 4 && input.Length == 64 && t + |data| == 64
      requires at % 64 == 0 && at + 64 <= |all| && all[at..at + 64] == input[..t] + data
      requires RegsOf(buf[..]) == Full(all[..at])
      modifies buf, input
      ensures RegsOf(buf[..]) == Full(all[..at + 64])
    {
      hide *;
      Copy(input, t, data);
      assert input[..] == all[at..at + 64];
      Absorb(all, at);
    }

    /** MD5Transform() of the input block. */
    method Absorb(ghost all: seq<byte>, ghost at: nat)
      requires buf.Length == 4 && input.Length == 64
      requires at % 64 == 0 && at + 64 <= |all| && all[at..at + 64] == input[..]
      requires RegsOf(buf[..]) == Full(all[..at])
      modifies buf
      ensures RegsOf(buf[..]) == Full(all[..at + 64])
    {
      hide *;
      NextBlock(all, at);
      Transform(buf, Words(input[..]));
    }

    /** MD5Final(): the digest of everything passed to MD5Update(). */
    method Final() returns (digest: seq<byte>)
      requires Valid()
      modifies this, buf, input
      ensures digest == Digest(msg) && msg == old(msg)
    {
      hide *;
      ghost var all, h, e, m := Padded(msg), |Head(msg)|, |ExtraBlock(msg)|, msg;
      ValidParts();
      HeldParts(RegsOf(buf[..]), input[..], m);
      Offset(low, high, |m|);
      PaddedBlocks(m, low, high);
      HeadTail(m);
      var count := low / 8 % 64;
      ghost var was := input[..];
      Copy(input, count, [0x80]);
      ghost var marked := input[..];
      AfterMark(marked, was, m);
      count := 63 - count;
      if count < 8 {
        Clear(input, 64 - count, count);
        ExtraThere(input[..], marked, m);
        Absorb(all, h);
        ghost var extra := input[..];
        Clear(input, 0, 56);
        BlankThere(input[..], extra, m);
      } else {
        Clear(input, 64 - count, count - 8);
        LastThere(input[..], marked, m);
      }
      FinalBlock(all, h + e, LastHead(m));
      assert all[..h + e + 64] == all;
      DigestIs(m);
      digest := DigestBytes(RegsOf(buf[..]));
      Wipe();
    }

    /** The length, and the last MD5Transform(). */
    method FinalBlock(ghost all: seq<byte>, ghost at: nat, ghost head: seq<byte>)
      requires buf.Length == 4 && input.Length == 64 && |head| == 56 && input[..56] == head
      requires at % 64 == 0 && at + 64 <= |all| && all[at..at + 64] == head
        + (LittleEndian(low, 4) + LittleEndian(high, 4))
      requires RegsOf(buf[..]) == Full(all[..at])
      modifies buf, input
      ensures RegsOf(buf[..]) == Full(all[..at + 64])
    {
      hide *;
      Copy(input, 56, LittleEndian(low, 4));
      assert input[..60] == head + LittleEndian(low, 4);
      Copy(input, 60, LittleEndian(high, 4));
      assert input[..] == (head + LittleEndian(low, 4)) + LittleEndian(high, 4);
      Absorb(all, at);
    }

    /** `memset(ctx, 0, sizeof(*ctx))` */
    method Wipe()
      requires buf.Length == 4 && input.Length == 64
      modifies this`low, this`high, buf, input
    {
      low, high := 0, 0;
      Clear(input, 0, 64);
      buf[0], buf[1], buf[2], buf[3] := 0, 0, 0, 0;
    }

    lemma ValidParts()
      requires Valid()
      ensures buf.Length == 4 && input.Length == 64 && Counts(low, high, |msg|) && Held(RegsOf(buf[..]), input[..], msg)
    {
    }

    lemma ValidIs()
      requires buf.Length == 4 && input.Length == 64 && Counts(low, high, |msg|)
        && Held(RegsOf(buf[..]), input[..], msg)
      ensures Valid()
    {
    }
  }

  /** One more full block. */
  lemma NextBlock(all: seq<byte>, at: nat)
    requires at % 64 == 0 && at + 64 <= |all|
    ensures Full(all[..at + 64]) == Compress(Full(all[..at]), Words(all[at..at + 64]))
  {
    assert all[..at + 64] == all[..at] + all[at..at + 64];
    FullNext(all[..at], all[at..at + 64]);
  }

  lemma FirstBlock(msg: seq<byte>, data: seq<byte>, input: seq<byte>)
    requires var t := |msg| % 64; |input| == 64 && input[..|Tail(msg)|] == Tail(msg) && |data| >= 64 - t
    ensures var t, all := |msg| % 64, msg + data; var at := |msg| - t;
      at % 64 == 0 && at + 64 <= |all| && all[..at] == Head(msg) && all[at..at + 64] == input[..t] + data[..64 - t]
  {
  }

  lemma DataBlock(all: seq<byte>, n: nat, data: seq<byte>, pos: nat, input: seq<byte>)
    requires n <= |all| && all[n..] == data && pos + 64 <= |data| && |input| == 64
    ensures n + pos + 64 <= |all| && all[n + pos..n + pos + 64] == input[..0] + data[pos..pos + 64]
  {
    assert all[n..][pos..pos + 64] == data[pos..pos + 64];
  }

  lemma RestCopied(now: seq<byte>, was: seq<byte>, rest: seq<byte>)
    requires |rest| <= |was| && now == was[..0] + rest + was[0 + |rest|..]
    ensures now[..|rest|] == rest
  {
  }

  lemma HeldParts(r: Regs, input: seq<byte>, msg: seq<byte>)
    requires Held(r, input, msg)
    ensures |input| == 64 && r == Full(Head(msg)) && input[..|Tail(msg)|] == Tail(msg)
  {
    hide Full;
  }

  lemma AtOffset(msg: seq<byte>, data: seq<byte>, t: nat)
    requires t == |msg| % 64
    ensures (msg + data)[|msg|..] == data
    ensures t == 0 ==> (msg + data)[..|msg| + 0] == Head(msg)
    ensures (|msg| + (64 - t)) % 64 == 0 && |msg| - t + 64 == |msg| + (64 - t)
  {
  }

  lemma HeldMore(r: Regs, now: seq<byte>, was: seq<byte>, msg: seq<byte>, data: seq<byte>)
    requires Held(r, was, msg) && |msg| % 64 + |data| < 64
    requires var t := |msg| % 64; now == was[..t] + data + was[t + |data|..]
    ensures Held(r, now, msg + data)
  {
    hide Full;
    var t, all := |msg| % 64, msg + data;
    assert |all| % 64 == t + |data|;
    assert all[..|all| - (t + |data|)] == msg[..|msg| - t];
    assert all[|all| - (t + |data|)..] == msg[|msg| - t..] + data;
  }

  lemma HeldRest(r: Regs, input: seq<byte>, all: seq<byte>, at: nat, rest: seq<byte>)
    requires |input| == 64 && at <= |all| && at % 64 == 0 && |rest| < 64 && all[at..] == rest && input[..|rest|] == rest
    requires r == Full(all[..at])
    ensures Held(r, input, all)
  {
    hide Full;
    assert |all| % 64 == |rest| && |all| - |rest| == at;
  }

  /** The registers stand for the full blocks of `msg`, the input block holds the rest. */
  ghost predicate Held(r: Regs, input: seq<byte>, msg: seq<byte>) {
    |input| == 64 && r == Full(Head(msg)) && input[..|Tail(msg)|] == Tail(msg)
  }

  /** The full blocks of a message, and the rest. */
  function Head(m: seq<byte>): seq<byte> { m[..|m| - |m| % 64] }
  function Tail(m: seq<byte>): (r: seq<byte>)
    ensures |r| == |m| % 64
  {
    m[|m| - |m| % 64..]
  }

  /** The bit count with its carry trick: 32-bit additions that keep 8 n modulo 2^64. */
  method CountBits(low0: nat, high0: nat, len: nat, ghost n: nat) returns (low: nat, high: nat)
    requires Counts(low0, high0, n) && len < TWO32
    ensures Counts(low, high, n + len)
  {
    low, high := (low0 + len * 8 % TWO32) % TWO32, high0;
    if low < low0 {
      high := (high + 1) % TWO32;
    }
    high := (high + len / TWO29) % TWO32;
    CarryTrick(low0, high0, len, n);
  }

  lemma CarryTrick(low0: nat, high0: nat, len: nat, n: nat)
    requires Counts(low0, high0, n) && len < TWO32
    ensures var low := (low0 + len * 8 % TWO32) % TWO32;
      Counts(low, ((high0 + if low < low0 then 1 else 0) % TWO32 + len / TWO29) % TWO32, n + len)
  {
    var x, q := len * 8 % TWO32, len / TWO29;
    EightTimes(len);
    var low, carry := Carry(low0, x);
    Carried(low0, high0, len, n, x, q, low, carry);
  }

  lemma EightTimes(len: nat)
    ensures 8 * len == len * 8 % TWO32 + len / TWO29 * TWO32
  {
  }

  lemma Carry(low0: nat, x: nat) returns (low: nat, carry: nat)
    requires low0 < TWO32 && x < TWO32
    ensures low == (low0 + x) % TWO32 && carry == (if low < low0 then 1 else 0) && low0 + x == low + carry * TWO32
  {
    low := if low0 + x < TWO32 then low0 + x else low0 + x - TWO32;
    carry := if low < low0 then 1 else 0;
  }

  lemma Carried(low0: nat, high0: nat, len: nat, n: nat, x: nat, q: nat, low: nat, carry: nat)
    requires Counts(low0, high0, n) && 8 * len == x + q * TWO32 && low0 + x == low + carry * TWO32 && low < TWO32
    ensures Counts(low, ((high0 + carry) % TWO32 + q) % TWO32, n + len)
  {
    ModSum32(high0 + carry, q);
    ModHigh(low, high0 + carry + q);
    ModSum64(8 * n, 8 * len);
    assert low0 + high0 * TWO32 + 8 * len == low + (high0 + carry + q) * TWO32;
  }

  lemma ModSum32(a: nat, b: nat)
    ensures (a % TWO32 + b) % TWO32 == (a + b) % TWO32
  {
  }

  lemma ModSum64(a: nat, b: nat)
    ensures (a % TWO64 + b) % TWO64 == (a + b) % TWO64
  {
  }

  lemma ModHigh(low: nat, high: nat)
    requires low < TWO32
    ensures (low + high * TWO32) % TWO64 == low + high % TWO32 * TWO32
  {
  }

  lemma Offset(low: nat, high: nat, n: nat)
    requires Counts(low, high, n)
    ensures low / 8 % 64 == n % 64
  {
    var x := high + 8 * n / TWO64 * TWO32;
    assert 8 * n == low + x * TWO32;
    assert low == 8 * (n - x * TWO29);
    Mod64(n - x * TWO29, x * 0x80_0000);
  }

  lemma Mod64(a: int, b: int)
    ensures (a + 64 * b) % 64 == a % 64
  {
  }

  /** The two words, low one first, are the 8 bytes of the bit count. */
  lemma LengthBytes(low: nat, high: nat, n: nat)
    requires Counts(low, high, n)
    ensures LengthField(n) == LittleEndian(low, 4) + LittleEndian(high, 4)
  {
    assert 8 * n % TWO64 == low + high * Byte4(4);
    LittleEndianParts(low, high, 4);
  }

  /** 256^k, for k up to 4 */
  function Byte4(k: nat): nat {
    if k == 0 then 1 else if k == 1 then 0x100 else if k == 2 then 0x1_0000 else if k == 3 then 0x100_0000 else TWO32
  }

  lemma {:induction false} LittleEndianParts(low: nat, high: nat, k: nat)
    requires k <= 4 && low < Byte4(k)
    ensures LittleEndian(low + high * Byte4(k), k + 4) == LittleEndian(low, k) + LittleEndian(high, 4)
  {
    hide *;
    ByteNone();
    if k == 0 {
      LittleEndianNone(low);
    } else {
      ByteOff(low, high, k);
      LittleEndianParts(low / 0x100, high, k - 1);
      LittleEndianStep(low + high * Byte4(k), k + 3);
      LittleEndianStep(low, k - 1);
    }
  }

  lemma ByteNone()
    ensures Byte4(0) == 1
  {
  }

  lemma LittleEndianNone(n: nat)
    ensures LittleEndian(n, 0) == []
  {
  }

  lemma LittleEndianStep(n: nat, k: nat)
    ensures LittleEndian(n, k + 1) == [(n % 0x100) as byte] + LittleEndian(n / 0x100, k)
  {
  }

  lemma ByteOff(low: nat, high: nat, k: nat)
    requires 0 < k <= 4 && low < Byte4(k)
    ensures low / 0x100 < Byte4(k - 1)
    ensures var n := low + high * Byte4(k); n % 0x100 == low % 0x100 && n / 0x100 == low / 0x100 + high * Byte4(k - 1)
  {
    if k == 1 {
      Split256(low, high);
    } else if k == 2 {
      Split256(low, high * 0x100);
    } else if k == 3 {
      Split256(low, high * 0x1_0000);
    } else {
      Split256(low, high * 0x100_0000);
    }
  }

  lemma Split256(low: nat, q: nat)
    ensures (low + 0x100 * q) % 0x100 == low % 0x100 && (low + 0x100 * q) / 0x100 == low / 0x100 + q
  {
  }

  /** What the block before the length holds when the message leaves no room for the length in its last block. */
  function ExtraBlock(m: seq<byte>): seq<byte> {
    if |Tail(m)| < 56 then [] else Tail(m) + [0x80] + Blank(63 - |Tail(m)|)
  }

  /** The last block up to the length. */
  function LastHead(m: seq<byte>): (r: seq<byte>)
    ensures |r| == 56
  {
    if |Tail(m)| < 56 then Tail(m) + [0x80] + Blank(55 - |Tail(m)|) else Blank(56)
  }

  lemma Blanks(a: nat, b: nat)
    ensures Blank(a) + Blank(b) == Blank(a + b)
  {
  }

  lemma HeadTail(m: seq<byte>)
    ensures m == Head(m) + Tail(m) && |Head(m)| % 64 == 0 && |Tail(m)| == |m| % 64
  {
  }

  /** The padded message is its full blocks, perhaps one more block, and the last one. */
  lemma PaddedParts(m: seq<byte>)
    ensures Padded(m) == Head(m) + ExtraBlock(m) + (LastHead(m) + LengthField(|m|))
  {
    hide *;
    var t, h, len, z := Tail(m), Head(m), LengthField(|m|), Zeros(|m|);
    HeadTail(m);
    ZerosAre(m);
    PaddedIs(m, z, len);
    LastHeadIs(m);
    if |t| < 56 {
      RegroupOne(h, t, Blank(55 - |t|), len);
    } else {
      Blanks(63 - |t|, 56);
      Regroup(h, t, Blank(63 - |t|), Blank(56), len);
    }
  }

  lemma ZerosAre(m: seq<byte>)
    ensures Zeros(|m|) == if |Tail(m)| < 56 then 55 - |Tail(m)| else (63 - |Tail(m)|) + 56
  {
    hide Tail;
  }

  lemma PaddedIs(m: seq<byte>, z: nat, len: seq<byte>)
    requires z == Zeros(|m|) && len == LengthField(|m|)
    ensures Padded(m) == m + ([0x80] + Blank(z) + len)
  {
    hide LengthField, Blank;
  }

  lemma LastHeadIs(m: seq<byte>)
    ensures |Tail(m)| < 56 ==> LastHead(m) == Tail(m) + [0x80] + Blank(55 - |Tail(m)|) && ExtraBlock(m) == []
    ensures |Tail(m)| >= 56 ==> LastHead(m) == Blank(56) && ExtraBlock(m) == Tail(m) + [0x80] + Blank(63 - |Tail(m)|)
  {
    hide Tail, Blank;
  }

  lemma RegroupOne(h: seq<byte>, t: seq<byte>, a: seq<byte>, c: seq<byte>)
    ensures (h + t) + ([0x80] + a + c) == h + [] + ((t + [0x80] + a) + c)
  {
  }

  lemma Regroup(h: seq<byte>, t: seq<byte>, a: seq<byte>, b: seq<byte>, c: seq<byte>)
    ensures (h + t) + ([0x80] + (a + b) + c) == h + (t + [0x80] + a) + (b + c)
  {
  }

  /** The mark behind the message. */
  lemma AfterMark(now: seq<byte>, was: seq<byte>, m: seq<byte>)
    requires |was| == 64 && was[..|Tail(m)|] == Tail(m) && now == was[..|Tail(m)|] + [0x80] + was[|Tail(m)| + 1..]
    ensures |now| == 64 && now[..|Tail(m)| + 1] == Tail(m) + [0x80]
  {
  }

  /** No room for the length: the first of two blocks. */
  lemma ExtraThere(now: seq<byte>, was: seq<byte>, m: seq<byte>)
    requires var t := |Tail(m)|;
      |was| == 64 && t >= 56 && was[..t + 1] == Tail(m) + [0x80] && now == was[..t + 1] + Blank(63 - t) + was[64..]
    ensures now == ExtraBlock(m)
  {
    hide Tail;
  }

  lemma LastThere(now: seq<byte>, was: seq<byte>, m: seq<byte>)
    requires var t := |Tail(m)|;
      |was| == 64 && t < 56 && was[..t + 1] == Tail(m) + [0x80] && now == was[..t + 1] + Blank(55 - t) + was[56..]
    ensures |now| == 64 && now[..56] == LastHead(m)
  {
    hide Tail;
    var t := |Tail(m)|;
    assert |was[..t + 1] + Blank(55 - t)| == 56;
  }

  lemma BlankThere(now: seq<byte>, was: seq<byte>, m: seq<byte>)
    requires |was| == 64 && |Tail(m)| >= 56 && now == was[..0] + Blank(56) + was[56..]
    ensures |now| == 64 && now[..56] == LastHead(m)
  {
    hide Tail;
  }

  /** Where the blocks of the padding are. */
  lemma PaddedBlocks(m: seq<byte>, low: nat, high: nat)
    requires Counts(low, high, |m|)
    ensures var p, h, e := Padded(m), |Head(m)|, |ExtraBlock(m)|;
      && h % 64 == 0 && |p| == h + e + 64 && p[..h] == Head(m)
      && (e == if |Tail(m)| < 56 then 0 else 64)
      && p[h..h + e] == ExtraBlock(m)
      && p[h + e..h + e + 64] == LastHead(m) + (LittleEndian(low, 4) + LittleEndian(high, 4))
  {
    hide LengthField, Head, Tail, Padded, Blank;
    PaddedParts(m);
    LengthBytes(low, high, |m|);
    HeadTail(m);
  }

  // ---------- independence of the chunking ----------

  function Concat(chunks: seq<seq<byte>>): seq<byte> {
    if chunks == [] then [] else Concat(chunks[..|chunks| - 1]) + chunks[|chunks| - 1]
  }

  /** However a message is cut into MD5Update() calls, MD5Final() yields its one-shot digest. */
  method DigestOf(chunks: seq<seq<byte>>) returns (digest: seq<byte>)
    requires forall i :: 0 <= i < |chunks| ==> |chunks[i]| < TWO32
    ensures digest == Digest(Concat(chunks))
  {
    var c := new Context();
    for i := 0 to |chunks|
      invariant c.Valid() && c.msg == Concat(chunks[..i]) && fresh(c) && fresh(c.buf) && fresh(c.input)
    {
      hide *;
      ConcatNext(chunks, i);
      c.Update(chunks[i]);
    }
    assert chunks[..|chunks|] == chunks;
    digest := c.Final();
  }

  lemma ConcatNext(chunks: seq<seq<byte>>, i: nat)
    requires i < |chunks|
    ensures Concat(chunks[..i + 1]) == Concat(chunks[..i]) + chunks[i]
  {
    assert chunks[..i + 1][..i] == chunks[..i];
  }
}
