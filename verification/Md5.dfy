/** Streaming MD5 (RFC 1321), on which cache keys are built. */
module Md5 {
  import opened Bytes
  import opened Sequences

  const TWO_32: nat := 0x1_0000_0000
  const TWO_64: nat := 0x1_0000_0000_0000_0000

  // ---------- The block transform ----------

  datatype State = State(a: bv32, b: bv32, c: bv32, d: bv32)

  const INITIAL := State(0x67452301, 0xefcdab89, 0x98badcfe, 0x10325476)

  /** The word used in a step: each round visits the sixteen words in its own order. */
  function WordIndex(i: nat): (k: nat)
    ensures k < 16
  {
    if i / 16 == 0 then i % 16
    else if i / 16 == 1 then (5 * i + 1) % 16
    else if i / 16 == 2 then (3 * i + 5) % 16
    else 7 * i % 16
  }

  const ROTATIONS: seq<seq<bv32>> := [[7, 12, 17, 22], [5, 9, 14, 20], [4, 11, 16, 23], [6, 10, 15, 21]]

  /** The additive constant of a step, round by round. */
  function Constant(i: nat): bv32
    requires i < 64
  {
    var j := i % 16;
    if i / 16 == 0 then Constant1(j) else if i / 16 == 1 then Constant2(j) else if i / 16 == 2 then Constant3(j) else Constant4(j)
  }

  function Constant1(j: nat): bv32
    requires j < 16
  {
    match j
    case 0 => 0xd76aa478 case 1 => 0xe8c7b756 case 2 => 0x242070db case 3 => 0xc1bdceee
    case 4 => 0xf57c0faf case 5 => 0x4787c62a case 6 => 0xa8304613 case 7 => 0xfd469501
    case 8 => 0x698098d8 case 9 => 0x8b44f7af case 10 => 0xffff5bb1 case 11 => 0x895cd7be
    case 12 => 0x6b901122 case 13 => 0xfd987193 case 14 => 0xa679438e case _ => 0x49b40821
  }

  function Constant2(j: nat): bv32
    requires j < 16
  {
    match j
    case 0 => 0xf61e2562 case 1 => 0xc040b340 case 2 => 0x265e5a51 case 3 => 0xe9b6c7aa
    case 4 => 0xd62f105d case 5 => 0x02441453 case 6 => 0xd8a1e681 case 7 => 0xe7d3fbc8
    case 8 => 0x21e1cde6 case 9 => 0xc33707d6 case 10 => 0xf4d50d87 case 11 => 0x455a14ed
    case 12 => 0xa9e3e905 case 13 => 0xfcefa3f8 case 14 => 0x676f02d9 case _ => 0x8d2a4c8a
  }

  function Constant3(j: nat): bv32
    requires j < 16
  {
    match j
    case 0 => 0xfffa3942 case 1 => 0x8771f681 case 2 => 0x6d9d6122 case 3 => 0xfde5380c
    case 4 => 0xa4beea44 case 5 => 0x4bdecfa9 case 6 => 0xf6bb4b60 case 7 => 0xbebfbc70
    case 8 => 0x289b7ec6 case 9 => 0xeaa127fa case 10 => 0xd4ef3085 case 11 => 0x04881d05
    case 12 => 0xd9d4d039 case 13 => 0xe6db99e5 case 14 => 0x1fa27cf8 case _ => 0xc4ac5665
  }

  function Constant4(j: nat): bv32
    requires j < 16
  {
    match j
    case 0 => 0xf4292244 case 1 => 0x432aff97 case 2 => 0xab9423a7 case 3 => 0xfc93a039
    case 4 => 0x655b59c3 case 5 => 0x8f0ccc92 case 6 => 0xffeff47d case 7 => 0x85845dd1
    case 8 => 0x6fa87e4f case 9 => 0xfe2ce6e0 case 10 => 0xa3014314 case 11 => 0x4e0811a1
    case 12 => 0xf7537e82 case 13 => 0xbd3af235 case 14 => 0x2ad7d2bb case _ => 0xeb86d391
  }

  function Mix(round: nat, x: bv32, y: bv32, z: bv32): bv32 {
    if round == 0 then (x & y) | (!x & z)
    else if round == 1 then (x & z) | (y & !z)
    else if round == 2 then x ^ y ^ z
    else y ^ (x | !z)
  }

  function RotateLeft(x: bv32, n: bv32): bv32
    requires 0 < n < 32
  {
    (x << n) | (x >> (32 - n))
  }

  function Word(block: seq<Byte>, i: nat): bv32
    requires |block| == 64 && i < 16
  {
    var b0: int, b1: int, b2: int, b3: int := block[4 * i], block[4 * i + 1], block[4 * i + 2], block[4 * i + 3];
    (b0 + 0x100 * b1 + 0x1_0000 * b2 + 0x100_0000 * b3) as bv32
  }

  /** Each round turns by four amounts in turn. */
  function Rotation(i: nat): (n: bv32)
    requires i < 64
    ensures 0 < n < 32
  {
    var amounts := ROTATIONS[i / 16];
    amounts[i % 4]
  }

  /** One step with the word `w`; the four registers change roles after it. */
  function Turn(r: State, w: bv32, i: nat): State
    requires i < 64
  {
    State(r.d, r.b + RotateLeft(r.a + Mix(i / 16, r.b, r.c, r.d) + w + Constant(i), Rotation(i)), r.b, r.c)
  }

  function Step(r: State, block: seq<Byte>, i: nat): State
    requires |block| == 64 && i < 64
  {
    Turn(r, Word(block, WordIndex(i)), i)
  }

  function Steps(r: State, block: seq<Byte>, n: nat): State
    requires |block| == 64 && n <= 64
  {
    if n == 0 then r else Step(Steps(r, block, n - 1), block, n - 1)
  }

  function Transform(s: State, block: seq<Byte>): State
    requires |block| == 64
  {
    var r := Steps(s, block, 64);
    State(s.a + r.a, s.b + r.b, s.c + r.c, s.d + r.d)
  }

  // ---------- What a message comes to ----------

  /** The state after all full blocks of a message. */
  function Absorb(s: State, m: seq<Byte>): State
    decreases |m|
  {
    if |m| < 64 then s else Absorb(Transform(s, m[..64]), m[64..])
  }

  function Tail(m: seq<Byte>): seq<Byte> { m[|m| / 64 * 64..] }


  /** Zero bytes between the mark and the length, enough to end on a block boundary. */
  function Gap(n: nat): nat { if n % 64 < 56 then 55 - n % 64 else 119 - n % 64 }

  /** Padding and length of RFC 1321, sections 3.1 and 3.2. */
  function Padded(m: seq<Byte>): seq<Byte> { m + [0x80] + Zeros(Gap(|m|)) + LE(8 * |m| % TWO_64, 8) }

  function DigestOf(s: State): seq<Byte> { LE(s.a as int, 4) + LE(s.b as int, 4) + LE(s.c as int, 4) + LE(s.d as int, 4) }

  function Md5Of(m: seq<Byte>): seq<Byte> { DigestOf(Absorb(INITIAL, Padded(m))) }

  /** A padded message is a whole number of blocks, with no more padding than needed. */
  lemma PaddedIsWholeBlocks(m: seq<Byte>)
    ensures |Padded(m)| % 64 == 0 && |m| + 9 <= |Padded(m)| < |m| + 9 + 64
    ensures Padded(m)[..|m|] == m
  {
    hide LE, Gap;
    GapFits(|m|);
  }

  lemma GapFits(n: nat)
    ensures (n + 9 + Gap(n)) % 64 == 0 && Gap(n) < 64
  {
  }

  lemma {:induction false} AbsorbInPieces(s: State, m: seq<Byte>, t: seq<Byte>)
    ensures Absorb(s, m + t) == Absorb(Absorb(s, m), Tail(m) + t)
    ensures Tail(m + t) == Tail(Tail(m) + t)
    decreases |m|
  {
    hide Transform;
    if |m| < 64 {
      assert Tail(m) == m;
    } else {
      var m', s' := m[64..], Transform(s, m[..64]);
      assert (m + t)[..64] == m[..64] && (m + t)[64..] == m' + t;
      AbsorbInPieces(s', m', t);
      TailDrops(m);
      TailDrops(m + t);
    }
  }

  lemma TailDrops(m: seq<Byte>)
    requires |m| >= 64
    ensures Tail(m) == Tail(m[64..])
  {
    assert |m| / 64 * 64 == 64 + |m[64..]| / 64 * 64;
  }

  lemma TailLength(m: seq<Byte>)
    ensures |Tail(m)| == |m| % 64
  {
  }

  // ---------- Counting bits ----------

  /** Two 32-bit words that hold the number of bits modulo 2^64, the low word first. */
  predicate Counts(low: nat, high: nat, bytes: nat) {
    low < TWO_32 && high < TWO_32 && low + TWO_32 * high == 8 * bytes % TWO_64
  }

  /** What the two words say without the modulus. */
  lemma CountsMean(low: nat, high: nat, bytes: nat) returns (q: nat)
    requires Counts(low, high, bytes)
    ensures low < TWO_32 && high < TWO_32 && 8 * bytes == TWO_64 * q + low + TWO_32 * high
  {
    q := 8 * bytes / TWO_64;
  }

  lemma IndexIs(low: nat, high: nat, bytes: nat)
    requires Counts(low, high, bytes)
    ensures low / 8 % 64 == bytes % 64
  {
    var q := CountsMean(low, high, bytes);
    hide Counts;
    var t := bytes - 0x2000_0000_0000_0000 * q - 0x2000_0000 * high;
    assert low == 8 * t;
    AddBlocks(0x80_0000_0000_0000 * q + 0x80_0000 * high, t);
  }

  lemma AddBlocks(k: nat, t: nat)
    ensures (64 * k + t) % 64 == t % 64
  {
  }

  lemma CountMore(low: nat, high: nat, bytes: nat, len: nat)
    requires Counts(low, high, bytes)
    ensures var more := 8 * len % TWO_32;
      var low' := (low + more) % TWO_32;
      var high' := if low' < more then (high + 1) % TWO_32 else high;
      Counts(low', (high' + len / 0x2000_0000 % TWO_32) % TWO_32, bytes + len)
  {
    hide Counts;
    var q := CountsMean(low, high, bytes);
    var more, hi := 8 * len % TWO_32, len / 0x2000_0000;
    assert 8 * len == more + TWO_32 * hi;
    var carry := Carry(low, more, high);
    SumWraps(high + carry, hi);
    assert hi % TWO_32 == len / 0x2000_0000 % TWO_32;
    WordsCount((low + more) % TWO_32, high + carry + hi, q, bytes + len);
  }

  /** The low word wrapped exactly if the sum came out smaller than what was added. */
  lemma Carry(low: nat, more: nat, high: nat) returns (carry: nat)
    requires low < TWO_32 && more < TWO_32 && high < TWO_32
    ensures var low' := (low + more) % TWO_32;
      && low + more == low' + TWO_32 * carry
      && (high + carry) % TWO_32 == if low' < more then (high + 1) % TWO_32 else high
  {
    carry := if low + more >= TWO_32 then 1 else 0;
  }

  lemma SumWraps(a: nat, b: nat)
    ensures (a % TWO_32 + b % TWO_32) % TWO_32 == (a + b) % TWO_32
  {
    var p, q := a / TWO_32, b / TWO_32;
    assert a + b == TWO_32 * (p + q) + (a % TWO_32 + b % TWO_32);
  }

  lemma WordsCount(low: nat, sum: nat, q: nat, bytes: nat)
    requires low < TWO_32 && 8 * bytes == TWO_64 * q + low + TWO_32 * sum
    ensures Counts(low, sum % TWO_32, bytes)
  {
    var p, r := sum / TWO_32, sum % TWO_32;
    assert 8 * bytes == TWO_64 * (q + p) + (low + TWO_32 * r);
  }

  // ---------- The 32-bit loop counter ----------

  /** The loop in `Update` tests `i + 63 < len` with a 32-bit `i`. */
  predicate Guard(i: int, len: nat) { (i + 63) % TWO_32 < len }

  /** Values of `i` the loop is to pass through: block starts after the first `part` bytes. */
  predicate Visits(part: nat, len: nat, i: int) { part <= i <= len && (i - part) % 64 == 0 }

  /** The wrapped test is right at every block start exactly when the buffered and the new bytes stay below 2^32. */
  lemma GuardIsRight(index: nat, len: nat)
    requires index < 64 && 64 - index <= len < TWO_32
    ensures (forall i :: Visits(64 - index, len, i) ==> (Guard(i, len) <==> i + 64 <= len)) <==> index + len < TWO_32
  {
    var part := 64 - index;
    var last := part + (len - part) / 64 * 64;
    assert Visits(part, len, last) && last + 64 > len;
    if index + len < TWO_32 {
      forall i | Visits(part, len, i) ensures Guard(i, len) <==> i + 64 <= len {
        assert (i + index) % 64 == 0;
        assert i + 63 < TWO_32;
      }
    } else {
      assert (last + index) % 64 == 0 && last + index + 64 > TWO_32;
      assert last + 63 >= TWO_32;
      assert Guard(last, len);
    }
  }

  // ---------- The hasher ----------

  class Hasher {
    var state: State
    var low: nat
    var high: nat
    const buffer: array<Byte>
    ghost var message: seq<Byte>

    /** The hasher is where the message so far leads. */
    ghost predicate Valid()
      reads this, buffer
    {
      && buffer.Length == 64
      && Counts(low, high, |message|)
      && state == Absorb(INITIAL, message)
      && buffer[..|message| % 64] == Tail(message)
    }

    constructor ()
      ensures Valid() && message == [] && fresh(buffer)
    {
      state, low, high, message := INITIAL, 0, 0, [];
      buffer := new Byte[64](i => 0);
    }

    /** Copies bytes into the buffer. */
    method Copy(index: nat, data: seq<Byte>)
      requires index + |data| <= buffer.Length
      modifies buffer
      ensures buffer[..index] == old(buffer[..index]) && buffer[index..index + |data|] == data
    {
      forall j | 0 <= j < |data| { buffer[index + j] := data[j]; }
    }

    /** Adds to the number of bits. */
    method Count(len: nat)
      requires Counts(low, high, |message|)
      modifies `low, `high
      ensures Counts(low, high, |message| + len)
    {
      hide Counts;
      CountMore(low, high, |message|, len);
      var more := 8 * len % TWO_32;
      low := (low + more) % TWO_32;
      if low < more { high := (high + 1) % TWO_32; }
      high := (high + len / 0x2000_0000 % TWO_32) % TWO_32;
    }

    /** Transforms the buffer, filled up from `data`, and then the full blocks of `data`; returns where it stopped. */
    method Blocks(index: nat, data: seq<Byte>) returns (i: nat)
      requires buffer.Length == 64 && index < 64 <= index + |data| < TWO_32
      modifies `state, buffer
      ensures i <= |data| < i + 64
      ensures var all := old(buffer[..index]) + data; state == Absorb(old(state), all) && data[i..] == Tail(all)
    {
      hide Transform, Absorb, Tail;
      var len, part := |data|, 64 - index;
      ghost var start, all := state, buffer[..index] + data;
      Copy(index, data[..part]);
      assert buffer[..] == buffer[..index] + buffer[index..64];
      assert buffer[..] == all[..64] && all[64..] == data[part..];
      FirstBlock(state, all);
      state := Transform(state, buffer[..]);
      i := part;
      while (i + 63) % TWO_32 < len
        invariant Visits(part, len, i)
        invariant Absorb(start, all) == Absorb(state, data[i..]) && Tail(all) == Tail(data[i..])
        decreases len - i
      {
        GuardFits(index, len, i);
        FirstBlock(state, data[i..]);
        assert data[i..][..64] == data[i..i + 64] && data[i..][64..] == data[i + 64..];
        state := Transform(state, data[i..i + 64]);
        i := (i + 64) % TWO_32;
      }
      GuardFits(index, len, i);
      ShortRest(state, data[i..]);
    }

    /** Hashes more bytes; buffered and new bytes together must stay below 2^32. */
    method Update(data: seq<Byte>)
      requires Valid() && |message| % 64 + |data| < TWO_32
      modifies this, buffer
      ensures Valid() && message == old(message) + data
    {
      hide Transform, Absorb, Tail, Counts;
      IndexIs(low, high, |message|);
      TailLength(message);
      var index := low / 8 % 64;
      Count(|data|);
      ghost var all := Tail(message) + data;
      AbsorbInPieces(INITIAL, message, data);
      if |data| >= 64 - index {
        var i := Blocks(index, data);
        Copy(0, data[i..]);
        assert buffer[..|data| - i] == buffer[0..0 + |data[i..]|];
      } else {
        ShortRest(state, all);
        Copy(index, data);
        assert buffer[..index + |data|] == buffer[..index] + buffer[index..index + |data|];
      }
      message := message + data;
      TailLength(message);
    }

    /** Pads the message, appends its length and writes the digest. */
    method Finalize() returns (digest: seq<Byte>)
      requires Valid()
      modifies this, buffer
      ensures digest == Md5Of(old(message)) && |digest| == 16
    {
      hide Transform, Absorb, Tail, LE;
      ghost var m := message;
      CountBytes(low, high, |message|);
      var bits := LE(low, 4) + LE(high, 4);
      IndexIs(low, high, |message|);
      var index := low / 8 % 64;
      var padLength := if index < 56 then 56 - index else 120 - index;
      var padding := [0x80] + Zeros(padLength - 1);
      Update(padding);
      Update(bits);
      assert message == Padded(m);
      PaddedIsWholeBlocks(m);
      digest := DigestOf(state);
    }
  }

  lemma CountBytes(low: nat, high: nat, bytes: nat)
    requires Counts(low, high, bytes)
    ensures LE(low, 4) + LE(high, 4) == LE(8 * bytes % TWO_64, 8)
  {
    hide LE;
    var b, c, d := low / 256, low / 256 / 256, low / 256 / 256 / 256;
    assert d / 256 == 0;
    LowBytes(low);
    FirstByte(low, high, 0x100_0000, 7);
    FirstByte(b, high, 0x1_0000, 6);
    FirstByte(c, high, 0x100, 5);
    FirstByte(d, high, 1, 4);
    var r := LE(high, 4);
    assert [low % 256] + ([b % 256] + ([c % 256] + ([d % 256] + r))) == [low % 256, b % 256, c % 256, d % 256] + r;
  }

  lemma LowBytes(x: nat)
    ensures LE(x, 4) == [x % 256, x / 256 % 256, x / 256 / 256 % 256, x / 256 / 256 / 256 % 256]
  {
    assert LE(x / 256 / 256, 2) == [x / 256 / 256 % 256] + LE(x / 256 / 256 / 256, 1);
  }

  lemma FirstByte(x: nat, y: nat, p: nat, n: nat)
    requires p == 1 || p == 0x100 || p == 0x1_0000 || p == 0x100_0000
    ensures LE(x + 256 * p * y, n + 1) == [x % 256] + LE(x / 256 + p * y, n)
  {
    assert (x + 256 * p * y) % 256 == x % 256 && (x + 256 * p * y) / 256 == x / 256 + p * y;
  }

  /** Hashing in one go. */
  method Hash(input: seq<Byte>) returns (digest: seq<Byte>)
    requires |input| < TWO_32
    ensures digest == Md5Of(input)
  {
    var h := new Hasher();
    h.Update(input);
    assert [] + input == input;
    digest := h.Finalize();
  }

  /** However a message is cut into chunks, its digest is the same. */
  method HashChunks(chunks: seq<seq<Byte>>) returns (digest: seq<Byte>)
    requires forall i :: 0 <= i < |chunks| ==> |chunks[i]| < TWO_32 - 63
    ensures digest == Md5Of(Joined(chunks))
  {
    hide Md5Of, Absorb, Tail, Counts;
    var h := new Hasher();
    var i := 0;
    while i < |chunks|
      invariant 0 <= i <= |chunks| && h.Valid() && h.message == Joined(chunks[..i]) && fresh(h) && fresh(h.buffer)
    {
      h.Update(chunks[i]);
      assert chunks[..i + 1][..i] == chunks[..i];
      i := i + 1;
    }
    assert chunks[..i] == chunks;
    digest := h.Finalize();
  }

  lemma FirstBlock(s: State, m: seq<Byte>)
    requires |m| >= 64
    ensures Absorb(s, m) == Absorb(Transform(s, m[..64]), m[64..]) && Tail(m) == Tail(m[64..])
  {
    hide Transform;
    TailDrops(m);
  }

  lemma ShortRest(s: State, m: seq<Byte>)
    requires |m| < 64
    ensures Absorb(s, m) == s && Tail(m) == m
  {
  }

  lemma GuardFits(index: nat, len: nat, i: int)
    requires index < 64 && index + len < TWO_32 && Visits(64 - index, len, i)
    ensures Guard(i, len) <==> i + 64 <= len
    ensures i + 64 <= len ==> i + 64 < TWO_32
  {
    GuardIsRight(index, len);
  }
}
